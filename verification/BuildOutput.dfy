/**
 Build output from the command to the screen: two streams are read, their pieces
 interleave in one log, and the log's chunks are reassembled into lines.
 */
module BuildOutput {
  import opened Outcomes
  import opened Sequences
  import opened Api
  import opened Utf8
  import opened Sorting
  import opened OutputStream
  import opened BuildLogs
  import opened LogLines
  import opened Encoding

  /** One append to the log. */
  datatype Entry = Entry(stream: Stream, timestamp: int, piece: seq<Byte>)

  /** The pieces of one stream, however they interleave with the other's. */
  function PiecesOf(entries: seq<Entry>, stream: Stream): seq<seq<Byte>> {
    if entries == [] then []
    else
      var last := entries[|entries| - 1];
      PiecesOf(entries[..|entries| - 1], stream) + if last.stream == stream then [last.piece] else []
  }

  /** The log after all appends, unless one fails. */
  function Stored(entries: seq<Entry>, cap: nat): Option<Log> {
    if entries == [] then Some(EMPTY)
    else
      var last := entries[|entries| - 1];
      match Stored(entries[..|entries| - 1], cap)
      case None => None
      case Some(log) => Appended(log, cap, last.piece, last.stream, last.timestamp)
  }

  function DataOf(rows: seq<Row>, stream: Stream): seq<seq<Byte>> {
    if rows == [] then []
    else (if rows[0].stream == stream then [rows[0].data] else []) + DataOf(rows[1..], stream)
  }

  // ----- The stored output

  lemma DataOfFirst(row: Row, rest: seq<Row>, stream: Stream)
    ensures DataOf([row] + rest, stream) == (if row.stream == stream then [row.data] else []) + DataOf(rest, stream)
  {
    assert ([row] + rest)[1..] == rest;
  }

  lemma DataOfNothing(stream: Stream)
    ensures DataOf([], stream) == []
  {
  }

  lemma {:induction false} DataOfConcat(a: seq<Row>, b: seq<Row>, stream: Stream)
    ensures DataOf(a + b, stream) == DataOf(a, stream) + DataOf(b, stream)
  {
    hide DataOf;
    if a == [] {
      assert a + b == b;
      assert DataOf(a, stream) == [] by { DataOfNothing(stream); }
    } else {
      var row, rest := a[0], a[1..];
      DataOfConcat(rest, b, stream);
      FirstOfConcat(a, b);
      DataOfFirst(row, rest + b, stream);
      DataOfFirst(row, rest, stream);
      ConcatAssociates(if row.stream == stream then [row.data] else [], DataOf(rest, stream), DataOf(b, stream));
    }
  }

  lemma {:induction false} DataOfLaidOut(offset: nat, of: Stream, timestamp: int, chunks: seq<seq<Byte>>, stream: Stream)
    ensures DataOf(LaidOut(offset, of, timestamp, chunks), stream) == if of == stream then chunks else []
    decreases |chunks|
  {
    hide DataOf;
    if chunks == [] {
      DataOfNothing(stream);
    } else {
      var rest := LaidOut(offset + |chunks[0]|, of, timestamp, chunks[1..]);
      DataOfLaidOut(offset + |chunks[0]|, of, timestamp, chunks[1..], stream);
      DataOfFirst(Row(offset, of, timestamp, chunks[0]), rest, stream);
    }
  }

  lemma {:induction false} LaidOutContinues(
    rows: seq<Row>, offset: nat, stream: Stream, timestamp: int, chunks: seq<seq<Byte>>)
    requires Contiguous(rows, offset) && forall chunk <- chunks :: chunk != []
    ensures Contiguous(rows + LaidOut(offset, stream, timestamp, chunks), offset + |Concat(chunks)|)
    decreases |chunks|
  {
    hide Contiguous, Concat, LaidOut, LossyEach, Lossy;
    NothingStored(offset, stream, timestamp);
    if chunks == [] {
      assert rows + [] == rows;
    } else {
      var front, last := chunks[..|chunks| - 1], chunks[|chunks| - 1];
      var row := Row(offset + |Concat(front)|, stream, timestamp, last);
      assert chunks == front + [last];
      assert last in chunks && forall chunk <- front :: chunk in chunks;
      LaidOutContinues(rows, offset, stream, timestamp, front);
      LaidOutAppend(offset, stream, timestamp, front, last);
      ConcatAppend(front, last);
      ContiguousAppend(rows + LaidOut(offset, stream, timestamp, front), row);
      ConcatAssociates(rows, LaidOut(offset, stream, timestamp, front), [row]);
    }
  }

  lemma RecordedBefore(inputs: seq<Read>, pieces: seq<seq<Byte>>, piece: seq<Byte>)
    requires Recorded(inputs, pieces + [piece])
    ensures Recorded(inputs, pieces) && |pieces| <= |inputs|
    ensures Settled(Concat(pieces))
  {
    hide Concat, Boundary, Settled;
    var all := pieces + [piece];
    forall k | 0 <= k <= |inputs| && k <= |pieces| ensures Concat(pieces[..k]) == Flushed(Concat(inputs[..k])) {
      assert all[..k] == pieces[..k];
    }
    assert all[..|pieces|] == pieces;
    SettledSoFar(inputs, all, |pieces|);
  }

  /** What holds of one stream in the log: its rows carry its pieces, up to where
      the log was truncated, and read like them decoded at once. */
  ghost predicate Carries(log: Log, pieces: seq<seq<Byte>>, stream: Stream) {
    var text := Concat(DataOf(log.rows, stream));
    && text <= Concat(pieces)
    && (!log.truncated ==> text == Concat(pieces))
    && LossyEach(DataOf(log.rows, stream)) == Lossy(text)
  }

  lemma AppendedData(log: Log, cap: nat, piece: seq<Byte>, of: Stream, timestamp: int, stream: Stream)
    requires Appended(log, cap, piece, of, timestamp).Some? && !log.truncated
    ensures var chunks := ChunkTexts(piece[..Kept(log.bytes, cap, piece)]);
      && chunks.Some?
      && DataOf(Appended(log, cap, piece, of, timestamp).value.rows, stream)
           == DataOf(log.rows, stream) + if of == stream then chunks.value else []
  {
    hide Boundary, ChunkTexts, LaidOut, DataOf;
    var chunks := ChunkTexts(piece[..Kept(log.bytes, cap, piece)]).value;
    DataOfLaidOut(log.bytes, of, timestamp, chunks, stream);
    DataOfConcat(log.rows, LaidOut(log.bytes, of, timestamp, chunks), stream);
  }

  lemma AppendCarries(log: Log, cap: nat, pieces: seq<seq<Byte>>, piece: seq<Byte>, stream: Stream, timestamp: int)
    requires Appended(log, cap, piece, stream, timestamp).Some?
    requires Carries(log, pieces, stream) && Settled(Concat(pieces))
    ensures Carries(Appended(log, cap, piece, stream, timestamp).value, pieces + [piece], stream)
  {
    hide Lossy, Boundary, Settled, ChunkTexts, LaidOut, DataOf, Concat, LossyEach;
    ConcatAppend(pieces, piece);
    if !log.truncated {
      var kept := piece[..Kept(log.bytes, cap, piece)];
      AppendedData(log, cap, piece, stream, timestamp, stream);
      ChunksCarryText(kept);
      ConcatConcat(DataOf(log.rows, stream), ChunkTexts(kept).value);
      AfterSettled(Concat(pieces), kept);
    }
  }

  lemma OtherStreamCarries(
    log: Log, cap: nat, pieces: seq<seq<Byte>>, piece: seq<Byte>, of: Stream, timestamp: int, stream: Stream)
    requires Appended(log, cap, piece, of, timestamp).Some? && of != stream
    requires Carries(log, pieces, stream)
    ensures Carries(Appended(log, cap, piece, of, timestamp).value, pieces, stream)
  {
    hide Lossy, Boundary, ChunkTexts, LaidOut, DataOf, Concat, LossyEach;
    if !log.truncated {
      AppendedData(log, cap, piece, of, timestamp, stream);
      assert DataOf(log.rows, stream) + [] == DataOf(log.rows, stream);
    }
  }

  lemma NothingCarried(stream: Stream)
    ensures Carries(EMPTY, [], stream)
  {
    LossyNothing();
  }

  /** However the pieces of two streams interleave, the log keeps each stream in
      order, cut only where the log was truncated, and decodes it truly. */
  lemma {:induction false} LogCarriesStream(entries: seq<Entry>, cap: nat, inputs: seq<Read>, stream: Stream)
    requires Stored(entries, cap).Some? && Recorded(inputs, PiecesOf(entries, stream))
    ensures Carries(Stored(entries, cap).value, PiecesOf(entries, stream), stream)
  {
    hide Carries, Recorded, Appended, Settled, Concat;
    if entries == [] {
      NothingCarried(stream);
    } else {
      var front, last := entries[..|entries| - 1], entries[|entries| - 1];
      var pieces := PiecesOf(front, stream);
      if last.stream == stream {
        RecordedBefore(inputs, pieces, last.piece);
        LogCarriesStream(front, cap, inputs, stream);
        AppendCarries(Stored(front, cap).value, cap, pieces, last.piece, stream, last.timestamp);
      } else {
        assert PiecesOf(entries, stream) == pieces;
        LogCarriesStream(front, cap, inputs, stream);
        OtherStreamCarries(Stored(front, cap).value, cap, pieces, last.piece, last.stream, last.timestamp, stream);
      }
    }
  }

  lemma {:induction false} LogIsContiguous(entries: seq<Entry>, cap: nat)
    requires Stored(entries, cap).Some?
    ensures Contiguous(Stored(entries, cap).value.rows, Stored(entries, cap).value.bytes)
  {
    if entries != [] {
      hide Appended, Contiguous;
      var last := entries[|entries| - 1];
      LogIsContiguous(entries[..|entries| - 1], cap);
      AppendedIsContiguous(Stored(entries[..|entries| - 1], cap).value, cap, last.piece, last.stream, last.timestamp);
    }
  }

  lemma AppendedIsContiguous(log: Log, cap: nat, piece: seq<Byte>, stream: Stream, timestamp: int)
    requires Contiguous(log.rows, log.bytes) && Appended(log, cap, piece, stream, timestamp).Some?
    ensures var t := Appended(log, cap, piece, stream, timestamp).value; Contiguous(t.rows, t.bytes)
  {
    hide ChunkTexts, LaidOut, Boundary, Concat, Contiguous, Lossy, LossyEach;
    if !log.truncated {
      var kept := piece[..Kept(log.bytes, cap, piece)];
      ChunksCarryText(kept);
      LaidOutContinues(log.rows, log.bytes, stream, timestamp, ChunkTexts(kept).value);
    }
  }

  // ----- The text shown

  /** A decoded text in UTF-8; a replacement character takes three bytes. */
  function TextBytes(symbols: seq<Symbol>): Text {
    if symbols == [] then []
    else (match symbols[0]
          case Scalar(bytes) => bytes
          case Replacement => [0xEF, 0xBF, 0xBD]) + TextBytes(symbols[1..])
  }

  lemma TextBytesFirst(symbol: Symbol, rest: seq<Symbol>)
    ensures TextBytes([symbol] + rest) == TextBytes([symbol]) + TextBytes(rest)
  {
    assert ([symbol] + rest)[1..] == rest && [symbol][1..] == [];
  }

  lemma {:induction false} TextBytesConcat(a: seq<Symbol>, b: seq<Symbol>)
    ensures TextBytes(a + b) == TextBytes(a) + TextBytes(b)
  {
    if a == [] {
      assert a + b == b;
    } else {
      hide TextBytes;
      TextBytesConcat(a[1..], b);
      FirstOfConcat(a, b);
      TextBytesFirst(a[0], a[1..] + b);
      TextBytesFirst(a[0], a[1..]);
      ConcatAssociates(TextBytes([a[0]]), TextBytes(a[1..]), TextBytes(b));
    }
  }

  function ChunkOf(row: Row): LogChunk {
    LogChunk(row.offset, row.stream, row.timestamp, TextBytes(Lossy(row.data)))
  }

  /** The chunks of a log as the interface returns them, each decoded on its own. */
  function Shown(rows: seq<Row>): seq<LogChunk> {
    if rows == [] then [] else [ChunkOf(rows[0])] + Shown(rows[1..])
  }

  lemma {:induction false} ShownAt(rows: seq<Row>)
    ensures |Shown(rows)| == |rows|
    ensures forall i :: 0 <= i < |rows| ==> Shown(rows)[i] == ChunkOf(rows[i])
  {
    if rows != [] { ShownAt(rows[1..]); }
  }

  /** The log meets what reassembly asks for. */
  lemma ShownInOrder(rows: seq<Row>, bytes: nat)
    requires Contiguous(rows, bytes)
    ensures InOrder(Shown(rows))
  {
    ShownAt(rows);
    ContiguousRows(rows, bytes);
  }

  lemma {:induction false} ShownText(rows: seq<Row>, stream: Stream)
    ensures TextOf(OfStream(Shown(rows), stream)) == TextBytes(LossyEach(DataOf(rows, stream)))
  {
    hide Lossy, LossyEach, Concat;
    ConcatNothing();
    if rows != [] {
      var row, rest := rows[0], rows[1..];
      ShownText(rest, stream);
      assert Shown(rows)[1..] == Shown(rest);
      if row.stream == stream {
        ConcatFirst(row.data, DataOf(rest, stream));
        TextBytesConcat(Lossy(row.data), LossyEach(DataOf(rest, stream)));
        var kept := OfStream(Shown(rest), stream);
        assert OfStream(Shown(rows), stream) == [ChunkOf(row)] + kept;
        assert ([ChunkOf(row)] + kept)[1..] == kept;
      } else {
        assert [] + DataOf(rest, stream) == DataOf(rest, stream);
      }
    }
  }

  // ----- From the command to the screen

  function Messages(lines: seq<LogLine>): seq<string> {
    seq(|lines|, i requires 0 <= i < |lines| => lines[i].message)
  }

  function Cleaned(lines: seq<Text>, clean: Text -> string): seq<string> {
    seq(|lines|, i requires 0 <= i < |lines| => clean(TrimEnd(lines[i])))
  }

  /** What `build` returns for a log. */
  function Display(rows: seq<Row>, service: string, clean: Text -> string): seq<LogLine> {
    Displayed(Shown(rows), service, clean)
  }

  lemma PiecesWithinInputs(inputs: seq<Read>, pieces: seq<seq<Byte>>)
    requires Recorded(inputs, pieces)
    ensures Concat(pieces) <= Concat(inputs)
  {
    hide Boundary;
    if |pieces| <= |inputs| {
      assert pieces[..|pieces|] == pieces;
      ConcatPrefix(inputs, |pieces|);
    }
  }

  /** End to end, for each stream and any interleaving: the lines shown are the
      lines of the stream decoded at once, whole unless the log was truncated or
      the command is still running, however reads, pieces and chunks split it. */
  lemma StreamIsShownTruly(entries: seq<Entry>, cap: nat, inputs: seq<Read>, stream: Stream,
                           service: string, clean: Text -> string) returns (text: seq<Byte>)
    requires Stored(entries, cap).Some? && Recorded(inputs, PiecesOf(entries, stream))
    ensures text <= Concat(inputs)
    ensures !Stored(entries, cap).value.truncated && |PiecesOf(entries, stream)| == |inputs| + 1 ==> text == Concat(inputs)
    ensures Messages(OfLines(Display(Stored(entries, cap).value.rows, service, clean), stream))
         == Cleaned(Lines(TextBytes(Lossy(text))), clean)
  {
    hide Lossy, Boundary, Concat, LossyEach, InOrder, Displayed, LinesFrom, Lines;
    var log := Stored(entries, cap).value;
    text := Concat(DataOf(log.rows, stream));
    LogCarriesStream(entries, cap, inputs, stream);
    PiecesWithinInputs(inputs, PiecesOf(entries, stream));
    LogIsContiguous(entries, cap);
    ShownInOrder(log.rows, log.bytes);
    ShownText(log.rows, stream);
    ResultKeepsEachStream(Shown(log.rows), service, clean, stream);
    MessagesAreLines(Shown(log.rows), stream, service, clean);
  }

  lemma MessagesAreLines(chunks: seq<LogChunk>, stream: Stream, service: string, clean: Text -> string)
    ensures Messages(Unkeyed(StreamLines(chunks, stream, service, clean)))
         == Cleaned(Lines(TextOf(OfStream(chunks, stream))), clean)
  {
    hide Lines, TextOf, OfStream, StreamLines;
    var keyed, lines := StreamLines(chunks, stream, service, clean), Lines(TextOf(OfStream(chunks, stream)));
    if lines == [] {
      NoLinesNoMessages(chunks, stream, service, clean);
    } else {
      LinesAreDated(chunks, stream, service, clean, 0);
      forall i | 0 <= i < |lines| ensures keyed[i].line.message == clean(TrimEnd(lines[i])) {
        LinesAreDated(chunks, stream, service, clean, i);
      }
    }
  }

  lemma NoLinesNoMessages(chunks: seq<LogChunk>, stream: Stream, service: string, clean: Text -> string)
    requires Lines(TextOf(OfStream(chunks, stream))) == []
    ensures StreamLines(chunks, stream, service, clean) == []
  {
  }

  /** A shown line's key is that of the row its first byte is stored in. */
  lemma KeyIsOfRow(rows: seq<Row>, stream: Stream, service: string, clean: Text -> string, keyed: Keyed) returns (r: nat)
    requires keyed in StreamLines(Shown(rows), stream, service, clean)
    ensures r < |rows| && rows[r].offset == keyed.offset
    ensures rows[r].stream == keyed.line.stream && rows[r].timestamp == keyed.line.timestamp
  {
    hide StreamLines, Shown, Lines, TextOf, ChunkOf;
    var chunks, own := Shown(rows), OfStream(Shown(rows), stream);
    var lines := StreamLines(chunks, stream, service, clean);
    if Lines(TextOf(own)) == [] { NoLinesNoMessages(chunks, stream, service, clean); }
    LinesAreDated(chunks, stream, service, clean, 0);
    var i :| 0 <= i < |lines| && lines[i] == keyed;
    LinesAreDated(chunks, stream, service, clean, i);
    var k :| 0 <= k < |own| && own[k].offset == keyed.offset && own[k].timestamp == keyed.line.timestamp
             && keyed.line.stream == stream;
    KeptAreKept(chunks, InStream(stream));
    assert own[k] in chunks && own[k].stream == stream;
    var c :| 0 <= c < |chunks| && chunks[c] == own[k];
    ShownAt(rows);
    r := c;
    assert chunks[c] == ChunkOf(rows[c]);
    ChunkCopies(rows[c]);
  }

  lemma ChunkCopies(row: Row)
    ensures ChunkOf(row).offset == row.offset && ChunkOf(row).stream == row.stream
    ensures ChunkOf(row).timestamp == row.timestamp
  {
  }

  lemma KeysAreOfRows(rows: seq<Row>, service: string, clean: Text -> string, keyed: Keyed) returns (r: nat)
    requires keyed in StreamLines(Shown(rows), Stdout, service, clean)
          || keyed in StreamLines(Shown(rows), Stderr, service, clean)
    ensures r < |rows| && rows[r].offset == keyed.offset
    ensures rows[r].stream == keyed.line.stream && rows[r].timestamp == keyed.line.timestamp
  {
    hide StreamLines;
    if keyed in StreamLines(Shown(rows), Stdout, service, clean) {
      r := KeyIsOfRow(rows, Stdout, service, clean, keyed);
    } else {
      r := KeyIsOfRow(rows, Stderr, service, clean, keyed);
    }
  }

  /** The lines of a log stand in the order its rows were stored: each shows the
      stream and time of the row holding its first byte, and these rows ascend. */
  lemma LinesStandInStoredOrder(rows: seq<Row>, bytes: nat, service: string, clean: Text -> string) returns (from: seq<nat>)
    requires Contiguous(rows, bytes)
    ensures |from| == |Display(rows, service, clean)|
    ensures forall i :: 0 <= i < |from| ==>
              && from[i] < |rows|
              && Display(rows, service, clean)[i].stream == rows[from[i]].stream
              && Display(rows, service, clean)[i].timestamp == rows[from[i]].timestamp
    ensures forall i, j :: 0 <= i < j < |from| ==> from[i] <= from[j]
  {
    hide Displayed, StreamLines, Shown, Contiguous;
    var keyed := LinesStandInOffsetOrder(Shown(rows), service, clean);
    ContiguousRows(rows, bytes);
    from := [];
    while |from| < |keyed|
      invariant |from| <= |keyed|
      invariant forall i :: 0 <= i < |from| ==>
                  && from[i] < |rows| && rows[from[i]].offset == keyed[i].offset
                  && rows[from[i]].stream == keyed[i].line.stream && rows[from[i]].timestamp == keyed[i].line.timestamp
    {
      assert keyed[|from|] in multiset(keyed);
      var r := KeysAreOfRows(rows, service, clean, keyed[|from|]);
      from := from + [r];
    }
    forall i, j | 0 <= i < j < |from| ensures from[i] <= from[j] {
      assert rows[from[i]].offset <= rows[from[j]].offset;
    }
  }

  /** Every row is dated and attributed as the append it came with. */
  lemma {:induction false} RowsComeFromAppends(entries: seq<Entry>, cap: nat, row: Row)
    requires Stored(entries, cap).Some? && row in Stored(entries, cap).value.rows
    ensures exists entry :: entry in entries && entry.stream == row.stream && entry.timestamp == row.timestamp
  {
    hide ChunkTexts, LaidOut, Kept;
    var front, last := entries[..|entries| - 1], entries[|entries| - 1];
    var log := Stored(front, cap).value;
    if row in log.rows {
      RowsComeFromAppends(front, cap, row);
      var entry :| entry in front && entry.stream == row.stream && entry.timestamp == row.timestamp;
      assert entry in entries;
    } else {
      var chunks := ChunkTexts(last.piece[..Kept(log.bytes, cap, last.piece)]).value;
      LaidOutStamps(log.bytes, last.stream, last.timestamp, chunks, row);
      assert last in entries;
    }
  }

  lemma {:induction false} LaidOutStamps(offset: nat, stream: Stream, timestamp: int, chunks: seq<seq<Byte>>, row: Row)
    requires row in LaidOut(offset, stream, timestamp, chunks)
    ensures row.stream == stream && row.timestamp == timestamp
    decreases |chunks|
  {
    if row != LaidOut(offset, stream, timestamp, chunks)[0] {
      LaidOutStamps(offset + |chunks[0]|, stream, timestamp, chunks[1..], row);
    }
  }

  // ----- The cap

  /** How long all pieces together are. */
  function Total(entries: seq<Entry>): nat {
    if entries == [] then 0 else Total(entries[..|entries| - 1]) + |entries[|entries| - 1].piece|
  }

  /** The stored output never exceeds the cap, and is whole exactly while the
      pieces fit it. */
  lemma {:induction false} CapIsKept(entries: seq<Entry>, cap: nat)
    requires Stored(entries, cap).Some?
    ensures var log := Stored(entries, cap).value;
      && log.bytes <= cap
      && (!log.truncated <==> Total(entries) <= cap)
      && (!log.truncated ==> log.bytes == Total(entries))
  {
    if entries != [] {
      hide ChunkTexts, LaidOut, Boundary;
      CapIsKept(entries[..|entries| - 1], cap);
    }
  }

  // ----- Well-formed output

  /** A replacement character is U+FFFD. */
  lemma ReplacementIsEncoded()
    ensures TextBytes([Replacement]) == Encode(0xFFFD)
  {
    assert [Replacement][1..] == [];
  }

  /** Well-formed output is shown byte for byte. */
  lemma {:induction false} WellFormedIsKept(s: seq<Byte>)
    requires WellFormed(s)
    ensures TextBytes(Lossy(s)) == s
    decreases |s|
  {
    hide WellFormed, Lossy, First, Encodes;
    if s == [] {
      LossyNothing();
    } else {
      var n := First(s).Size();
      WellFormedFirst(s);
      CharactersAreEncodings(s, n);
      LossyByEncodings(s, n);
      WellFormedIsKept(s[n..]);
      TextBytesFirst(Scalar(s[..n]), Lossy(s[n..]));
      assert [Scalar(s[..n])][1..] == [];
      assert s == s[..n] + s[n..];
    }
  }

  /** So a well-formed stream that fits the cap is shown exactly: its lines, each
      without its newline and cleaned. */
  lemma WellFormedStreamIsShownExactly(entries: seq<Entry>, cap: nat, inputs: seq<Read>, stream: Stream,
                                       service: string, clean: Text -> string)
    requires Stored(entries, cap).Some? && Total(entries) <= cap
    requires Recorded(inputs, PiecesOf(entries, stream)) && |PiecesOf(entries, stream)| == |inputs| + 1
    requires WellFormed(Concat(inputs))
    ensures Messages(OfLines(Display(Stored(entries, cap).value.rows, service, clean), stream))
         == Cleaned(Lines(Concat(inputs)), clean)
  {
    hide *;
    CapIsKept(entries, cap);
    var text := StreamIsShownTruly(entries, cap, inputs, stream, service, clean);
    WellFormedIsKept(text);
  }
}
