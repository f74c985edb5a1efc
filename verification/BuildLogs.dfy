/**
 The stored output of a build: a piece is cut into bounded chunks, whose rows are
 keyed by their offset in the log.
 */
module BuildLogs {
  import opened Outcomes
  import opened Sequences
  import opened Api
  import opened Utf8
  import opened OutputStream

  const CHUNK_BYTES: nat := 4096

  // ----- Chunks

  /** The lengths of the chunks stored for a text; none when storing gets stuck
      on a chunk that would be empty. */
  function ChunkTexts(text: seq<Byte>): Option<seq<seq<Byte>>>
    decreases |text|
  {
    if text == [] then Some([])
    else if |text| <= CHUNK_BYTES then Some([text])
    else
      var end := Boundary(text[..CHUNK_BYTES]);
      if end == 0 then None
      else match ChunkTexts(text[end..])
           case None => None
           case Some(chunks) => Some([text[..end]] + chunks)
  }

  /** Storing gets stuck exactly when a cut character is followed by so much
      that it and what follows exceed one chunk. */
  lemma {:induction false} ChunkingIsStuck(text: seq<Byte>)
    ensures ChunkTexts(text).None? <==> |text| - Boundary(text) > CHUNK_BYTES
    decreases |text|
  {
    if |text| > CHUNK_BYTES {
      var end := Boundary(text[..CHUNK_BYTES]);
      PrefixBoundary(text, CHUNK_BYTES);
      if end > 0 {
        ChunkingIsStuck(text[end..]);
      } else {
        assert text[0..] == text;
      }
    }
  }

  /** The chunks carry the text, no chunk is empty or too large, and decoding
      them one by one reads like decoding the text at once. */
  lemma {:induction false} ChunksCarryText(text: seq<Byte>)
    requires ChunkTexts(text).Some?
    ensures Concat(ChunkTexts(text).value) == text
    ensures LossyEach(ChunkTexts(text).value) == Lossy(text)
    ensures forall chunk <- ChunkTexts(text).value :: 0 < |chunk| <= CHUNK_BYTES
    decreases |text|
  {
    hide Lossy, Boundary, Settled, Concat, LossyEach, WellFormed, Parse;
    ConcatNothing();
    LossyNothing();
    if text == [] {
    } else if |text| <= CHUNK_BYTES {
      ConcatFirst(text, []);
      NothingAdded(text);
      NothingAdded(Lossy(text));
      assert [text] + [] == [text];
    } else {
      var end := Boundary(text[..CHUNK_BYTES]);
      ChunksCarryText(text[end..]);
      CutAtBoundary(text, CHUNK_BYTES);
      ConcatFirst(text[..end], ChunkTexts(text[end..]).value);
    }
  }

  /** Cut where a prefix may be flushed, a text decodes as its two parts do. */
  lemma CutAtBoundary(text: seq<Byte>, n: nat)
    requires n <= |text|
    ensures var end := Boundary(text[..n]);
      text == text[..end] + text[end..] && Lossy(text) == Lossy(text[..end]) + Lossy(text[end..])
  {
    hide Lossy, Boundary, Settled, WellFormed, Parse;
    var end := Boundary(text[..n]);
    BoundarySplits(text[..n]);
    assert text[..n][..end] == text[..end];
    assert text == text[..end] + text[end..];
    AfterSettled(text[..end], text[end..]);
  }

  /** Pieces flushed while reading can always be stored; what is flushed at the
      end exactly when it fits one chunk. */
  lemma WhichPiecesCanBeStored(read: seq<Byte>)
    ensures ChunkTexts(Flushed(read)).Some?
    ensures ChunkTexts(HeldBack(read)).Some? <==> |HeldBack(read)| <= CHUNK_BYTES
    ensures OnlyLastIsCut(read) ==> ChunkTexts(HeldBack(read)).Some?
  {
    BoundarySplits(read);
    SettledMeansBoundaryAtEnd(Flushed(read));
    ChunkingIsStuck(Flushed(read));
    ChunkingIsStuck(HeldBack(read));
    if OnlyLastIsCut(read) {
      AtMostThreeHeldBack(read, |read|);
      assert read[..|read|] == read;
    }
  }

  /** Output in a single-byte encoding: after an accented
      letter and a space nothing more is flushed,
      and once more than a chunk of it waits, the final flush cannot be stored. */
  lemma SingleByteEncodingIsHeldBack(rest: seq<Byte>)
    ensures HeldBack([0xE9, 0x20] + rest) == [0xE9, 0x20] + rest
    ensures ChunkTexts(HeldBack([0xE9, 0x20] + rest)).Some? <==> |rest| + 2 <= CHUNK_BYTES
  {
    var s := [0xE9, 0x20] + rest;
    assert First(s) == Cut(1);
    assert Parse(s)[0] == PartOf(s);
    WhichPiecesCanBeStored(s);
  }

  // ----- Rows

  /** A stored chunk, identified by its offset in the build's log. */
  datatype Row = Row(offset: nat, stream: Stream, timestamp: int, data: seq<Byte>)

  /** A build's stored output. */
  datatype Log = Log(rows: seq<Row>, bytes: nat, truncated: bool)

  const EMPTY: Log := Log([], 0, false)

  /** The rows of chunks stored one after another. */
  function LaidOut(offset: nat, stream: Stream, timestamp: int, chunks: seq<seq<Byte>>): seq<Row>
    decreases |chunks|
  {
    if chunks == [] then []
    else [Row(offset, stream, timestamp, chunks[0])] + LaidOut(offset + |chunks[0]|, stream, timestamp, chunks[1..])
  }

  /** How much of a piece still fits, cut where it may be flushed. */
  function Kept(bytes: nat, cap: nat, piece: seq<Byte>): (n: nat)
    ensures n <= |piece|
  {
    var room := if bytes < cap then cap - bytes else 0;
    if |piece| <= room then |piece| else Boundary(piece[..room])
  }

  /** A piece that fits is kept whole. Otherwise no more is kept than fits, cut
      where nothing is truncated; that leaves less than four bytes of room unless
      a truncated character is followed by more. */
  lemma KeptFillsRoom(bytes: nat, cap: nat, piece: seq<Byte>)
    requires bytes <= cap
    ensures bytes + |piece| <= cap <==> Kept(bytes, cap, piece) == |piece|
    ensures bytes + Kept(bytes, cap, piece) <= cap
    ensures bytes + |piece| > cap ==>
              && Settled(piece[..Kept(bytes, cap, piece)])
              && (OnlyLastIsCut(piece[..cap - bytes]) ==> cap - bytes - Kept(bytes, cap, piece) <= 3)
  {
    if bytes + |piece| > cap {
      hide Boundary, Settled, OnlyLastIsCut;
      var room := cap - bytes;
      BoundarySplits(piece[..room]);
      assert piece[..room][..Boundary(piece[..room])] == piece[..Boundary(piece[..room])];
      if OnlyLastIsCut(piece[..room]) {
        AtMostThreeHeldBack(piece[..room], room);
        assert piece[..room][..room] == piece[..room];
      }
    }
  }

  /** The log after an append, unless storing gets stuck. */
  function Appended(log: Log, cap: nat, piece: seq<Byte>, stream: Stream, timestamp: int): Option<Log> {
    if log.truncated then Some(log)
    else
      var kept := piece[..Kept(log.bytes, cap, piece)];
      match ChunkTexts(kept)
      case None => None
      case Some(chunks) =>
        Some(Log(log.rows + LaidOut(log.bytes, stream, timestamp, chunks), log.bytes + |kept|, |kept| < |piece|))
  }

  /** Each row starts where the one before ends, and the last ends at `bytes`. */
  ghost predicate Contiguous(rows: seq<Row>, bytes: nat) {
    if rows == [] then bytes == 0
    else
      var last := rows[|rows| - 1];
      last.data != [] && last.offset + |last.data| == bytes && Contiguous(rows[..|rows| - 1], last.offset)
  }

  /** So offsets ascend, and none reaches the log's size. */
  lemma {:induction false} ContiguousRows(rows: seq<Row>, bytes: nat)
    requires Contiguous(rows, bytes)
    ensures forall row <- rows :: row.offset < bytes
    ensures forall i, j :: 0 <= i < j < |rows| ==> rows[i].offset < rows[j].offset
  {
    if rows != [] {
      var front, last := rows[..|rows| - 1], rows[|rows| - 1];
      ContiguousRows(front, last.offset);
      assert rows == front + [last];
    }
  }

  lemma ContiguousAppend(rows: seq<Row>, row: Row)
    requires Contiguous(rows, row.offset) && row.data != []
    ensures Contiguous(rows + [row], row.offset + |row.data|)
  {
    assert (rows + [row])[..|rows|] == rows;
  }

  lemma {:induction false} LaidOutAppend(
    offset: nat, stream: Stream, timestamp: int, chunks: seq<seq<Byte>>, chunk: seq<Byte>)
    ensures LaidOut(offset, stream, timestamp, chunks + [chunk])
         == LaidOut(offset, stream, timestamp, chunks) + [Row(offset + |Concat(chunks)|, stream, timestamp, chunk)]
    decreases |chunks|
  {
    hide Concat, LaidOut, LossyEach, Lossy;
    NothingStored(offset, stream, timestamp);
    LaidOutFirst(offset, stream, timestamp, chunk, []);
    if chunks == [] {
      assert [] + [chunk] == [chunk] + [];
      NothingStored(offset + |chunk|, stream, timestamp);
    } else {
      var first, rest := chunks[0], chunks[1..];
      FirstOfConcat(chunks, [chunk]);
      LaidOutFirst(offset, stream, timestamp, first, rest + [chunk]);
      LaidOutFirst(offset, stream, timestamp, first, rest);
      ConcatFirst(first, rest);
      LaidOutAppend(offset + |first|, stream, timestamp, rest, chunk);
    }
  }

  lemma LaidOutFirst(offset: nat, stream: Stream, timestamp: int, first: seq<Byte>, rest: seq<seq<Byte>>)
    ensures LaidOut(offset, stream, timestamp, [first] + rest)
         == [Row(offset, stream, timestamp, first)] + LaidOut(offset + |first|, stream, timestamp, rest)
  {
    assert ([first] + rest)[1..] == rest;
  }

  /** The stored output of one build, of at most `cap` bytes. */
  class StoredLog {
    const cap: nat
    var log: Log
    var running: bool
    var expired: bool

    ghost predicate Valid()
      reads this
    {
      Contiguous(log.rows, log.bytes) && log.bytes <= cap
    }

    constructor (cap: nat)
      ensures Valid() && log == EMPTY && running && !expired && this.cap == cap
    {
      this.cap := cap;
      log, running, expired := EMPTY, true, false;
    }

    /** Appends a piece in one transaction. It fails, changing nothing, exactly
        when a truncated character and what follows it exceed one chunk. */
    method Append(piece: seq<Byte>, stream: Stream, now: int) returns (stored: bool)
      requires Valid()
      modifies this`log
      ensures Valid()
      ensures expired || !running ==> stored && log == old(log)
      ensures !expired && running ==>
                stored == Appended(old(log), cap, piece, stream, now).Some?
                && log == if stored then Appended(old(log), cap, piece, stream, now).value else old(log)
      ensures var kept := piece[..Kept(old(log).bytes, cap, piece)];
        !stored <==> !expired && running && !old(log).truncated && |kept| - Boundary(kept) > CHUNK_BYTES
    {
      hide Contiguous, ChunkTexts, LaidOut, Boundary;
      if expired || log.truncated || !running { return true; }
      var room := if log.bytes < cap then cap - log.bytes else 0;
      var count := if |piece| <= room then |piece| else room;
      if count < |piece| { count := CompletePrefix(piece[..count]); }
      ChunkingIsStuck(piece[..count]);
      var inserted := InsertChunks(log.rows, log.bytes, piece[..count], stream, now);
      if inserted.None? { return false; }
      log := Log(inserted.value, log.bytes + count, count < |piece|);
      stored := true;
    }
  }

  /** The loop inserting chunks; a row's offset must be new. A second empty
      chunk would have the offset of the first. */
  method InsertChunks(rows: seq<Row>, bytes: nat, text: seq<Byte>, stream: Stream, now: int)
    returns (r: Option<seq<Row>>)
    requires Contiguous(rows, bytes)
    ensures r.Some? <==> ChunkTexts(text).Some?
    ensures r.Some? ==> r.value == rows + LaidOut(bytes, stream, now, ChunkTexts(text).value)
    ensures r.Some? ==> Contiguous(r.value, bytes + |text|)
  {
    hide Boundary, Contiguous, ChunkTexts, LaidOut, Concat, LossyEach, Lossy;
    NothingStored(bytes, stream, now);
    var offset, left, inserted := bytes, text, rows;
    ghost var done: seq<seq<Byte>>, stuck := [], false;
    assert ChunkTexts(text).Some? ==> [] + ChunkTexts(text).value == ChunkTexts(text).value;
    assert rows + [] == rows;
    while left != []
      invariant |left| <= |text| && offset == bytes + |text| - |left|
      invariant offset == bytes + |Concat(done)|
      invariant ChunkTexts(text).Some? <==> ChunkTexts(left).Some?
      invariant ChunkTexts(text).Some? ==> ChunkTexts(text).value == done + ChunkTexts(left).value
      invariant inserted == rows + LaidOut(bytes, stream, now, done)
      invariant if stuck then ChunkTexts(left).None? && exists row :: row in inserted && row.offset == offset
                else Contiguous(inserted, offset)
      decreases |left|, !stuck
    {
      var end := if |left| <= CHUNK_BYTES then |left| else CHUNK_BYTES;
      if end < |left| { end := CompletePrefix(left[..end]); }
      if !stuck { OffsetIsNew(inserted, offset); }
      if exists row <- inserted :: row.offset == offset {
        return None;
      }
      var row := Row(offset, stream, now, left[..end]);
      NextChunk(left, done, end);
      LaidOutAppend(bytes, stream, now, done, left[..end]);
      ConcatAppend(done, left[..end]);
      if end > 0 { ContiguousAppend(inserted, row); }
      inserted := inserted + [row];
      if end == 0 {
        stuck := true;
        assert row in inserted;
      }
      done := done + [left[..end]];
      offset := offset + end;
      left := left[end..];
    }
    assert ChunkTexts(text).value == done;
    r := Some(inserted);
  }

  lemma NothingStored(offset: nat, stream: Stream, timestamp: int)
    ensures ChunkTexts([]) == Some([])
    ensures LaidOut(offset, stream, timestamp, []) == []
    ensures Concat([]) == []
  {
  }

  lemma OffsetIsNew(rows: seq<Row>, bytes: nat)
    requires Contiguous(rows, bytes)
    ensures forall row <- rows :: row.offset != bytes
  {
    ContiguousRows(rows, bytes);
  }

  /** One turn of that loop, on the text still to be stored. */
  lemma NextChunk(left: seq<Byte>, done: seq<seq<Byte>>, end: nat)
    requires left != []
    requires end == if |left| <= CHUNK_BYTES then |left| else Boundary(left[..CHUNK_BYTES])
    ensures end <= |left|
    ensures end == 0 ==> ChunkTexts(left).None?
    ensures end > 0 ==> (ChunkTexts(left).Some? <==> ChunkTexts(left[end..]).Some?)
    ensures end > 0 && ChunkTexts(left).Some? ==>
              done + ChunkTexts(left).value == (done + [left[..end]]) + ChunkTexts(left[end..]).value
  {
    hide Boundary;
    if |left| <= CHUNK_BYTES {
      assert left[..end] == left && left[end..] == [];
      assert ChunkTexts(left) == Some([left]) && ChunkTexts(left[end..]) == Some([]);
    } else if end > 0 {
      var rest := ChunkTexts(left[end..]);
      if rest.Some? { ConcatAssociates(done, [left[..end]], rest.value); }
    }
  }
}
