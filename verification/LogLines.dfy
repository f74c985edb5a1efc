/**
 Reassembling a build's interleaved output chunks into display lines: each
 stream is joined and split into lines on its own, every line is dated by the
 chunk its first byte came in, and the lines of both streams are sorted.
 */
module LogLines {
  import opened Api
  import opened Sequences
  import opened Utf8
  import opened Sorting

  const NEWLINE: Byte := 0x0A

  datatype LogLine = LogLine(timestamp: int, service: string, stream: Stream, message: string)

  /** A line with its sort key. */
  datatype Keyed = Keyed(offset: int, position: nat, line: LogLine)

  predicate KeyLe(a: Keyed, b: Keyed) {
    a.offset < b.offset || (a.offset == b.offset && a.position <= b.position)
  }

  // ----- Text and lines

  function InStream(stream: Stream): LogChunk -> bool {
    (chunk: LogChunk) => chunk.stream == stream
  }

  function OfStream(chunks: seq<LogChunk>, stream: Stream): seq<LogChunk> {
    Keep(chunks, InStream(stream))
  }

  function TextOf(chunks: seq<LogChunk>): Text {
    if chunks == [] then [] else chunks[0].text + TextOf(chunks[1..])
  }

  /** The length of the first line, its newline included. */
  function LineLength(text: Text): (n: nat)
    requires text != []
    ensures 0 < n <= |text|
    ensures forall i :: 0 <= i < n - 1 ==> text[i] != NEWLINE
    ensures n < |text| ==> text[n - 1] == NEWLINE
  {
    if text[0] == NEWLINE || |text| == 1 then 1 else 1 + LineLength(text[1..])
  }

  /** `split_inclusive('\n')`. */
  function Lines(text: Text): seq<Text>
    decreases |text|
  {
    if text == [] then [] else [text[..LineLength(text)]] + Lines(text[LineLength(text)..])
  }

  function Joined(lines: seq<Text>): Text {
    if lines == [] then [] else lines[0] + Joined(lines[1..])
  }

  predicate NoneEmpty(lines: seq<Text>) {
    forall i :: 0 <= i < |lines| ==> lines[i] != []
  }

  /** `trim_end_matches('\n')`. */
  function TrimEnd(line: Text): Text {
    if line != [] && line[|line| - 1] == NEWLINE then TrimEnd(line[..|line| - 1]) else line
  }

  /** A line as `split_inclusive` cuts it. */
  predicate IsLine(line: Text, last: bool) {
    line != [] && NEWLINE !in line[..|line| - 1] && (last || line[|line| - 1] == NEWLINE)
  }

  /** No byte of a stream is lost, no line is empty, and a newline ends every
      line but possibly the last, and occurs nowhere else. */
  lemma {:induction false} LinesKeepText(text: Text)
    ensures Joined(Lines(text)) == text
    ensures forall i :: 0 <= i < |Lines(text)| ==> IsLine(Lines(text)[i], i == |Lines(text)| - 1)
    ensures NoneEmpty(Lines(text))
    decreases |text|
  {
    hide LineLength, Joined, IsLine;
    if text == [] {
      NothingJoined();
    } else {
      var n := LineLength(text);
      var rest := Lines(text[n..]);
      LinesKeepText(text[n..]);
      NewlineEndsLine(text, n);
      JoinedFirst(text[..n], rest);
      NoLines(text[n..]);
      assert Lines(text) == [text[..n]] + rest;
      assert text == text[..n] + text[n..];
      hide *;
      forall i | 0 <= i < |Lines(text)| ensures IsLine(Lines(text)[i], i == |Lines(text)| - 1) {
        if i > 0 { assert Lines(text)[i] == rest[i - 1]; }
      }
    }
  }

  lemma JoinedFirst(line: Text, rest: seq<Text>)
    ensures Joined([line] + rest) == line + Joined(rest)
  {
    assert ([line] + rest)[1..] == rest;
  }

  lemma NothingJoined()
    ensures Joined([]) == []
  {
  }

  lemma NoLines(text: Text)
    ensures Lines(text) == [] <==> text == []
  {
  }

  lemma NewlineEndsLine(text: Text, n: nat)
    requires text != [] && n == LineLength(text)
    ensures IsLine(text[..n], n == |text|)
  {
    hide LineLength;
    assert text[..n][..n - 1] == text[..n - 1];
    assert forall i :: 0 <= i < n - 1 ==> text[..n - 1][i] == text[i];
  }

  /** So trimming removes a line's newline and nothing else. */
  lemma TrimRemovesNewline(text: Text, i: nat)
    requires i < |Lines(text)|
    ensures var line := Lines(text)[i];
      line == TrimEnd(line) || line == TrimEnd(line) + [NEWLINE]
    ensures NEWLINE !in TrimEnd(Lines(text)[i])
  {
    hide Lines, Joined, TrimEnd;
    LinesKeepText(text);
    TrimmedLine(Lines(text)[i], i == |Lines(text)| - 1);
  }

  lemma TrimmedLine(line: Text, last: bool)
    requires IsLine(line, last)
    ensures line == TrimEnd(line) || line == TrimEnd(line) + [NEWLINE]
    ensures NEWLINE !in TrimEnd(line)
  {
    var front, end := line[..|line| - 1], line[|line| - 1];
    assert line == front + [end];
    if end == NEWLINE {
      TrimmedAlready(front);
    }
  }

  lemma TrimmedAlready(text: Text)
    requires NEWLINE !in text
    ensures TrimEnd(text) == text
  {
    if text != [] { assert text[|text| - 1] in text; }
  }

  // ----- Dating lines

  /** The chunk holding the byte at `position` of the joined text. */
  function Holder(chunks: seq<LogChunk>, position: nat): LogChunk
    requires position < |TextOf(chunks)|
  {
    if position < |chunks[0].text| then chunks[0] else Holder(chunks[1..], position - |chunks[0].text|)
  }

  lemma {:induction false} TextSplit(chunks: seq<LogChunk>, k: nat)
    requires k <= |chunks|
    ensures TextOf(chunks) == TextOf(chunks[..k]) + TextOf(chunks[k..])
  {
    if k == 0 {
      assert chunks[0..] == chunks;
    } else {
      TextSplit(chunks[1..], k - 1);
      assert chunks[..k][1..] == chunks[1..][..k - 1];
      assert chunks[1..][k - 1..] == chunks[k..];
    }
  }

  lemma {:induction false} HolderAt(chunks: seq<LogChunk>, k: nat, position: nat)
    requires position < |TextOf(chunks)| && k < |chunks|
    requires |TextOf(chunks[..k])| <= position
    requires k + 1 < |chunks| ==> position < |TextOf(chunks[..k + 1])|
    ensures Holder(chunks, position) == chunks[k]
  {
    if k == 0 {
      assert chunks[..1] == [chunks[0]] && chunks[..1][1..] == [];
      if |chunks| == 1 { assert chunks[1..] == []; }
    } else {
      assert chunks[..k][1..] == chunks[1..][..k - 1];
      assert k + 1 < |chunks| ==> chunks[..k + 1][1..] == chunks[1..][..k];
      HolderAt(chunks[1..], k - 1, position - |chunks[0].text|);
    }
  }

  /** The lines of one stream, from `position` on, each with its key. */
  function LinesFrom(chunks: seq<LogChunk>, lines: seq<Text>, position: nat,
                     stream: Stream, service: string, clean: Text -> string): seq<Keyed>
    requires position + |Joined(lines)| <= |TextOf(chunks)|
    requires NoneEmpty(lines)
  {
    if lines == [] then []
    else
      var holder := Holder(chunks, position);
      [Keyed(holder.offset, position, LogLine(holder.timestamp, service, stream, clean(TrimEnd(lines[0]))))]
      + LinesFrom(chunks, lines[1..], position + |lines[0]|, stream, service, clean)
  }

  function StreamLines(chunks: seq<LogChunk>, stream: Stream, service: string, clean: Text -> string): seq<Keyed> {
    var own := OfStream(chunks, stream);
    LinesKeepText(TextOf(own));
    LinesFrom(own, Lines(TextOf(own)), 0, stream, service, clean)
  }

  /** Joins a stream's chunks, noting where each begins. */
  method JoinChunks(own: seq<LogChunk>) returns (text: Text, starts: seq<nat>)
    ensures text == TextOf(own)
    ensures |starts| == |own| && forall k :: 0 <= k < |own| ==> starts[k] == |TextOf(own[..k])|
  {
    text, starts := [], [];
    for i := 0 to |own|
      invariant text == TextOf(own[..i])
      invariant |starts| == i && forall k :: 0 <= k < i ==> starts[k] == |TextOf(own[..k])|
    {
      TextSplit(own[..i + 1], i);
      assert own[..i + 1][..i] == own[..i] && own[..i + 1][i..] == [own[i]];
      assert TextOf([own[i]]) == own[i].text + TextOf([own[i]][1..]);
      starts := starts + [|text|];
      text := text + own[i].text;
    }
    assert own[..|own|] == own;
  }

  /** The chunk boundaries passed by `position`, visiting each once. */
  method Advance(own: seq<LogChunk>, starts: seq<nat>, from: nat, position: nat) returns (index: nat)
    requires position < |TextOf(own)|
    requires |starts| == |own| && forall k :: 0 <= k < |own| ==> starts[k] == |TextOf(own[..k])|
    requires from == 0 || (from < |starts| && starts[from] <= position)
    ensures index < |own| && starts[index] <= position
    ensures own[index] == Holder(own, position)
  {
    index := from;
    assert own != [] && own[..0] == [];
    while index + 1 < |starts| && starts[index + 1] <= position
      invariant index < |starts| && starts[index] <= position
    {
      index := index + 1;
    }
    HolderAt(own, index, position);
  }

  /** One turn of the line loop. */
  lemma NextLine(chunks: seq<LogChunk>, split: seq<Text>, i: nat, position: nat,
                 stream: Stream, service: string, clean: Text -> string)
    requires i < |split| && NoneEmpty(split)
    requires position + |Joined(split[i..])| <= |TextOf(chunks)|
    ensures Joined(split[i..]) == split[i] + Joined(split[i + 1..])
    ensures position < |TextOf(chunks)|
    ensures var holder := Holder(chunks, position);
      LinesFrom(chunks, split[i..], position, stream, service, clean)
        == [Keyed(holder.offset, position, LogLine(holder.timestamp, service, stream, clean(TrimEnd(split[i]))))]
           + LinesFrom(chunks, split[i + 1..], position + |split[i]|, stream, service, clean)
  {
    assert split[i..][0] == split[i] && split[i..][1..] == split[i + 1..];
  }

  /** The loop over one stream's lines: chunk boundaries and line starts only advance. */
  method KeyLines(own: seq<LogChunk>, starts: seq<nat>, split: seq<Text>,
                  stream: Stream, service: string, clean: Text -> string)
    returns (lines: seq<Keyed>)
    requires NoneEmpty(split) && Joined(split) == TextOf(own)
    requires |starts| == |own| && forall k :: 0 <= k < |own| ==> starts[k] == |TextOf(own[..k])|
    ensures lines == LinesFrom(own, split, 0, stream, service, clean)
  {
    hide Holder, Joined, TextOf;
    lines := [];
    var position: nat, index: nat := 0, 0;
    assert split[0..] == split;
    for i := 0 to |split|
      invariant position + |Joined(split[i..])| == |TextOf(own)|
      invariant index == 0 || (index < |starts| && starts[index] <= position)
      invariant LinesFrom(own, split, 0, stream, service, clean)
             == lines + LinesFrom(own, split[i..], position, stream, service, clean)
    {
      hide *;
      NextLine(own, split, i, position, stream, service, clean);
      index := Advance(own, starts, index, position);
      var chunk := own[index];
      var line := Keyed(chunk.offset, position,
                        LogLine(chunk.timestamp, service, stream, clean(TrimEnd(split[i]))));
      ConcatAssociates(lines, [line], LinesFrom(own, split[i + 1..], position + |split[i]|, stream, service, clean));
      lines := lines + [line];
      position := position + |split[i]|;
    }
  }

  method ReassembleStream(chunks: seq<LogChunk>, stream: Stream, service: string, clean: Text -> string)
    returns (lines: seq<Keyed>)
    ensures lines == StreamLines(chunks, stream, service, clean)
  {
    var own := OfStream(chunks, stream);
    var text, starts := JoinChunks(own);
    LinesKeepText(text);
    lines := KeyLines(own, starts, Lines(text), stream, service, clean);
  }

  /** Every line, in order: its message is the cleaned line without newline, and
      its timestamp that of the chunk its first byte came in. */
  lemma LinesAreDated(chunks: seq<LogChunk>, stream: Stream, service: string, clean: Text -> string, i: nat)
    requires i < |Lines(TextOf(OfStream(chunks, stream)))|
    ensures |StreamLines(chunks, stream, service, clean)| == |Lines(TextOf(OfStream(chunks, stream)))|
    ensures var own := OfStream(chunks, stream);
      var lines := Lines(TextOf(own));
      var position := |Joined(lines[..i])|;
      exists k :: 0 <= k < |own| && |TextOf(own[..k])| <= position < |TextOf(own[..k])| + |own[k].text|
        && StreamLines(chunks, stream, service, clean)[i]
             == Keyed(own[k].offset, position, LogLine(own[k].timestamp, service, stream, clean(TrimEnd(lines[i]))))
  {
    var own := OfStream(chunks, stream);
    var lines := Lines(TextOf(own));
    LinesKeepText(TextOf(own));
    LineAt(own, lines, 0, stream, service, clean, i);
    var k := HolderIndex(own, |Joined(lines[..i])|);
  }

  lemma {:induction false} LineAt(chunks: seq<LogChunk>, lines: seq<Text>, position: nat,
                                  stream: Stream, service: string, clean: Text -> string, i: nat)
    requires NoneEmpty(lines) && i < |lines|
    requires position + |Joined(lines)| <= |TextOf(chunks)|
    ensures |LinesFrom(chunks, lines, position, stream, service, clean)| == |lines|
    ensures var p := position + |Joined(lines[..i])|;
      && p < |TextOf(chunks)|
      && var holder := Holder(chunks, p);
      LinesFrom(chunks, lines, position, stream, service, clean)[i]
        == Keyed(holder.offset, p, LogLine(holder.timestamp, service, stream, clean(TrimEnd(lines[i]))))
    decreases |lines|
  {
    hide LinesFrom, Joined, TextOf;
    var rest := lines[1..];
    assert lines[0..] == lines;
    NextLine(chunks, lines, 0, position, stream, service, clean);
    if i == 0 {
      assert lines[..0] == [];
      NothingJoined();
      if rest == [] {
        NoLinesFrom(chunks, position + |lines[0]|, stream, service, clean);
      } else {
        LineAt(chunks, rest, position + |lines[0]|, stream, service, clean, 0);
      }
    } else {
      LineAt(chunks, rest, position + |lines[0]|, stream, service, clean, i - 1);
      assert lines[..i] == [lines[0]] + rest[..i - 1];
      JoinedFirst(lines[0], rest[..i - 1]);
    }
  }

  lemma NoLinesFrom(chunks: seq<LogChunk>, position: nat, stream: Stream, service: string, clean: Text -> string)
    requires position <= |TextOf(chunks)|
    ensures Joined([]) == [] && LinesFrom(chunks, [], position, stream, service, clean) == []
  {
  }

  lemma {:induction false} HolderIndex(chunks: seq<LogChunk>, position: nat) returns (k: nat)
    requires position < |TextOf(chunks)|
    ensures k < |chunks| && Holder(chunks, position) == chunks[k]
    ensures |TextOf(chunks[..k])| <= position < |TextOf(chunks[..k])| + |chunks[k].text|
  {
    if position < |chunks[0].text| {
      k := 0;
    } else {
      var j := HolderIndex(chunks[1..], position - |chunks[0].text|);
      k := j + 1;
      assert chunks[..k][1..] == chunks[1..][..j];
    }
  }

  /** The line without its key. */
  function Unkeyed(lines: seq<Keyed>): seq<LogLine> {
    seq(|lines|, i requires 0 <= i < |lines| => lines[i].line)
  }

  /** The lines of both streams, sorted. */
  function Displayed(chunks: seq<LogChunk>, service: string, clean: Text -> string): seq<LogLine> {
    Unkeyed(Sort(StreamLines(chunks, Stdout, service, clean) + StreamLines(chunks, Stderr, service, clean), KeyLe))
  }

  method Build(chunks: seq<LogChunk>, service: string, clean: Text -> string) returns (lines: seq<LogLine>)
    ensures lines == Displayed(chunks, service, clean)
  {
    var out := ReassembleStream(chunks, Stdout, service, clean);
    var err := ReassembleStream(chunks, Stderr, service, clean);
    lines := Unkeyed(Sort(out + err, KeyLe));
  }

  // ----- What the result shows of each stream

  /** The result holds exactly the lines of both streams, each once. A line whose
      first byte came in a chunk of smaller offset stands first; within a chunk's
      offset the earlier line of the stream does. */
  lemma LinesStandInOffsetOrder(chunks: seq<LogChunk>, service: string, clean: Text -> string) returns (keyed: seq<Keyed>)
    ensures Displayed(chunks, service, clean) == Unkeyed(keyed)
    ensures multiset(keyed) ==
              multiset(StreamLines(chunks, Stdout, service, clean)) + multiset(StreamLines(chunks, Stderr, service, clean))
    ensures forall i, j :: 0 <= i < j < |keyed| ==>
              && keyed[i].offset <= keyed[j].offset
              && (keyed[i].offset == keyed[j].offset ==> keyed[i].position <= keyed[j].position)
  {
    var out, err := StreamLines(chunks, Stdout, service, clean), StreamLines(chunks, Stderr, service, clean);
    keyed := Sort(out + err, KeyLe);
    KeyLeIsPreorder();
    SortSorts(out + err, KeyLe);
    hide Sort, StreamLines;
    forall i, j | 0 <= i < j < |keyed|
      ensures keyed[i].offset <= keyed[j].offset
      ensures keyed[i].offset == keyed[j].offset ==> keyed[i].position <= keyed[j].position
    {
      assert KeyLe(keyed[i], keyed[j]);
    }
  }

  function OfLines(lines: seq<LogLine>, stream: Stream): seq<LogLine> {
    Keep(lines, (line: LogLine) => line.stream == stream)
  }

  function FromStream(stream: Stream): Keyed -> bool {
    (keyed: Keyed) => keyed.line.stream == stream
  }

  lemma {:induction false} UnkeyedKeep(lines: seq<Keyed>, stream: Stream)
    ensures OfLines(Unkeyed(lines), stream) == Unkeyed(Keep(lines, FromStream(stream)))
  {
    if lines != [] {
      UnkeyedKeep(lines[1..], stream);
      assert Unkeyed(lines)[1..] == Unkeyed(lines[1..]);
      var kept := Keep(lines[1..], FromStream(stream));
      assert Unkeyed([lines[0]] + kept) == [lines[0].line] + Unkeyed(kept);
    }
  }

  lemma {:induction false} KeepConcat<T>(s: seq<T>, t: seq<T>, p: T -> bool)
    ensures Keep(s + t, p) == Keep(s, p) + Keep(t, p)
  {
    if s == [] {
      assert s + t == t;
    } else {
      KeepConcat(s[1..], t, p);
      assert (s + t)[1..] == s[1..] + t;
    }
  }

  lemma {:induction false} LinesFromStream(chunks: seq<LogChunk>, lines: seq<Text>, position: nat,
                                           stream: Stream, service: string, clean: Text -> string, other: Stream)
    requires position + |Joined(lines)| <= |TextOf(chunks)|
    requires NoneEmpty(lines)
    ensures var all := LinesFrom(chunks, lines, position, stream, service, clean);
      Keep(all, FromStream(other)) == if other == stream then all else []
  {
    if lines != [] {
      LinesFromStream(chunks, lines[1..], position + |lines[0]|, stream, service, clean, other);
      var all := LinesFrom(chunks, lines, position, stream, service, clean);
      assert all[1..] == LinesFrom(chunks, lines[1..], position + |lines[0]|, stream, service, clean);
    }
  }

  /** Chunks are listed in the order of their offsets. */
  ghost predicate InOrder(chunks: seq<LogChunk>) {
    forall i, j :: 0 <= i < j < |chunks| ==> chunks[i].offset <= chunks[j].offset
  }

  lemma {:induction false} HolderIsChunk(chunks: seq<LogChunk>, position: nat)
    requires position < |TextOf(chunks)|
    ensures Holder(chunks, position) in chunks
  {
    if position >= |chunks[0].text| {
      HolderIsChunk(chunks[1..], position - |chunks[0].text|);
      assert forall chunk <- chunks[1..] :: chunk in chunks;
    }
  }

  lemma {:induction false} HoldersInOrder(chunks: seq<LogChunk>, p: nat, q: nat)
    requires InOrder(chunks) && p <= q < |TextOf(chunks)|
    ensures Holder(chunks, p).offset <= Holder(chunks, q).offset
  {
    HolderIsChunk(chunks, q);
    if p >= |chunks[0].text| {
      HoldersInOrder(chunks[1..], p - |chunks[0].text|, q - |chunks[0].text|);
    }
  }

  lemma {:induction false} LinesFromSorted(chunks: seq<LogChunk>, lines: seq<Text>, position: nat,
                                           stream: Stream, service: string, clean: Text -> string)
    requires InOrder(chunks)
    requires position + |Joined(lines)| <= |TextOf(chunks)|
    requires NoneEmpty(lines)
    ensures var all := LinesFrom(chunks, lines, position, stream, service, clean);
      && Sorted(all, KeyLe)
      && forall keyed <- all :: keyed.position >= position && keyed.position < |TextOf(chunks)|
           && keyed.offset == Holder(chunks, keyed.position).offset
  {
    if lines != [] {
      var next := position + |lines[0]|;
      var rest := LinesFrom(chunks, lines[1..], next, stream, service, clean);
      LinesFromSorted(chunks, lines[1..], next, stream, service, clean);
      var all := LinesFrom(chunks, lines, position, stream, service, clean);
      assert all[1..] == rest;
      forall keyed | keyed in rest ensures KeyLe(all[0], keyed) {
        HoldersInOrder(chunks, position, keyed.position);
      }
      PrependSorted(all[0], rest, KeyLe);
    }
  }

  lemma {:induction false} KeepInOrder(chunks: seq<LogChunk>, stream: Stream)
    requires InOrder(chunks)
    ensures InOrder(OfStream(chunks, stream))
  {
    if chunks != [] {
      KeepInOrder(chunks[1..], stream);
      KeptAreKept(chunks[1..], InStream(stream));
      var kept := OfStream(chunks[1..], stream);
      forall j | 0 <= j < |kept| ensures chunks[0].offset <= kept[j].offset {
        assert kept[j] in kept;
      }
    }
  }

  lemma KeyLeIsPreorder()
    ensures TotalPreorder(KeyLe)
  {
  }

  /** Restricted to one stream, the result is that stream's lines in their
      original order: none lost, none moved, none from the other stream. */
  lemma ResultKeepsEachStream(chunks: seq<LogChunk>, service: string, clean: Text -> string, stream: Stream)
    requires InOrder(chunks)
    ensures OfLines(Displayed(chunks, service, clean), stream) == Unkeyed(StreamLines(chunks, stream, service, clean))
  {
    var out, err := StreamLines(chunks, Stdout, service, clean), StreamLines(chunks, Stderr, service, clean);
    KeyLeIsPreorder();
    UnkeyedKeep(Sort(out + err, KeyLe), stream);
    KeepSort(out + err, KeyLe, FromStream(stream));
    KeepConcat(out, err, FromStream(stream));
    OneStream(chunks, Stdout, service, clean, stream);
    OneStream(chunks, Stderr, service, clean, stream);
    assert out + [] == out && [] + err == err;
    SortedStays(if stream == Stdout then out else err, KeyLe);
  }

  lemma OneStream(chunks: seq<LogChunk>, stream: Stream, service: string, clean: Text -> string, other: Stream)
    requires InOrder(chunks)
    ensures var all := StreamLines(chunks, stream, service, clean);
      && Sorted(all, KeyLe)
      && Keep(all, FromStream(other)) == if other == stream then all else []
  {
    var own := OfStream(chunks, stream);
    LinesKeepText(TextOf(own));
    KeepInOrder(chunks, stream);
    LinesFromSorted(own, Lines(TextOf(own)), 0, stream, service, clean);
    LinesFromStream(own, Lines(TextOf(own)), 0, stream, service, clean, other);
  }
}
