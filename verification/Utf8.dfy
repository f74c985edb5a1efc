/**
 UTF-8 byte streams, by the table of well-formed sequences in section 4 of
 RFC 3629, and their decoding with one replacement character for each maximal
 part that cannot be decoded, as section 3.9 of the Unicode Standard recommends.
 */
module Utf8 {
  import opened Outcomes
  import opened Sequences

  type Byte = b: int | 0 <= b < 256

  /** What a stream starts with: a character, a byte no character starts with,
      or a character cut off by the end or by a byte that cannot continue it. */
  datatype Unit = Char(size: nat) | Stray | Cut(size: nat) {
    function Size(): nat {
      match this
      case Char(n) => n
      case Stray => 1
      case Cut(n) => n
    }
  }

  /** The length the first byte announces; zero if none. */
  function Width(b: Byte): nat {
    if b < 0x80 then 1
    else if 0xC2 <= b < 0xE0 then 2
    else if 0xE0 <= b < 0xF0 then 3
    else if 0xF0 <= b < 0xF5 then 4
    else 0
  }

  predicate Continues(b: Byte) {
    0x80 <= b < 0xC0
  }

  predicate ContinuesFirst(first: Byte, b: Byte) {
    if first == 0xE0 then 0xA0 <= b < 0xC0
    else if first == 0xED then 0x80 <= b < 0xA0
    else if first == 0xF0 then 0x90 <= b < 0xC0
    else if first == 0xF4 then 0x80 <= b < 0x90
    else Continues(b)
  }

  function First(s: seq<Byte>): (u: Unit)
    requires s != []
    ensures 1 <= u.Size() <= |s| && u.Size() <= 4
    ensures u.Cut? ==> u.size <= 3
  {
    var width := Width(s[0]);
    if width == 0 then Stray
    else if width == 1 then Char(1)
    else if |s| < 2 || !ContinuesFirst(s[0], s[1]) then Cut(1)
    else if width == 2 then Char(2)
    else if |s| < 3 || !Continues(s[2]) then Cut(2)
    else if width == 3 then Char(3)
    else if |s| < 4 || !Continues(s[3]) then Cut(3)
    else Char(4)
  }

  /** A unit is decided by its own bytes; a cut character also by the byte after. */
  lemma FirstIsLocal(s: seq<Byte>, k: nat)
    requires s != [] && 0 < k <= |s|
    ensures k >= First(s).Size() ==> First(s[..k]) == First(s)
    ensures k < First(s).Size() ==> First(s[..k]) == Cut(k)
  {
  }

  lemma FirstIsStable(s: seq<Byte>, t: seq<Byte>)
    requires s != []
    requires First(s).Cut? ==> First(s).size < |s|
    ensures First(s + t) == First(s)
  {
  }

  // ----- Streams as parts

  datatype Kind = Character | Undecodable | Truncated

  /** One unit of a stream, with its bytes. */
  datatype Part = Part(kind: Kind, bytes: seq<Byte>)

  function PartOf(s: seq<Byte>): (p: Part)
    requires s != []
    ensures 0 < |p.bytes| <= |s|
  {
    var u := First(s);
    Part(match u case Char(_) => Character case Stray => Undecodable case Cut(_) => Truncated, s[..u.Size()])
  }

  lemma PartIsPrefix(s: seq<Byte>)
    requires s != []
    ensures PartOf(s).bytes == s[..|PartOf(s).bytes|]
    ensures |PartOf(s).bytes| <= if PartOf(s).kind.Truncated? then 3 else 4
  {
  }

  function Parse(s: seq<Byte>): seq<Part> {
    if s == [] then [] else [PartOf(s)] + Parse(s[|PartOf(s).bytes|..])
  }

  function Bytes(parts: seq<Part>): seq<Byte> {
    if parts == [] then [] else parts[0].bytes + Bytes(parts[1..])
  }

  lemma BytesFirst(part: Part, others: seq<Part>)
    ensures Bytes([part] + others) == part.bytes + Bytes(others)
  {
    assert ([part] + others)[1..] == others;
  }

  lemma {:induction false} ParseKeepsBytes(s: seq<Byte>)
    ensures Bytes(Parse(s)) == s
  {
    hide PartOf, First;
    if s != [] {
      var n := |PartOf(s).bytes|;
      PartIsPrefix(s);
      ParseKeepsBytes(s[n..]);
      BytesFirst(PartOf(s), Parse(s[n..]));
      assert s == s[..n] + s[n..];
    }
  }

  lemma {:induction false} BytesConcat(ps: seq<Part>, qs: seq<Part>)
    ensures Bytes(ps + qs) == Bytes(ps) + Bytes(qs)
  {
    if ps == [] {
      assert ps + qs == qs;
    } else {
      var first, rest := ps[0], ps[1..];
      BytesConcat(rest, qs);
      assert ps + qs == [first] + (rest + qs) && ps == [first] + rest;
      hide *;
      BytesFirst(first, rest + qs);
      BytesFirst(first, rest);
      ConcatAssociates(first.bytes, Bytes(rest), Bytes(qs));
    }
  }

  // ----- Decoding

  datatype Symbol = Scalar(bytes: seq<Byte>) | Replacement

  function Decode(parts: seq<Part>): seq<Symbol> {
    seq(|parts|, i requires 0 <= i < |parts| =>
      if parts[i].kind.Character? then Scalar(parts[i].bytes) else Replacement)
  }

  function Lossy(s: seq<Byte>): seq<Symbol> {
    Decode(Parse(s))
  }

  predicate WellFormed(s: seq<Byte>) {
    forall part <- Parse(s) :: part.kind.Character?
  }

  // ----- Where a stream stops being settled

  /** The index of the first truncated character; the length without one. */
  function FirstCut(parts: seq<Part>): (k: nat)
    ensures k <= |parts|
    ensures forall i :: 0 <= i < k ==> !parts[i].kind.Truncated?
    ensures k < |parts| ==> parts[k].kind.Truncated?
  {
    if parts == [] || parts[0].kind.Truncated? then 0 else 1 + FirstCut(parts[1..])
  }

  predicate NoCut(parts: seq<Part>) {
    forall part <- parts :: !part.kind.Truncated?
  }

  /** A stream without truncated characters: nothing in it waits for more bytes. */
  predicate Settled(s: seq<Byte>) {
    NoCut(Parse(s))
  }

  /** How many leading bytes precede the first truncated character. */
  function Boundary(s: seq<Byte>): (n: nat)
    ensures n <= |s|
  {
    PrefixFits(s, FirstCut(Parse(s)));
    |Bytes(Parse(s)[..FirstCut(Parse(s))])|
  }

  lemma PrefixFits(s: seq<Byte>, k: nat)
    requires k <= |Parse(s)|
    ensures |Bytes(Parse(s)[..k])| <= |s|
  {
    hide PartOf, First;
    var parts := Parse(s);
    ParseKeepsBytes(s);
    BytesConcat(parts[..k], parts[k..]);
    assert parts == parts[..k] + parts[k..];
  }

  /** No truncated character is followed by more bytes. */
  ghost predicate OnlyLastIsCut(s: seq<Byte>) {
    forall i :: 0 <= i < |Parse(s)| - 1 ==> !Parse(s)[i].kind.Truncated?
  }

  // ----- Splitting

  lemma PartIsStable(s: seq<Byte>, t: seq<Byte>)
    requires s != []
    requires PartOf(s).kind.Truncated? ==> PartOf(s).bytes != s
    ensures PartOf(s + t) == PartOf(s)
  {
    FirstIsStable(s, t);
    assert (s + t)[..First(s).Size()] == s[..First(s).Size()];
  }

  lemma WholePart(s: seq<Byte>)
    requires s != []
    ensures PartOf(s).bytes == s ==> Parse(s) == [PartOf(s)]
    ensures PartOf(s) == Part(Truncated, s) ==> First(s) == Cut(|s|)
  {
  }

  /** Unless the last part is truncated, more bytes leave the parts alone. */
  lemma {:induction false} ParseAppend(s: seq<Byte>, t: seq<Byte>)
    requires s != [] ==> !Parse(s)[|Parse(s)| - 1].kind.Truncated?
    ensures Parse(s + t) == Parse(s) + Parse(t)
  {
    hide PartOf, First;
    if s == [] {
      assert s + t == t;
    } else {
      var n := |PartOf(s).bytes|;
      assert Parse(s) == [PartOf(s)] + Parse(s[n..]);
      WholePart(s);
      PartIsStable(s, t);
      ParseAppend(s[n..], t);
      assert (s + t)[n..] == s[n..] + t;
    }
  }

  /** A stream split after its first `k` parts parses to those and the others. */
  lemma ParseFirst(s: seq<Byte>)
    requires s != []
    ensures 0 < |PartOf(s).bytes| <= |s| && Parse(s) == [PartOf(s)] + Parse(s[|PartOf(s).bytes|..])
  {
    hide PartOf;
  }

  lemma NothingParsed(s: seq<Byte>)
    ensures s == [] <==> Parse(s) == []
    ensures Bytes([]) == []
  {
    hide PartOf;
  }

  lemma {:induction false} ParseSplit(s: seq<Byte>, k: nat)
    requires k <= |Parse(s)|
    requires k == 0 || !Parse(s)[k - 1].kind.Truncated?
    ensures var b := |Bytes(Parse(s)[..k])|;
      b <= |s| && Parse(s[..b]) == Parse(s)[..k] && Parse(s[b..]) == Parse(s)[k..]
  {
    hide Parse, PartOf, Bytes;
    NothingParsed(s);
    NothingParsed([]);
    if k == 0 {
      assert s[..0] == [] && s[0..] == s;
      assert Parse(s)[..0] == [] && Parse(s)[0..] == Parse(s);
    } else {
      ParseFirst(s);
      var head, n := PartOf(s), |PartOf(s).bytes|;
      var rest := s[n..];
      assert k > 1 ==> Parse(rest)[k - 2] == Parse(s)[k - 1];
      ParseSplit(rest, k - 1);
      var front := Parse(rest)[..k - 1];
      var b := n + |Bytes(front)|;
      assert Parse(s)[..k] == [head] + front;
      BytesFirst(head, front);
      PrefixPart(s, b);
      ParseFirst(s[..b]);
      assert s[..b][n..] == rest[..b - n] && s[b..] == rest[b - n..];
      assert Parse(s)[k..] == Parse(rest)[k - 1..];
    }
  }

  /** A prefix holding at least the first part, not truncated there, starts with it. */
  lemma PrefixPart(s: seq<Byte>, k: nat)
    requires s != [] && |PartOf(s).bytes| <= k <= |s|
    ensures PartOf(s[..k]) == PartOf(s)
  {
    FirstIsLocal(s, k);
    assert s[..k][..First(s).Size()] == s[..First(s).Size()];
  }

  /** The flushed part is settled, and a truncated character starts the rest. */
  lemma BoundarySplits(s: seq<Byte>)
    ensures var b, k := Boundary(s), FirstCut(Parse(s));
      && Parse(s[..b]) == Parse(s)[..k]
      && Parse(s[b..]) == Parse(s)[k..]
      && Settled(s[..b])
      && Boundary(s[b..]) == 0
  {
    var k := FirstCut(Parse(s));
    ParseSplit(s, k);
    assert FirstCut(Parse(s)[k..]) == 0;
  }

  lemma SettledMeansBoundaryAtEnd(s: seq<Byte>)
    ensures Settled(s) <==> Boundary(s) == |s|
  {
    BoundarySplits(s);
    var b, k := Boundary(s), FirstCut(Parse(s));
    assert k < |Parse(s)| ==> Parse(s)[k] in Parse(s);
    if Settled(s) {
      ParseKeepsBytes(s);
      assert Parse(s)[..k] == Parse(s);
    }
    if b == |s| { assert s[..b] == s; }
  }

  // After a settled prefix, everything starts afresh.

  lemma AfterSettled(s: seq<Byte>, t: seq<Byte>)
    requires Settled(s)
    ensures Parse(s + t) == Parse(s) + Parse(t)
    ensures Lossy(s + t) == Lossy(s) + Lossy(t)
    ensures WellFormed(s + t) <==> WellFormed(s) && WellFormed(t)
  {
    hide PartOf, First;
    var ps, qs := Parse(s), Parse(t);
    assert s != [] ==> ps[|ps| - 1] in ps;
    ParseAppend(s, t);
    assert forall part :: part in ps + qs <==> part in ps || part in qs;
  }

  lemma BoundaryAfterSettled(s: seq<Byte>, t: seq<Byte>)
    requires Settled(s)
    ensures Boundary(s + t) == |s| + Boundary(t)
  {
    hide PartOf, First, Parse;
    var ps, qs := Parse(s), Parse(t);
    AfterSettled(s, t);
    FirstCutAfter(ps, qs);
    var k := FirstCut(qs);
    assert (ps + qs)[..|ps| + k] == ps + qs[..k];
    BytesConcat(ps, qs[..k]);
    ParseKeepsBytes(s);
  }

  lemma {:induction false} FirstCutAfter(ps: seq<Part>, qs: seq<Part>)
    requires NoCut(ps)
    ensures FirstCut(ps + qs) == |ps| + FirstCut(qs)
  {
    if ps == [] {
      assert ps + qs == qs;
    } else {
      assert ps[0] in ps;
      FirstCutAfter(ps[1..], qs);
      assert (ps + qs)[1..] == ps[1..] + qs;
    }
  }

  // ----- What is held back

  /** The bytes held back are nothing, or one character cut off by the end,
      exactly when no truncated character is followed by more bytes. */
  lemma HeldBackIsTrailing(s: seq<Byte>)
    ensures OnlyLastIsCut(s) <==> Boundary(s) == |s| || Parse(s[Boundary(s)..]) == [Part(Truncated, s[Boundary(s)..])]
  {
    hide PartOf, First;
    var parts, b, k := Parse(s), Boundary(s), FirstCut(Parse(s));
    BoundarySplits(s);
    SettledMeansBoundaryAtEnd(s);
    ParseKeepsBytes(s[b..]);
    if b == |s| {
      assert forall i :: 0 <= i < |parts| ==> parts[i] in parts;
    } else {
      assert k < |parts|;
      assert OnlyLastIsCut(s) <==> k == |parts| - 1;
      if k == |parts| - 1 {
        assert parts[k..] == [parts[k]];
        BytesOfOne(parts[k]);
      }
    }
  }

  lemma BytesOfOne(part: Part)
    ensures Bytes([part]) == part.bytes
  {
    assert [part][1..] == [];
  }

  /** Once a truncated character is followed by more bytes, nothing after it is
      ever released, however long the stream goes on. */
  lemma InnerCutHoldsEverything(s: seq<Byte>, t: seq<Byte>)
    requires !OnlyLastIsCut(s)
    ensures Boundary(s + t) == Boundary(s) < |s|
    ensures !Settled(s + t)
  {
    hide PartOf, First, Parse;
    var b, k := Boundary(s), FirstCut(Parse(s));
    HeldBackIsTrailing(s);
    BoundarySplits(s);
    var rest := s[b..];
    assert s + t == s[..b] + (rest + t);
    BoundaryAfterSettled(s[..b], rest + t);
    StaysCut(rest, t);
    SettledMeansBoundaryAtEnd(s + t);
  }

  lemma StaysCut(s: seq<Byte>, t: seq<Byte>)
    requires |Parse(s)| > 1 && Parse(s)[0].kind.Truncated?
    ensures Boundary(s + t) == 0
  {
    hide PartOf, First;
    WholePart(s);
    PartIsStable(s, t);
    assert Parse(s + t)[0] == PartOf(s);
  }

  /** Bytes that complete a truncated character. */
  function Completion(s: seq<Byte>): (t: seq<Byte>)
    requires s != [] && First(s) == Cut(|s|)
    ensures |t| <= 3
    ensures First(s + t) == Char(|s + t|)
  {
    var second := if s[0] == 0xE0 then 0xA0 else if s[0] == 0xF0 then 0x90 else 0x80;
    if Width(s[0]) == 2 then [0x80]
    else if Width(s[0]) == 3 then (if |s| == 1 then [second, 0x80] else [0x80])
    else if |s| == 1 then [second, 0x80, 0x80]
    else if |s| == 2 then [0x80, 0x80]
    else [0x80]
  }

  lemma CompletionSettles(s: seq<Byte>) returns (t: seq<Byte>)
    requires OnlyLastIsCut(s)
    ensures |t| <= 3 && Settled(s + t)
  {
    hide PartOf, First, Parse, Boundary, Settled;
    var rest := s[Boundary(s)..];
    HeldBackIsTrailing(s);
    SettledMeansBoundaryAtEnd(s);
    if rest == [] {
      t := [];
      assert s + t == s;
    } else {
      CutOffByEnd(rest);
      t := Completion(rest);
      BoundarySplits(s);
      assert s + t == s[..Boundary(s)] + (rest + t);
      BoundaryAfterSettled(s[..Boundary(s)], rest + t);
      CompletedIsSettled(rest + t);
      SettledMeansBoundaryAtEnd(rest + t);
      SettledMeansBoundaryAtEnd(s + t);
    }
  }

  lemma CutOffByEnd(s: seq<Byte>)
    requires s != [] && Parse(s) == [Part(Truncated, s)]
    ensures First(s) == Cut(|s|)
  {
    assert Parse(s)[0] == PartOf(s);
    WholePart(s);
  }

  lemma CompletedIsSettled(s: seq<Byte>)
    requires s != [] && First(s) == Char(|s|)
    ensures Settled(s)
  {
    assert Parse(s) == [PartOf(s)] + Parse(s[|s|..]);
  }

  /** Later output can release everything held back exactly when no truncated
      character is followed by more bytes; three more bytes are then enough. */
  lemma HoldingIsTemporary(s: seq<Byte>)
    ensures OnlyLastIsCut(s) <==> exists t: seq<Byte> :: |t| <= 3 && Settled(s + t)
    ensures OnlyLastIsCut(s) <==> exists t: seq<Byte> :: Settled(s + t)
  {
    hide Settled;
    if OnlyLastIsCut(s) {
      var t := CompletionSettles(s);
    } else {
      forall t: seq<Byte> ensures !Settled(s + t) { InnerCutHoldsEverything(s, t); }
    }
  }

  /** At every point of a stream without inner truncated characters, at most
      three bytes are held back. */
  lemma {:induction false} AtMostThreeHeldBack(s: seq<Byte>, k: nat)
    requires OnlyLastIsCut(s) && k <= |s|
    ensures k - Boundary(s[..k]) <= 3
    decreases |s|
  {
    hide Parse, PartOf, Bytes, Boundary, First;
    if k > 0 {
      var n := |PartOf(s).bytes|;
      ParseFirst(s);
      if k < n {
        ShortPrefix(s, k);
      } else if PartOf(s).kind.Truncated? {
        PartIsPrefix(s);
        NothingParsed(s[n..]);
        assert Parse(s)[0] == PartOf(s);
        assert s[..k] == s;
      } else {
        assert forall i :: 0 <= i < |Parse(s[n..])| ==> Parse(s[n..])[i] == Parse(s)[i + 1];
        AtMostThreeHeldBack(s[n..], k - n);
        assert s[..k] == s[..n] + s[n..][..k - n];
        FirstPartSettled(s);
        BoundaryAfterSettled(s[..n], s[n..][..k - n]);
      }
    }
  }

  lemma FirstPartSettled(s: seq<Byte>)
    requires s != [] && !PartOf(s).kind.Truncated?
    ensures Settled(s[..|PartOf(s).bytes|])
  {
    hide PartOf, Parse;
    ParseOne(s);
  }

  lemma ShortPrefix(s: seq<Byte>, k: nat)
    requires s != [] && 0 < k < |PartOf(s).bytes|
    ensures k <= 3 && Boundary(s[..k]) == 0
  {
    PartIsPrefix(s);
    FirstIsLocal(s, k);
    assert Parse(s[..k])[0].kind.Truncated?;
  }

  lemma ParseOne(s: seq<Byte>)
    requires s != []
    ensures Parse(s[..|PartOf(s).bytes|]) == [PartOf(s)]
  {
    var n := |PartOf(s).bytes|;
    PrefixPart(s, n);
    assert Parse(s[..n]) == [PartOf(s[..n])] + Parse(s[..n][n..]);
  }

  /** A prefix is settled no further than the stream, and the stream goes on
      from there; a prefix that can hold a whole character releases one. */
  lemma PrefixBoundary(s: seq<Byte>, k: nat)
    requires k <= |s|
    ensures var b := Boundary(s[..k]);
      && Settled(s[..b])
      && Boundary(s) == b + Boundary(s[b..])
      && (k > 3 && !PartOf(s).kind.Truncated? ==> b > 0)
  {
    var b := Boundary(s[..k]);
    BoundarySplits(s[..k]);
    assert s[..k][..b] == s[..b];
    assert s == s[..b] + s[b..];
    BoundaryAfterSettled(s[..b], s[b..]);
    if k > 3 && !PartOf(s).kind.Truncated? {
      PrefixPart(s, k);
      assert Parse(s[..k])[0] == PartOf(s);
      assert s[..k][0..] == s[..k];
    }
  }

  // ----- The standard library's views of the same parts

  /** A maximal run of characters and the undecodable part after it. */
  datatype Chunk = Chunk(valid: seq<Byte>, invalid: seq<Byte>)

  /** The chunks of a parsed stream; the last one may lack an undecodable part. */
  function Grouped(parts: seq<Part>): seq<Chunk> {
    if parts == [] then []
    else if !parts[0].kind.Character? then [Chunk([], parts[0].bytes)] + Grouped(parts[1..])
    else
      var rest := Grouped(parts[1..]);
      if rest == [] then [Chunk(parts[0].bytes, [])]
      else [Chunk(parts[0].bytes + rest[0].valid, rest[0].invalid)] + rest[1..]
  }

  /** `utf8_chunks`. */
  function Chunks(s: seq<Byte>): seq<Chunk> {
    Grouped(Parse(s))
  }

  /** The outcome of `from_utf8`: an error without a length is an unexpected end. */
  datatype Validation = Decoded | Broken(errorLength: Option<nat>)

  function Validate(s: seq<Byte>): Validation {
    if s == [] then Decoded
    else match First(s)
         case Char(n) => Validate(s[n..])
         case Stray => Broken(Some(1))
         case Cut(n) => Broken(if n == |s| then None else Some(n))
  }

  lemma ValidatePart(s: seq<Byte>)
    requires s != [] && !PartOf(s).kind.Character?
    ensures Validate(PartOf(s).bytes) == Broken(if PartOf(s).kind.Truncated? then None else Some(1))
  {
    FirstIsLocal(s, First(s).Size());
  }
}
