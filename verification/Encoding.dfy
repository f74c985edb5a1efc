/**
 Characters by their numbers: the arithmetic of section 3 of RFC 3629, against
 which the byte ranges of `Utf8` are measured.
 */
module Encoding {
  import opened Sequences
  import opened Utf8

  /** The numbers of characters; surrogates have no encoding. */
  predicate IsScalar(c: int) {
    0 <= c <= 0x10FFFF && !(0xD800 <= c <= 0xDFFF)
  }

  /** The bits of a number, six to a continuation byte. */
  function Encode(c: int): (bytes: seq<Byte>)
    requires IsScalar(c)
    ensures bytes != []
  {
    if c < 0x80 then [c]
    else if c < 0x800 then [0xC0 + c / 64, 0x80 + c % 64]
    else if c < 0x10000 then [0xE0 + c / 64 / 64, 0x80 + c / 64 % 64, 0x80 + c % 64]
    else [0xF0 + c / 64 / 64 / 64, 0x80 + c / 64 / 64 % 64, 0x80 + c / 64 % 64, 0x80 + c % 64]
  }

  ghost predicate Encodes(bytes: seq<Byte>) {
    exists c: int :: IsScalar(c) && Encode(c) == bytes
  }

  /** Whether a non-empty sequence is an encoding with something missing at its end. */
  ghost predicate Begins(bytes: seq<Byte>) {
    bytes != [] && exists c: int :: IsScalar(c) && bytes < Encode(c)
  }

  // ----- Single characters

  lemma EncodingIsChar(c: int)
    requires IsScalar(c)
    ensures First(Encode(c)) == Char(|Encode(c)|)
  {
  }

  lemma SixBits(high: int, low: int)
    requires 0 <= low < 64
    ensures (high * 64 + low) / 64 == high && (high * 64 + low) % 64 == low
  {
  }

  lemma CharIsEncoding(s: seq<Byte>)
    requires s != [] && First(s) == Char(|s|)
    ensures Encodes(s)
  {
    hide Encode;
    var digits := seq(|s|, i requires 0 <= i < |s| => s[i] as int - 0x80);
    if |s| == 1 {
      OneByte(s[0]);
    } else if |s| == 2 {
      TwoBytes(s[0] as int - 0xC0, digits[1]);
    } else if |s| == 3 {
      ThreeBytes(s[0] as int - 0xE0, digits[1], digits[2]);
    } else {
      FourBytes(s[0] as int - 0xF0, digits[1], digits[2], digits[3]);
    }
    assert |s| == 2 ==> s == [s[0], s[1]];
    assert |s| == 3 ==> s == [s[0], s[1], s[2]];
    assert |s| == 4 ==> s == [s[0], s[1], s[2], s[3]];
    assert |s| == 1 ==> s == [s[0]];
  }

  lemma OneByte(b: int)
    requires 0 <= b < 0x80
    ensures Encodes([b])
  {
    assert Encode(b) == [b];
  }

  lemma TwoBytes(a: int, b: int)
    requires 2 <= a < 32 && 0 <= b < 64
    ensures Encodes([0xC0 + a, 0x80 + b])
  {
    SixBits(a, b);
    assert Encode(a * 64 + b) == [0xC0 + a, 0x80 + b];
  }

  lemma ThreeBytes(a: int, b: int, c: int)
    requires 0 <= a < 16 && 0 <= b < 64 && 0 <= c < 64
    requires (a == 0 ==> b >= 32) && (a == 13 ==> b < 32)
    ensures Encodes([0xE0 + a, 0x80 + b, 0x80 + c])
  {
    SixBits(a, b);
    SixBits(a * 64 + b, c);
    assert Encode((a * 64 + b) * 64 + c) == [0xE0 + a, 0x80 + b, 0x80 + c];
  }

  lemma FourBytes(a: int, b: int, c: int, d: int)
    requires 0 <= a <= 4 && 0 <= b < 64 && 0 <= c < 64 && 0 <= d < 64
    requires (a == 0 ==> b >= 16) && (a == 4 ==> b < 16)
    ensures Encodes([0xF0 + a, 0x80 + b, 0x80 + c, 0x80 + d])
  {
    SixBits(a, b);
    SixBits(a * 64 + b, c);
    SixBits((a * 64 + b) * 64 + c, d);
    assert Encode(((a * 64 + b) * 64 + c) * 64 + d) == [0xF0 + a, 0x80 + b, 0x80 + c, 0x80 + d];
  }

  lemma CutBegins(p: seq<Byte>)
    requires p != []
    ensures First(p) == Cut(|p|) <==> Begins(p)
  {
    hide Encode;
    if First(p) == Cut(|p|) {
      var t := Completion(p);
      hide First, Completion;
      CharIsEncoding(p + t);
      assert p + t != p;
      var c :| IsScalar(c) && Encode(c) == p + t;
      assert p < Encode(c);
    }
    if Begins(p) {
      hide First;
      var c :| IsScalar(c) && p < Encode(c);
      EncodingIsChar(c);
      FirstIsLocal(Encode(c), |p|);
      assert Encode(c)[..|p|] == p;
    }
  }

  /** A stream starts with a character of `n` bytes exactly when these encode one. */
  lemma CharactersAreEncodings(s: seq<Byte>, n: nat)
    requires s != []
    ensures First(s) == Char(n) <==> n <= |s| && Encodes(s[..n])
  {
    hide First, Encode;
    if First(s) == Char(n) {
      FirstIsLocal(s, n);
      CharIsEncoding(s[..n]);
    }
    if n <= |s| && Encodes(s[..n]) {
      var c :| IsScalar(c) && Encode(c) == s[..n];
      EncodingIsChar(c);
      FirstIsStable(s[..n], s[n..]);
      assert s[..n] + s[n..] == s;
    }
  }

  /** Whether the first `n` bytes are the longest start of an encoding that the
      stream starts with. */
  ghost predicate LongestBeginning(s: seq<Byte>, n: nat) {
    && n <= |s| && Begins(s[..n])
    && forall k :: n < k <= |s| ==> !Begins(s[..k])
  }

  /** It starts with a truncated character of `n` bytes exactly when no encoding
      is a prefix of it and these are its longest start of one. */
  lemma CutsAreLongestBeginnings(s: seq<Byte>, n: nat)
    requires s != []
    ensures First(s) == Cut(n) <==> LongestBeginning(s, n) && forall k :: 0 <= k <= |s| ==> !Encodes(s[..k])
  {
    hide First, Encode, Encodes, Begins;
    forall k: nat | k <= |s| ensures Encodes(s[..k]) <==> First(s) == Char(k) { CharactersAreEncodings(s, k); }
    forall k: nat | 0 < k <= |s| ensures Begins(s[..k]) <==> First(s[..k]) == Cut(k) { CutBegins(s[..k]); }
    forall k: nat | 0 < k <= |s| ensures First(s[..k]) == if k >= First(s).Size() then First(s) else Cut(k) {
      FirstIsLocal(s, k);
    }
    NothingBegins(s);
  }

  /** Otherwise it starts with a byte that starts nothing. */
  lemma StraysBeginNothing(s: seq<Byte>)
    requires s != []
    ensures First(s) == Stray <==> forall k :: 0 <= k <= |s| ==> !Encodes(s[..k]) && !Begins(s[..k])
  {
    hide First, Encode, Encodes, Begins;
    forall k: nat | k <= |s| ensures Encodes(s[..k]) <==> First(s) == Char(k) { CharactersAreEncodings(s, k); }
    forall k: nat | 0 < k <= |s| ensures Begins(s[..k]) ==> !First(s).Stray? {
      CutBegins(s[..k]);
      FirstIsLocal(s, k);
    }
    NothingBegins(s);
    if First(s).Cut? { CutsAreLongestBeginnings(s, First(s).size); }
  }

  lemma NothingBegins(s: seq<Byte>)
    ensures !Begins(s[..0])
  {
  }

  // ----- Decoding

  /** Decoding, byte by byte of the two standards: an encoding gives its
      character, and the longest start of one, or else a single byte, gives one
      replacement character. */
  lemma LossyByEncodings(s: seq<Byte>, n: nat)
    requires s != []
    ensures n <= |s| && Encodes(s[..n]) ==> Lossy(s) == [Scalar(s[..n])] + Lossy(s[n..])
    ensures (forall k :: 0 <= k <= |s| ==> !Encodes(s[..k])) ==>
              && (LongestBeginning(s, n) ==> Lossy(s) == [Replacement] + Lossy(s[n..]))
              && ((forall k :: 0 <= k <= |s| ==> !Begins(s[..k])) ==> Lossy(s) == [Replacement] + Lossy(s[1..]))
  {
    hide First, Encode, Encodes, Begins;
    CharactersAreEncodings(s, n);
    CutsAreLongestBeginnings(s, n);
    LossyFirst(s);
    if First(s).Char? { CharactersAreEncodings(s, First(s).size); }
    if First(s).Cut? { CutsAreLongestBeginnings(s, First(s).size); }
  }

  lemma LossyFirst(s: seq<Byte>)
    requires s != []
    ensures Lossy(s) == [if First(s).Char? then Scalar(s[..First(s).size]) else Replacement] + Lossy(s[First(s).Size()..])
  {
    hide First;
    ParseFirst(s);
    assert Parse(s)[1..] == Parse(s[First(s).Size()..]);
  }

  function EncodeAll(cs: seq<int>): seq<Byte>
    requires forall c <- cs :: IsScalar(c)
  {
    if cs == [] then [] else Encode(cs[0]) + EncodeAll(cs[1..])
  }

  function Scalars(cs: seq<int>): seq<Symbol>
    requires forall c <- cs :: IsScalar(c)
  {
    if cs == [] then [] else [Scalar(Encode(cs[0]))] + Scalars(cs[1..])
  }

  lemma WellFormedFirst(s: seq<Byte>)
    requires s != []
    ensures WellFormed(s) <==> First(s).Char? && WellFormed(s[First(s).Size()..])
  {
    hide First;
    ParseFirst(s);
    var rest := Parse(s[First(s).Size()..]);
    assert forall part <- rest :: part in Parse(s);
    assert Parse(s)[0] in Parse(s);
  }

  /** Well-formed streams are exactly the encodings of sequences of characters. */
  lemma {:induction false} WellFormedMeansEncoded(s: seq<Byte>) returns (cs: seq<int>)
    requires WellFormed(s)
    ensures (forall c <- cs :: IsScalar(c)) && EncodeAll(cs) == s
    decreases |s|
  {
    hide First, Encode, WellFormed;
    if s == [] {
      cs := [];
    } else {
      var n := First(s).Size();
      WellFormedFirst(s);
      CharactersAreEncodings(s, n);
      var c :| IsScalar(c) && Encode(c) == s[..n];
      var rest := WellFormedMeansEncoded(s[n..]);
      cs := [c] + rest;
      assert cs[1..] == rest;
      assert s == s[..n] + s[n..];
    }
  }

  /** And decoding gives these characters back. */
  lemma {:induction false} EncodedIsWellFormed(cs: seq<int>)
    requires forall c <- cs :: IsScalar(c)
    ensures WellFormed(EncodeAll(cs))
    ensures Lossy(EncodeAll(cs)) == Scalars(cs)
  {
    if cs != [] {
      hide First, Encode, Encodes, WellFormed, Lossy;
      var s, n := EncodeAll(cs), |Encode(cs[0])|;
      assert s[..n] == Encode(cs[0]) && s[n..] == EncodeAll(cs[1..]);
      EncodingEncodes(cs[0]);
      CharactersAreEncodings(s, n);
      EncodedIsWellFormed(cs[1..]);
      WellFormedFirst(s);
      LossyByEncodings(s, n);
      var rest := Scalars(cs[1..]);
      assert Scalars(cs) == [Scalar(Encode(cs[0]))] + rest;
    }
  }

  lemma EncodingEncodes(c: int)
    requires IsScalar(c)
    ensures Encodes(Encode(c))
  {
  }
}
