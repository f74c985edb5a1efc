/**
 Command output on its way into the build log: where a buffer may be flushed,
 and the loop that reads, flushes and keeps a bounded tail.
 */
module OutputStream {
  import opened Outcomes
  import opened Sequences
  import opened Utf8

  const TAIL_BYTES: nat := 8192

  const BUFFER_BYTES: nat := 4096


  /** What one successful read returns. */
  type Read = r: seq<Byte> | 0 < |r| <= BUFFER_BYTES witness [0]

  function Concat(pieces: seq<seq<Byte>>): seq<Byte> {
    if pieces == [] then [] else Concat(pieces[..|pieces| - 1]) + pieces[|pieces| - 1]
  }

  /** Every piece decoded on its own. */
  function LossyEach(pieces: seq<seq<Byte>>): seq<Symbol> {
    if pieces == [] then [] else LossyEach(pieces[..|pieces| - 1]) + Lossy(pieces[|pieces| - 1])
  }

  function LastBytes(s: seq<Byte>, n: nat): seq<Byte> {
    if |s| <= n then s else s[|s| - n..]
  }

  // ----- complete_prefix

  /** The parts that are not characters fail validation on their own, and only
      truncated ones fail by ending unexpectedly. */
  lemma {:induction false} PartsValidate(s: seq<Byte>)
    ensures forall part <- Parse(s) :: !part.kind.Character? ==>
              Validate(part.bytes) == Broken(if part.kind.Truncated? then None else Some(1))
  {
    hide PartOf, First, Validate;
    if s != [] {
      PartsValidate(s[|PartOf(s).bytes|..]);
      if !PartOf(s).kind.Character? { ValidatePart(s); }
    }
  }

  /** The number of characters a parsed stream starts with. */
  function Run(parts: seq<Part>): (n: nat)
    ensures n <= |parts|
    ensures forall i :: 0 <= i < n ==> parts[i].kind.Character?
    ensures n < |parts| ==> !parts[n].kind.Character?
  {
    if parts == [] || !parts[0].kind.Character? then 0 else 1 + Run(parts[1..])
  }

  lemma {:induction false} GroupedFirst(parts: seq<Part>)
    requires parts != []
    ensures var n := Run(parts);
      Grouped(parts) ==
        if n == |parts| then [Chunk(Bytes(parts), [])]
        else [Chunk(Bytes(parts[..n]), parts[n].bytes)] + Grouped(parts[n + 1..])
  {
    var n := Run(parts);
    if n > 0 {
      hide Bytes;
      var first, rest := parts[0], parts[1..];
      assert parts == [first] + rest;
      BytesOfOne(first);
      BytesFirst(first, rest);
      if rest == [] {
        assert Grouped(rest) == [];
      } else {
        GroupedFirst(rest);
        assert Run(rest) == n - 1;
        if n < |parts| {
          BytesFirst(first, rest[..n - 1]);
          assert parts[..n] == [first] + rest[..n - 1];
          assert parts[n + 1..] == rest[n..];
        }
      }
    }
  }

  /** How many leading bytes can be flushed: those before the first truncated
      character. */
  method CompletePrefix(bytes: seq<Byte>) returns (end: nat)
    ensures end == Boundary(bytes)
  {
    hide Parse, Validate, Grouped, Bytes, Run, NoCut, FirstCut;
    end := 0;
    var chunks := Chunks(bytes);
    ghost var parts := Parse(bytes);
    ghost var done: nat := 0;
    StopsNowhere(parts);
    for i := 0 to |chunks|
      invariant done <= |parts| && NoCut(parts[..done])
      invariant end == |Bytes(parts[..done])|
      invariant Grouped(parts[done..]) == chunks[i..]
    {
      ghost var k := NextStop(parts, done);
      assert chunks[i..][1..] == chunks[i + 1..];
      InvalidPart(bytes, k, chunks[i].invalid);
      end := end + |chunks[i].valid|;
      if Validate(chunks[i].invalid) == Broken(None) {
        StopsHere(parts, k);
        return;
      }
      end := end + |chunks[i].invalid|;
      done := if k < |parts| then k + 1 else |parts|;
    }
    GroupedEmpty(parts[done..]);
    StopsHere(parts, |parts|);
  }

  /** The next chunk: the characters up to part `k`, and that part if there is one. */
  lemma NextStop(parts: seq<Part>, done: nat) returns (k: nat)
    requires done <= |parts| && NoCut(parts[..done]) && Grouped(parts[done..]) != []
    ensures done <= k <= |parts| && NoCut(parts[..k])
    ensures var chunks, next := Grouped(parts[done..]), if k < |parts| then k + 1 else |parts|;
      && |Bytes(parts[..k])| == |Bytes(parts[..done])| + |chunks[0].valid|
      && |Bytes(parts[..next])| == |Bytes(parts[..k])| + |chunks[0].invalid|
      && Grouped(parts[next..]) == chunks[1..]
      && chunks[0].invalid == (if k < |parts| then parts[k].bytes else [])
    ensures k < |parts| ==> !parts[k].kind.Character? && (parts[k].kind.Truncated? || NoCut(parts[..k + 1]))
  {
    hide Bytes, NoCut, Grouped, Run;
    var rest := parts[done..];
    var n := Run(rest);
    k := done + n;
    GroupedEmpty(rest);
    GroupedFirst(rest);
    TakeMore(parts, done, n);
    SettlesFurther(parts, done);
    if k < |parts| {
      TakeMore(parts, k, 1);
      assert rest[n + 1..] == parts[k + 1..];
    } else {
      assert rest[..n] == rest;
      GroupedEmpty(parts[|parts|..]);
    }
  }

  /** An invalid part fails validation by ending unexpectedly exactly if truncated. */
  lemma InvalidPart(bytes: seq<Byte>, k: nat, invalid: seq<Byte>)
    requires k <= |Parse(bytes)|
    requires invalid == if k < |Parse(bytes)| then Parse(bytes)[k].bytes else []
    requires k < |Parse(bytes)| ==> !Parse(bytes)[k].kind.Character?
    ensures Validate(invalid) == Broken(None) <==> k < |Parse(bytes)| && Parse(bytes)[k].kind.Truncated?
  {
    PartsValidate(bytes);
    if k < |Parse(bytes)| { assert Parse(bytes)[k] in Parse(bytes); }
  }

  lemma GroupedEmpty(parts: seq<Part>)
    ensures Grouped(parts) == [] <==> parts == []
  {
  }

  /** The run of characters, and an undecodable part after it, are settled too. */
  lemma SettlesFurther(parts: seq<Part>, done: nat)
    requires done <= |parts| && NoCut(parts[..done])
    ensures var n := Run(parts[done..]);
      && NoCut(parts[..done + n])
      && (done + n < |parts| && !parts[done + n].kind.Truncated? ==> NoCut(parts[..done + n + 1]))
  {
    var n := Run(parts[done..]);
    assert parts[..done + n] == parts[..done] + parts[done..][..n];
    if done + n < |parts| { assert parts[..done + n + 1] == parts[..done + n] + [parts[done + n]]; }
  }

  lemma TakeMore(parts: seq<Part>, done: nat, n: nat)
    requires done + n <= |parts|
    ensures Bytes(parts[..done + n]) == Bytes(parts[..done]) + Bytes(parts[done..][..n])
    ensures n == 1 ==> Bytes(parts[done..][..n]) == parts[done].bytes
  {
    assert parts[..done + n] == parts[..done] + parts[done..][..n];
    BytesConcat(parts[..done], parts[done..][..n]);
    if n == 1 {
      BytesOfOne(parts[done]);
      assert parts[done..][..1] == [parts[done]];
    }
  }

  lemma StopsNowhere(parts: seq<Part>)
    ensures NoCut(parts[..0]) && Bytes(parts[..0]) == []
  {
  }

  lemma StopsHere(parts: seq<Part>, k: nat)
    requires k <= |parts| && NoCut(parts[..k])
    requires k < |parts| ==> parts[k].kind.Truncated?
    ensures FirstCut(parts) == k
  {
    assert forall i :: 0 <= i < k ==> parts[i] in parts[..k];
  }

  // ----- tail_recorded

  lemma ConcatAppend(pieces: seq<seq<Byte>>, piece: seq<Byte>)
    ensures Concat(pieces + [piece]) == Concat(pieces) + piece
    ensures LossyEach(pieces + [piece]) == LossyEach(pieces) + Lossy(piece)
  {
    assert (pieces + [piece])[..|pieces|] == pieces;
  }

  lemma ConcatNothing()
    ensures Concat([]) == [] && LossyEach([]) == []
  {
  }

  lemma LossyNothing()
    ensures Lossy([]) == []
  {
  }

  lemma {:induction false} ConcatConcat(a: seq<seq<Byte>>, b: seq<seq<Byte>>)
    ensures Concat(a + b) == Concat(a) + Concat(b)
    ensures LossyEach(a + b) == LossyEach(a) + LossyEach(b)
  {
    hide Lossy, Concat, LossyEach;
    if b == [] {
      NothingAdded(a);
      NothingAdded(Concat(a));
      NothingAdded(LossyEach(a));
      ConcatNothing();
    } else {
      var front, last := b[..|b| - 1], b[|b| - 1];
      ConcatConcat(a, front);
      LastOfConcat(a, b);
      ConcatAppend(a + front, last);
      ConcatAppend(front, last);
      ConcatAssociates(Concat(a), Concat(front), last);
      ConcatAssociates(LossyEach(a), LossyEach(front), Lossy(last));
    }
  }

  lemma ConcatFirst(piece: seq<Byte>, rest: seq<seq<Byte>>)
    ensures Concat([piece] + rest) == piece + Concat(rest)
    ensures LossyEach([piece] + rest) == Lossy(piece) + LossyEach(rest)
  {
    hide Lossy, Concat, LossyEach;
    ConcatConcat([piece], rest);
    ConcatNothing();
    ConcatAppend([], piece);
    NothingAdded(piece);
    NothingAdded(Lossy(piece));
    assert [] + [piece] == [piece];
  }

  /** What has been flushed once `read` has been read, however reads split it. */
  function Flushed(read: seq<Byte>): seq<Byte> {
    read[..Boundary(read)]
  }

  function HeldBack(read: seq<Byte>): seq<Byte> {
    read[Boundary(read)..]
  }

  /** Flushing after another read appends exactly what settled. */
  lemma FlushingContinues(read: seq<Byte>, more: seq<Byte>)
    ensures Flushed(read + more) == Flushed(read) + Flushed(HeldBack(read) + more)
    ensures HeldBack(read + more) == HeldBack(HeldBack(read) + more)
  {
    hide Boundary, Parse, Settled;
    BoundarySplits(read);
    assert read + more == Flushed(read) + (HeldBack(read) + more);
    FlushingAfterSettled(Flushed(read), HeldBack(read) + more);
  }

  lemma FlushingAfterSettled(settled: seq<Byte>, pending: seq<Byte>)
    requires Settled(settled)
    ensures Flushed(settled + pending) == settled + Flushed(pending)
    ensures HeldBack(settled + pending) == HeldBack(pending)
  {
    hide Boundary, Settled;
    BoundaryAfterSettled(settled, pending);
    CutConcat(settled, pending, Boundary(pending));
  }

  lemma FlushedLossy(read: seq<Byte>, more: seq<Byte>)
    ensures Lossy(Flushed(read) + more) == Lossy(Flushed(read)) + Lossy(more)
  {
    BoundarySplits(read);
    AfterSettled(Flushed(read), more);
  }

  /** What holds between reads: exactly the settled part has been appended. */
  ghost predicate Logged(inputs: seq<Read>, pieces: seq<seq<Byte>>, pending: seq<Byte>) {
    && |pieces| == |inputs|
    && pending == HeldBack(Concat(inputs))
    && LossyEach(pieces) == Lossy(Flushed(Concat(inputs)))
    && forall k :: 0 <= k <= |inputs| ==> Concat(pieces[..k]) == Flushed(Concat(inputs[..k]))
  }

  lemma LoggedStart()
    ensures Logged([], [], [])
    ensures LastBytes([], TAIL_BYTES) == []
  {
    assert Lossy([]) == [];
  }

  lemma LoggedStep(inputs: seq<Read>, pieces: seq<seq<Byte>>, pending: seq<Byte>, read: Read)
    requires Logged(inputs, pieces, pending)
    ensures Logged(inputs + [read], pieces + [Flushed(pending + read)], HeldBack(pending + read))
  {
    hide Lossy, Boundary;
    var before, piece := Concat(inputs), Flushed(pending + read);
    ConcatAppend(inputs, read);
    ConcatAppend(pieces, piece);
    FlushingContinues(before, read);
    FlushedLossy(before, piece);
    assert inputs[..|inputs|] == inputs && pieces[..|inputs|] == pieces;
    forall k | 0 <= k <= |inputs| + 1
      ensures Concat((pieces + [piece])[..k]) == Flushed(Concat((inputs + [read])[..k]))
    {
      if k <= |inputs| {
        assert (pieces + [piece])[..k] == pieces[..k] && (inputs + [read])[..k] == inputs[..k];
      } else {
        assert (pieces + [piece])[..k] == pieces + [piece] && (inputs + [read])[..k] == inputs + [read];
      }
    }
  }

  lemma LoggedCount(inputs: seq<Read>, pieces: seq<seq<Byte>>, pending: seq<Byte>)
    requires Logged(inputs, pieces, pending)
    ensures |pieces| == |inputs|
  {
  }

  lemma LoggedIsRecorded(inputs: seq<Read>, pieces: seq<seq<Byte>>)
    requires |pieces| <= |inputs| && exists pending :: Logged(inputs[..|pieces|], pieces, pending)
    ensures Recorded(inputs, pieces)
  {
    hide Boundary, Lossy, Concat, LossyEach;
    var pending :| Logged(inputs[..|pieces|], pieces, pending);
    forall k | 0 <= k <= |pieces| ensures Concat(pieces[..k]) == Flushed(Concat(inputs[..k])) {
      assert inputs[..|pieces|][..k] == inputs[..k];
    }
  }

  lemma LoggedEnd(inputs: seq<Read>, pieces: seq<seq<Byte>>, pending: seq<Byte>)
    requires Logged(inputs, pieces, pending)
    ensures |pieces| == |inputs|
    ensures Recorded(inputs, pieces + [pending])
    ensures LossyEach(pieces + [pending]) == Lossy(Concat(inputs))
  {
    hide Lossy, Boundary, Concat, LossyEach;
    var stream, all := Concat(inputs), pieces + [pending];
    assert inputs[..|inputs|] == inputs && pieces[..|inputs|] == pieces;
    FlushedLossy(stream, HeldBack(stream));
    ConcatAppend(pieces, pending);
    assert stream == Flushed(stream) + HeldBack(stream);
    forall k | 0 <= k <= |inputs| ensures Concat(all[..k]) == Flushed(Concat(inputs[..k])) {
      assert all[..k] == pieces[..k];
    }
  }

  /** Dropping what no longer fits keeps the last bytes, and never more than the
      tail holds is dropped. */
  lemma TailStep(before: seq<Byte>, read: Read)
    ensures var tail := LastBytes(before, TAIL_BYTES);
      var discard := if |tail| + |read| > TAIL_BYTES then |tail| + |read| - TAIL_BYTES else 0;
      discard <= |tail| && LastBytes(before + read, TAIL_BYTES) == tail[discard..] + read
  {
  }

  datatype StreamError = ReadFailed | AppendFailed

  /** The pieces appended so far: after every read exactly the settled part of the
      stream, and with the final one the whole stream. */
  ghost predicate Recorded(inputs: seq<Read>, pieces: seq<seq<Byte>>) {
    && |pieces| <= |inputs| + 1
    && (forall k :: 0 <= k <= |inputs| && k <= |pieces| ==> Concat(pieces[..k]) == Flushed(Concat(inputs[..k])))
    && (|pieces| == |inputs| + 1 ==> Concat(pieces) == Concat(inputs))
  }

  /** Reads a stream, which `ends` or fails after its inputs, appending to the log
      unless the log refuses an append: `accepts(k)` is whether it takes the k-th.
      The pieces appended are recorded up to the first failure; all of them,
      decoded one by one, read like the stream decoded at once. */
  method TailRecorded(inputs: seq<Read>, ends: bool, logging: bool, accepts: nat -> bool)
    returns (r: Result<seq<Byte>, StreamError>, pieces: seq<seq<Byte>>)
    ensures var appends := if logging then |inputs| + (if ends then 1 else 0) else 0;
      && |pieces| <= appends
      && (forall k :: 0 <= k < |pieces| ==> accepts(k))
      && (|pieces| < appends ==> !accepts(|pieces|))
      && r == (if |pieces| < appends then Err(AppendFailed)
               else if ends then Ok(LastBytes(Concat(inputs), TAIL_BYTES))
               else Err(ReadFailed))
    ensures logging ==> Recorded(inputs, pieces)
    ensures |pieces| == |inputs| + 1 ==> LossyEach(pieces) == Lossy(Concat(inputs))
  {
    hide Logged, LastBytes, Boundary, Lossy, Recorded;
    pieces := [];
    var tail, pending: seq<Byte> := [], [];
    LoggedStart();
    for i := 0 to |inputs|
      invariant tail == LastBytes(Concat(inputs[..i]), TAIL_BYTES)
      invariant if logging then Logged(inputs[..i], pieces, pending) && |pieces| == i else pieces == []
      invariant forall k :: 0 <= k < |pieces| ==> accepts(k)
    {
      var read := inputs[i];
      assert inputs[..i + 1] == inputs[..i] + [read];
      if logging {
        LoggedStep(inputs[..i], pieces, pending, read);
        pending := pending + read;
        var end := CompletePrefix(pending);
        if !accepts(i) {
          LoggedIsRecorded(inputs, pieces);
          return Err(AppendFailed), pieces;
        }
        pieces := pieces + [pending[..end]];
        pending := pending[end..];
        LoggedCount(inputs[..i + 1], pieces, pending);
      }
      var discard := if |tail| + |read| > TAIL_BYTES then |tail| + |read| - TAIL_BYTES else 0;
      ConcatAppend(inputs[..i], read);
      TailStep(Concat(inputs[..i]), read);
      tail := tail[discard..] + read;
    }
    assert inputs[..|inputs|] == inputs;
    if logging { LoggedIsRecorded(inputs, pieces); }
    if !ends { return Err(ReadFailed), pieces; }
    if logging {
      if !accepts(|inputs|) { return Err(AppendFailed), pieces; }
      LoggedEnd(inputs, pieces, pending);
      pieces := pieces + [pending];
    }
    r := Ok(tail);
  }

  /** The tail is the end of the stream, all of it up to 8192 bytes. */
  lemma TailIsSuffix(s: seq<Byte>)
    ensures var tail := LastBytes(s, TAIL_BYTES);
      |tail| == (if |s| < 8192 then |s| else 8192) && tail == s[|s| - |tail|..]
  {
  }

  lemma {:induction false} ConcatPrefix(pieces: seq<seq<Byte>>, k: nat)
    requires k <= |pieces|
    ensures |Concat(pieces[..k])| <= |Concat(pieces)|
    ensures Concat(pieces)[..|Concat(pieces[..k])|] == Concat(pieces[..k])
  {
    if k == |pieces| {
      assert pieces[..k] == pieces;
    } else {
      var front := pieces[..|pieces| - 1];
      assert front[..k] == pieces[..k];
      ConcatPrefix(front, k);
      assert Concat(pieces) == Concat(front) + pieces[|pieces| - 1];
    }
  }

  /** While a stream without inner truncated characters is read, never more
      than three bytes wait in memory, however reads split it. */
  lemma AtMostThreeWait(inputs: seq<Read>, k: nat)
    requires OnlyLastIsCut(Concat(inputs)) && k <= |inputs|
    ensures |HeldBack(Concat(inputs[..k]))| <= 3
  {
    hide OnlyLastIsCut, Boundary;
    ConcatPrefix(inputs, k);
    AtMostThreeHeldBack(Concat(inputs), |Concat(inputs[..k])|);
  }

  /** A well-formed stream is logged in well-formed pieces only. */
  lemma PiecesAreWellFormed(inputs: seq<Read>, pieces: seq<seq<Byte>>, k: nat)
    requires WellFormed(Concat(inputs))
    requires Recorded(inputs, pieces) && |pieces| == |inputs| + 1 && k < |pieces|
    ensures WellFormed(pieces[k])
  {
    hide Settled, WellFormed, Boundary, Concat;
    SettledSoFar(inputs, pieces, k);
    if k < |inputs| { SettledSoFar(inputs, pieces, k + 1); }
    SettledPieceIsWellFormed(pieces, k);
  }

  lemma SettledSoFar(inputs: seq<Read>, pieces: seq<seq<Byte>>, k: nat)
    requires Recorded(inputs, pieces) && k <= |inputs| && k <= |pieces|
    ensures Settled(Concat(pieces[..k]))
  {
    hide Boundary, Settled, Concat;
    BoundarySplits(Concat(inputs[..k]));
  }

  lemma SettledPieceIsWellFormed(pieces: seq<seq<Byte>>, k: nat)
    requires k < |pieces| && WellFormed(Concat(pieces))
    requires Settled(Concat(pieces[..k]))
    requires k + 1 < |pieces| ==> Settled(Concat(pieces[..k + 1]))
    ensures WellFormed(pieces[k])
  {
    hide WellFormed, Settled;
    var before, after := Concat(pieces[..k]), Concat(pieces[..k + 1]);
    assert pieces[..k + 1][..k] == pieces[..k] && pieces[..k + 1][k] == pieces[k];
    ConcatPrefix(pieces, k + 1);
    var rest := Concat(pieces)[|after|..];
    assert Concat(pieces) == after + rest;
    if k + 1 < |pieces| {
      AfterSettled(after, rest);
    } else {
      assert pieces[..k + 1] == pieces;
    }
    AfterSettled(before, pieces[k]);
  }
}
