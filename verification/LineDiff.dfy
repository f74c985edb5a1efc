/**
 The line diff of a structured change: a table of longest common subsequence
 lengths filled from the end, and a walk over it from the start.
 */
module LineDiff {
  import opened Sequences


  type Line = string

  datatype Mark = Same | Removed | Added

  datatype DiffLine = DiffLine(text: Line, mark: Mark)

  // ----- Independent definitions

  /** Whether `s` is what remains of `t` after dropping some lines. */
  predicate Subsequence(s: seq<Line>, t: seq<Line>) {
    s == [] ||
    (t != [] && ((s[0] == t[0] && Subsequence(s[1..], t[1..])) || Subsequence(s, t[1..])))
  }

  /** The lines of one side that a list of marked lines shows. */
  function Showing(lines: seq<DiffLine>, marks: set<Mark>): seq<Line> {
    if lines == [] then []
    else if lines[0].mark in marks then [lines[0].text] + Showing(lines[1..], marks)
    else Showing(lines[1..], marks)
  }

  function Before(lines: seq<DiffLine>): seq<Line> {
    Showing(lines, {Same, Removed})
  }

  function After(lines: seq<DiffLine>): seq<Line> {
    Showing(lines, {Same, Added})
  }

  function Common(lines: seq<DiffLine>): seq<Line> {
    Showing(lines, {Same})
  }

  // ----- The table and the walk, as functions of the two sides

  function Max(m: nat, n: nat): nat {
    if m >= n then m else n
  }

  /** The recurrence of the table. */
  function Length(was: seq<Line>, now: seq<Line>): nat {
    if was == [] || now == [] then 0
    else if was[0] == now[0] then Length(was[1..], now[1..]) + 1
    else Max(Length(was[1..], now), Length(was, now[1..]))
  }

  function MarkAll(lines: seq<Line>, mark: Mark): seq<DiffLine> {
    seq(|lines|, i requires 0 <= i < |lines| => DiffLine(lines[i], mark))
  }

  function Diff(was: seq<Line>, now: seq<Line>): seq<DiffLine> {
    if was == [] || now == [] then MarkAll(was, Removed) + MarkAll(now, Added)
    else if was[0] == now[0] then [DiffLine(was[0], Same)] + Diff(was[1..], now[1..])
    else if Length(was[1..], now) >= Length(was, now[1..]) then [DiffLine(was[0], Removed)] + Diff(was[1..], now)
    else [DiffLine(now[0], Added)] + Diff(was, now[1..])
  }

  /** The length for a pair of suffixes. */
  ghost function Cell(was: seq<Line>, now: seq<Line>, i: nat, j: nat): nat
    requires i <= |was| && j <= |now|
  {
    Length(was[i..], now[j..])
  }

  /** The table holds the length for every pair of suffixes. */
  ghost predicate IsTable(was: seq<Line>, now: seq<Line>, lengths: array2<nat>)
    reads lengths
  {
    && lengths.Length0 == |was| + 1 && lengths.Length1 == |now| + 1
    && forall i, j :: 0 <= i <= |was| && 0 <= j <= |now| ==> lengths[i, j] == Cell(was, now, i, j)
  }

  lemma CellStep(was: seq<Line>, now: seq<Line>, i: nat, j: nat)
    requires i < |was| && j < |now|
    ensures Cell(was, now, i, j) ==
              if was[i] == now[j] then Cell(was, now, i + 1, j + 1) + 1
              else Max(Cell(was, now, i + 1, j), Cell(was, now, i, j + 1))
  {
    assert was[i..][1..] == was[i + 1..] && now[j..][1..] == now[j + 1..];
  }

  lemma EdgeCells(was: seq<Line>, now: seq<Line>)
    ensures forall i :: 0 <= i <= |was| ==> Cell(was, now, i, |now|) == 0
    ensures forall j :: 0 <= j <= |now| ==> Cell(was, now, |was|, j) == 0
  {
  }

  method FillTable(was: seq<Line>, now: seq<Line>) returns (lengths: array2<nat>)
    ensures IsTable(was, now, lengths)
  {
    lengths := new nat[|was| + 1, |now| + 1]((_, _) => 0);
    EdgeCells(was, now);
    hide Cell;
    for i := |was| downto 0
      invariant forall k, l :: i <= k <= |was| && 0 <= l <= |now| ==> lengths[k, l] == Cell(was, now, k, l)
      invariant forall k :: 0 <= k < i ==> lengths[k, |now|] == 0
    {
      for j := |now| downto 0
        invariant forall k, l :: i < k <= |was| && 0 <= l <= |now| ==> lengths[k, l] == Cell(was, now, k, l)
        invariant forall l :: j <= l <= |now| ==> lengths[i, l] == Cell(was, now, i, l)
        invariant forall k :: 0 <= k < i ==> lengths[k, |now|] == 0
      {
        CellStep(was, now, i, j);
        lengths[i, j] := if was[i] == now[j] then lengths[i + 1, j + 1] + 1
                         else Max(lengths[i + 1, j], lengths[i, j + 1]);
      }
    }
  }

  /** One step of the walk, on suffixes. */
  lemma DiffStep(was: seq<Line>, now: seq<Line>, i: nat, j: nat)
    requires i < |was| && j < |now|
    ensures Diff(was[i..], now[j..]) ==
              if was[i] == now[j] then [DiffLine(was[i], Same)] + Diff(was[i + 1..], now[j + 1..])
              else if Cell(was, now, i + 1, j) >= Cell(was, now, i, j + 1) then
                [DiffLine(was[i], Removed)] + Diff(was[i + 1..], now[j..])
              else [DiffLine(now[j], Added)] + Diff(was[i..], now[j + 1..])
  {
    assert was[i..][1..] == was[i + 1..] && now[j..][1..] == now[j + 1..];
  }

  /** When a side is used up, the other is marked in full. */
  lemma DiffEnd(was: seq<Line>, now: seq<Line>)
    requires was == [] || now == []
    ensures Diff(was, now) == MarkAll(was, Removed) + MarkAll(now, Added)
  {
  }

  method Walk(was: seq<Line>, now: seq<Line>, lengths: array2<nat>) returns (lines: seq<DiffLine>)
    requires IsTable(was, now, lengths)
    ensures lines == Diff(was, now)
  {
    hide Diff, Cell;
    lines := [];
    var i, j := 0, 0;
    while i < |was| && j < |now|
      invariant 0 <= i <= |was| && 0 <= j <= |now|
      invariant Diff(was, now) == lines + Diff(was[i..], now[j..])
      decreases |was| - i + |now| - j
    {
      DiffStep(was, now, i, j);
      ghost var shown, rest := lines, Diff(was[i..], now[j..]);
      var line;
      if was[i] == now[j] {
        line := DiffLine(was[i], Same);
        i, j := i + 1, j + 1;
      } else if lengths[i + 1, j] >= lengths[i, j + 1] {
        line := DiffLine(was[i], Removed);
        i := i + 1;
      } else {
        line := DiffLine(now[j], Added);
        j := j + 1;
      }
      assert rest == [line] + Diff(was[i..], now[j..]);
      lines := lines + [line];
      ConcatAssociates(shown, [line], Diff(was[i..], now[j..]));
    }
    DiffEnd(was[i..], now[j..]);
    ConcatAssociates(lines, MarkAll(was[i..], Removed), MarkAll(now[j..], Added));
    lines := lines + MarkAll(was[i..], Removed) + MarkAll(now[j..], Added);
  }

  method DiffLines(was: seq<Line>, now: seq<Line>) returns (lines: seq<DiffLine>)
    ensures lines == Diff(was, now)
  {
    var lengths := FillTable(was, now);
    lines := Walk(was, now, lengths);
  }

  // ----- The recurrence is the longest common subsequence

  /** One more line on either side adds at most one common line. */
  lemma {:induction false} OneMoreLine(was: seq<Line>, now: seq<Line>)
    ensures was != [] ==> Length(was[1..], now) <= Length(was, now) <= Length(was[1..], now) + 1
    ensures now != [] ==> Length(was, now[1..]) <= Length(was, now) <= Length(was, now[1..]) + 1
    decreases |was| + |now|
  {
    if was != [] && now != [] {
      OneMoreLine(was[1..], now);
      OneMoreLine(was, now[1..]);
      OneMoreLine(was[1..], now[1..]);
    }
  }

  lemma {:induction false} NoCommonSubsequenceIsLonger(s: seq<Line>, was: seq<Line>, now: seq<Line>)
    requires Subsequence(s, was) && Subsequence(s, now)
    ensures |s| <= Length(was, now)
    decreases |was| + |now|
  {
    if s != [] {
      OneMoreLine(was, now);
      if !(s[0] == was[0] && Subsequence(s[1..], was[1..])) {
        NoCommonSubsequenceIsLonger(s, was[1..], now);
      } else if !(s[0] == now[0] && Subsequence(s[1..], now[1..])) {
        NoCommonSubsequenceIsLonger(s, was, now[1..]);
      } else {
        NoCommonSubsequenceIsLonger(s[1..], was[1..], now[1..]);
      }
    }
  }

  lemma {:induction false} ShowingMarkAll(lines: seq<Line>, mark: Mark, marks: set<Mark>)
    ensures Showing(MarkAll(lines, mark), marks) == if mark in marks then lines else []
  {
    if lines != [] {
      ShowingMarkAll(lines[1..], mark, marks);
      assert MarkAll(lines, mark)[1..] == MarkAll(lines[1..], mark);
    }
  }

  lemma ShowingHead(line: DiffLine, rest: seq<DiffLine>, marks: set<Mark>)
    ensures Showing([line] + rest, marks) ==
              if line.mark in marks then [line.text] + Showing(rest, marks) else Showing(rest, marks)
  {
    assert ([line] + rest)[1..] == rest;
  }

  lemma {:induction false} ShowingConcat(a: seq<DiffLine>, b: seq<DiffLine>, marks: set<Mark>)
    ensures Showing(a + b, marks) == Showing(a, marks) + Showing(b, marks)
  {
    if a == [] {
      assert a + b == b;
      assert Showing(a, marks) == [];
    } else {
      var first, rest := a[0], a[1..];
      ShowingConcat(rest, b, marks);
      FirstOfConcat(a, b);
      hide *;
      ShowingHead(first, rest + b, marks);
      ShowingHead(first, rest, marks);
      ConcatAssociates([first.text], Showing(rest, marks), Showing(b, marks));
    }
  }

  /** The diff shows both sides in full, and as many common lines as the table says. */
  lemma {:induction false} DiffShowsBothSides(was: seq<Line>, now: seq<Line>)
    ensures Before(Diff(was, now)) == was
    ensures After(Diff(was, now)) == now
    ensures |Common(Diff(was, now))| == Length(was, now)
    decreases |was| + |now|
  {
    if was == [] || now == [] {
      forall marks: set<Mark>
        ensures Showing(Diff(was, now), marks) ==
                  (if Removed in marks then was else []) + (if Added in marks then now else [])
      {
        ShowingConcat(MarkAll(was, Removed), MarkAll(now, Added), marks);
        ShowingMarkAll(was, Removed, marks);
        ShowingMarkAll(now, Added, marks);
      }
    } else if was[0] == now[0] {
      DiffShowsBothSides(was[1..], now[1..]);
    } else if Length(was[1..], now) >= Length(was, now[1..]) {
      DiffShowsBothSides(was[1..], now);
    } else {
      DiffShowsBothSides(was, now[1..]);
    }
  }

  lemma ShowingFirst(lines: seq<DiffLine>)
    requires lines != []
    ensures var line, rest := [lines[0].text], lines[1..];
      && Before(lines) == (if lines[0].mark != Added then line + Before(rest) else Before(rest))
      && After(lines) == (if lines[0].mark != Removed then line + After(rest) else After(rest))
      && Common(lines) == (if lines[0].mark == Same then line + Common(rest) else Common(rest))
  {
  }

  lemma SubsequenceOfMore(s: seq<Line>, t: seq<Line>, line: Line)
    requires Subsequence(s, t)
    ensures Subsequence(s, [line] + t) && Subsequence([line] + s, [line] + t)
  {
    assert ([line] + t)[1..] == t && ([line] + s)[1..] == s;
  }

  lemma {:induction false} CommonIsSubsequence(lines: seq<DiffLine>)
    ensures Subsequence(Common(lines), Before(lines))
    ensures Subsequence(Common(lines), After(lines))
  {
    if lines != [] {
      CommonIsSubsequence(lines[1..]);
      ShowingFirst(lines);
      SubsequenceOfMore(Common(lines[1..]), Before(lines[1..]), lines[0].text);
      SubsequenceOfMore(Common(lines[1..]), After(lines[1..]), lines[0].text);
    }
  }

  lemma {:induction false} LineCount(lines: seq<DiffLine>)
    ensures |lines| + |Common(lines)| == |Before(lines)| + |After(lines)|
  {
    if lines != [] {
      LineCount(lines[1..]);
      ShowingFirst(lines);
    }
  }

  /** The lines marked as common are a longest common subsequence. */
  lemma CommonLinesAreLongest(was: seq<Line>, now: seq<Line>, s: seq<Line>)
    ensures Subsequence(Common(Diff(was, now)), was) && Subsequence(Common(Diff(was, now)), now)
    ensures Subsequence(s, was) && Subsequence(s, now) ==> |s| <= |Common(Diff(was, now))|
  {
    DiffShowsBothSides(was, now);
    CommonIsSubsequence(Diff(was, now));
    if Subsequence(s, was) && Subsequence(s, now) { NoCommonSubsequenceIsLonger(s, was, now); }
  }

  /** No list of marked lines showing both sides is shorter, and the diff has
      the two lengths less the common lines. */
  lemma DiffIsShortest(was: seq<Line>, now: seq<Line>, other: seq<DiffLine>)
    requires Before(other) == was && After(other) == now
    ensures |Diff(was, now)| <= |other|
    ensures |Diff(was, now)| == |was| + |now| - Length(was, now)
  {
    DiffShowsBothSides(was, now);
    LineCount(Diff(was, now));
    LineCount(other);
    CommonIsSubsequence(other);
    NoCommonSubsequenceIsLonger(Common(other), was, now);
  }

  /** No addition stands directly before a removal. */
  ghost predicate RemovalsFirst(lines: seq<DiffLine>) {
    forall k :: 0 < k < |lines| ==> lines[k].mark == Removed ==> lines[k - 1].mark != Added
  }

  lemma PrependKeepsOrder(line: DiffLine, rest: seq<DiffLine>)
    requires RemovalsFirst(rest)
    requires line.mark == Added && rest != [] ==> rest[0].mark != Removed
    ensures RemovalsFirst([line] + rest)
  {
    var lines := [line] + rest;
    forall k | 0 < k < |lines| && lines[k].mark == Removed ensures lines[k - 1].mark != Added {
      assert lines[k] == rest[k - 1];
      if k > 1 { assert lines[k - 1] == rest[k - 2]; }
    }
  }

  lemma {:induction false} MarkedAlike(lines: seq<Line>, mark: Mark)
    ensures |MarkAll(lines, mark)| == |lines|
    ensures forall line <- MarkAll(lines, mark) :: line.mark == mark
  {
    if lines != [] { MarkedAlike(lines[1..], mark); }
  }

  /** After an addition the walk does not go on with a removal: it prefers to
      remove, and would have removed first. */
  lemma AdditionsGoOn(was: seq<Line>, now: seq<Line>)
    requires was != [] && now != [] && was[0] != now[0]
    requires Length(was[1..], now) < Length(was, now[1..])
    ensures Diff(was, now[1..]) != [] && Diff(was, now[1..])[0].mark != Removed
  {
    if now[1..] != [] && was[0] != now[1..][0] {
      OneMoreLine(was[1..], now);
    }
  }

  /** A block of changed lines shows all it removes before all it adds. */
  lemma {:induction false} RemovalsComeFirst(was: seq<Line>, now: seq<Line>)
    ensures RemovalsFirst(Diff(was, now))
    decreases |was| + |now|
  {
    if was == [] || now == [] {
      MarkedAlike(was, Removed);
      MarkedAlike(now, Added);
    } else if was[0] == now[0] {
      RemovalsComeFirst(was[1..], now[1..]);
      PrependKeepsOrder(DiffLine(was[0], Same), Diff(was[1..], now[1..]));
    } else if Length(was[1..], now) >= Length(was, now[1..]) {
      RemovalsComeFirst(was[1..], now);
      PrependKeepsOrder(DiffLine(was[0], Removed), Diff(was[1..], now));
    } else {
      RemovalsComeFirst(was, now[1..]);
      AdditionsGoOn(was, now);
      PrependKeepsOrder(DiffLine(now[0], Added), Diff(was, now[1..]));
    }
  }
}
