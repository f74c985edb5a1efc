/**
 Stable sorting, as `sort_by` and `sort_by_key` promise it. Any sort meeting
 that promise returns the sequence `Sort` returns.
 */
module Sorting {

  ghost predicate TotalPreorder<T(!new)>(le: (T, T) -> bool) {
    && (forall x, y :: le(x, y) || le(y, x))
    && (forall x, y, z :: le(x, y) && le(y, z) ==> le(x, z))
  }

  ghost predicate Sorted<T(!new)>(s: seq<T>, le: (T, T) -> bool) {
    forall i, j :: 0 <= i < j < |s| ==> le(s[i], s[j])
  }

  function Keep<T>(s: seq<T>, p: T -> bool): seq<T> {
    if s == [] then []
    else if p(s[0]) then [s[0]] + Keep(s[1..], p)
    else Keep(s[1..], p)
  }

  function Insert<T>(x: T, s: seq<T>, le: (T, T) -> bool): seq<T> {
    if s == [] || le(x, s[0]) then [x] + s else [s[0]] + Insert(x, s[1..], le)
  }

  function Sort<T>(s: seq<T>, le: (T, T) -> bool): seq<T> {
    if s == [] then [] else Insert(s[0], Sort(s[1..], le), le)
  }

  // ----- Sortedness and contents

  lemma {:induction false} InsertContents<T(!new)>(x: T, s: seq<T>, le: (T, T) -> bool)
    ensures multiset(Insert(x, s, le)) == multiset{x} + multiset(s)
  {
    if s != [] && !le(x, s[0]) {
      InsertContents(x, s[1..], le);
      assert s == [s[0]] + s[1..];
    }
  }

  lemma PrependSorted<T(!new)>(x: T, s: seq<T>, le: (T, T) -> bool)
    requires Sorted(s, le) && forall y :: y in s ==> le(x, y)
    ensures Sorted([x] + s, le)
  {
  }

  lemma {:induction false} InsertSorts<T(!new)>(x: T, s: seq<T>, le: (T, T) -> bool)
    requires TotalPreorder(le) && Sorted(s, le)
    ensures Sorted(Insert(x, s, le), le)
  {
    if s != [] && !le(x, s[0]) {
      var rest := s[1..];
      InsertSorts(x, rest, le);
      InsertContents(x, rest, le);
      forall y | y in Insert(x, rest, le) ensures le(s[0], y) {
        assert y in multiset(Insert(x, rest, le));
        assert y == x || y in rest;
      }
      PrependSorted(s[0], Insert(x, rest, le), le);
    } else if s != [] {
      forall y | y in s ensures le(x, y) {
        assert le(s[0], y);
      }
      PrependSorted(x, s, le);
    }
  }

  lemma {:induction false} SortSorts<T(!new)>(s: seq<T>, le: (T, T) -> bool)
    requires TotalPreorder(le)
    ensures Sorted(Sort(s, le), le)
    ensures multiset(Sort(s, le)) == multiset(s)
  {
    if s != [] {
      SortSorts(s[1..], le);
      InsertSorts(s[0], Sort(s[1..], le), le);
      InsertContents(s[0], Sort(s[1..], le), le);
      assert s == [s[0]] + s[1..];
    }
  }

  lemma {:induction false} SortedStays<T(!new)>(s: seq<T>, le: (T, T) -> bool)
    requires Sorted(s, le)
    ensures Sort(s, le) == s
  {
    if s != [] {
      SortedStays(s[1..], le);
      assert s == [s[0]] + s[1..];
    }
  }

  // ----- Stability

  lemma {:induction false} KeepInsert<T(!new)>(x: T, s: seq<T>, le: (T, T) -> bool, p: T -> bool)
    requires TotalPreorder(le) && Sorted(s, le)
    ensures Keep(Insert(x, s, le), p) == if p(x) then Insert(x, Keep(s, p), le) else Keep(s, p)
  {
    if s == [] {
    } else if le(x, s[0]) {
      assert ([x] + s)[1..] == s;
      KeptAreKept(s, p);
      var kept := Keep(s, p);
      if kept != [] {
        assert kept[0] in s;
        var i :| 0 <= i < |s| && s[i] == kept[0];
        assert i > 0 ==> le(s[0], s[i]);
      }
    } else {
      KeepInsert(x, s[1..], le, p);
      var inserted := Insert(x, s[1..], le);
      assert ([s[0]] + inserted)[1..] == inserted;
      var rest := Keep(s[1..], p);
      if p(s[0]) { assert ([s[0]] + rest)[1..] == rest; }
    }
  }

  lemma {:induction false} KeptAreKept<T>(s: seq<T>, p: T -> bool)
    ensures forall x :: x in Keep(s, p) <==> x in s && p(x)
  {
    if s != [] {
      KeptAreKept(s[1..], p);
      assert s == [s[0]] + s[1..];
    }
  }

  /** Sorting what is kept is keeping from what is sorted: elements that the
      order does not tell apart stay in their order. */
  lemma {:induction false} KeepSort<T(!new)>(s: seq<T>, le: (T, T) -> bool, p: T -> bool)
    requires TotalPreorder(le)
    ensures Keep(Sort(s, le), p) == Sort(Keep(s, p), le)
  {
    if s != [] {
      KeepSort(s[1..], le, p);
      SortSorts(s[1..], le);
      KeepInsert(s[0], Sort(s[1..], le), le, p);
      if p(s[0]) { assert ([s[0]] + Keep(s[1..], p))[1..] == Keep(s[1..], p); }
    }
  }

  /** The elements ranked equal to `x`. */
  function Equals<T>(x: T, le: (T, T) -> bool): T -> bool {
    y => le(x, y) && le(y, x)
  }

  /** A sorted sequence in which equally ranked elements appear as in `s` is
      `Sort(s)`: the two promises of a stable sort leave no choice. */
  lemma StableSortIsUnique<T(!new)>(s: seq<T>, t: seq<T>, le: (T, T) -> bool)
    requires TotalPreorder(le)
    requires Sorted(t, le)
    requires forall x: T :: Keep(t, Equals(x, le)) == Keep(s, Equals(x, le))
    ensures t == Sort(s, le)
  {
    SortSorts(s, le);
    var sorted := Sort(s, le);
    forall x: T ensures Keep(sorted, Equals(x, le)) == Keep(t, Equals(x, le)) {
      KeepSort(s, le, Equals(x, le));
      var kept := Keep(s, Equals(x, le));
      KeptAreKept(s, Equals(x, le));
      assert Sorted(kept, le) by {
        forall i, j | 0 <= i < j < |kept| ensures le(kept[i], kept[j]) {
          assert kept[i] in kept && kept[j] in kept;
          assert le(kept[i], x) && le(x, kept[j]);
        }
      }
      SortedStays(kept, le);
    }
    SameClassesSameSequence(sorted, t, le);
  }

  lemma {:induction false} SameClassesSameSequence<T(!new)>(s: seq<T>, t: seq<T>, le: (T, T) -> bool)
    requires TotalPreorder(le)
    requires Sorted(s, le) && Sorted(t, le)
    requires forall x: T :: Keep(s, Equals(x, le)) == Keep(t, Equals(x, le))
    ensures s == t
  {
    if s == [] {
      if t != [] { SharedElement(t, s, 0, le); }
    } else {
      SharedElement(s, t, 0, le);
      SharedElement(t, s, 0, le);
      assert le(s[0], t[0]) && le(t[0], s[0]);
      assert Keep(s, Equals(s[0], le)) == Keep(t, Equals(s[0], le));
      assert s[0] == Keep(s, Equals(s[0], le))[0] == t[0];
      forall x: T ensures Keep(s[1..], Equals(x, le)) == Keep(t[1..], Equals(x, le)) {
        assert Keep(s, Equals(x, le)) == Keep(t, Equals(x, le));
        var head := if Equals(x, le)(s[0]) then [s[0]] else [];
        assert (head + Keep(s[1..], Equals(x, le)))[|head|..] == Keep(s[1..], Equals(x, le));
        assert (head + Keep(t[1..], Equals(x, le)))[|head|..] == Keep(t[1..], Equals(x, le));
      }
      SameClassesSameSequence(s[1..], t[1..], le);
      assert s == [s[0]] + s[1..] && t == [t[0]] + t[1..];
    }
  }

  lemma SharedElement<T(!new)>(s: seq<T>, t: seq<T>, i: nat, le: (T, T) -> bool)
    requires TotalPreorder(le)
    requires i < |s|
    requires forall x: T :: Keep(s, Equals(x, le)) == Keep(t, Equals(x, le))
    ensures s[i] in t
  {
    var p := Equals(s[i], le);
    KeptAreKept(s, p);
    KeptAreKept(t, p);
    assert s[i] in Keep(s, p);
  }
}
