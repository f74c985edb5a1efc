/**
 The deployment history shown for one environment: a polled newest page is
 merged into the list, and older pages are appended to it.
 */
module Deployments {
  import opened Sorting

  /** Operation IDs are compared only; integers stand for them in their order. */
  type OperationId = int

  datatype Deployment = Deployment(id: OperationId, currentTarget: bool, lastSuccessful: bool, content: string)

  predicate NewestFirst(a: Deployment, b: Deployment) {
    a.id >= b.id
  }

  predicate Lists(items: seq<Deployment>, id: OperationId) {
    exists item <- items :: item.id == id
  }

  ghost predicate DistinctIds(items: seq<Deployment>) {
    forall i, j :: 0 <= i < j < |items| ==> items[i].id != items[j].id
  }

  ghost predicate Descending(items: seq<Deployment>) {
    forall i, j :: 0 <= i < j < |items| ==> items[i].id > items[j].id
  }

  ghost predicate OneCurrent(items: seq<Deployment>) {
    forall a, b :: a in items && b in items && a.currentTarget && b.currentTarget ==> a.id == b.id
  }

  ghost predicate OneSuccessful(items: seq<Deployment>) {
    forall a, b :: a in items && b in items && a.lastSuccessful && b.lastSuccessful ==> a.id == b.id
  }

  // ----- The lists the methods leave

  function Clear(item: Deployment, current: bool, successful: bool): Deployment {
    item.(currentTarget := item.currentTarget && !current, lastSuccessful := item.lastSuccessful && !successful)
  }

  function Cleared(items: seq<Deployment>, page: seq<Deployment>): seq<Deployment> {
    var current := exists item <- page :: item.currentTarget;
    var successful := exists item <- page :: item.lastSuccessful;
    seq(|items|, i requires 0 <= i < |items| => Clear(items[i], current, successful))
  }

  /** Replaces the deployment with the item's ID, or adds the item at the end. */
  function Put(items: seq<Deployment>, item: Deployment): seq<Deployment> {
    if items == [] then [item]
    else if items[0].id == item.id then [item] + items[1..]
    else [items[0]] + Put(items[1..], item)
  }

  function PutAll(items: seq<Deployment>, page: seq<Deployment>): seq<Deployment> {
    if page == [] then items else Put(PutAll(items, page[..|page| - 1]), page[|page| - 1])
  }

  function Merged(items: seq<Deployment>, page: seq<Deployment>): seq<Deployment> {
    Sort(PutAll(Cleared(items, page), page), NewestFirst)
  }

  function Appended(items: seq<Deployment>, page: seq<Deployment>): seq<Deployment> {
    if page == [] then items
    else
      var shown := Appended(items, page[..|page| - 1]);
      if Lists(shown, page[|page| - 1].id) then shown else shown + [page[|page| - 1]]
  }

  class DeploymentList {
    var items: seq<Deployment>

    /** Clears the flags the page carries on every listed deployment. */
    method ClearFlags(page: seq<Deployment>)
      modifies this
      ensures items == Cleared(old(items), page)
    {
      var current := exists item <- page :: item.currentTarget;
      var successful := exists item <- page :: item.lastSuccessful;
      for i := 0 to |items|
        invariant |items| == |old(items)|
        invariant forall k :: 0 <= k < |items| ==>
                    items[k] == if k < i then Clear(old(items)[k], current, successful) else old(items)[k]
      {
        items := items[i := Clear(items[i], current, successful)];
      }
    }

    /** Overwrites the deployment with the item's ID, or pushes the item. */
    method PutItem(item: Deployment)
      modifies this
      ensures items == Put(old(items), item)
    {
      var i := 0;
      while i < |items| && items[i].id != item.id
        invariant i <= |items| && items == old(items)
        invariant forall k :: 0 <= k < i ==> items[k].id != item.id
      {
        i := i + 1;
      }
      PutAt(items, item, i);
      items := if i < |items| then items[i := item] else items + [item];
    }

    method MergeNewest(page: seq<Deployment>)
      modifies this
      ensures items == Merged(old(items), page)
    {
      ClearFlags(page);
      for k := 0 to |page|
        invariant items == PutAll(Cleared(old(items), page), page[..k])
      {
        PutItem(page[k]);
        assert page[..k + 1][..k] == page[..k];
      }
      assert page[..|page|] == page;
      items := Sort(items, NewestFirst);
    }

    method AppendOlder(page: seq<Deployment>)
      modifies this
      ensures items == Appended(old(items), page)
    {
      for k := 0 to |page|
        invariant items == Appended(old(items), page[..k])
      {
        assert page[..k + 1][..k] == page[..k];
        if !Lists(items, page[k].id) { items := items + [page[k]]; }
      }
      assert page[..|page|] == page;
    }
  }

  lemma {:induction false} PutAt(items: seq<Deployment>, item: Deployment, i: nat)
    requires i <= |items| && forall k :: 0 <= k < i ==> items[k].id != item.id
    requires i < |items| ==> items[i].id == item.id
    ensures Put(items, item) == if i < |items| then items[i := item] else items + [item]
  {
    if i > 0 {
      PutAt(items[1..], item, i - 1);
      assert items == [items[0]] + items[1..];
    }
  }

  // ----- What a list with distinct IDs holds, whatever its order

  lemma FirstIsDistinct(items: seq<Deployment>)
    requires DistinctIds(items) && items != []
    ensures DistinctIds(items[1..])
    ensures forall x <- items[1..] :: x.id != items[0].id
    ensures forall x :: x in items <==> x == items[0] || x in items[1..]
  {
    assert items == [items[0]] + items[1..];
  }

  lemma PrependDistinct(item: Deployment, items: seq<Deployment>)
    requires DistinctIds(items) && forall x <- items :: x.id != item.id
    ensures DistinctIds([item] + items)
  {
  }

  lemma {:induction false} PutReplaces(items: seq<Deployment>, item: Deployment)
    requires DistinctIds(items)
    ensures DistinctIds(Put(items, item))
    ensures forall x :: x in Put(items, item) <==> x == item || (x in items && x.id != item.id)
  {
    if items != [] {
      FirstIsDistinct(items);
      if items[0].id == item.id {
        PrependDistinct(item, items[1..]);
      } else {
        PutReplaces(items[1..], item);
        PrependDistinct(items[0], Put(items[1..], item));
      }
    }
  }

  /** Putting a page leaves its deployments, and the others it does not list. */
  lemma {:induction false} PutAllOverrides(items: seq<Deployment>, page: seq<Deployment>)
    requires DistinctIds(items) && DistinctIds(page)
    ensures DistinctIds(PutAll(items, page))
    ensures forall x :: x in PutAll(items, page) <==> x in page || (x in items && !Lists(page, x.id))
  {
    if page == [] {
    } else {
      var front, last := page[..|page| - 1], page[|page| - 1];
      assert page == front + [last];
      assert forall x <- front :: x.id != last.id;
      PutAllOverrides(items, front);
      var shown := PutAll(items, front);
      PutReplaces(shown, last);
      hide *;
      OverridesOneMore(items, front, shown, last, Put(shown, last));
    }
  }

  lemma OverridesOneMore(items: seq<Deployment>, front: seq<Deployment>, shown: seq<Deployment>, last: Deployment,
                         put: seq<Deployment>)
    requires forall x <- front :: x.id != last.id
    requires forall x :: x in shown <==> x in front || (x in items && !Lists(front, x.id))
    requires forall x :: x in put <==> x == last || (x in shown && x.id != last.id)
    ensures forall x :: x in put <==> x in front + [last] || (x in items && !Lists(front + [last], x.id))
  {
    hide Lists;
    ListsOneMore(front, last);
  }

  lemma ListsOneMore(front: seq<Deployment>, last: Deployment)
    ensures forall id :: Lists(front + [last], id) <==> Lists(front, id) || id == last.id
    ensures forall x :: x in front + [last] <==> x in front || x == last
  {
    forall id ensures Lists(front + [last], id) <==> Lists(front, id) || id == last.id {
      assert last in front + [last];
      if Lists(front, id) {
        var item :| item in front && item.id == id;
        assert item in front + [last];
      }
    }
  }

  /** Sorting keeps what a list holds; distinct IDs make the order strict. */
  lemma SortDescends(items: seq<Deployment>)
    requires DistinctIds(items)
    ensures Descending(Sort(items, NewestFirst))
    ensures forall x :: x in Sort(items, NewestFirst) <==> x in items
  {
    hide Sort;
    var sorted := Sort(items, NewestFirst);
    SortSorts(items, NewestFirst);
    forall x ensures x in sorted <==> x in items {
      assert x in multiset(sorted) <==> x in multiset(items);
    }
    forall i, j | 0 <= i < j < |sorted| ensures sorted[i].id != sorted[j].id {
      if sorted[i].id == sorted[j].id { DuplicatesShow(items, sorted, i, j); }
    }
  }

  /** Two entries with one ID come from two entries with that ID. */
  lemma DuplicatesShow(items: seq<Deployment>, sorted: seq<Deployment>, i: nat, j: nat)
    requires multiset(items) == multiset(sorted)
    requires i < j < |sorted| && sorted[i].id == sorted[j].id
    ensures !DistinctIds(items)
  {
    if sorted[i] == sorted[j] {
      CountedTwice(sorted, i, j);
      Twice(items, sorted[i]);
    } else {
      assert sorted[i] in multiset(items) && sorted[j] in multiset(items);
      var k :| 0 <= k < |items| && items[k] == sorted[i];
      var l :| 0 <= l < |items| && items[l] == sorted[j];
      assert items[k].id == items[l].id;
    }
  }

  lemma CountedTwice(items: seq<Deployment>, i: nat, j: nat)
    requires i < j < |items| && items[i] == items[j]
    ensures multiset(items)[items[i]] >= 2
  {
    assert items == items[..j] + items[j..];
    assert items[i] in items[..j] && items[j] in items[j..];
    assert multiset(items) == multiset(items[..j]) + multiset(items[j..]);
  }

  lemma {:induction false} Twice(items: seq<Deployment>, item: Deployment)
    requires multiset(items)[item] >= 2
    ensures exists k, l :: 0 <= k < l < |items| && items[k] == item && items[l] == item
  {
    assert items == [items[0]] + items[1..];
    if items[0] == item {
      assert item in multiset(items[1..]);
      var l :| 0 <= l < |items[1..]| && items[1..][l] == item;
      assert items[0] == item && items[l + 1] == item;
    } else {
      Twice(items[1..], item);
      var k, l :| 0 <= k < l < |items[1..]| && items[1..][k] == item && items[1..][l] == item;
      assert items[k + 1] == item && items[l + 1] == item;
    }
  }

  lemma {:induction false} DescendingIsDetermined(s: seq<Deployment>, t: seq<Deployment>)
    requires Descending(s) && Descending(t)
    requires forall x :: x in s <==> x in t
    ensures s == t
  {
    if s == [] {
      assert forall i :: 0 <= i < |t| ==> t[i] in t;
    } else {
      assert s[0] in s && s[0] in t && t[0] in t && t[0] in s;
      FirstIsDistinct(s);
      FirstIsDistinct(t);
      assert s[0] == t[0];
      DescendingIsDetermined(s[1..], t[1..]);
      assert s == [s[0]] + s[1..] && t == [t[0]] + t[1..];
    }
  }

  // ----- Merging

  /** The listed deployment `y`, which has lost each flag the page carries and
      nothing else. */
  ghost predicate Unflagged(x: Deployment, y: Deployment, page: seq<Deployment>) {
    && x.id == y.id && x.content == y.content
    && (x.currentTarget <==> y.currentTarget && forall shown <- page :: !shown.currentTarget)
    && (x.lastSuccessful <==> y.lastSuccessful && forall shown <- page :: !shown.lastSuccessful)
  }

  lemma ClearedHolds(items: seq<Deployment>, page: seq<Deployment>)
    requires DistinctIds(items)
    ensures DistinctIds(Cleared(items, page))
    ensures forall x :: x in Cleared(items, page) <==> exists y :: y in items && Unflagged(x, y, page)
  {
    var cleared := Cleared(items, page);
    forall x ensures x in cleared <==> exists y :: y in items && Unflagged(x, y, page) {
      if x in cleared {
        var i :| 0 <= i < |cleared| && cleared[i] == x;
        assert items[i] in items;
      }
      if y :| y in items && Unflagged(x, y, page) {
        var i :| 0 <= i < |items| && items[i] == y;
        assert cleared[i] == x;
      }
    }
  }

  /** Merging lists every ID once, newest first: a deployment of the page as the
      page has it, any other as it was, but without a flag the page carries. */
  lemma MergingPrefersPage(items: seq<Deployment>, page: seq<Deployment>)
    requires DistinctIds(items) && DistinctIds(page)
    ensures Descending(Merged(items, page))
    ensures forall x :: x in Merged(items, page) <==>
              x in page || (!Lists(page, x.id) && exists y :: y in items && Unflagged(x, y, page))
  {
    hide Cleared, PutAll, Sort, Unflagged;
    ClearedHolds(items, page);
    PutAllOverrides(Cleared(items, page), page);
    SortDescends(PutAll(Cleared(items, page), page));
  }

  /** Only one deployment holds each flag afterwards. */
  lemma MergingKeepsOneHolder(items: seq<Deployment>, page: seq<Deployment>)
    requires DistinctIds(items) && DistinctIds(page)
    requires OneCurrent(items) && OneCurrent(page) && OneSuccessful(items) && OneSuccessful(page)
    ensures OneCurrent(Merged(items, page)) && OneSuccessful(Merged(items, page))
  {
    hide Merged;
    MergingPrefersPage(items, page);
    forall a, b | a in Merged(items, page) && b in Merged(items, page)
      ensures a.currentTarget && b.currentTarget ==> a.id == b.id
      ensures a.lastSuccessful && b.lastSuccessful ==> a.id == b.id
    {
    }
  }

  /** Merging the same page again changes nothing. */
  lemma MergingIsIdempotent(items: seq<Deployment>, page: seq<Deployment>)
    requires DistinctIds(items) && DistinctIds(page)
    ensures Merged(Merged(items, page), page) == Merged(items, page)
  {
    hide Merged;
    var once, twice := Merged(items, page), Merged(Merged(items, page), page);
    MergingPrefersPage(items, page);
    MergingPrefersPage(once, page);
    forall x ensures x in twice <==> x in once {
      if x !in page && x in once {
        assert Unflagged(x, x, page);
      }
    }
    DescendingIsDetermined(twice, once);
  }

  // ----- Appending

  /** Appending keeps what is listed as it is, adds the page's other deployments,
      and keeps the order when the page continues it. */
  lemma {:induction false} AppendingKeepsListed(items: seq<Deployment>, page: seq<Deployment>)
    requires DistinctIds(items) && DistinctIds(page)
    ensures items <= Appended(items, page)
    ensures DistinctIds(Appended(items, page))
    ensures forall x :: x in Appended(items, page) <==> x in items || (x in page && !Lists(items, x.id))
  {
    if page != [] {
      var front, last := page[..|page| - 1], page[|page| - 1];
      AppendingKeepsListed(items, front);
      assert page == front + [last];
      assert forall x <- front :: x.id != last.id;
      hide Appended;
      AppendingOne(items, front, Appended(items, front), last);
    }
  }

  lemma AppendingOne(items: seq<Deployment>, front: seq<Deployment>, shown: seq<Deployment>, last: Deployment)
    requires DistinctIds(shown) && forall x <- front :: x.id != last.id
    requires forall x :: x in shown <==> x in items || (x in front && !Lists(items, x.id))
    ensures Lists(shown, last.id) <==> Lists(items, last.id)
    ensures !Lists(items, last.id) ==> DistinctIds(shown + [last])
  {
    if Lists(items, last.id) {
      var item :| item in items && item.id == last.id;
      assert item in shown;
    }
  }

  lemma {:induction false} AppendingContinuesOrder(items: seq<Deployment>, page: seq<Deployment>)
    requires Descending(items) && Descending(page)
    requires forall a <- items, b <- page :: a.id > b.id || Lists(items, b.id)
    ensures Descending(Appended(items, page))
  {
    if page != [] {
      var front, last := page[..|page| - 1], page[|page| - 1];
      assert page == front + [last];
      AppendingContinuesOrder(items, front);
      AppendingKeepsListed(items, front);
      assert forall x <- front :: x.id > last.id;
      AppendingOne(items, front, Appended(items, front), last);
      if !Lists(items, last.id) {
        hide Appended, Lists;
        AppendingLeast(items, front, Appended(items, front), last);
      }
    }
  }

  lemma AppendingLeast(items: seq<Deployment>, front: seq<Deployment>, shown: seq<Deployment>, last: Deployment)
    requires Descending(shown) && forall x <- shown :: x in items || x in front
    requires (forall x <- items :: x.id > last.id) && (forall x <- front :: x.id > last.id)
    ensures Descending(shown + [last])
  {
    forall x | x in shown ensures x.id > last.id {
    }
  }
}
