/**
 The applications a grant covers.

 A scope is either every application, including ones created later, or a
 finite list. `Place` makes that difference observable: it adds one point,
 `Later`, to the application IDs, which only `All` reaches. A scope is then
 exactly a set of places, and every scope operation except `Without` is the
 set operation of the same name.
 */
module Scopes {

  type ApplicationId = string

  datatype Place = Existing(id: ApplicationId) | Later

  const NONE := Only({})

  datatype Scope = All | Only(ids: set<ApplicationId>) {

    predicate Contains(id: ApplicationId) {
      match this
      case All => true
      case Only(ids) => id in ids
    }

    predicate IsEmpty() {
      this == NONE
    }

    predicate Covers(other: Scope) {
      match (this, other)
      case (All, _) => true
      case (Only(_), All) => false
      case (Only(ours), Only(theirs)) => theirs <= ours
    }

    /** The value `extend` leaves in its receiver. */
    function Union(other: Scope): Scope {
      match (this, other)
      case (All, _) => All
      case (_, All) => All
      case (Only(ours), Only(theirs)) => Only(ours + theirs)
    }

    function Intersection(other: Scope): Scope {
      match (this, other)
      case (All, scope) => scope
      case (scope, All) => scope
      case (Only(ours), Only(theirs)) => Only(ours * theirs)
    }

    /** Every application minus a list stays every application. */
    function Without(covered: Scope): Scope {
      match (this, covered)
      case (_, All) => NONE
      case (All, Only(_)) => All
      case (Only(ours), Only(theirs)) => Only(ours - theirs)
    }

    ghost predicate Has(place: Place) {
      match place
      case Existing(id) => Contains(id)
      case Later => All?
    }
  }

  /** A scope is nothing but its set of places. */
  lemma ScopeIsItsPlaces(s: Scope, t: Scope)
    ensures (forall x: Place :: s.Has(x) <==> t.Has(x)) <==> s == t
  {
    if forall x: Place :: s.Has(x) <==> t.Has(x) {
      assert s.Has(Later) <==> t.Has(Later);
      if s.Only? {
        forall id ensures id in s.ids <==> id in t.ids {
          assert s.Has(Existing(id)) <==> t.Has(Existing(id));
        }
      }
    }
  }

  lemma CoversIsInclusion(s: Scope, t: Scope)
    ensures s.Covers(t) <==> forall x: Place :: t.Has(x) ==> s.Has(x)
  {
    if forall x: Place :: t.Has(x) ==> s.Has(x) {
      assert t.Has(Later) ==> s.Has(Later);
      if s.Only? && t.Only? {
        forall id | id in t.ids ensures id in s.ids {
          assert t.Has(Existing(id));
        }
      }
    }
  }

  lemma UnionWithNone(s: Scope)
    ensures s.Union(NONE) == s
  {
    if s.Only? { assert s.ids + {} == s.ids; }
  }

  lemma EmptyMeansNoPlace(s: Scope)
    ensures s.IsEmpty() <==> forall x: Place :: !s.Has(x)
  {
    ScopeIsItsPlaces(s, NONE);
  }

  /** Subtracting loses only what the subtrahend covers, and what it leaves
      inside the subtrahend is nothing but the applications `All` absorbs. */
  lemma WithoutRestores(s: Scope, t: Scope)
    ensures s.Without(t).Union(t) == s.Union(t)
    ensures s.Covers(s.Without(t))
    ensures s.Without(t).Intersection(t) == if s.All? && t.Only? then t else NONE
  {
  }

  /** What subtracting `a`, and then what remains of `t`, left out of `s`, the two
      still cover. */
  lemma UnionOfRest(a: Scope, s: Scope, t: Scope)
    requires a.Only?
    ensures a.Union(s.Without(a)) == a.Union(s)
    ensures a.Union(t.Without(a).Union(s.Without(a).Without(t.Without(a)))) == a.Union(t.Union(s))
  {
  }
}
