/**
 The grant set as the object its methods update in place. Every method leaves
 the value of the function of the same meaning in `Access` and `AccessLists`.
 */
module GrantSets {
  import opened Outcomes
  import opened Scopes
  import opened Access
  import opened AccessLattice
  import opened AccessLists

  /** The position of a permission in declaration order. */
  function Rank(p: AppPermission): (i: nat)
    ensures i < |APP_PERMISSIONS| && APP_PERMISSIONS[i] == p
  {
    match p
    case Read => 0
    case Write => 1
    case Deploy => 2
    case Delete => 3
    case PreviewsDeploy => 4
    case PreviewsDelete => 5
    case SecretsWrite => 6
    case LogsRead => 7
    case Exec => 8
    case EventsRead => 9
  }

  /** The map after `i` turns of the second loop of `normalize`. */
  ghost function Subtracted(before: Grants, apps: map<AppPermission, Scope>, i: nat): map<AppPermission, Scope> {
    map p | p in apps :: if Rank(p) < i then before.CanonicalScope(p) else apps[p]
  }

  /** A turn reads entries that earlier turns left alone or finished. */
  lemma SubtractStep(before: Grants, apps: map<AppPermission, Scope>, i: nat)
    requires apps == before.Trimmed()[Read := UnionOf(before.Trimmed())] && i < |APP_PERMISSIONS|
    ensures var p, m := APP_PERMISSIONS[i], Subtracted(before, apps, i);
      Subtracted(before, apps, i + 1) ==
        if p.IncludedIn().Some? && p.IncludedIn().value in m && p in m
        then m[p := m[p].Without(m[p.IncludedIn().value])] else m
  {
    hide Grants.Trimmed, UnionOf;
    var p, m, t := APP_PERMISSIONS[i], Subtracted(before, apps, i), Subtracted(before, apps, i + 1);
    assert Rank(p) == i;
    forall q | q in t && q != p ensures t[q] == m[q] {
      assert APP_PERMISSIONS[Rank(q)] == q;
    }
  }

  /** Dropping empty entries of the canonical scopes leaves the normalized map. */
  lemma RetainedIsNormalized(before: Grants, apps: map<AppPermission, Scope>)
    requires !before.AdminScope().All?
    requires apps.Keys == before.Trimmed().Keys + {Read}
    requires forall p <- apps.Keys :: apps[p] == before.CanonicalScope(p)
    ensures (map p | p in apps && !apps[p].IsEmpty() :: apps[p]) == before.Normalized().apps
  {
    forall p: AppPermission | p !in apps ensures before.CanonicalScope(p) == NONE {
    }
    hide Grants.CanonicalScope;
  }

  /** A set while another is merged into it, `done` being merged so far. */
  ghost function MergedSoFar(before: Grants, other: Grants, done: set<AppPermission>): Grants
    requires done <= other.apps.Keys
  {
    Grants(before.Merged(other).admin,
           map p | p in before.apps.Keys + done && (p in before.apps || !other.apps[p].IsEmpty()) ::
             if p in done then before.Direct(p).Union(other.apps[p]) else before.Direct(p),
           before.global)
  }

  lemma MergeStart(before: Grants, other: Grants)
    ensures MergedSoFar(before, other, {}) ==
              if other.admin.Some? then before.InsertedWithin(Admin, other.admin.value) else before
  {
    assert MergedSoFar(before, other, {}).apps == before.apps;
  }

  lemma MergeStep(before: Grants, other: Grants, done: set<AppPermission>, p: AppPermission)
    requires done <= other.apps.Keys && p in other.apps && p !in done
    ensures MergedSoFar(before, other, done + {p}) == MergedSoFar(before, other, done).InsertedWithin(App(p), other.apps[p])
  {
    hide Grants.Merged;
    UnionWithNone(before.Direct(p));
    var now, next := MergedSoFar(before, other, done).apps, MergedSoFar(before, other, done + {p}).apps;
    if other.apps[p].IsEmpty() {
      assert next == now;
    } else {
      assert next == now[p := before.Direct(p).Union(other.apps[p])];
    }
  }

  lemma MergeEnd(before: Grants, other: Grants)
    ensures MergedSoFar(before, other, other.apps.Keys).(global := before.global + other.global) == before.Merged(other)
  {
    forall p | p in before.apps ensures before.Direct(p).Union(NONE) == before.Direct(p) {
      UnionWithNone(before.Direct(p));
    }
    assert MergedSoFar(before, other, other.apps.Keys).apps == before.Merged(other).apps;
  }

  class GrantSet {
    var admin: Option<Scope>
    var apps: map<AppPermission, Scope>
    var global: set<GlobalPermission>

    function Value(): Grants
      reads this
    {
      Grants(admin, apps, global)
    }

    constructor ()
      ensures Value() == NOTHING
    {
      admin, apps, global := None, map[], {};
    }

    method InsertWithin(permission: Permission, scope: Scope)
      modifies this
      ensures Value() == old(Value()).InsertedWithin(permission, scope)
    {
      match permission {
        case Global(x) =>
          global := global + {x};
        case Admin =>
          if !scope.IsEmpty() {
            if admin.None? { admin := Some(NONE); }
            admin := Some(admin.value.Union(scope));
          }
        case App(p) =>
          if !scope.IsEmpty() {
            if p !in apps { apps := apps[p := NONE]; }
            apps := apps[p := apps[p].Union(scope)];
          }
      }
    }

    method Insert(permission: Permission, scope: Scope) returns (r: Result<(), GrantError>)
      modifies this
      ensures scope.IsEmpty() ==> r == Ok(()) && Value() == old(Value())
      ensures !scope.IsEmpty() && !permission.Scopable() && scope != All ==>
                r == Err(Unscopable(permission)) && Value() == old(Value())
      ensures !scope.IsEmpty() && (permission.Scopable() || scope == All) ==>
                r == Ok(()) && Value() == old(Value()).InsertedWithin(permission, scope)
    {
      if scope.IsEmpty() { return Ok(()); }
      if !permission.Scopable() && scope != All { return Err(Unscopable(permission)); }
      InsertWithin(permission, scope);
      r := Ok(());
    }

    method Normalize()
      modifies this
      ensures Value() == old(Value()).Normalized()
    {
      hide Grants.CanonicalScope, Grants.Trimmed, UnionOf;
      ghost var before := Value();
      var adminScope := Value().AdminScope();
      if adminScope == All {
        apps, global := map[], {};
        return;
      }
      var readable := TrimAll(adminScope);
      apps := apps[Read := readable];
      SubtractIncluding(before);
      RetainedIsNormalized(before, apps);
      apps := map p | p in apps && !apps[p].IsEmpty() :: apps[p];
      if adminScope.IsEmpty() { admin := None; }
    }

    /** The first loop of `normalize`: subtracts what `admin` covers, and
        returns what remains readable. */
    method TrimAll(adminScope: Scope) returns (readable: Scope)
      requires adminScope == Value().AdminScope()
      modifies this`apps
      ensures apps == old(Value()).Trimmed()
      ensures readable == UnionOf(apps)
    {
      ghost var before := Value();
      ghost var trimmed := before.Trimmed();
      readable := NONE;
      var pending := apps.Keys;
      while pending != {}
        invariant pending <= apps.Keys == trimmed.Keys
        invariant forall p <- apps.Keys :: apps[p] == if p in pending then before.apps[p] else trimmed[p]
        invariant forall x: Place :: readable.Has(x) <==> exists p :: p in trimmed && p !in pending && trimmed[p].Has(x)
      {
        var p :| p in pending;
        var scope := apps[p].Without(adminScope);
        apps := apps[p := scope];
        forall x: Place ensures readable.Union(scope).Has(x) <==> readable.Has(x) || trimmed[p].Has(x) {
        }
        readable := readable.Union(scope);
        pending := pending - {p};
      }
      forall x: Place ensures readable.Has(x) <==> UnionOf(trimmed).Has(x) { UnionOfHas(trimmed, x); }
      ScopeIsItsPlaces(readable, UnionOf(trimmed));
      assert apps == trimmed;
    }

    /** The second loop of `normalize`: what including permissions cover. */
    method SubtractIncluding(ghost before: Grants)
      requires !before.AdminScope().All?
      requires apps == before.Trimmed()[Read := UnionOf(before.Trimmed())]
      modifies this`apps
      ensures apps.Keys == old(apps.Keys)
      ensures forall p <- apps.Keys :: apps[p] == before.CanonicalScope(p)
    {
      hide Grants.CanonicalScope;
      for i := 0 to |APP_PERMISSIONS|
        invariant apps == Subtracted(before, old(apps), i)
      {
        var p := APP_PERMISSIONS[i];
        SubtractStep(before, old(apps), i);
        if p.IncludedIn().Some? && p.IncludedIn().value in apps && p in apps {
          apps := apps[p := apps[p].Without(apps[p.IncludedIn().value])];
        }
      }
    }

    method Grant(permission: Permission, scope: Scope) returns (r: Result<(), GrantError>)
      modifies this
      ensures r.Err? <==> permission.Global? && scope.Only? && !scope.IsEmpty()
      ensures r.Err? ==> r.error == Unscopable(permission) && Value() == old(Value())
      ensures r.Ok? && !scope.IsEmpty() ==> Value() == old(Value()).InsertedWithin(permission, scope).Normalized()
      ensures r.Ok? && scope.IsEmpty() ==> Value() == old(Value()).Normalized()
    {
      r := Insert(permission, scope);
      if r.Err? { return; }
      Normalize();
    }

    method GrantWithin(permission: Permission, scope: Scope)
      modifies this
      ensures Value() == old(Value()).InsertedWithin(permission, scope).Normalized()
    {
      InsertWithin(permission, scope);
      Normalize();
    }

    method Extend(other: Grants)
      modifies this
      ensures Value() == old(Value()).Extended(other)
    {
      hide Grants.Normalized, Grants.Merged, Grants.InsertedWithin;
      ghost var before := Value();
      if other.admin.Some? { InsertWithin(Admin, other.admin.value); }
      MergeStart(before, other);
      var pending := other.apps.Keys;
      assert other.apps.Keys - pending == {};
      while pending != {}
        invariant pending <= other.apps.Keys
        invariant Value() == MergedSoFar(before, other, other.apps.Keys - pending)
      {
        var p :| p in pending;
        ghost var done := other.apps.Keys - pending;
        MergeStep(before, other, done, p);
        InsertWithin(App(p), other.apps[p]);
        pending := pending - {p};
        assert other.apps.Keys - pending == done + {p};
      }
      assert other.apps.Keys - pending == other.apps.Keys;
      MergeEnd(before, other);
      global := global + other.global;
      Normalize();
    }

    /** Reads a list into a set, or the refusal of its first bad grant. */
    static method TryFrom(list: seq<AccessLists.Grant>) returns (r: Result<Grants, GrantError>)
      ensures r == FromList(list)
    {
      var grants := new GrantSet();
      for i := 0 to |list|
        invariant fresh(grants)
        invariant Collected(list[..i]) == Ok(grants.Value())
      {
        var grant := list[i];
        assert list[..i + 1][..i] == list[..i];
        if Refusal(grant).Some? { RefusalIsFinal(list, i + 1); }
        if grant.applications == Some({}) { return Err(EmptyScope(grant.permission)); }
        var scope := grant.GrantScope();
        var inserted := grants.Insert(grant.permission, scope);
        if inserted.Err? { return Err(inserted.error); }
      }
      assert list[..|list|] == list;
      grants.Normalize();
      r := Ok(grants.Value());
    }

    /** The loop of `app_scope`, over the held permissions in any order. */
    method AppScope(p: AppPermission) returns (scope: Scope)
      ensures scope == Value().AppScope(p)
    {
      scope := Value().AdminScope();
      var pending := apps.Keys;
      while pending != {}
        invariant pending <= apps.Keys
        invariant forall x: Place :: scope.Has(x) <==>
                    Value().AdminScope().Has(x) || exists q :: q in apps && q !in pending && q.Includes(p) && apps[q].Has(x)
      {
        var q :| q in pending;
        if q.Includes(p) {
          forall x: Place ensures scope.Union(apps[q]).Has(x) <==> scope.Has(x) || apps[q].Has(x) {
          }
          scope := scope.Union(apps[q]);
        }
        pending := pending - {q};
      }
      forall x: Place ensures scope.Has(x) <==> Value().AppScope(p).Has(x) { AppScopeHas(Value(), p, x); }
      ScopeIsItsPlaces(scope, Value().AppScope(p));
    }

    /** The grants the creator of `id` receives on it, built in a new set. */
    method ForCreatedApplication(id: ApplicationId) returns (result: GrantSet)
      ensures fresh(result)
      ensures result.Value() == Value().ForCreatedApplication(id)
    {
      result := new GrantSet();
      var scope := Only({id});
      if admin.Some? && admin.value != All { result.admin := Some(scope); }
      var pending := apps.Keys;
      while pending != {}
        invariant pending <= apps.Keys
        invariant result.admin == (if admin.Some? && admin.value != All then Some(scope) else None) && result.global == {}
        invariant result.apps == map p | p in apps && p !in pending && apps[p] != All :: scope
      {
        var p :| p in pending;
        if apps[p] != All { result.apps := result.apps[p := scope]; }
        pending := pending - {p};
      }
      assert result.apps == map p | p in apps && apps[p] != All :: Only({id});
      result.Normalize();
    }
  }

  /** Once a prefix is refused, so is the whole list, for the same reason. */
  lemma {:induction false} RefusalIsFinal(list: seq<AccessLists.Grant>, n: nat)
    requires n <= |list|
    requires Collected(list[..n]).Err?
    ensures Collected(list) == Collected(list[..n])
  {
    if n == |list| {
      assert list[..n] == list;
    } else {
      var front := list[..|list| - 1];
      assert front[..n] == list[..n];
      RefusalIsFinal(front, n);
    }
  }
}
