/**
 The grant editor's one-scope view of a grant set: which sets survive being
 read into it and back, and which are at least covered afterwards.
 */
module GrantSelections {
  import opened Outcomes
  import opened Scopes
  import opened Access
  import opened AccessLattice
  import opened AccessLists
  import opened GrantSets

  datatype GrantSelection = GrantSelection(
    permissions: set<Permission>,
    everywhere: bool,
    applications: set<ApplicationId>,
    mixed: bool)
  {
    function SelectedScope(): Scope {
      if everywhere then All else Only(applications)
    }
  }

  /** The distinct application lists of the scopable grants; `None` is every application. */
  function ScopesOf(list: seq<Grant>): set<Option<set<ApplicationId>>> {
    set grant <- list | grant.permission.Scopable() :: grant.applications
  }

  function Selection(g: Grants): GrantSelection {
    var list := ToList(g);
    var scopes := ScopesOf(list);
    GrantSelection(set grant <- list :: grant.permission,
                   forall o <- scopes :: o.None?,
                   set o <- scopes, id <- (if o.Some? then o.value else {}) | o.Some? && id in o.value :: id,
                   |scopes| > 1)
  }

  /** The set holding each permission on the scope, installation-wide ones everywhere. */
  function SelectedRaw(permissions: set<Permission>, scope: Scope): Grants {
    Grants(if Admin in permissions && !scope.IsEmpty() then Some(scope) else None,
           map p: AppPermission | App(p) in permissions && !scope.IsEmpty() :: scope,
           set x: GlobalPermission | Global(x) in permissions)
  }

  function SelectedGrants(selection: GrantSelection): Grants {
    SelectedRaw(selection.permissions, selection.SelectedScope()).Normalized()
  }

  lemma SelectedAllows(permissions: set<Permission>, scope: Scope, w: Permission, x: Place)
    ensures SelectedRaw(permissions, scope).Allows(w, x) <==>
              exists p :: p in permissions && Gives(p, scope, w, x)
  {
    var raw := SelectedRaw(permissions, scope);
    EmptyMeansNoPlace(scope);
    if w.App? {
      if p :| p in permissions && Gives(p, scope, w, x) && p.App? {
        assert p.app in raw.apps && p.app.Includes(w.app) && raw.apps[p.app].Has(x);
      }
      if q :| q in raw.apps && q.Includes(w.app) && raw.apps[q].Has(x) {
        assert App(q) in permissions && Gives(App(q), scope, w, x);
      }
    }
    if raw.AdminScope().Has(x) && !w.Global? { assert Gives(Admin, scope, w, x); }
    if w.Global? && raw.HasGlobal(w.global) {
      assert Gives(if raw.IsSuperuser() then Admin else w, scope, w, x);
    }
  }

  /** The editor's loop: one `grant_within` for each selected permission. */
  method GrantsOf(selection: GrantSelection) returns (r: Grants)
    ensures r == SelectedGrants(selection)
  {
    var scope := selection.SelectedScope();
    var grants := new GrantSet();
    var pending := selection.permissions;
    assert SelectedRaw({}, scope).Normalized() == NOTHING by {
      CanonicalIffNormalized(NOTHING);
      assert SelectedRaw({}, scope) == NOTHING;
    }
    while pending != {}
      invariant fresh(grants)
      invariant pending <= selection.permissions
      invariant grants.Value() == SelectedRaw(selection.permissions - pending, scope).Normalized()
    {
      var permission :| permission in pending;
      ghost var done := selection.permissions - pending;
      ghost var raw := SelectedRaw(done, scope);
      grants.GrantWithin(permission, scope);
      pending := pending - {permission};
      assert selection.permissions - pending == done + {permission};
      OneMore(done, permission, scope);
    }
    assert selection.permissions - pending == selection.permissions;
    r := grants.Value();
  }

  lemma OneMore(done: set<Permission>, permission: Permission, scope: Scope)
    ensures SelectedRaw(done, scope).Normalized().InsertedWithin(permission, scope).Normalized()
         == SelectedRaw(done + {permission}, scope).Normalized()
  {
    var raw, more := SelectedRaw(done, scope), SelectedRaw(done + {permission}, scope);
    var stepped := raw.Normalized().InsertedWithin(permission, scope);
    forall w: Permission, x: Place ensures stepped.Allows(w, x) <==> more.Allows(w, x) {
      InsertingGives(raw.Normalized(), permission, scope, w, x);
      NormalizedAllows(raw, w, x);
      SelectedAllows(done, scope, w, x);
      SelectedAllows(done + {permission}, scope, w, x);
      if p :| p in done && Gives(p, scope, w, x) { assert p in done + {permission}; }
      if Gives(permission, scope, w, x) { assert permission in done + {permission}; }
    }
    SameAccessIsPointwise(stepped, more);
    NormalFormFollowsAccess(stepped, more);
  }

  // ----- Reading a set in

  lemma ScopesHeld(g: Grants, grant: Grant)
    requires Lists(g, grant)
    ensures grant.permission in Selection(g).permissions
    ensures grant.permission.Scopable() ==> grant.applications in ScopesOf(ToList(g))
  {
    ToListHolds(g, grant);
  }

  lemma SelectionHolds(g: Grants, p: Permission)
    requires p in Selection(g).permissions
    ensures exists grant :: Lists(g, grant) && grant.permission == p
  {
    var grant :| grant in ToList(g) && grant.permission == p;
    ToListHolds(g, grant);
  }

  /** What the editor shows of a set, grant by grant: every permission held, the
      whole installation exactly when no grant is limited to a list, and
      otherwise every listed application. */
  lemma SelectionShows(g: Grants, permission: Permission, id: ApplicationId)
    ensures permission in Selection(g).permissions <==> exists grant :: Lists(g, grant) && grant.permission == permission
    ensures Selection(g).everywhere <==>
              forall grant :: Lists(g, grant) && grant.permission.Scopable() ==> grant.applications == None
    ensures id in Selection(g).applications <==>
              exists grant :: Lists(g, grant) && grant.permission.Scopable()
                && grant.applications.Some? && id in grant.applications.value
  {
    hide ToList, Lists;
    var list := ToList(g);
    forall grant ensures grant in list <==> Lists(g, grant) { ToListHolds(g, grant); }
    if grant :| Lists(g, grant) && grant.permission == permission { assert grant in list; }
    ApplicationsAre(list, id);
    hide ScopesOf;
    ScopesAre(list);
    if id in Selection(g).applications {
      var grant :| grant in list && grant.permission.Scopable()
                   && grant.applications.Some? && id in grant.applications.value;
      assert Lists(g, grant);
    }
    if grant :| Lists(g, grant) && grant.permission.Scopable()
                && grant.applications.Some? && id in grant.applications.value {
      assert grant in list;
    }
    forall grant | Lists(g, grant) && grant.permission.Scopable() ensures grant.applications in ScopesOf(list) {
      assert grant in list;
    }
  }

  lemma ApplicationsAre(list: seq<Grant>, id: ApplicationId)
    ensures (exists o :: o in ScopesOf(list) && o.Some? && id in o.value) <==>
              exists grant :: grant in list && grant.permission.Scopable()
                && grant.applications.Some? && id in grant.applications.value
  {
    ScopesAre(list);
    if grant :| grant in list && grant.permission.Scopable()
                && grant.applications.Some? && id in grant.applications.value {
      assert grant.applications in ScopesOf(list);
    }
  }

  lemma ScopesAre(list: seq<Grant>)
    ensures forall o :: o in ScopesOf(list) <==>
              exists grant :: grant in list && grant.permission.Scopable() && grant.applications == o
  {
  }

  /** And the selection is flagged as mixed exactly when two grants are limited
      to different applications. */
  lemma MixedMeansDifferentScopes(g: Grants)
    ensures Selection(g).mixed <==>
              exists a, b :: Lists(g, a) && a.permission.Scopable() && Lists(g, b) && b.permission.Scopable()
                && a.applications != b.applications
  {
    var scopes := ScopesOf(ToList(g));
    assert Selection(g).mixed <==> |scopes| > 1;
    hide ToList, Lists, Selection;
    forall grant ensures grant in ToList(g) <==> Lists(g, grant) { ToListHolds(g, grant); }
    ScopesAre(ToList(g));
    hide ScopesOf;
    MixedMeansTwo(scopes);
    if o, q :| o in scopes && q in scopes && o != q {
      var a :| a in ToList(g) && a.permission.Scopable() && a.applications == o;
      var b :| b in ToList(g) && b.permission.Scopable() && b.applications == q;
      assert Lists(g, a) && Lists(g, b);
    }
    if a, b :| Lists(g, a) && a.permission.Scopable() && Lists(g, b) && b.permission.Scopable()
               && a.applications != b.applications {
      assert a in ToList(g) && b in ToList(g);
      assert a.applications in scopes && b.applications in scopes;
    }
  }

  lemma MixedMeansTwo<T>(s: set<T>)
    ensures |s| > 1 <==> exists a, b :: a in s && b in s && a != b
  {
    if |s| > 1 {
      var a :| a in s;
      assert |s - {a}| > 0;
      var b :| b in s - {a};
    }
    if a, b :| a in s && b in s && a != b { SubsetSize({a, b}, s); }
  }

  lemma SmallSetsAreUniform<T>(s: set<T>, a: T, b: T)
    requires |s| <= 1 && a in s && b in s
    ensures a == b
  {
    if a != b {
      assert {a, b} <= s;
      SubsetSize({a, b}, s);
    }
  }

  lemma {:induction false} SubsetSize<T>(s: set<T>, t: set<T>)
    requires s <= t
    ensures |s| <= |t|
  {
    if s != {} {
      var x :| x in s;
      SubsetSize(s - {x}, t - {x});
    }
  }

  /** Without mixed scopes, the selected scope is the one every grant has. */
  lemma UniformScope(g: Grants, grant: Grant)
    requires !Selection(g).mixed
    requires Lists(g, grant) && grant.permission.Scopable()
    ensures grant.GrantScope() == Selection(g).SelectedScope()
  {
    var scopes := ScopesOf(ToList(g));
    ScopesHeld(g, grant);
    forall o | o in scopes ensures o == grant.applications {
      SmallSetsAreUniform(scopes, o, grant.applications);
    }
    if grant.applications.Some? {
      assert !Selection(g).everywhere;
      assert Selection(g).applications == grant.applications.value;
    }
  }

  lemma UniformRoundTrip(g: Grants)
    requires g.Canonical() && !Selection(g).mixed
    ensures SelectedGrants(Selection(g)) == g
  {
    var selection := Selection(g);
    var scope, raw := selection.SelectedScope(), SelectedRaw(selection.permissions, selection.SelectedScope());
    forall w: Permission, x: Place ensures raw.Allows(w, x) <==> g.Allows(w, x) {
      SelectedAllows(selection.permissions, scope, w, x);
      ToListGives(g, w, x);
      if g.Allows(w, x) {
        var grant :| grant in ToList(g) && Gives(grant.permission, grant.GrantScope(), w, x);
        ToListHolds(g, grant);
        ScopesHeld(g, grant);
        if grant.permission.Scopable() { UniformScope(g, grant); }
        assert Gives(grant.permission, scope, w, x);
      }
      if p :| p in selection.permissions && Gives(p, scope, w, x) {
        SelectionHolds(g, p);
        var grant :| Lists(g, grant) && grant.permission == p;
        ToListHolds(g, grant);
        if p.Scopable() { UniformScope(g, grant); }
        assert Gives(p, grant.GrantScope(), w, x);
      }
    }
    SameAccessIsPointwise(raw, g);
    NormalFormFollowsAccess(raw, g);
    CanonicalIffNormalized(g);
  }

  /** A set with one scope throughout has only that scope when normalized. */
  lemma SelectedIsUniform(permissions: set<Permission>, scope: Scope, a: Grant, b: Grant)
    requires Lists(SelectedRaw(permissions, scope).Normalized(), a) && a.permission.Scopable()
    requires Lists(SelectedRaw(permissions, scope).Normalized(), b) && b.permission.Scopable()
    ensures a.applications == b.applications
  {
    var raw := SelectedRaw(permissions, scope);
    if !raw.AdminScope().All? {
      forall p: AppPermission
        ensures raw.CanonicalScope(p) == NONE || (raw.CanonicalScope(p) == scope && raw.admin.None?)
      {
        CanonicalScopeParts(raw, p);
        if p == Read {
          forall x: Place ensures UnionOf(raw.apps).Has(x) ==> scope.Has(x) { UnionOfHas(raw.apps, x); }
          if q :| q in raw.apps {
            forall x: Place ensures UnionOf(raw.apps).Has(x) <==> scope.Has(x) {
              UnionOfHas(raw.apps, x);
              assert raw.apps[q] == scope;
            }
            ScopeIsItsPlaces(UnionOf(raw.apps), scope);
          }
        }
      }
    }
  }

  /** Reading a set into the editor and back changes nothing exactly when the
      selection is not flagged as mixed. */
  lemma EditingIsIdentityUnlessMixed(g: Grants)
    requires g.Canonical()
    ensures SelectedGrants(Selection(g)) == g <==> !Selection(g).mixed
  {
    if !Selection(g).mixed { UniformRoundTrip(g); }
    if SelectedGrants(Selection(g)) == g { WrittenBackIsUniform(g); }
  }

  lemma WrittenBackIsUniform(g: Grants)
    requires SelectedGrants(Selection(g)) == g
    ensures !Selection(g).mixed
  {
    var selection, scopes := Selection(g), ScopesOf(ToList(g));
    if o :| o in scopes {
      forall other | other in scopes ensures other == o {
        var a :| a in ToList(g) && a.permission.Scopable() && a.applications == o;
        var b :| b in ToList(g) && b.permission.Scopable() && b.applications == other;
        ToListHolds(g, a);
        ToListHolds(g, b);
        SelectedIsUniform(selection.permissions, selection.SelectedScope(), a, b);
      }
      assert scopes == {o};
    }
  }

  lemma EverywhereIsNotMixed(g: Grants)
    requires Selection(g).everywhere
    ensures !Selection(g).mixed
  {
    assert ScopesOf(ToList(g)) <= {None};
    SubsetSize(ScopesOf(ToList(g)), {None});
  }

  lemma ListedScopesAreSelected(g: Grants, grant: Grant)
    requires Lists(g, grant) && grant.permission.Scopable() && grant.applications.Some?
    ensures Selection(g).SelectedScope().Covers(grant.GrantScope())
  {
    ScopesHeld(g, grant);
  }

  lemma WrittenAllows(g: Grants, grant: Grant, w: Permission, x: Place)
    requires Lists(g, grant) && Gives(grant.permission, Selection(g).SelectedScope(), w, x)
    ensures SelectedGrants(Selection(g)).Allows(w, x)
  {
    var selection := Selection(g);
    ScopesHeld(g, grant);
    SelectedAllows(selection.permissions, selection.SelectedScope(), w, x);
    NormalizedAllows(SelectedRaw(selection.permissions, selection.SelectedScope()), w, x);
  }

  lemma ListedScopesAreCovered(g: Grants, w: Permission, x: Place)
    requires None !in ScopesOf(ToList(g)) && g.Allows(w, x)
    ensures SelectedGrants(Selection(g)).Allows(w, x)
  {
    hide Selection, Grants.Allows, SelectedGrants, ScopesOf;
    ToListGives(g, w, x);
    var grant :| grant in ToList(g) && Gives(grant.permission, grant.GrantScope(), w, x);
    ToListHolds(g, grant);
    ScopesHeld(g, grant);
    if grant.permission.Scopable() {
      ListedScopesAreSelected(g, grant);
      CoversIsInclusion(Selection(g).SelectedScope(), grant.GrantScope());
    }
    WrittenAllows(g, grant, w, x);
  }

  /** A grant on every application is lost when the selection shows a list. */
  lemma EveryApplicationIsLost(g: Grants)
    requires None in ScopesOf(ToList(g)) && Selection(g).mixed
    ensures exists w: Permission :: g.Allows(w, Later) && !SelectedGrants(Selection(g)).Allows(w, Later)
  {
    var selection := Selection(g);
    var every :| every in ToList(g) && every.permission.Scopable() && every.applications == None;
    if selection.everywhere { EverywhereIsNotMixed(g); }
    hide Selection, SelectedGrants, ScopesOf, ToList;
    var w := every.permission;
    SelectedAllows(selection.permissions, selection.SelectedScope(), w, Later);
    NormalizedAllows(SelectedRaw(selection.permissions, selection.SelectedScope()), w, Later);
    assert Gives(w, every.GrantScope(), w, Later);
    ToListGives(g, w, Later);
    SelectedIsNormalized(selection);
  }

  lemma SelectedIsNormalized(selection: GrantSelection)
    ensures SelectedGrants(selection) == SelectedRaw(selection.permissions, selection.SelectedScope()).Normalized()
  {
  }

  /** What the editor writes back covers what it read, unless the set mixes
      every application with lists: then no list it shows can. */
  lemma EditingCoversUnlessAllIsMixedWithLists(g: Grants)
    requires g.Canonical()
    ensures SelectedGrants(Selection(g)).Covers(g) <==> (None !in ScopesOf(ToList(g)) || !Selection(g).mixed)
  {
    hide Selection, SelectedGrants, ScopesOf, ToList, Grants.Allows, Grants.Covers, Grants.Canonical;
    var written := SelectedGrants(Selection(g));
    CoversIsPointwise(written, g);
    if !Selection(g).mixed {
      UniformRoundTrip(g);
    } else if None !in ScopesOf(ToList(g)) {
      forall w: Permission, x: Place | g.Allows(w, x) ensures written.Allows(w, x) { ListedScopesAreCovered(g, w, x); }
    } else {
      EveryApplicationIsLost(g);
    }
  }
}
