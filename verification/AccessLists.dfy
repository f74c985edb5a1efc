/**
 Grant lists, the wire form of a grant set.

 A list is accepted or refused grant by grant, and an accepted list means the
 union of what its grants give, however it is written.
 */
module AccessLists {
  import opened Outcomes
  import opened Scopes
  import opened Access
  import opened AccessLattice

  datatype Grant = Grant(permission: Permission, applications: Option<set<ApplicationId>>) {
    function GrantScope(): Scope {
      match applications
      case None => All
      case Some(ids) => Only(ids)
    }
  }

  datatype GrantError = Unscopable(permission: Permission) | EmptyScope(permission: Permission)

  /** Why a single grant is refused. */
  function Refusal(grant: Grant): Option<GrantError> {
    if grant.applications == Some({}) then Some(EmptyScope(grant.permission))
    else if !grant.permission.Scopable() && grant.applications.Some? then Some(Unscopable(grant.permission))
    else None
  }

  /** What adding `permission` on `scope` lets a holder do. */
  ghost predicate Gives(permission: Permission, scope: Scope, wanted: Permission, x: Place) {
    match permission
    case Admin => if wanted.Global? then scope.All? else scope.Has(x)
    case App(p) => wanted.App? && p.Includes(wanted.app) && scope.Has(x)
    case Global(_) => wanted == permission
  }

  lemma InsertingGives(g: Grants, permission: Permission, scope: Scope, w: Permission, x: Place)
    ensures g.InsertedWithin(permission, scope).Allows(w, x) <==> g.Allows(w, x) || Gives(permission, scope, w, x)
  {
    var inserted := g.InsertedWithin(permission, scope);
    EmptyMeansNoPlace(scope);
    if w.App? && permission.App? && !scope.IsEmpty() {
      AllowsDirect(g, w.app, x);
      AllowsDirect(inserted, w.app, x);
      forall q: AppPermission
        ensures inserted.Direct(q).Has(x) <==> g.Direct(q).Has(x) || (q == permission.app && scope.Has(x))
      {
      }
    }
  }

  /** What each permission includes, spelled out: reading comes with every
      application permission, deploying and deleting come with doing so to
      previews, and `admin` with everything, on every application also with the
      installation-wide permissions. */
  lemma PermissionsInclude(permission: Permission, scope: Scope, w: Permission, x: Place)
    ensures NOTHING.InsertedWithin(permission, scope).Allows(w, x) <==>
              match permission
              case Admin => if w.Global? then scope == All else scope.Has(x)
              case Global(_) => w == permission
              case App(q) =>
                && scope.Has(x)
                && (w == permission || w == App(Read)
                    || (q == Deploy && w == App(PreviewsDeploy)) || (q == Delete && w == App(PreviewsDelete)))
  {
    InsertingGives(NOTHING, permission, scope, w, x);
  }

  // ----- Reading a list

  /** The set `try_from` builds from the list before it normalizes once. */
  function Collected(list: seq<Grant>): Result<Grants, GrantError> {
    if list == [] then Ok(NOTHING)
    else match Collected(list[..|list| - 1])
         case Err(error) => Err(error)
         case Ok(grants) =>
           var grant := list[|list| - 1];
           match Refusal(grant)
           case Some(error) => Err(error)
           case None => Ok(grants.InsertedWithin(grant.permission, grant.GrantScope()))
  }

  function FromList(list: seq<Grant>): Result<Grants, GrantError> {
    match Collected(list)
    case Err(error) => Err(error)
    case Ok(grants) => Ok(grants.Normalized())
  }

  /** The same list read by normalizing after every grant, as `grant` does. */
  function FromListStepwise(list: seq<Grant>): Result<Grants, GrantError> {
    if list == [] then Ok(NOTHING)
    else match FromListStepwise(list[..|list| - 1])
         case Err(error) => Err(error)
         case Ok(grants) =>
           var grant := list[|list| - 1];
           match Refusal(grant)
           case Some(error) => Err(error)
           case None => Ok(grants.InsertedWithin(grant.permission, grant.GrantScope()).Normalized())
  }

  lemma CollectedLast(list: seq<Grant>)
    requires list != []
    ensures var front, last := Collected(list[..|list| - 1]), Refusal(list[|list| - 1]);
      && (Collected(list).Ok? <==> front.Ok? && last.None?)
      && (front.Err? ==> Collected(list) == front)
      && (front.Ok? && last.Some? ==> Collected(list) == Err(last.value))
  {
    hide Refusal, Grants.InsertedWithin;
  }

  lemma {:induction false} AcceptedMeansNoneRefused(list: seq<Grant>)
    ensures Collected(list).Ok? <==> forall i :: 0 <= i < |list| ==> Refusal(list[i]).None?
  {
    if list != [] {
      CollectedLast(list);
      hide Collected, Refusal;
      var front := list[..|list| - 1];
      AcceptedMeansNoneRefused(front);
      assert forall i :: 0 <= i < |front| ==> front[i] == list[i];
    }
  }

  lemma {:induction false} FirstRefusalAt(list: seq<Grant>, i: nat)
    requires i < |list| && Refusal(list[i]).Some?
    requires forall j :: 0 <= j < i ==> Refusal(list[j]).None?
    ensures Collected(list) == Err(Refusal(list[i]).value)
  {
    hide Collected, Refusal;
    var front := list[..|list| - 1];
    CollectedLast(list);
    if i < |front| {
      FirstRefusalAt(front, i);
    } else {
      AcceptedMeansNoneRefused(front);
    }
  }

  /** A list is refused exactly for its first refused grant. */
  lemma FirstRefusalDecides(list: seq<Grant>)
    ensures FromList(list).Ok? <==> forall grant <- list :: Refusal(grant) == None
    ensures forall i :: 0 <= i < |list| && Refusal(list[i]).Some? && (forall j :: 0 <= j < i ==> Refusal(list[j]).None?) ==>
              FromList(list) == Err(Refusal(list[i]).value)
  {
    hide Collected, Refusal, Grants.Normalized;
    AcceptedMeansNoneRefused(list);
    forall i | 0 <= i < |list| && Refusal(list[i]).Some? && (forall j :: 0 <= j < i ==> Refusal(list[j]).None?)
      ensures FromList(list) == Err(Refusal(list[i]).value)
    {
      FirstRefusalAt(list, i);
    }
  }

  /** A grant is accepted exactly when it names no empty list, and no list at all
      for an installation-wide permission; the empty list is reported first. */
  lemma WhichGrantsAreAccepted(grant: Grant)
    ensures FromList([grant]).Ok? <==>
              grant.applications != Some({}) && (grant.permission.Global? ==> grant.applications == None)
    ensures FromList([grant]).Err? ==>
              FromList([grant]).error
                == if grant.applications == Some({}) then EmptyScope(grant.permission) else Unscopable(grant.permission)
  {
    hide Grants.Normalized, Grants.InsertedWithin;
    assert [grant][..0] == [];
    CollectedLast([grant]);
  }

  ghost predicate ListGives(list: seq<Grant>, w: Permission, x: Place) {
    exists grant :: grant in list && Gives(grant.permission, grant.GrantScope(), w, x)
  }

  lemma {:induction false} CollectedAllows(list: seq<Grant>, w: Permission, x: Place)
    requires Collected(list).Ok?
    ensures Collected(list).value.Allows(w, x) <==> ListGives(list, w, x)
  {
    if list != [] {
      var front, last := list[..|list| - 1], list[|list| - 1];
      CollectedAllows(front, w, x);
      assert list == front + [last];
      InsertingGives(Collected(front).value, last.permission, last.GrantScope(), w, x);
    }
  }

  /** An accepted list allows exactly what one of its grants gives. */
  lemma ListMeansUnion(list: seq<Grant>, w: Permission, x: Place)
    requires FromList(list).Ok?
    ensures FromList(list).value.Allows(w, x) <==> ListGives(list, w, x)
    ensures FromList(list).value.Canonical()
  {
    CollectedAllows(list, w, x);
    NormalizedAllows(Collected(list).value, w, x);
    NormalizedIsCanonical(Collected(list).value);
  }

  /** Only the access of the grants matters: not their order, not duplicates,
      not entries the others already imply. */
  lemma EquivalentListsAgree(list: seq<Grant>, other: seq<Grant>)
    requires FromList(list).Ok? && FromList(other).Ok?
    ensures FromList(list) == FromList(other) <==>
              forall w: Permission, x: Place :: ListGives(list, w, x) <==> ListGives(other, w, x)
  {
    var g, h := FromList(list).value, FromList(other).value;
    forall w: Permission, x: Place
      ensures g.Allows(w, x) <==> ListGives(list, w, x)
      ensures h.Allows(w, x) <==> ListGives(other, w, x)
    {
      ListMeansUnion(list, w, x);
      ListMeansUnion(other, w, x);
    }
    ListMeansUnion(list, Admin, Later);
    ListMeansUnion(other, Admin, Later);
    SameAccessIsPointwise(g, h);
    CanonicalFormIsUnique(g, h);
    if forall w: Permission, x: Place :: ListGives(list, w, x) <==> ListGives(other, w, x) {
      assert forall w: Permission, x: Place :: g.Allows(w, x) <==> h.Allows(w, x);
    }
    if g == h {
      forall w: Permission, x: Place ensures ListGives(list, w, x) <==> ListGives(other, w, x) {
        assert g.Allows(w, x) <==> ListGives(list, w, x);
      }
    }
  }

  /** Lists with the same grants agree, refusals included up to which comes first. */
  lemma OrderAndDuplicatesDoNotMatter(list: seq<Grant>, other: seq<Grant>)
    requires forall grant :: grant in list <==> grant in other
    ensures FromList(list).Ok? <==> FromList(other).Ok?
    ensures FromList(list).Ok? ==> FromList(list) == FromList(other)
  {
    FirstRefusalDecides(list);
    FirstRefusalDecides(other);
    if FromList(list).Ok? { EquivalentListsAgree(list, other); }
  }

  /** A grant the list already implies adds nothing. */
  lemma RedundantGrantAddsNothing(list: seq<Grant>, grant: Grant)
    requires FromList(list).Ok? && FromList([grant]).Ok?
    requires FromList(list).value.Covers(FromList([grant]).value)
    ensures FromList(list + [grant]) == FromList(list)
  {
    FirstRefusalDecides(list);
    FirstRefusalDecides([grant]);
    FirstRefusalDecides(list + [grant]);
    assert grant in [grant];
    forall w: Permission, x: Place ensures ListGives(list + [grant], w, x) <==> ListGives(list, w, x) {
      ListMeansUnion(list, w, x);
      ListMeansUnion([grant], w, x);
      CoversIsPointwise(FromList(list).value, FromList([grant]).value);
    }
    EquivalentListsAgree(list + [grant], list);
  }

  /** Normalizing once equals normalizing after every grant. */
  lemma {:induction false} NormalizingOnceSuffices(list: seq<Grant>)
    ensures FromListStepwise(list) == FromList(list)
  {
    if list != [] {
      var front, last := list[..|list| - 1], list[|list| - 1];
      NormalizingOnceSuffices(front);
      if Collected(list).Ok? {
        var raw := Collected(front).value;
        var stepwise, once := raw.Normalized().InsertedWithin(last.permission, last.GrantScope()), Collected(list).value;
        forall w: Permission, x: Place ensures stepwise.Allows(w, x) <==> once.Allows(w, x) {
          NormalizedAllows(raw, w, x);
          InsertingGives(raw, last.permission, last.GrantScope(), w, x);
          InsertingGives(raw.Normalized(), last.permission, last.GrantScope(), w, x);
        }
        SameAccessIsPointwise(stepwise, once);
        NormalFormFollowsAccess(stepwise, once);
      }
    }
  }

  // ----- Writing a list

  function ScopedGrant(permission: Permission, scope: Scope): Grant {
    Grant(permission, match scope case All => None case Only(ids) => Some(ids))
  }

  function AppGrants(g: Grants, i: nat): seq<Grant>
    requires i <= |APP_PERMISSIONS|
  {
    if i == 0 then []
    else
      var p := APP_PERMISSIONS[i - 1];
      AppGrants(g, i - 1) + if p in g.apps then [ScopedGrant(App(p), g.apps[p])] else []
  }

  function GlobalGrants(g: Grants, i: nat): seq<Grant>
    requires i <= |GLOBAL_PERMISSIONS|
  {
    if i == 0 then []
    else
      var x := GLOBAL_PERMISSIONS[i - 1];
      GlobalGrants(g, i - 1) + if x in g.global then [Grant(Global(x), None)] else []
  }

  /** `admin`, then application permissions, then installation-wide ones. */
  function ToList(g: Grants): seq<Grant> {
    (if g.admin.Some? then [ScopedGrant(Admin, g.admin.value)] else [])
    + AppGrants(g, |APP_PERMISSIONS|) + GlobalGrants(g, |GLOBAL_PERMISSIONS|)
  }

  lemma {:induction false} AppGrantsListed(g: Grants, i: nat, grant: Grant)
    requires i <= |APP_PERMISSIONS|
    ensures grant in AppGrants(g, i) <==>
              exists j :: 0 <= j < i && APP_PERMISSIONS[j] in g.apps
                && grant == ScopedGrant(App(APP_PERMISSIONS[j]), g.apps[APP_PERMISSIONS[j]])
  {
    if i > 0 { AppGrantsListed(g, i - 1, grant); }
  }

  lemma {:induction false} GlobalGrantsListed(g: Grants, i: nat, grant: Grant)
    requires i <= |GLOBAL_PERMISSIONS|
    ensures grant in GlobalGrants(g, i) <==>
              exists j :: 0 <= j < i && GLOBAL_PERMISSIONS[j] in g.global
                && grant == Grant(Global(GLOBAL_PERMISSIONS[j]), None)
  {
    if i > 0 { GlobalGrantsListed(g, i - 1, grant); }
  }

  lemma EveryPermissionIsListed(p: AppPermission, x: GlobalPermission)
    ensures p in APP_PERMISSIONS && x in GLOBAL_PERMISSIONS
  {
    match p {
      case Read => assert APP_PERMISSIONS[0] == p;
      case Write => assert APP_PERMISSIONS[1] == p;
      case Deploy => assert APP_PERMISSIONS[2] == p;
      case Delete => assert APP_PERMISSIONS[3] == p;
      case PreviewsDeploy => assert APP_PERMISSIONS[4] == p;
      case PreviewsDelete => assert APP_PERMISSIONS[5] == p;
      case SecretsWrite => assert APP_PERMISSIONS[6] == p;
      case LogsRead => assert APP_PERMISSIONS[7] == p;
      case Exec => assert APP_PERMISSIONS[8] == p;
      case EventsRead => assert APP_PERMISSIONS[9] == p;
    }
    match x {
      case AppsCreate => assert GLOBAL_PERMISSIONS[0] == x;
      case SystemRead => assert GLOBAL_PERMISSIONS[1] == x;
      case SystemOperate => assert GLOBAL_PERMISSIONS[2] == x;
      case AccountsManage => assert GLOBAL_PERMISSIONS[3] == x;
      case AuditRead => assert GLOBAL_PERMISSIONS[4] == x;
      case TelemetryGrant => assert GLOBAL_PERMISSIONS[5] == x;
      case NotificationsManage => assert GLOBAL_PERMISSIONS[6] == x;
    }
  }

  /** The grants a set lists, whatever their order. */
  ghost predicate Lists(g: Grants, grant: Grant) {
    match grant.permission
    case Admin => g.admin.Some? && grant == ScopedGrant(Admin, g.admin.value)
    case App(p) => p in g.apps && grant == ScopedGrant(App(p), g.apps[p])
    case Global(x) => x in g.global && grant.applications == None
  }

  lemma ToListHolds(g: Grants, grant: Grant)
    ensures grant in ToList(g) <==> Lists(g, grant)
  {
    AppGrantsListed(g, |APP_PERMISSIONS|, grant);
    GlobalGrantsListed(g, |GLOBAL_PERMISSIONS|, grant);
    EveryPermissionIsListed(if grant.permission.App? then grant.permission.app else Read,
                            if grant.permission.Global? then grant.permission.global else AppsCreate);
  }

  /** The place of a permission in the canonical list. */
  function Position(permission: Permission): nat {
    match permission
    case Admin => 0
    case App(p) =>
      (match p
       case Read => 1 case Write => 2 case Deploy => 3 case Delete => 4 case PreviewsDeploy => 5
       case PreviewsDelete => 6 case SecretsWrite => 7 case LogsRead => 8 case Exec => 9 case EventsRead => 10)
    case Global(x) =>
      (match x
       case AppsCreate => 11 case SystemRead => 12 case SystemOperate => 13 case AccountsManage => 14
       case AuditRead => 15 case TelemetryGrant => 16 case NotificationsManage => 17)
  }

  ghost predicate Ordered(list: seq<Grant>) {
    forall i, j :: 0 <= i < j < |list| ==> Position(list[i].permission) < Position(list[j].permission)
  }

  lemma OrderedConcat(a: seq<Grant>, b: seq<Grant>, n: nat)
    requires Ordered(a) && Ordered(b)
    requires (forall grant <- a :: Position(grant.permission) < n) && forall grant <- b :: n <= Position(grant.permission)
    ensures Ordered(a + b)
  {
    hide Position;
    forall i, j | 0 <= i < j < |a + b| ensures Position((a + b)[i].permission) < Position((a + b)[j].permission) {
      if i < |a| { assert (a + b)[i] in a; }
      if j >= |a| { assert (a + b)[j] in b; }
    }
  }

  lemma {:induction false} AppGrantsOrdered(g: Grants, i: nat)
    requires i <= |APP_PERMISSIONS|
    ensures Ordered(AppGrants(g, i)) && forall grant <- AppGrants(g, i) :: 1 <= Position(grant.permission) < i + 1
  {
    if i > 0 {
      AppGrantsOrdered(g, i - 1);
      var p := APP_PERMISSIONS[i - 1];
      assert Position(App(p)) == i;
      hide Position;
      OrderedConcat(AppGrants(g, i - 1), if p in g.apps then [ScopedGrant(App(p), g.apps[p])] else [], i);
    }
  }

  lemma {:induction false} GlobalGrantsOrdered(g: Grants, i: nat)
    requires i <= |GLOBAL_PERMISSIONS|
    ensures Ordered(GlobalGrants(g, i)) && forall grant <- GlobalGrants(g, i) :: 11 <= Position(grant.permission) < i + 11
  {
    if i > 0 {
      GlobalGrantsOrdered(g, i - 1);
      var x := GLOBAL_PERMISSIONS[i - 1];
      assert Position(Global(x)) == i + 10;
      hide Position;
      OrderedConcat(GlobalGrants(g, i - 1), if x in g.global then [Grant(Global(x), None)] else [], i + 10);
    }
  }

  /** The canonical list names each permission at most once: `admin`, then
      application permissions, then installation-wide ones, as declared. */
  lemma ToListIsOrdered(g: Grants)
    ensures Ordered(ToList(g))
  {
    AppGrantsOrdered(g, |APP_PERMISSIONS|);
    GlobalGrantsOrdered(g, |GLOBAL_PERMISSIONS|);
    hide AppGrants, GlobalGrants;
    var first := if g.admin.Some? then [ScopedGrant(Admin, g.admin.value)] else [];
    OrderedConcat(first, AppGrants(g, |APP_PERMISSIONS|), 1);
    OrderedConcat(first + AppGrants(g, |APP_PERMISSIONS|), GlobalGrants(g, |GLOBAL_PERMISSIONS|), 11);
  }

  lemma ToListGives(g: Grants, w: Permission, x: Place)
    ensures ListGives(ToList(g), w, x) <==> g.Allows(w, x)
  {
    forall grant ensures grant in ToList(g) <==> Lists(g, grant) { ToListHolds(g, grant); }
    if g.Allows(w, x) {
      if g.AdminScope().Has(x) && !w.Global? {
        assert Lists(g, ScopedGrant(Admin, g.admin.value));
      } else if w.App? {
        var q :| q in g.apps && q.Includes(w.app) && g.apps[q].Has(x);
        assert Lists(g, ScopedGrant(App(q), g.apps[q]));
      } else if w.Global? {
        if g.IsSuperuser() {
          assert Lists(g, ScopedGrant(Admin, All));
        } else {
          assert Lists(g, Grant(w, None));
        }
      }
    }
  }

  /** Writing a canonical set as a list and reading it back is the identity. */
  lemma ListRoundTrip(g: Grants)
    requires g.Canonical()
    ensures FromList(ToList(g)) == Ok(g)
  {
    var list := ToList(g);
    FirstRefusalDecides(list);
    forall grant | grant in list ensures Refusal(grant) == None { ToListHolds(g, grant); }
    var read := FromList(list).value;
    forall w: Permission, x: Place ensures read.Allows(w, x) <==> g.Allows(w, x) {
      ToListGives(g, w, x);
      ListMeansUnion(list, w, x);
    }
    ListMeansUnion(list, Admin, Later);
    SameAccessIsPointwise(read, g);
    CanonicalFormIsUnique(read, g);
  }

  // ----- Every way to obtain a set

  /** How a set can come about through the operations callers have. */
  datatype Term =
    | Default
    | Superuser
    | Granted(base: Term, permission: Permission, scope: Scope)
    | GrantedWithin(base: Term, permission: Permission, scope: Scope)
    | Extension(left: Term, right: Term)
    | Shared(left: Term, right: Term)
    | Created(creator: Term, id: ApplicationId)
    | Listed(list: seq<Grant>)

  /** The set a term builds: a refused grant leaves the set as it was, an empty
      scope adds nothing, and a refused list builds nothing. */
  function Build(t: Term): Grants {
    match t
    case Default => NOTHING
    case Superuser => SUPERUSER
    case Granted(base, permission, scope) =>
      if scope.IsEmpty() then Build(base).Normalized()
      else if !permission.Scopable() && scope != All then Build(base)
      else Build(base).InsertedWithin(permission, scope).Normalized()
    case GrantedWithin(base, permission, scope) => Build(base).InsertedWithin(permission, scope).Normalized()
    case Extension(l, r) => Build(l).Extended(Build(r))
    case Shared(l, r) => Build(l).Intersection(Build(r))
    case Created(c, id) => Build(c).ForCreatedApplication(id)
    case Listed(list) => match FromList(list) case Ok(grants) => grants case Err(_) => NOTHING
  }

  lemma BoundsAreCanonical()
    ensures NOTHING.Canonical() && SUPERUSER.Canonical()
  {
  }

  lemma BuiltSetsAreCanonical(t: Term)
    ensures Build(t).Canonical()
  {
    hide Grants.Canonical, Grants.Normalized, Grants.Merged, Grants.InsertedWithin, Grants.Intersection, FromList;
    match t {
      case Default => BoundsAreCanonical();
      case Superuser => BoundsAreCanonical();
      case Granted(base, permission, scope) =>
        NormalizedIsCanonical(Build(base));
        NormalizedIsCanonical(Build(base).InsertedWithin(permission, scope));
      case GrantedWithin(base, permission, scope) => NormalizedIsCanonical(Build(base).InsertedWithin(permission, scope));
      case Extension(l, r) => NormalizedIsCanonical(Build(l).Merged(Build(r)));
      case Shared(l, r) => IntersectionIsMeet(Build(l), Build(r), Admin, Later);
      case Created(c, id) =>
        var g := Build(c);
        NormalizedIsCanonical(Grants(if g.admin.Some? && g.admin.value != All then Some(Only({id})) else None,
                                     map p | p in g.apps && g.apps[p] != All :: Only({id}), {}));
      case Listed(list) =>
        BoundsAreCanonical();
        if FromList(list).Ok? { ListMeansUnion(list, Admin, Later); }
    }
  }

  /** However two sets were built, they are equal exactly when they give the
      same access. */
  lemma EqualAccessComparesEqual(t: Term, u: Term)
    ensures Build(t) == Build(u) <==> SameAccess(Build(t), Build(u))
  {
    BuiltSetsAreCanonical(t);
    BuiltSetsAreCanonical(u);
    CanonicalFormIsUnique(Build(t), Build(u));
  }
}
