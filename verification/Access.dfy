/**
 Grant sets: the canonical form, and the access a set effectively gives.

 `Allows(permission, place)` is what a caller can observe of a grant set. The
 in-place operations live in `GrantSets`; the functions here are the values
 they leave behind.
 */
module Access {
  import opened Outcomes
  import opened Scopes

  datatype AppPermission =
    | Read | Write | Deploy | Delete | PreviewsDeploy | PreviewsDelete
    | SecretsWrite | LogsRead | Exec | EventsRead
  {
    function IncludedIn(): Option<AppPermission> {
      match this
      case PreviewsDeploy => Some(Deploy)
      case PreviewsDelete => Some(Delete)
      case _ => None
    }

    function OnPreviews(): Option<AppPermission> {
      match this
      case LogsRead => Some(PreviewsDeploy)
      case _ => None
    }

    predicate Includes(wanted: AppPermission) {
      this == wanted || wanted == Read || wanted.IncludedIn() == Some(this)
    }
  }

  datatype GlobalPermission =
    | AppsCreate | SystemRead | SystemOperate | AccountsManage | AuditRead
    | TelemetryGrant | NotificationsManage

  datatype Permission = Admin | App(app: AppPermission) | Global(global: GlobalPermission) {
    predicate Scopable() {
      !Global?
    }
  }

  const APP_PERMISSIONS: seq<AppPermission> :=
    [Read, Write, Deploy, Delete, PreviewsDeploy, PreviewsDelete, SecretsWrite, LogsRead, Exec, EventsRead]

  const GLOBAL_PERMISSIONS: seq<GlobalPermission> :=
    [AppsCreate, SystemRead, SystemOperate, AccountsManage, AuditRead, TelemetryGrant, NotificationsManage]

  /** Everything some scope of the map covers. */
  function UnionOf(scopes: map<AppPermission, Scope>): Scope {
    if exists p <- scopes.Keys :: scopes[p].All? then All
    else Only(set p <- scopes.Keys, id <- scopes[p].ids :: id)
  }

  lemma UnionOfHas(scopes: map<AppPermission, Scope>, x: Place)
    ensures UnionOf(scopes).Has(x) <==> exists p :: p in scopes && scopes[p].Has(x)
  {
  }

  datatype Grants = Grants(admin: Option<Scope>, apps: map<AppPermission, Scope>, global: set<GlobalPermission>) {

    predicate IsEmpty() {
      admin.None? && apps == map[] && global == {}
    }

    predicate IsSuperuser() {
      admin == Some(All)
    }

    function AdminScope(): Scope {
      match admin
      case Some(scope) => scope
      case None => NONE
    }

    /** The scope held directly, without what other permissions imply. */
    function Direct(p: AppPermission): Scope {
      if p in apps then apps[p] else NONE
    }

    function AppScope(p: AppPermission): Scope {
      AdminScope().Union(UnionOf(map q | q in apps && q.Includes(p) :: apps[q]))
    }

    predicate HasGlobal(x: GlobalPermission) {
      IsSuperuser() || x in global
    }

    /** What the set lets its holder do, and where. */
    ghost predicate Allows(permission: Permission, x: Place) {
      match permission
      case Admin => AdminScope().Has(x)
      case App(p) => AdminScope().Has(x) || exists q :: q in apps && q.Includes(p) && apps[q].Has(x)
      case Global(g) => HasGlobal(g)
    }

    /** `insert_within`: adds without restoring the canonical form. */
    function InsertedWithin(permission: Permission, scope: Scope): Grants {
      match permission
      case Global(g) => this.(global := global + {g})
      case Admin => if scope.IsEmpty() then this else this.(admin := Some(AdminScope().Union(scope)))
      case App(p) => if scope.IsEmpty() then this else this.(apps := apps[p := Direct(p).Union(scope)])
    }

    /** The scopes `admin` does not already cover. */
    function Trimmed(): map<AppPermission, Scope> {
      map p | p in apps :: apps[p].Without(AdminScope())
    }

    /** The canonical scope of one permission, when `admin` is a list. */
    function CanonicalScope(p: AppPermission): Scope {
      var trimmed := Trimmed();
      if p == Read then UnionOf(trimmed)
      else if p !in trimmed then NONE
      else match p.IncludedIn()
           case Some(parent) => if parent in trimmed then trimmed[p].Without(trimmed[parent]) else trimmed[p]
           case None => trimmed[p]
    }

    /** The value `normalize` leaves. */
    function Normalized(): Grants {
      if AdminScope().All? then SUPERUSER
      else Grants(if AdminScope().IsEmpty() then None else admin,
                  map p: AppPermission | !CanonicalScope(p).IsEmpty() :: CanonicalScope(p),
                  global)
    }

    predicate Covers(other: Grants) {
      && (other.admin.None? || AdminScope().Covers(other.admin.value))
      && (forall p <- other.apps.Keys :: AppScope(p).Covers(other.apps[p]))
      && (forall x <- other.global :: HasGlobal(x))
    }

    /** Access held by both sets. */
    function Intersection(other: Grants): Grants {
      Grants(Some(AdminScope().Intersection(other.AdminScope())),
             map p: AppPermission | true :: AppScope(p).Intersection(other.AppScope(p)),
             set x: GlobalPermission | HasGlobal(x) && other.HasGlobal(x)).Normalized()
    }

    /** Every grant of both sets, before normalizing. */
    function Merged(other: Grants): Grants {
      Grants(if other.AdminScope().IsEmpty() then admin else Some(AdminScope().Union(other.AdminScope())),
             map p | p in apps.Keys + other.apps.Keys && (p in apps || !other.apps[p].IsEmpty()) ::
               Direct(p).Union(other.Direct(p)),
             global + other.global)
    }

    /** The value `extend` leaves. */
    function Extended(other: Grants): Grants {
      Merged(other).Normalized()
    }

    /** What the creator of the new application `id` receives on it. */
    function ForCreatedApplication(id: ApplicationId): Grants {
      Grants(if admin.Some? && admin.value != All then Some(Only({id})) else None,
             map p | p in apps && apps[p] != All :: Only({id}),
             {}).Normalized()
    }

    /** The canonical form as the documentation of `Grants` lists it. */
    ghost predicate Canonical() {
      if AdminScope().All? then apps == map[] && global == {}
      else
        && (admin.Some? ==> !admin.value.IsEmpty())
        && (forall p :: p in apps ==> !apps[p].IsEmpty())
        && (forall p :: p in apps && apps[p].Only? ==> apps[p].ids !! AdminScope().ids)
        && (forall p :: p in apps ==> Read in apps && apps[Read].Covers(apps[p]))
        && (forall p :: p in apps && p.IncludedIn().Some? && p.IncludedIn().value in apps ==>
              var parent := apps[p.IncludedIn().value];
              parent.Only? && (apps[p].Only? ==> apps[p].ids !! parent.ids))
    }
  }

  const SUPERUSER := Grants(Some(All), map[], {})

  const NOTHING := Grants(None, map[], {})
}
