/**
 The checks made on a request, and what their answers reveal.

 A refusal is part of the answer, so the laws below compare answers, not only
 whether a request is allowed.
 */
module AccessChecks {
  import opened Outcomes
  import opened Scopes
  import opened Access
  import opened AccessLattice

  datatype Denied = Hidden | Missing(permission: Permission) | Exceeds | Scoped

  type Answer = Result<(), Denied>

  const ALLOWED: Answer := Ok(())

  datatype Target =
    | Id(id: ApplicationId)
    | Preview(id: ApplicationId)
    | Named(id: ApplicationId)
    | New
    | Unknown

  function RequireApp(g: Grants, p: AppPermission, id: ApplicationId): Answer {
    if !g.AppScope(Read).Contains(id) then Err(Hidden)
    else if !g.AppScope(p).Contains(id) then Err(Missing(App(p)))
    else ALLOWED
  }

  function Require(g: Grants, permission: Permission): Answer {
    var held := match permission
      case Admin => g.IsSuperuser()
      case App(p) => !g.AppScope(p).IsEmpty()
      case Global(x) => g.HasGlobal(x);
    if held then ALLOWED else Err(Missing(permission))
  }

  function MayGrant(g: Grants, grants: Grants): Answer {
    if g.Covers(grants) then ALLOWED else Err(Exceeds)
  }

  function MayChangeAccount(g: Grants, own: bool, target: Grants): Answer {
    if own then ALLOWED
    else Then(Require(g, Global(AccountsManage)), MayGrant(g, target))
  }

  /** The second answer, unless the first is a refusal. */
  function Then(first: Answer, second: Answer): Answer {
    if first.Err? then first else second
  }

  /** A limited credential creates no credentials and hands out nothing. */
  function RequireUnscoped(scoped: bool): Answer {
    if scoped then Err(Denied.Scoped) else ALLOWED
  }

  function MayHandOut(g: Grants, scoped: bool, grants: Grants): Answer {
    Then(RequireUnscoped(scoped), MayGrant(g, grants))
  }

  /** Replacing an account's grants `target` by `grants`; a limited credential is
      told so before anything else when the account is its own. */
  function MaySetGrants(g: Grants, scoped: bool, own: bool, target: Grants, grants: Grants): Answer {
    Then(if own then RequireUnscoped(scoped) else ALLOWED,
         Then(MayChangeAccount(g, own, target), MayHandOut(g, scoped, grants)))
  }

  function MayInvite(g: Grants, grants: Grants): Answer {
    Then(Require(g, Global(AccountsManage)), MayGrant(g, grants))
  }

  function MayCreateInvitation(g: Grants, scoped: bool, grants: Grants): Answer {
    Then(RequireUnscoped(scoped), MayInvite(g, grants))
  }

  /** The first refusal among the required permissions, in order. */
  function ForEach(required: seq<AppPermission>, check: AppPermission -> Answer): Answer {
    if required == [] then ALLOWED
    else match check(required[0])
         case Err(denied) => Err(denied)
         case Ok(_) => ForEach(required[1..], check)
  }

  /** `apps:create` stands in for `apps:write`, which nobody holds there yet. */
  function RequireToCreate(g: Grants, p: AppPermission): Answer {
    if p == Write then Require(g, Global(AppsCreate)) else Require(g, App(p))
  }

  function Create(g: Grants, required: seq<AppPermission>): Answer {
    ForEach(required, p => RequireToCreate(g, p))
  }

  function RequireOnPreview(g: Grants, p: AppPermission, id: ApplicationId): Answer {
    match RequireApp(g, p, id)
    case Ok(_) => ALLOWED
    case Err(denied) =>
      if denied.Missing? && p.OnPreviews().Some? && RequireApp(g, p.OnPreviews().value, id).Ok? then ALLOWED
      else Err(denied)
  }

  function RequireUnknown(g: Grants, p: AppPermission): Answer {
    if g.AppScope(p) == All then ALLOWED else Err(Hidden)
  }

  function RequireChange(g: Grants, required: seq<AppPermission>, target: Target): Answer {
    match target
    case New => Create(g, required)
    case Id(id) => ForEach(required, p => RequireApp(g, p, id))
    case Preview(id) => ForEach(required, p => RequireOnPreview(g, p, id))
    case Unknown => ForEach(required, p => RequireUnknown(g, p))
    case Named(id) =>
      if !g.AppScope(Read).Contains(id) then
        match Create(g, required)
        case Err(denied) => Err(denied)
        case Ok(_) => Err(Missing(App(Write)))
      else ForEach(required, p => RequireApp(g, p, id))
  }

  // ----- Monotonicity

  lemma {:induction false} ForEachMonotone(required: seq<AppPermission>,
                                           less: AppPermission -> Answer, more: AppPermission -> Answer)
    requires forall p: AppPermission :: less(p).Ok? ==> more(p).Ok?
    ensures ForEach(required, less).Ok? ==> ForEach(required, more).Ok?
  {
    if required != [] { ForEachMonotone(required[1..], less, more); }
  }

  lemma CoveringScopes(g: Grants, h: Grants, p: AppPermission)
    requires g.Covers(h)
    ensures g.AppScope(p).Covers(h.AppScope(p))
  {
    forall x: Place | h.AppScope(p).Has(x) ensures g.AppScope(p).Has(x) {
      AppScopeHas(h, p, x);
      AppScopeHas(g, p, x);
      CoveredAllows(g, h, App(p), x);
    }
    CoversIsInclusion(g.AppScope(p), h.AppScope(p));
  }

  /** Whoever holds more may do everything whoever holds less may do. */
  lemma RequireChangeMonotone(g: Grants, h: Grants, required: seq<AppPermission>, target: Target)
    requires g.Covers(h)
    ensures RequireChange(h, required, target).Ok? ==> RequireChange(g, required, target).Ok?
  {
    forall p: AppPermission ensures g.AppScope(p).Covers(h.AppScope(p)) { CoveringScopes(g, h, p); }
    forall x: GlobalPermission | h.HasGlobal(x) ensures g.HasGlobal(x) { CoveredAllows(g, h, Global(x), Later); }
    match target {
      case New => ForEachMonotone(required, p => RequireToCreate(h, p), p => RequireToCreate(g, p));
      case Id(id) => ForEachMonotone(required, p => RequireApp(h, p, id), p => RequireApp(g, p, id));
      case Preview(id) => ForEachMonotone(required, p => RequireOnPreview(h, p, id), p => RequireOnPreview(g, p, id));
      case Unknown => ForEachMonotone(required, p => RequireUnknown(h, p), p => RequireUnknown(g, p));
      case Named(id) => ForEachMonotone(required, p => RequireApp(h, p, id), p => RequireApp(g, p, id));
    }
  }

  /** The same for handing out access and changing accounts. */
  lemma AccountChecksMonotone(g: Grants, h: Grants, own: bool, target: Grants)
    requires g.Covers(h)
    ensures MayChangeAccount(h, own, target).Ok? ==> MayChangeAccount(g, own, target).Ok?
  {
    if MayChangeAccount(h, own, target).Ok? && !own {
      CoveredAllows(g, h, Global(AccountsManage), Later);
      CoversIsPointwise(g, h);
      CoversIsPointwise(h, target);
      CoversIsPointwise(g, target);
    }
  }

  // ----- What a refusal reveals

  lemma {:induction false} ForEachAgrees(required: seq<AppPermission>,
                                         one: AppPermission -> Answer, other: AppPermission -> Answer)
    requires forall p: AppPermission :: one(p) == other(p)
    ensures ForEach(required, one) == ForEach(required, other)
  {
    if required != [] { ForEachAgrees(required[1..], one, other); }
  }

  lemma ReadIncluded(g: Grants, p: AppPermission, x: Place)
    requires g.AppScope(p).Has(x)
    ensures g.AppScope(Read).Has(x)
  {
    AppScopeHas(g, p, x);
    AppScopeHas(g, Read, x);
    IncludingAllows(g, p, Read, x);
  }

  /** An application the caller cannot read answers like one that does not exist,
      by ID and as a preview. Its name is never allowed, and answers like a free
      one exactly when creating would be refused. */
  lemma UnreadableLooksUnknown(g: Grants, required: seq<AppPermission>, id: ApplicationId)
    requires !g.AppScope(Read).Contains(id)
    ensures RequireChange(g, required, Id(id)) == RequireChange(g, required, Unknown)
    ensures RequireChange(g, required, Preview(id)) == RequireChange(g, required, Unknown)
    ensures RequireChange(g, required, Named(id)).Err?
    ensures (RequireChange(g, required, Named(id)) == RequireChange(g, required, New)) <==>
              RequireChange(g, required, New).Err?
    ensures RequireChange(g, required, New).Ok? ==> RequireChange(g, required, Named(id)) == Err(Missing(App(Write)))
  {
    forall p: AppPermission ensures RequireUnknown(g, p) == Err(Hidden) {
      if g.AppScope(p).All? { ReadIncluded(g, p, Existing(id)); }
    }
    ForEachAgrees(required, p => RequireApp(g, p, id), p => RequireUnknown(g, p));
    ForEachAgrees(required, p => RequireOnPreview(g, p, id), p => RequireUnknown(g, p));
  }

  /** Whether everything a set allows is allowed. */
  ghost predicate Holds(g: Grants, grants: Grants) {
    forall w: Permission, x: Place :: grants.Allows(w, x) ==> g.Allows(w, x)
  }

  /** Changing an account and handing out grants, answer by answer. A limited
      credential is told so first for its own account, and otherwise only once it
      may change the account. */
  lemma AccountAnswers(g: Grants, scoped: bool, own: bool, target: Grants, grants: Grants)
    ensures MayGrant(g, grants) == if Holds(g, grants) then ALLOWED else Err(Exceeds)
    ensures MayChangeAccount(g, own, target) ==
              if own then ALLOWED
              else if !g.HasGlobal(AccountsManage) then Err(Missing(Global(AccountsManage)))
              else if !Holds(g, target) then Err(Exceeds)
              else ALLOWED
    ensures MaySetGrants(g, scoped, own, target, grants) ==
              if own && scoped then Err(Denied.Scoped)
              else if MayChangeAccount(g, own, target).Err? then MayChangeAccount(g, own, target)
              else if scoped then Err(Denied.Scoped)
              else if !Holds(g, grants) then Err(Exceeds)
              else ALLOWED
    ensures MayHandOut(g, scoped, grants) ==
              if scoped then Err(Denied.Scoped) else if !Holds(g, grants) then Err(Exceeds) else ALLOWED
    ensures MayInvite(g, grants) ==
              if !g.HasGlobal(AccountsManage) then Err(Missing(Global(AccountsManage)))
              else if !Holds(g, grants) then Err(Exceeds)
              else ALLOWED
    ensures MayCreateInvitation(g, scoped, grants) == if scoped then Err(Denied.Scoped) else MayInvite(g, grants)
  {
    CoversIsPointwise(g, target);
    CoversIsPointwise(g, grants);
    hide Grants.Covers, Grants.Allows, Grants.HasGlobal;
  }

  lemma {:induction false} ForEachPasses(required: seq<AppPermission>, check: AppPermission -> Answer)
    ensures ForEach(required, check).Ok? <==> forall p <- required :: check(p).Ok?
    ensures ForEach(required, check).Ok? ==> ForEach(required, check) == ALLOWED
  {
    if required != [] {
      ForEachPasses(required[1..], check);
      assert required == [required[0]] + required[1..];
    }
  }

  /** A refusal is the one of the first permission refused. */
  lemma {:induction false} FirstRefusal(required: seq<AppPermission>, check: AppPermission -> Answer) returns (i: nat)
    requires ForEach(required, check).Err?
    ensures i < |required| && check(required[i]) == ForEach(required, check)
    ensures forall j :: 0 <= j < i ==> check(required[j]).Ok?
  {
    if check(required[0]).Err? {
      i := 0;
    } else {
      var k := FirstRefusal(required[1..], check);
      i := k + 1;
      forall j | 0 <= j < i ensures check(required[j]).Ok? {
        if j > 0 { assert required[1..][j - 1] == required[j]; }
      }
    }
  }

  lemma RequireAppAnswers(g: Grants, p: AppPermission, id: ApplicationId)
    ensures RequireApp(g, p, id) ==
              if !g.Allows(App(Read), Existing(id)) then Err(Hidden)
              else if !g.Allows(App(p), Existing(id)) then Err(Missing(App(p)))
              else ALLOWED
    ensures g.Allows(App(p), Existing(id)) ==> g.Allows(App(Read), Existing(id))
  {
    AppScopeHas(g, Read, Existing(id));
    AppScopeHas(g, p, Existing(id));
    if g.AppScope(p).Has(Existing(id)) { ReadIncluded(g, p, Existing(id)); }
  }

  /** The answer to a change of a known application: every permission there, or
      the first one missing, which only callers who can read the target learn. */
  ghost predicate KnownAnswer(g: Grants, required: seq<AppPermission>, id: ApplicationId, answer: Answer) {
    && (answer.Ok? <==> forall p <- required :: g.Allows(App(p), Existing(id)))
    && (answer.Err? ==>
          if g.Allows(App(Read), Existing(id)) then
            exists i :: 0 <= i < |required| && !g.Allows(App(required[i]), Existing(id))
              && (forall j :: 0 <= j < i ==> g.Allows(App(required[j]), Existing(id)))
              && answer == Err(Missing(App(required[i])))
          else answer == Err(Hidden))
  }

  lemma EachThereAnswers(g: Grants, required: seq<AppPermission>, id: ApplicationId)
    ensures KnownAnswer(g, required, id, ForEach(required, p => RequireApp(g, p, id)))
  {
    var check := p => RequireApp(g, p, id);
    hide Grants.Allows, Grants.AppScope;
    forall p: AppPermission
      ensures check(p) == if !g.Allows(App(Read), Existing(id)) then Err(Hidden)
                          else if !g.Allows(App(p), Existing(id)) then Err(Missing(App(p))) else ALLOWED
      ensures g.Allows(App(p), Existing(id)) ==> g.Allows(App(Read), Existing(id))
    {
      RequireAppAnswers(g, p, id);
    }
    ForEachPasses(required, check);
    hide RequireApp;
    if ForEach(required, check).Err? {
      var i := FirstRefusal(required, check);
      assert check(required[i]).Err?;
    }
  }

  /** A change by ID passes exactly when every permission is held there, and
      names the first missing one only to callers who can read the target. */
  lemma ChangeByIdNeedsEveryPermission(g: Grants, required: seq<AppPermission>, id: ApplicationId)
    ensures KnownAnswer(g, required, id, RequireChange(g, required, Id(id)))
  {
    EachThereAnswers(g, required, id);
  }

  /** So does a change by name, for callers who can read the application. */
  lemma ChangeByNameNeedsEveryPermission(g: Grants, required: seq<AppPermission>, id: ApplicationId)
    requires g.Allows(App(Read), Existing(id))
    ensures KnownAnswer(g, required, id, RequireChange(g, required, Named(id)))
  {
    AppScopeHas(g, Read, Existing(id));
    EachThereAnswers(g, required, id);
  }

  /** Whether a permission is what creating asks for: `apps:create` for
      `apps:write`, and any other somewhere. */
  ghost predicate HeldToCreate(g: Grants, p: AppPermission) {
    if p == Write then g.HasGlobal(AppsCreate) else exists x: Place :: g.Allows(App(p), x)
  }

  /** Creating passes exactly with all of that, and names what is missing first. */
  lemma CreatingNeedsEveryKind(g: Grants, required: seq<AppPermission>)
    ensures RequireChange(g, required, New).Ok? <==> forall p <- required :: HeldToCreate(g, p)
    ensures RequireChange(g, required, New).Err? ==>
              exists i :: 0 <= i < |required| && !HeldToCreate(g, required[i])
                && (forall j :: 0 <= j < i ==> HeldToCreate(g, required[j]))
                && RequireChange(g, required, New)
                     == Err(Missing(if required[i] == Write then Global(AppsCreate) else App(required[i])))
  {
    var check := p => RequireToCreate(g, p);
    forall p: AppPermission
      ensures check(p) == if HeldToCreate(g, p) then ALLOWED
                          else Err(Missing(if p == Write then Global(AppsCreate) else App(p)))
    {
      RequireAnswers(g, if p == Write then Global(AppsCreate) else App(p));
    }
    ForEachPasses(required, check);
    hide RequireToCreate, HeldToCreate;
    if ForEach(required, check).Err? {
      var i := FirstRefusal(required, check);
      assert check(required[i]).Err?;
    }
  }

  /** `require` passes exactly for a permission held somewhere; `admin`, which
      includes what is yet to come, must be held on every application. */
  lemma RequireAnswers(g: Grants, w: Permission)
    ensures Require(g, w) ==
              if (match w
                  case Admin => g.Allows(Admin, Later)
                  case App(_) => exists x: Place :: g.Allows(w, x)
                  case Global(_) => g.Allows(w, Later))
              then ALLOWED else Err(Missing(w))
  {
    if w.App? {
      EmptyMeansNoPlace(g.AppScope(w.app));
      forall x: Place ensures g.AppScope(w.app).Has(x) <==> g.Allows(w, x) { AppScopeHas(g, w.app, x); }
    }
  }

  /** On a preview, reading logs also passes with `previews:deploy`. */
  ghost predicate HeldOnPreview(g: Grants, p: AppPermission, id: ApplicationId) {
    g.Allows(App(p), Existing(id)) || (p == LogsRead && g.Allows(App(PreviewsDeploy), Existing(id)))
  }

  /** No other previews permission stands in for anything, and a refusal names the
      first permission missing to callers who can read the target. */
  lemma PreviewNeedsPermissionOrStandIn(g: Grants, required: seq<AppPermission>, id: ApplicationId)
    ensures RequireChange(g, required, Preview(id)).Ok? <==> forall p <- required :: HeldOnPreview(g, p, id)
    ensures RequireChange(g, required, Preview(id)).Err? ==>
              if g.Allows(App(Read), Existing(id)) then
                exists i :: 0 <= i < |required| && !HeldOnPreview(g, required[i], id)
                  && (forall j :: 0 <= j < i ==> HeldOnPreview(g, required[j], id))
                  && RequireChange(g, required, Preview(id)) == Err(Missing(App(required[i])))
              else RequireChange(g, required, Preview(id)) == Err(Hidden)
  {
    var check := p => RequireOnPreview(g, p, id);
    forall p: AppPermission
      ensures check(p) == if HeldOnPreview(g, p, id) then ALLOWED
                          else if !g.Allows(App(Read), Existing(id)) then Err(Hidden) else Err(Missing(App(p)))
      ensures HeldOnPreview(g, p, id) ==> g.Allows(App(Read), Existing(id))
    {
      hide Grants.Allows, RequireApp;
      RequireAppAnswers(g, p, id);
      RequireAppAnswers(g, PreviewsDeploy, id);
    }
    ForEachPasses(required, check);
    hide RequireOnPreview, HeldOnPreview, Grants.Allows;
    if ForEach(required, check).Err? {
      var i := FirstRefusal(required, check);
      assert check(required[i]).Err?;
    }
  }

  /** A target that does not exist passes only for access to every application,
      later ones included, and is hidden from everyone else. */
  lemma UnknownNeedsEveryApplication(g: Grants, required: seq<AppPermission>)
    ensures RequireChange(g, required, Unknown) ==
              if forall p <- required :: g.Allows(App(p), Later) then ALLOWED else Err(Hidden)
  {
    var check := p => RequireUnknown(g, p);
    forall p: AppPermission ensures check(p) == if g.Allows(App(p), Later) then ALLOWED else Err(Hidden) {
      AppScopeHas(g, p, Later);
    }
    ForEachPasses(required, check);
    hide RequireUnknown, Grants.Allows;
    if ForEach(required, check).Err? {
      var i := FirstRefusal(required, check);
      assert check(required[i]).Err?;
    }
  }
}
