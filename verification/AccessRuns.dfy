/**
 Accounts, credentials and invitations as a state machine.

 Along every run what accounts can do with what existed at its start never
 grows, and creating an application hands out no new kind of ability. Grants of
 invitations and tokens are only recorded; what counts is that no account ever
 obtains through them what no account has.
 */
module AccessRuns {
  import opened Outcomes
  import opened Scopes
  import opened Access
  import opened AccessLattice
  import opened AccessChecks

  type Key = string

  datatype Holder = User(key: Key) | Credential(key: Key) | Invitation(key: Key)

  /** Who a credential belongs to, and whether its own grants limit it. */
  datatype Session = Session(user: Key, scoped: bool)

  datatype State = State(
    holders: map<Holder, Grants>,
    sessions: map<Key, Session>,
    issuers: map<Key, Key>,
    applications: set<ApplicationId>,
    used: set<ApplicationId>)

  datatype Step =
    | SetGrants(caller: Key, user: Key, grants: Grants)
    | CreateInvitation(caller: Key, invitation: Key, grants: Grants)
    | Redeem(invitation: Key, user: Key)
    | CreateToken(caller: Key, credential: Key, grants: Grants)
    | SignIn(user: Key, credential: Key)
    | Revoke(holder: Holder)
    | CreateApplication(caller: Key, id: ApplicationId, required: seq<AppPermission>)
    | DeleteApplication(id: ApplicationId)

  // ----- The rules

  function Of(s: State, h: Holder): Grants {
    if h in s.holders then s.holders[h] else NOTHING
  }

  /** What a credential may do now: its account's grants, limited by its own. */
  function Authority(s: State, session: Session, credential: Key): Grants {
    var account := Of(s, User(session.user));
    if session.scoped then account.Intersection(Of(s, Credential(credential))) else account
  }

  /** Whether a list of the set names the application. */
  ghost predicate Names(g: Grants, id: ApplicationId) {
    || (g.AdminScope().Only? && id in g.AdminScope().ids)
    || exists p :: p in g.apps && g.apps[p].Only? && id in g.apps[p].ids
  }

  /** Grants that can be stored: canonical, naming only existing applications. */
  ghost predicate Storable(s: State, g: Grants) {
    g.Canonical() && forall id :: Names(g, id) ==> id in s.applications
  }

  ghost predicate Enabled(s: State, step: Step) {
    match step
    case SetGrants(caller, user, grants) =>
      && caller in s.sessions && User(user) in s.holders && Storable(s, grants)
      && var session := s.sessions[caller];
      && MaySetGrants(Authority(s, session, caller), session.scoped, session.user == user,
                      s.holders[User(user)], grants).Ok?
    case CreateInvitation(caller, invitation, grants) =>
      && caller in s.sessions && Invitation(invitation) !in s.holders && Storable(s, grants)
      && var session := s.sessions[caller];
      && MayCreateInvitation(Authority(s, session, caller), session.scoped, grants).Ok?
    case Redeem(invitation, user) =>
      && Invitation(invitation) in s.holders && invitation in s.issuers && User(user) !in s.holders
      && MayInvite(Of(s, User(s.issuers[invitation])), s.holders[Invitation(invitation)]).Ok?
    case CreateToken(caller, credential, grants) =>
      && caller in s.sessions && credential !in s.sessions && Storable(s, grants)
      && var session := s.sessions[caller];
      && MayHandOut(Authority(s, session, caller), session.scoped, grants).Ok?
    case SignIn(user, credential) =>
      User(user) in s.holders && credential !in s.sessions
    case Revoke(holder) =>
      !holder.User? && (holder in s.holders || (holder.Credential? && holder.key in s.sessions))
    case CreateApplication(caller, id, required) =>
      && caller in s.sessions && id !in s.used && Write in required
      && RequireChange(Authority(s, s.sessions[caller], caller), required, New).Ok?
    case DeleteApplication(id) =>
      id in s.applications
  }

  /** A set read back after the rows naming `id` were deleted. */
  function Forget(g: Grants, id: ApplicationId): Grants {
    Grants(if g.admin.None? then None else Some(ForgetScope(g.admin.value, id)),
           map p | p in g.apps :: ForgetScope(g.apps[p], id),
           g.global).Normalized()
  }

  function ForgetScope(scope: Scope, id: ApplicationId): Scope {
    match scope
    case All => All
    case Only(ids) => Only(ids - {id})
  }

  function Apply(s: State, step: Step): State {
    match step
    case SetGrants(_, user, grants) => s.(holders := s.holders[User(user) := grants])
    case CreateInvitation(caller, invitation, grants) =>
      s.(holders := s.holders[Invitation(invitation) := grants],
         issuers := s.issuers[invitation := if caller in s.sessions then s.sessions[caller].user else ""])
    case Redeem(invitation, user) =>
      s.(holders := s.holders[User(user) := Of(s, Invitation(invitation))] - {Invitation(invitation)},
         issuers := s.issuers - {invitation})
    case CreateToken(caller, credential, grants) =>
      s.(holders := s.holders[Credential(credential) := grants],
         sessions := s.sessions[credential := Session(if caller in s.sessions then s.sessions[caller].user else "", true)])
    case SignIn(user, credential) => s.(sessions := s.sessions[credential := Session(user, false)])
    case Revoke(holder) =>
      s.(holders := s.holders - {holder},
         sessions := if holder.Credential? then s.sessions - {holder.key} else s.sessions,
         issuers := if holder.Invitation? then s.issuers - {holder.key} else s.issuers)
    case CreateApplication(caller, id, _) =>
      var created := s.(applications := s.applications + {id}, used := s.used + {id});
      if caller !in s.sessions || s.sessions[caller].scoped then created
      else
        var creator := User(s.sessions[caller].user);
        var received := Of(s, creator).ForCreatedApplication(id);
        if received.IsEmpty() then created
        else created.(holders := s.holders[creator := Of(s, creator).Extended(received)])
    case DeleteApplication(id) =>
      s.(holders := map h | h in s.holders :: Forget(s.holders[h], id), applications := s.applications - {id})
  }

  ghost predicate Valid(s: State) {
    && (forall h <- s.holders.Keys :: Storable(s, s.holders[h]))
    && s.applications <= s.used
  }

  /** What a holder's recorded grants allow somewhere. */
  ghost predicate Held(s: State, h: Holder, w: Permission, x: Place) {
    h in s.holders && s.holders[h].Allows(w, x)
  }

  /** What some account can do somewhere. */
  ghost predicate AccountAllows(s: State, w: Permission, x: Place) {
    exists k: Key :: Held(s, User(k), w, x)
  }

  ghost predicate AccountAllowsSomewhere(s: State, w: Permission) {
    exists y: Place :: AccountAllows(s, w, y)
  }

  /** The state after a sequence of steps, each enabled when it was taken. */
  ghost predicate Run(s: State, steps: seq<Step>, end: State)
    decreases |steps|
  {
    if steps == [] then end == s
    else Enabled(s, steps[0]) && Run(Apply(s, steps[0]), steps[1..], end)
  }

  // ----- Single sets

  lemma AllowsOnlyNamed(g: Grants, w: Permission, id: ApplicationId)
    requires !Names(g, id)
    requires g.Allows(w, Existing(id))
    ensures g.Allows(w, Later)
  {
    if w.App? && !g.AdminScope().All? {
      var q :| q in g.apps && q.Includes(w.app) && g.apps[q].Has(Existing(id));
      assert g.apps[q].Only? ==> Names(g, id);
    }
  }

  /** A credential may do what its account may, if limited only where its own
      grants allow it too. */
  lemma AuthorityAllows(s: State, session: Session, credential: Key, w: Permission, x: Place)
    ensures Authority(s, session, credential).Allows(w, x) <==>
              Of(s, User(session.user)).Allows(w, x)
              && (session.scoped ==> Of(s, Credential(credential)).Allows(w, x))
  {
    if session.scoped { IntersectionIsMeet(Of(s, User(session.user)), Of(s, Credential(credential)), w, x); }
  }

  /** Normalizing names no application the set did not name. */
  lemma NormalizedNames(g: Grants, id: ApplicationId)
    ensures Names(g.Normalized(), id) ==> Names(g, id)
  {
    var n := g.Normalized();
    if !g.AdminScope().All? && !Names(g, id) {
      forall p | p in n.apps ensures n.apps[p].Only? ==> id !in n.apps[p].ids {
        CanonicalScopeParts(g, p);
        NormalizedDirect(g, p);
        UnionOfHas(g.apps, Existing(id));
        assert p == Read && UnionOf(g.apps).Only? ==> !UnionOf(g.apps).Has(Existing(id));
      }
    }
  }

  lemma ExtendedNames(g: Grants, h: Grants, id: ApplicationId)
    ensures Names(g.Extended(h), id) ==> Names(g, id) || Names(h, id)
  {
    NormalizedNames(g.Merged(h), id);
    var merged := g.Merged(h);
    if p :| p in merged.apps && merged.apps[p].Only? && id in merged.apps[p].ids {
      assert id in (if p in g.apps then g.apps[p].ids else {}) || id in h.apps[p].ids;
    }
  }

  lemma ForgetAllows(g: Grants, id: ApplicationId, w: Permission, x: Place)
    ensures Forget(g, id).Allows(w, x) ==> g.Allows(w, x)
    ensures x != Existing(id) ==> (Forget(g, id).Allows(w, x) <==> g.Allows(w, x))
  {
    var raw := Grants(if g.admin.None? then None else Some(ForgetScope(g.admin.value, id)),
                      map p | p in g.apps :: ForgetScope(g.apps[p], id),
                      g.global);
    NormalizedAllows(raw, w, x);
    if w.App? {
      if q :| q in g.apps && q.Includes(w.app) && g.apps[q].Has(x) && x != Existing(id) {
        assert q in raw.apps && raw.apps[q].Has(x);
      }
    }
  }

  lemma ForgetNames(g: Grants, id: ApplicationId, other: ApplicationId)
    ensures Names(Forget(g, id), other) ==> Names(g, other) && other != id
    ensures Forget(g, id).Canonical()
  {
    var raw := Grants(if g.admin.None? then None else Some(ForgetScope(g.admin.value, id)),
                      map p | p in g.apps :: ForgetScope(g.apps[p], id),
                      g.global);
    NormalizedNames(raw, other);
    NormalizedIsCanonical(raw);
  }

  // ----- Creator grants

  /** On its new application a creator receives no installation-wide ability,
      and nothing anywhere else. */
  lemma ReceivedOnlyThere(g: Grants, id: ApplicationId, w: Permission, x: Place)
    requires g.ForCreatedApplication(id).Allows(w, x)
    ensures !w.Global? && x == Existing(id)
  {
    NormalizedAllows(CreatedRaw(g, id), w, x);
  }

  /** The creator's grants before they are normalized. */
  ghost function CreatedRaw(g: Grants, id: ApplicationId): (raw: Grants)
    ensures g.ForCreatedApplication(id) == raw.Normalized()
  {
    Grants(if g.admin.Some? && g.admin.value != All then Some(Only({id})) else None,
           map p | p in g.apps && g.apps[p] != All :: Only({id}),
           {})
  }

  /** A creator receives nothing exactly when all it holds it holds on every
      application. */
  lemma ReceivesNothingIffHeldEverywhere(g: Grants, id: ApplicationId)
    requires g.Canonical()
    ensures g.ForCreatedApplication(id).IsEmpty() <==>
              forall w: Permission, x: Place :: g.Allows(w, x) ==> g.Allows(w, Later)
  {
    if g.ForCreatedApplication(id).IsEmpty() {
      forall w: Permission, x: Place | g.Allows(w, x) ensures g.Allows(w, Later) {
        if !w.Global? { ListedIsReceived(g, id, w, x); }
      }
    } else if forall w: Permission, x: Place :: g.Allows(w, x) ==> g.Allows(w, Later) {
      EverywhereIsNotReceived(g, id);
    }
  }

  lemma NothingIsAllowed(g: Grants, w: Permission, x: Place)
    requires g.IsEmpty()
    ensures !g.Allows(w, x)
  {
  }

  lemma ListedIsReceived(g: Grants, id: ApplicationId, w: Permission, x: Place)
    requires !w.Global? && g.Allows(w, x) && g.ForCreatedApplication(id).IsEmpty()
    ensures g.Allows(w, Later)
  {
    var raw, there := CreatedRaw(g, id), Existing(id);
    NormalizedAllows(raw, w, there);
    NothingIsAllowed(g.ForCreatedApplication(id), w, there);
    if g.AdminScope().Has(x) {
      assert raw.AdminScope().All? || raw.admin.None? || raw.AdminScope().Has(there);
    } else {
      var q :| q in g.apps && q.Includes(w.app) && g.apps[q].Has(x);
      if g.apps[q] != All { assert q in raw.apps && raw.apps[q].Has(there); }
    }
  }

  lemma EverywhereIsNotReceived(g: Grants, id: ApplicationId)
    requires g.Canonical()
    requires forall w: Permission, x: Place :: g.Allows(w, x) ==> g.Allows(w, Later)
    ensures g.ForCreatedApplication(id).IsEmpty()
  {
    if g.admin.Some? && g.admin.value != All {
      var a :| a in g.admin.value.ids;
      assert g.Allows(Admin, Existing(a));
    }
    forall q | q in g.apps ensures g.apps[q] == All {
      if g.apps[q].Only? {
        var a :| a in g.apps[q].ids;
        assert g.Allows(App(q), Existing(a));
        assert g.Allows(App(q), Later);
      }
    }
    var raw := CreatedRaw(g, id);
    assert raw == NOTHING;
    CanonicalIffNormalized(NOTHING);
  }

  lemma ReceivedNames(g: Grants, id: ApplicationId, other: ApplicationId)
    ensures Names(g.ForCreatedApplication(id), other) ==> other == id
    ensures g.ForCreatedApplication(id).Canonical()
  {
    NormalizedNames(CreatedRaw(g, id), other);
    NormalizedIsCanonical(CreatedRaw(g, id));
  }

  /** With what it receives, the creator holds on its new application exactly
      the kinds of ability it held somewhere. */
  lemma CreatorHoldsWhatItHeldSomewhere(g: Grants, id: ApplicationId, w: Permission)
    requires g.Canonical() && !w.Global?
    ensures g.Extended(g.ForCreatedApplication(id)).Allows(w, Existing(id)) <==> exists x: Place :: g.Allows(w, x)
  {
    var received, raw, there := g.ForCreatedApplication(id), CreatedRaw(g, id), Existing(id);
    ExtendedIsJoin(g, received, w, there);
    NormalizedAllows(raw, w, there);
    if raw.Allows(w, there) {
      if raw.AdminScope().Has(there) {
        var other :| other in g.admin.value.ids;
        assert g.Allows(w, Existing(other));
      } else {
        var q :| q in raw.apps && q.Includes(w.app) && raw.apps[q].Has(there);
        var other :| other in g.apps[q].ids;
        assert g.Allows(w, Existing(other));
      }
    }
    if x: Place :| g.Allows(w, x) {
      if w.App? && !g.AdminScope().Has(x) {
        var q :| q in g.apps && q.Includes(w.app) && g.apps[q].Has(x);
        if g.apps[q] != All { assert q in raw.apps && raw.apps[q].Has(there); }
      }
    }
  }

  // ----- Every step

  lemma StepKeepsValid(s: State, step: Step)
    requires Valid(s) && Enabled(s, step)
    ensures Valid(Apply(s, step))
  {
    var t := Apply(s, step);
    hide Grants.Canonical, Names, Forget, Authority, RequireChange, MayInvite, MayCreateInvitation, MaySetGrants,
      MayHandOut;
    if step.DeleteApplication? {
      forall h | h in t.holders ensures Storable(t, t.holders[h]) { ForgottenIsStorable(s, s.holders[h], step.id); }
    } else if step.CreateApplication? {
      CreationKeepsValid(s, step);
    }
  }

  lemma CreationKeepsValid(s: State, step: Step)
    requires Valid(s) && Enabled(s, step) && step.CreateApplication?
    ensures Valid(Apply(s, step))
  {
    var t := Apply(s, step);
    hide Grants.Canonical, Names, Grants.ForCreatedApplication, Grants.Extended, Authority, RequireChange;
    forall h | h in t.holders ensures Storable(t, t.holders[h]) {
      if h !in s.holders || t.holders[h] != s.holders[h] { CreatorIsStorable(s, Of(s, h), step.id); }
    }
  }

  lemma ForgottenIsStorable(s: State, g: Grants, id: ApplicationId)
    requires Storable(s, g)
    ensures Storable(s.(applications := s.applications - {id}), Forget(g, id))
  {
    forall other: ApplicationId
      ensures Names(Forget(g, id), other) ==> Names(g, other) && other != id
      ensures Forget(g, id).Canonical()
    {
      ForgetNames(g, id, other);
    }
    ForgetNames(g, id, "");
  }

  lemma CreatorIsStorable(s: State, g: Grants, id: ApplicationId)
    requires g == NOTHING || Storable(s, g)
    ensures Storable(s.(applications := s.applications + {id}), g.Extended(g.ForCreatedApplication(id)))
  {
    var received := g.ForCreatedApplication(id);
    forall other ensures Names(g.Extended(received), other) ==> Names(g, other) || other == id {
      ExtendedNames(g, received, other);
      ReceivedNames(g, id, other);
    }
    ExtendedIsJoin(g, received, Admin, Later);
  }

  lemma AccountHolds(s: State, user: Key, w: Permission, x: Place)
    requires Of(s, User(user)).Allows(w, x)
    ensures Held(s, User(user), w, x) && AccountAllows(s, w, x)
  {
  }

  lemma CreationAccessHasSource(s: State, step: Step, h: Holder, w: Permission, x: Place)
    requires Valid(s) && Enabled(s, step) && step.CreateApplication?
    requires Held(Apply(s, step), h, w, x) && !Held(s, h, w, x)
    ensures x == Existing(step.id) && !w.Global? && h.User? && AccountAllowsSomewhere(s, w)
  {
    hide Grants.Canonical, Grants.Extended, Grants.ForCreatedApplication, Authority, RequireChange, Names;
    var g := Of(s, h);
    ExtendedIsJoin(g, g.ForCreatedApplication(step.id), w, x);
    if g.Allows(w, x) { AccountHolds(s, h.key, w, x); }
    ReceivedOnlyThere(g, step.id, w, x);
    CreatorHoldsWhatItHeldSomewhere(g, step.id, w);
    var y: Place :| g.Allows(w, y);
    AccountHolds(s, h.key, w, y);
  }

  /** Whoever hands out access through a credential, or through a link when it is
      redeemed, has an account holding it. */
  lemma HandedOutIsHeld(s: State, step: Step, w: Permission, x: Place)
    requires Enabled(s, step)
    requires match step
      case SetGrants(_, _, grants) => grants.Allows(w, x)
      case CreateInvitation(_, _, grants) => grants.Allows(w, x)
      case CreateToken(_, _, grants) => grants.Allows(w, x)
      case Redeem(invitation, _) => Of(s, Invitation(invitation)).Allows(w, x)
      case _ => false
    ensures AccountAllows(s, w, x)
  {
    hide Grants.Allows, Grants.Covers, Authority, Require;
    if step.Redeem? {
      var issuer := s.issuers[step.invitation];
      CoveredAllows(Of(s, User(issuer)), s.holders[Invitation(step.invitation)], w, x);
      AccountHolds(s, issuer, w, x);
    } else {
      var session := s.sessions[step.caller];
      CoveredAllows(Authority(s, session, step.caller), step.grants, w, x);
      AuthorityAllows(s, session, step.caller, w, x);
      AccountHolds(s, session.user, w, x);
    }
  }

  /** Where what a holder has after a step comes from: the holder had it, some
      account had it, or it is on the application the step creates, and some
      account had it somewhere. */
  lemma StepAccessHasSource(s: State, step: Step, h: Holder, w: Permission, x: Place)
    requires Valid(s) && Enabled(s, step)
    requires Held(Apply(s, step), h, w, x)
    ensures || Held(s, h, w, x)
            || AccountAllows(s, w, x)
            || (step.CreateApplication? && x == Existing(step.id) && !w.Global? && h.User? && AccountAllowsSomewhere(s, w))
  {
    hide Grants.Allows, Authority, RequireChange, Storable, MaySetGrants, MayCreateInvitation, MayHandOut, MayInvite,
      Forget;
    if !Held(s, h, w, x) {
      match step {
        case CreateApplication(_, _, _) => CreationAccessHasSource(s, step, h, w, x);
        case DeleteApplication(id) => ForgetAllows(s.holders[h], id, w, x);
        case SignIn(_, _) =>
        case Revoke(_) =>
        case _ => HandedOutIsHeld(s, step, w, x);
      }
    }
  }

  /** The fresh application: right after it is created, a permission reaches it
      only for holders of it on every application, and for an unscoped creator,
      which has it there exactly when it held it somewhere. */
  lemma FreshApplicationReach(s: State, step: Step, h: Holder, w: Permission)
    requires Valid(s) && Enabled(s, step) && step.CreateApplication? && !w.Global?
    requires h in Apply(s, step).holders
    ensures var session := s.sessions[step.caller];
      Apply(s, step).holders[h].Allows(w, Existing(step.id)) <==>
        if h == User(session.user) && !session.scoped then exists y: Place :: Of(s, h).Allows(w, y)
        else Of(s, h).Allows(w, Later)
  {
    var session, g := s.sessions[step.caller], Of(s, h);
    assert g == NOTHING || (g.Canonical() && !Names(g, step.id));
    hide Grants.Canonical, Names, Grants.Extended, Grants.ForCreatedApplication, Authority, RequireChange, Storable;
    if g.Allows(w, Existing(step.id)) && g != NOTHING { AllowsOnlyNamed(g, w, step.id); }
    if h == User(session.user) && !session.scoped { CreatorReach(g, step.id, w); }
  }

  lemma CreatorReach(g: Grants, id: ApplicationId, w: Permission)
    requires (g == NOTHING || g.Canonical()) && !w.Global?
    ensures var received := g.ForCreatedApplication(id);
      (if received.IsEmpty() then g else g.Extended(received)).Allows(w, Existing(id)) <==>
        exists y: Place :: g.Allows(w, y)
  {
    var received := g.ForCreatedApplication(id);
    CreatorHoldsWhatItHeldSomewhere(g, id, w);
    if received.IsEmpty() {
      ExtendedIsJoin(g, received, w, Existing(id));
      assert !received.Allows(w, Existing(id));
    }
  }

  // ----- Every run

  /** The places that existed, or were only anticipated, in a state. */
  ghost predicate Known(s: State, x: Place) {
    x.Existing? ==> x.id in s.used
  }

  lemma {:induction false} RunKeepsValid(s: State, steps: seq<Step>, end: State)
    requires Valid(s) && Run(s, steps, end)
    ensures Valid(end)
    decreases |steps|
  {
    if steps != [] {
      StepKeepsValid(s, steps[0]);
      RunKeepsValid(Apply(s, steps[0]), steps[1..], end);
    }
  }

  /** Along every run, what a holder has on an application of the first state, on
      every application, or on the installation it had at first, or some account
      had: recorded grants that no account backs are never passed on. */
  lemma {:induction false} HoldersNeverGrow(s: State, steps: seq<Step>, end: State, h: Holder, w: Permission, x: Place)
    requires Valid(s) && Run(s, steps, end) && Known(s, x)
    requires Held(end, h, w, x)
    ensures Held(s, h, w, x) || AccountAllows(s, w, x)
    decreases |steps|
  {
    if steps != [] {
      var next := Apply(s, steps[0]);
      StepKeepsValid(s, steps[0]);
      HoldersNeverGrow(next, steps[1..], end, h, w, x);
      if Held(next, h, w, x) {
        StepAccessHasSource(s, steps[0], h, w, x);
      } else {
        var k :| Held(next, User(k), w, x);
        StepAccessHasSource(s, steps[0], User(k), w, x);
      }
    }
  }

  /** Along every run no account, and no credential whatever its grants, can do
      anything there that no account could do at first. */
  lemma AccessNeverGrows(s: State, steps: seq<Step>, end: State, w: Permission, x: Place)
    requires Valid(s) && Run(s, steps, end) && Known(s, x)
    ensures AccountAllows(end, w, x) ==> AccountAllows(s, w, x)
    ensures forall c <- end.sessions.Keys :: Authority(end, end.sessions[c], c).Allows(w, x) ==> AccountAllows(s, w, x)
  {
    hide Grants.Allows, Authority, Valid, Known, Run;
    if AccountAllows(end, w, x) {
      var k :| Held(end, User(k), w, x);
      HoldersNeverGrow(s, steps, end, User(k), w, x);
    }
    forall c | c in end.sessions && Authority(end, end.sessions[c], c).Allows(w, x) ensures AccountAllows(end, w, x) {
      AuthorityAllows(end, end.sessions[c], c, w, x);
      AccountHolds(end, end.sessions[c].user, w, x);
    }
  }

  /** Along every run no account gets an ability that no account had, not even on
      applications created on the way. */
  lemma {:induction false} NoNewKindOfAbility(s: State, steps: seq<Step>, end: State, w: Permission, x: Place)
    requires Valid(s) && Run(s, steps, end)
    ensures AccountAllows(end, w, x) ==> AccountAllowsSomewhere(s, w)
    decreases |steps|
  {
    if steps == [] {
      assert AccountAllows(end, w, x) ==> AccountAllows(s, w, x);
    } else if AccountAllows(end, w, x) {
      var next := Apply(s, steps[0]);
      StepKeepsValid(s, steps[0]);
      NoNewKindOfAbility(next, steps[1..], end, w, x);
      var y: Place :| AccountAllows(next, w, y);
      var k :| Held(next, User(k), w, y);
      StepAccessHasSource(s, steps[0], User(k), w, y);
      assert Held(s, User(k), w, y) ==> AccountAllows(s, w, y);
      assert AccountAllows(s, w, y) ==> AccountAllowsSomewhere(s, w);
    }
  }

  // ----- What the guards are for

  /** Along every run in which no account may create applications at first, none
      appears. */
  lemma {:induction false} CreatingNeedsPermission(s: State, steps: seq<Step>, end: State)
    requires Valid(s) && Run(s, steps, end)
    requires !AccountAllows(s, Global(AppsCreate), Later)
    ensures end.applications <= s.applications
    decreases |steps|
  {
    if steps != [] {
      var step, next := steps[0], Apply(s, steps[0]);
      StepKeepsValid(s, step);
      if step.CreateApplication? {
        CreatorMayCreate(s, step);
        assert false;
      }
      if AccountAllows(next, Global(AppsCreate), Later) {
        var k :| Held(next, User(k), Global(AppsCreate), Later);
        StepAccessHasSource(s, step, User(k), Global(AppsCreate), Later);
      }
      CreatingNeedsPermission(next, steps[1..], end);
    }
  }

  lemma CreatorMayCreate(s: State, step: Step)
    requires Enabled(s, step) && step.CreateApplication?
    ensures AccountAllows(s, Global(AppsCreate), Later)
    ensures forall p <- step.required :: p != Write ==>
              exists x: Place :: Of(s, User(s.sessions[step.caller].user)).Allows(App(p), x)
  {
    hide Authority, Grants.Covers;
    var session := s.sessions[step.caller];
    var g := Authority(s, session, step.caller);
    CreatingNeedsEveryKind(g, step.required);
    assert g.Allows(Global(AppsCreate), Later);
    AuthorityAllows(s, session, step.caller, Global(AppsCreate), Later);
    AccountHolds(s, session.user, Global(AppsCreate), Later);
    forall p | p in step.required && p != Write
      ensures exists x: Place :: Of(s, User(session.user)).Allows(App(p), x)
    {
      var x: Place :| g.Allows(App(p), x);
      AuthorityAllows(s, session, step.caller, App(p), x);
    }
  }

  /** Every permission that creating required somewhere, an unlimited creator
      holds on the new application afterwards. */
  lemma CreatorReceivesWhatCreatingRequired(s: State, step: Step, p: AppPermission)
    requires Valid(s) && Enabled(s, step) && step.CreateApplication?
    requires !s.sessions[step.caller].scoped && p in step.required && p != Write
    ensures Held(Apply(s, step), User(s.sessions[step.caller].user), App(p), Existing(step.id))
  {
    var user := s.sessions[step.caller].user;
    CreatorMayCreate(s, step);
    var x: Place :| Of(s, User(user)).Allows(App(p), x);
    AccountHolds(s, user, App(p), x);
    FreshApplicationReach(s, step, User(user), App(p));
  }

  /** Along every run in which no account may manage accounts at first, neither
      accounts nor invitations appear. */
  lemma {:induction false} InvitingNeedsPermission(s: State, steps: seq<Step>, end: State)
    requires Valid(s) && Run(s, steps, end)
    requires !AccountAllows(s, Global(AccountsManage), Later)
    ensures forall h <- end.holders.Keys :: h.Credential? || h in s.holders
    decreases |steps|
  {
    if steps != [] {
      var step, next := steps[0], Apply(s, steps[0]);
      StepKeepsValid(s, step);
      if AccountAllows(next, Global(AccountsManage), Later) {
        var k :| Held(next, User(k), Global(AccountsManage), Later);
        StepAccessHasSource(s, step, User(k), Global(AccountsManage), Later);
      }
      InvitingNeedsPermission(next, steps[1..], end);
      forall h | h in next.holders && !h.Credential? ensures h in s.holders { NewHolderWasInvited(s, step, h); }
    }
  }

  lemma NewHolderWasInvited(s: State, step: Step, h: Holder)
    requires Valid(s) && Enabled(s, step) && h in Apply(s, step).holders && !h.Credential?
    ensures h in s.holders || AccountAllows(s, Global(AccountsManage), Later)
  {
    hide Grants.Covers, Authority, MaySetGrants, Storable;
    if h !in s.holders {
      match step {
        case CreateInvitation(caller, _, _) =>
          var session := s.sessions[caller];
          AuthorityAllows(s, session, caller, Global(AccountsManage), Later);
          AccountHolds(s, session.user, Global(AccountsManage), Later);
        case Redeem(invitation, _) =>
          AccountHolds(s, s.issuers[invitation], Global(AccountsManage), Later);
        case CreateApplication(_, _, _) => CreatorIsKnown(s, step);
        case SetGrants(_, _, _) =>
        case CreateToken(_, _, _) =>
        case SignIn(_, _) =>
        case Revoke(_) =>
        case DeleteApplication(_) =>
      }
    }
  }

  lemma CreatorIsKnown(s: State, step: Step)
    requires Enabled(s, step) && step.CreateApplication?
    ensures Apply(s, step).holders.Keys == s.holders.Keys
  {
    hide Authority, Grants.Extended, Grants.ForCreatedApplication;
    var session := s.sessions[step.caller];
    var g := Authority(s, session, step.caller);
    CreatingNeedsEveryKind(g, step.required);
    AuthorityAllows(s, session, step.caller, Global(AppsCreate), Later);
    AccountHolds(s, session.user, Global(AppsCreate), Later);
  }

  /** An account loses something only with the application it is on, by its own
      decision, or to an account manager who has it too, and never through a
      limited credential. */
  lemma LosingNeedsAuthority(s: State, step: Step, user: Key, w: Permission, x: Place)
    requires Enabled(s, step)
    requires Held(s, User(user), w, x) && !Held(Apply(s, step), User(user), w, x)
    ensures || (step.DeleteApplication? && x == Existing(step.id))
            || (step.SetGrants? && step.user == user
                && var session := s.sessions[step.caller];
                !session.scoped
                && (session.user == user
                    || (Held(s, User(session.user), w, x) && Held(s, User(session.user), Global(AccountsManage), x))))
  {
    hide Grants.Covers, Authority, RequireChange, Storable, Forget, Grants.Extended, Grants.ForCreatedApplication;
    match step {
      case DeleteApplication(id) => ForgetAllows(s.holders[User(user)], id, w, x);
      case CreateApplication(_, id, _) =>
        ExtendedIsJoin(s.holders[User(user)], s.holders[User(user)].ForCreatedApplication(id), w, x);
      case SetGrants(caller, _, _) =>
        var session := s.sessions[caller];
        if session.user != user {
          CoveredAllows(Authority(s, session, caller), s.holders[User(user)], w, x);
          AuthorityAllows(s, session, caller, w, x);
          AccountHolds(s, session.user, w, x);
          AuthorityAllows(s, session, caller, Global(AccountsManage), x);
          AccountHolds(s, session.user, Global(AccountsManage), x);
        }
      case _ =>
    }
  }

  /** Along every run in which all credentials are limited, and nobody signs in
      or redeems a link, no holder gains anything on what existed or was to
      come, no holder appears, and no credential does. */
  lemma {:induction false} LimitedCredentialsHandOutNothing(
    s: State, steps: seq<Step>, end: State, h: Holder, w: Permission, x: Place)
    requires Run(s, steps, end)
    requires forall c <- s.sessions.Keys :: s.sessions[c].scoped
    requires forall step <- steps :: !step.SignIn? && !step.Redeem?
    ensures end.holders.Keys <= s.holders.Keys && end.sessions.Keys <= s.sessions.Keys
    ensures Held(end, h, w, x) ==> Held(s, h, w, x)
    decreases |steps|
  {
    if steps != [] {
      LimitedStepHandsOutNothing(s, steps[0], h, w, x);
      LimitedCredentialsHandOutNothing(Apply(s, steps[0]), steps[1..], end, h, w, x);
    }
  }

  lemma LimitedStepHandsOutNothing(s: State, step: Step, h: Holder, w: Permission, x: Place)
    requires Enabled(s, step) && !step.SignIn? && !step.Redeem?
    requires forall c <- s.sessions.Keys :: s.sessions[c].scoped
    ensures var t := Apply(s, step);
      && t.holders.Keys <= s.holders.Keys
      && t.sessions.Keys <= s.sessions.Keys && (forall c <- t.sessions.Keys :: t.sessions[c] == s.sessions[c])
      && (Held(t, h, w, x) ==> Held(s, h, w, x))
  {
    hide Grants.Allows, Authority, RequireChange, Storable, MayChangeAccount, MayGrant, MayInvite, Forget;
    if step.DeleteApplication? && h in s.holders { ForgetAllows(s.holders[h], step.id, w, x); }
  }

  lemma StepKeepsLimits(s: State, step: Step, credential: Key, w: Permission, x: Place)
    requires Enabled(s, step) && step != Revoke(Credential(credential))
    requires credential in s.sessions && s.sessions[credential].scoped
    ensures var t := Apply(s, step);
      && credential in t.sessions && t.sessions[credential] == s.sessions[credential]
      && (Of(t, Credential(credential)).Allows(w, x) ==> Of(s, Credential(credential)).Allows(w, x))
  {
    hide Grants.Allows, Authority, Storable, MayInvite, MayChangeAccount, MayGrant, RequireChange, Forget;
    if step.DeleteApplication? && Credential(credential) in s.holders {
      ForgetAllows(s.holders[Credential(credential)], step.id, w, x);
    }
  }

  /** Along every run a limited credential that is not revoked stays limited, and
      never may do what the grants it had at first did not allow it. */
  lemma {:induction false} LimitsNeverGrow(s: State, steps: seq<Step>, end: State, credential: Key, w: Permission, x: Place)
    requires Run(s, steps, end) && Revoke(Credential(credential)) !in steps
    requires credential in s.sessions && s.sessions[credential].scoped
    ensures credential in end.sessions && end.sessions[credential] == s.sessions[credential]
    ensures Authority(end, end.sessions[credential], credential).Allows(w, x) ==>
              Of(s, Credential(credential)).Allows(w, x)
    decreases |steps|
  {
    if steps == [] {
      AuthorityAllows(s, s.sessions[credential], credential, w, x);
    } else {
      StepKeepsLimits(s, steps[0], credential, w, x);
      LimitsNeverGrow(Apply(s, steps[0]), steps[1..], end, credential, w, x);
    }
  }

  // ----- Who may take which step

  /** The steps that credentials take, and redemption, are open to exactly those
      documented: unlimited credentials holding all they hand out, with
      `accounts:manage` where others are concerned; links whose issuer could
      still create them; and creators holding what creating requires. */
  lemma WhoMayAct(s: State, step: Step)
    ensures match step
      case SetGrants(caller, user, grants) =>
        Enabled(s, step) <==>
          && caller in s.sessions && User(user) in s.holders && Storable(s, grants)
          && var session := s.sessions[caller];
          && var g := Authority(s, session, caller);
          && !session.scoped && Holds(g, grants)
          && (session.user == user || (g.HasGlobal(AccountsManage) && Holds(g, s.holders[User(user)])))
      case CreateInvitation(caller, invitation, grants) =>
        Enabled(s, step) <==>
          && caller in s.sessions && Invitation(invitation) !in s.holders && Storable(s, grants)
          && var g := Authority(s, s.sessions[caller], caller);
          && !s.sessions[caller].scoped && g.HasGlobal(AccountsManage) && Holds(g, grants)
      case Redeem(invitation, user) =>
        Enabled(s, step) <==>
          && Invitation(invitation) in s.holders && invitation in s.issuers && User(user) !in s.holders
          && var g := Of(s, User(s.issuers[invitation]));
          && g.HasGlobal(AccountsManage) && Holds(g, s.holders[Invitation(invitation)])
      case CreateToken(caller, credential, grants) =>
        Enabled(s, step) <==>
          && caller in s.sessions && credential !in s.sessions && Storable(s, grants)
          && !s.sessions[caller].scoped && Holds(Authority(s, s.sessions[caller], caller), grants)
      case CreateApplication(caller, id, required) =>
        Enabled(s, step) <==>
          && caller in s.sessions && id !in s.used && Write in required
          && forall p <- required :: HeldToCreate(Authority(s, s.sessions[caller], caller), p)
      case _ => true
  {
    hide Authority, Holds, Storable, HeldToCreate, Grants.HasGlobal, RequireChange;
    match step {
      case SetGrants(caller, user, grants) =>
        if caller in s.sessions && User(user) in s.holders {
          var session := s.sessions[caller];
          AccountAnswers(Authority(s, session, caller), session.scoped, session.user == user,
                         s.holders[User(user)], grants);
        }
      case CreateInvitation(caller, _, grants) =>
        if caller in s.sessions {
          AccountAnswers(Authority(s, s.sessions[caller], caller), s.sessions[caller].scoped, false, grants, grants);
        }
      case Redeem(invitation, _) =>
        if invitation in s.issuers && Invitation(invitation) in s.holders {
          var grants := s.holders[Invitation(invitation)];
          AccountAnswers(Of(s, User(s.issuers[invitation])), false, false, grants, grants);
        }
      case CreateToken(caller, _, grants) =>
        if caller in s.sessions {
          AccountAnswers(Authority(s, s.sessions[caller], caller), s.sessions[caller].scoped, false, grants, grants);
        }
      case CreateApplication(caller, _, required) =>
        if caller in s.sessions { CreatingNeedsEveryKind(Authority(s, s.sessions[caller], caller), required); }
      case _ =>
    }
  }

  // ----- What each step does

  /** Nothing but one holder differs. */
  ghost predicate OnlyHolderDiffers(s: State, t: State, holder: Holder) {
    && (forall h: Holder :: h != holder ==> (h in t.holders <==> h in s.holders))
    && (forall h: Holder :: h != holder && h in s.holders ==> t.holders[h] == s.holders[h])
    && t.sessions == s.sessions && t.issuers == s.issuers
    && t.applications == s.applications && t.used == s.used
  }

  /** Setting grants replaces what the account held, and nothing else. */
  lemma GrantsAreReplaced(s: State, step: Step, w: Permission, x: Place)
    requires Enabled(s, step) && step.SetGrants?
    ensures var t := Apply(s, step);
      && (Held(t, User(step.user), w, x) <==> step.grants.Allows(w, x))
      && OnlyHolderDiffers(s, t, User(step.user))
  {
  }

  /** An invitation records its grants and its issuer. */
  lemma InvitationIsRecorded(s: State, step: Step, w: Permission, x: Place)
    requires Enabled(s, step) && step.CreateInvitation?
    ensures var t := Apply(s, step);
      && (Held(t, Invitation(step.invitation), w, x) <==> step.grants.Allows(w, x))
      && step.invitation in t.issuers && t.issuers[step.invitation] == s.sessions[step.caller].user
      && (forall i :: i != step.invitation ==> (i in t.issuers <==> i in s.issuers))
      && (forall i <- s.issuers.Keys :: i != step.invitation ==> t.issuers[i] == s.issuers[i])
      && OnlyHolderDiffers(s, t.(issuers := s.issuers), Invitation(step.invitation))
  {
  }

  /** Redeeming a link uses it up for an account holding what it recorded. */
  lemma LinkIsRedeemed(s: State, step: Step, w: Permission, x: Place)
    requires Enabled(s, step) && step.Redeem?
    ensures var t, link := Apply(s, step), Invitation(step.invitation);
      && User(step.user) !in s.holders && User(step.user) in t.holders
      && (Held(t, User(step.user), w, x) <==> Held(s, link, w, x))
      && link !in t.holders && step.invitation !in t.issuers
      && (forall i :: i != step.invitation ==> (i in t.issuers <==> i in s.issuers))
      && (forall i <- t.issuers.Keys :: t.issuers[i] == s.issuers[i])
      && OnlyHolderDiffers(s.(holders := s.holders - {link}), t.(issuers := s.issuers), User(step.user))
  {
  }

  /** A token acts for its creator's account, within the grants it was given. */
  lemma TokenIsIssued(s: State, step: Step, w: Permission, x: Place)
    requires Enabled(s, step) && step.CreateToken?
    ensures var t := Apply(s, step);
      && step.credential in t.sessions
      && t.sessions[step.credential] == Session(s.sessions[step.caller].user, true)
      && (Authority(t, t.sessions[step.credential], step.credential).Allows(w, x) <==>
            Held(s, User(s.sessions[step.caller].user), w, x) && step.grants.Allows(w, x))
      && (forall c :: c != step.credential ==> (c in t.sessions <==> c in s.sessions))
      && (forall c <- s.sessions.Keys :: t.sessions[c] == s.sessions[c])
      && OnlyHolderDiffers(s, t.(sessions := s.sessions), Credential(step.credential))
  {
    hide Grants.Allows, Authority, MayHandOut, Storable;
    var t := Apply(s, step);
    AuthorityAllows(t, t.sessions[step.credential], step.credential, w, x);
    if Of(s, User(s.sessions[step.caller].user)).Allows(w, x) { AccountHolds(s, s.sessions[step.caller].user, w, x); }
  }

  /** Signing in gives a credential all its account holds. */
  lemma SignInActsForAccount(s: State, step: Step, w: Permission, x: Place)
    requires Enabled(s, step) && step.SignIn?
    ensures var t := Apply(s, step);
      && step.credential in t.sessions
      && (Authority(t, t.sessions[step.credential], step.credential).Allows(w, x) <==> Held(s, User(step.user), w, x))
      && (forall c :: c != step.credential ==> (c in t.sessions <==> c in s.sessions))
      && (forall c <- s.sessions.Keys :: t.sessions[c] == s.sessions[c])
      && t == s.(sessions := t.sessions)
  {
    hide Grants.Allows, Authority;
    var t := Apply(s, step);
    AuthorityAllows(t, t.sessions[step.credential], step.credential, w, x);
  }

  /** Revoking a credential or an invitation ends it. */
  lemma RevocationEndsIt(s: State, step: Step)
    requires Enabled(s, step) && step.Revoke?
    ensures var t := Apply(s, step);
      && step.holder !in t.holders
      && (step.holder.Credential? ==> step.holder.key !in t.sessions)
      && (step.holder.Invitation? ==> step.holder.key !in t.issuers)
      && (forall c <- s.sessions.Keys :: step.holder != Credential(c) ==> c in t.sessions && t.sessions[c] == s.sessions[c])
      && (forall i <- s.issuers.Keys :: step.holder != Invitation(i) ==> i in t.issuers && t.issuers[i] == s.issuers[i])
      && t.sessions.Keys <= s.sessions.Keys && t.issuers.Keys <= s.issuers.Keys
      && OnlyHolderDiffers(s, t.(sessions := s.sessions, issuers := s.issuers), step.holder)
  {
  }

  /** Creating an application changes nobody's access elsewhere. */
  lemma CreationChangesOnlyThere(s: State, step: Step, h: Holder, w: Permission, x: Place)
    requires Valid(s) && Enabled(s, step) && step.CreateApplication?
    requires w.Global? || x != Existing(step.id)
    ensures var t := Apply(s, step);
      && (Held(t, h, w, x) <==> Held(s, h, w, x))
      && t.holders.Keys == s.holders.Keys && t.sessions == s.sessions && t.issuers == s.issuers
      && t.applications == s.applications + {step.id} && step.id in t.used && step.id !in s.applications
  {
    hide Grants.Allows, Authority, RequireChange, Storable, Grants.Extended, Grants.ForCreatedApplication;
    CreatorIsKnown(s, step);
    var g := Of(s, h);
    ExtendedIsJoin(g, g.ForCreatedApplication(step.id), w, x);
    if g.ForCreatedApplication(step.id).Allows(w, x) { ReceivedOnlyThere(g, step.id, w, x); }
  }

  /** Deleting one removes what anyone held on it by name, and nothing else. */
  lemma DeletionForgetsOnlyIt(s: State, step: Step, h: Holder, w: Permission, x: Place)
    requires Enabled(s, step) && step.DeleteApplication?
    ensures var t := Apply(s, step);
      && (Held(t, h, w, x) <==> Held(s, h, w, if x == Existing(step.id) then Later else x))
      && t.holders.Keys == s.holders.Keys && t.sessions == s.sessions && t.issuers == s.issuers
      && t.applications == s.applications - {step.id} && t.used == s.used
  {
    hide Grants.Allows, Forget;
    if h in s.holders {
      var g := s.holders[h];
      ForgetAllows(g, step.id, w, Later);
      ForgetAllows(g, step.id, w, x);
      if x == Existing(step.id) { ForgottenIsEverywhere(g, step.id, w); }
    }
  }

  /** On a deleted application remains only what is held on every one. */
  lemma ForgottenIsEverywhere(g: Grants, id: ApplicationId, w: Permission)
    ensures Forget(g, id).Allows(w, Existing(id)) <==> g.Allows(w, Later)
  {
    var forgotten := Forget(g, id);
    ForgetAllows(g, id, w, Later);
    if forgotten.Allows(w, Existing(id)) && !w.Global? {
      ForgetNames(g, id, id);
      AllowsOnlyNamed(forgotten, w, id);
    }
  }
}
