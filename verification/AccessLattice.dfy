/**
 The canonical form is the only representation of the access it gives, and
 canonical grant sets form a bounded distributive lattice ordered by `covers`.
 */
module AccessLattice {
  import opened Outcomes
  import opened Scopes
  import opened Access

  /** Equal access, compared the way callers query it. */
  ghost predicate SameAccess(g: Grants, h: Grants) {
    && g.AdminScope() == h.AdminScope()
    && (forall p: AppPermission :: g.AppScope(p) == h.AppScope(p))
    && (forall x: GlobalPermission :: g.HasGlobal(x) == h.HasGlobal(x))
  }

  lemma AppScopeHas(g: Grants, p: AppPermission, x: Place)
    ensures g.AppScope(p).Has(x) <==> g.Allows(App(p), x)
  {
    var held := map q | q in g.apps && q.Includes(p) :: g.apps[q];
    UnionOfHas(held, x);
    if q :| q in g.apps && q.Includes(p) && g.apps[q].Has(x) {
      assert q in held && held[q].Has(x);
    }
  }

  /** Comparing scopes and comparing what is allowed place by place agree. */
  lemma SameAccessIsPointwise(g: Grants, h: Grants)
    ensures SameAccess(g, h) <==> forall w: Permission, x: Place :: g.Allows(w, x) <==> h.Allows(w, x)
  {
    if SameAccess(g, h) {
      forall w: Permission, x: Place ensures g.Allows(w, x) <==> h.Allows(w, x) {
        if w.App? { AppScopeHas(g, w.app, x); AppScopeHas(h, w.app, x); }
      }
    }
    if forall w: Permission, x: Place :: g.Allows(w, x) <==> h.Allows(w, x) {
      forall x: Place ensures g.AdminScope().Has(x) <==> h.AdminScope().Has(x) {
        assert g.Allows(Admin, x) <==> h.Allows(Admin, x);
      }
      ScopeIsItsPlaces(g.AdminScope(), h.AdminScope());
      forall p: AppPermission ensures g.AppScope(p) == h.AppScope(p) {
        forall x: Place ensures g.AppScope(p).Has(x) <==> h.AppScope(p).Has(x) {
          AppScopeHas(g, p, x);
          AppScopeHas(h, p, x);
          assert g.Allows(App(p), x) <==> h.Allows(App(p), x);
        }
        ScopeIsItsPlaces(g.AppScope(p), h.AppScope(p));
      }
      forall x: GlobalPermission ensures g.HasGlobal(x) == h.HasGlobal(x) {
        assert g.Allows(Global(x), Later) <==> h.Allows(Global(x), Later);
      }
    }
  }

  // ----- Normalizing

  lemma NormalizedDirect(g: Grants, p: AppPermission)
    requires !g.AdminScope().All?
    ensures g.Normalized().Direct(p) == g.CanonicalScope(p)
    ensures p in g.Normalized().apps <==> !g.CanonicalScope(p).IsEmpty()
  {
  }

  /** An effective scope, spelled out by what can imply the permission. */
  lemma AppScopeParts(g: Grants, p: AppPermission)
    ensures g.AppScope(p) == g.AdminScope().Union(
              if p == Read then UnionOf(g.apps)
              else match p.IncludedIn()
                   case Some(parent) => g.Direct(parent).Union(g.Direct(p))
                   case None => g.Direct(p))
  {
    var held := map q | q in g.apps && q.Includes(p) :: g.apps[q];
    if p == Read {
      assert held == g.apps;
    } else {
      forall x: Place ensures UnionOf(held).Has(x) <==>
          g.Direct(p).Has(x) || (p.IncludedIn().Some? && g.Direct(p.IncludedIn().value).Has(x))
      {
        UnionOfHas(held, x);
        if g.Direct(p).Has(x) { assert p in held && held[p].Has(x); }
        if p.IncludedIn().Some? && g.Direct(p.IncludedIn().value).Has(x) {
          assert p.IncludedIn().value in held && held[p.IncludedIn().value].Has(x);
        }
      }
      var parts := match p.IncludedIn()
        case Some(parent) => g.Direct(parent).Union(g.Direct(p))
        case None => g.Direct(p);
      ScopeIsItsPlaces(UnionOf(held), parts);
    }
  }

  lemma TrimmedUnion(g: Grants)
    requires !g.AdminScope().All?
    ensures UnionOf(g.Trimmed()) == UnionOf(g.apps).Without(g.AdminScope())
  {
    var trimmed := g.Trimmed();
    assert UnionOf(trimmed).All? <==> UnionOf(g.apps).All? by {
      if p :| p in g.apps && g.apps[p].All? { assert trimmed[p].All?; }
    }
    forall x: Place ensures UnionOf(trimmed).Has(x) <==> UnionOf(g.apps).Without(g.AdminScope()).Has(x) {
      UnionOfHas(trimmed, x);
      UnionOfHas(g.apps, x);
      if p :| p in g.apps && g.apps[p].Has(x) && !g.AdminScope().Has(x) { assert trimmed[p].Has(x); }
    }
    ScopeIsItsPlaces(UnionOf(trimmed), UnionOf(g.apps).Without(g.AdminScope()));
  }

  lemma CanonicalScopeParts(g: Grants, p: AppPermission)
    requires !g.AdminScope().All?
    ensures g.CanonicalScope(p) ==
              if p == Read then UnionOf(g.apps).Without(g.AdminScope())
              else match p.IncludedIn()
                   case Some(parent) =>
                     g.Direct(p).Without(g.AdminScope()).Without(g.Direct(parent).Without(g.AdminScope()))
                   case None => g.Direct(p).Without(g.AdminScope())
  {
    if p == Read { TrimmedUnion(g); }
  }

  /** `apps:read` lists what every other permission makes readable. */
  lemma ReadCoversNormalized(g: Grants)
    requires !g.AdminScope().All?
    ensures UnionOf(g.Normalized().apps) == g.CanonicalScope(Read)
  {
    var n, trimmed := g.Normalized(), g.Trimmed();
    forall x: Place ensures UnionOf(n.apps).Has(x) <==> UnionOf(trimmed).Has(x) {
      UnionOfHas(n.apps, x);
      UnionOfHas(trimmed, x);
      if p :| p in n.apps && n.apps[p].Has(x) && p != Read {
        assert p in trimmed && trimmed[p].Has(x);
      }
      if UnionOf(trimmed).Has(x) { assert Read in n.apps && n.apps[Read].Has(x); }
    }
    ScopeIsItsPlaces(UnionOf(n.apps), UnionOf(trimmed));
  }

  /** Restoring the canonical form changes nothing a holder can do. */
  lemma NormalizingKeepsAccess(g: Grants)
    ensures SameAccess(g.Normalized(), g)
  {
    forall p: AppPermission ensures g.Normalized().AppScope(p) == g.AppScope(p) {
      NormalizingKeepsAppScope(g, p);
    }
  }

  lemma NormalizedAdmin(g: Grants)
    ensures g.Normalized().AdminScope() == g.AdminScope()
  {
  }

  lemma NormalizingKeepsAppScope(g: Grants, p: AppPermission)
    ensures g.Normalized().AppScope(p) == g.AppScope(p)
  {
    hide Grants.AppScope, Grants.Normalized, Grants.CanonicalScope, Grants.Direct, Grants.AdminScope,
      Scope.Without, UnionOf;
    AppScopeParts(g, p);
    AppScopeParts(g.Normalized(), p);
    NormalizedAdmin(g);
    if !g.AdminScope().All? {
      hide Scope.Union;
      CanonicalScopeParts(g, p);
      NormalizedDirect(g, p);
      if p == Read {
        ReadCoversNormalized(g);
        UnionOfRest(g.AdminScope(), UnionOf(g.apps), NONE);
      } else if p.IncludedIn().Some? {
        var parent := p.IncludedIn().value;
        CanonicalScopeParts(g, parent);
        NormalizedDirect(g, parent);
        UnionOfRest(g.AdminScope(), g.Direct(p), g.Direct(parent));
      } else {
        UnionOfRest(g.AdminScope(), g.Direct(p), NONE);
      }
    }
  }

  lemma NormalizedIsCanonical(g: Grants)
    ensures g.Normalized().Canonical()
  {
    var n, trimmed := g.Normalized(), g.Trimmed();
    if !g.AdminScope().All? {
      assert n.AdminScope() == g.AdminScope();
      forall p | p in n.apps
        ensures !n.apps[p].IsEmpty()
        ensures n.apps[p].Only? ==> n.apps[p].ids !! n.AdminScope().ids
        ensures Read in n.apps && n.apps[Read].Covers(n.apps[p])
      {
        NormalizedDirect(g, p);
        NormalizedDirect(g, Read);
        assert p != Read ==> p in trimmed && trimmed[p].Covers(n.apps[p]);
        assert n.apps[p].Only? ==> forall id <- n.apps[p].ids ::
          exists q :: q in trimmed && trimmed[q].Only? && id in trimmed[q].ids;
      }
    }
  }

  /** What the canonical scope of `p` must be, from effective access alone. */
  ghost function Residual(g: Grants, p: AppPermission): Scope {
    match p.IncludedIn()
    case Some(parent) => g.AppScope(p).Without(g.AppScope(parent))
    case None => g.AppScope(p).Without(g.AdminScope())
  }

  lemma CanonicalScopeIsResidual(g: Grants, p: AppPermission)
    requires !g.AdminScope().All?
    ensures g.CanonicalScope(p) == Residual(g, p)
  {
    CanonicalScopeParts(g, p);
    AppScopeParts(g, p);
    if p.IncludedIn().Some? { AppScopeParts(g, p.IncludedIn().value); }
  }

  /** The canonical form is a function of effective access. */
  lemma NormalFormFollowsAccess(g: Grants, h: Grants)
    requires SameAccess(g, h)
    ensures g.Normalized() == h.Normalized()
  {
    if !g.AdminScope().All? {
      forall p: AppPermission ensures g.CanonicalScope(p) == h.CanonicalScope(p) {
        CanonicalScopeIsResidual(g, p);
        CanonicalScopeIsResidual(h, p);
      }
      assert g.global == h.global by {
        forall x: GlobalPermission ensures x in g.global <==> x in h.global {
          assert g.HasGlobal(x) == h.HasGlobal(x);
        }
      }
    }
  }

  /** The canonical sets are exactly the fixpoints of `normalize`. */
  lemma CanonicalIffNormalized(g: Grants)
    ensures g.Canonical() <==> g.Normalized() == g
  {
    NormalizedIsCanonical(g);
    if g.Canonical() && !g.AdminScope().All? {
      var trimmed := g.Trimmed();
      forall p | p in g.apps ensures trimmed[p] == g.apps[p] {
      }
      assert trimmed == g.apps;
      forall p: AppPermission ensures g.CanonicalScope(p) == g.Direct(p) {
        if p == Read {
          forall x: Place ensures UnionOf(trimmed).Has(x) <==> g.Direct(Read).Has(x) {
            UnionOfHas(trimmed, x);
            if q :| q in trimmed && trimmed[q].Has(x) {
              CoversIsInclusion(g.apps[Read], g.apps[q]);
            }
          }
          ScopeIsItsPlaces(UnionOf(trimmed), g.Direct(Read));
        }
      }
      assert g.Normalized().apps == g.apps;
    }
  }

  lemma NormalizingIsIdempotent(g: Grants)
    ensures g.Normalized().Normalized() == g.Normalized()
  {
    NormalizedIsCanonical(g);
    CanonicalIffNormalized(g.Normalized());
  }

  /** Equal access compares equal. */
  lemma CanonicalFormIsUnique(g: Grants, h: Grants)
    requires g.Canonical() && h.Canonical()
    ensures SameAccess(g, h) <==> g == h
  {
    CanonicalIffNormalized(g);
    CanonicalIffNormalized(h);
    if SameAccess(g, h) { NormalFormFollowsAccess(g, h); }
  }

  // ----- The lattice

  /** `covers` asks only about what `other` lists, yet decides inclusion of
      everything it lets its holder do. */
  lemma CoversIsPointwise(g: Grants, h: Grants)
    ensures g.Covers(h) <==> forall w: Permission, x: Place :: h.Allows(w, x) ==> g.Allows(w, x)
  {
    if g.Covers(h) {
      forall w: Permission, x: Place | h.Allows(w, x) ensures g.Allows(w, x) {
        CoveredAllows(g, h, w, x);
      }
    }
    if forall w: Permission, x: Place :: h.Allows(w, x) ==> g.Allows(w, x) {
      assert g.AdminScope().Covers(h.AdminScope()) by {
        forall x: Place | h.AdminScope().Has(x) ensures g.AdminScope().Has(x) {
          assert h.Allows(Admin, x) ==> g.Allows(Admin, x);
        }
        CoversIsInclusion(g.AdminScope(), h.AdminScope());
      }
      forall p | p in h.apps ensures g.AppScope(p).Covers(h.apps[p]) {
        forall x: Place | h.apps[p].Has(x) ensures g.AppScope(p).Has(x) {
          AppScopeHas(g, p, x);
          assert h.Allows(App(p), x) ==> g.Allows(App(p), x);
        }
        CoversIsInclusion(g.AppScope(p), h.apps[p]);
      }
      forall x | x in h.global ensures g.HasGlobal(x) {
        assert h.Allows(Global(x), Later) ==> g.Allows(Global(x), Later);
      }
    }
  }

  lemma CoveredAllows(g: Grants, h: Grants, w: Permission, x: Place)
    requires g.Covers(h)
    requires h.Allows(w, x)
    ensures g.Allows(w, x)
  {
    CoversIsInclusion(g.AdminScope(), h.AdminScope());
    if w.App? && !h.AdminScope().Has(x) {
      var q :| q in h.apps && q.Includes(w.app) && h.apps[q].Has(x);
      CoversIsInclusion(g.AppScope(q), h.apps[q]);
      AppScopeHas(g, q, x);
      hide Grants.AppScope, Grants.Covers;
      IncludingAllows(g, q, w.app, x);
    }
  }

  lemma CoversIsPartialOrder(f: Grants, g: Grants, h: Grants)
    requires f.Canonical() && g.Canonical() && h.Canonical()
    ensures f.Covers(f)
    ensures f.Covers(g) && g.Covers(h) ==> f.Covers(h)
    ensures f.Covers(g) && g.Covers(f) ==> f == g
  {
    CoversIsPointwise(f, f);
    CoversIsPointwise(f, g);
    CoversIsPointwise(g, h);
    CoversIsPointwise(f, h);
    CoversIsPointwise(g, f);
    SameAccessIsPointwise(f, g);
    CanonicalFormIsUnique(f, g);
  }

  lemma NormalizedAllows(g: Grants, w: Permission, x: Place)
    ensures g.Normalized().Allows(w, x) <==> g.Allows(w, x)
  {
    NormalizingKeepsAccess(g);
    SameAccessIsPointwise(g.Normalized(), g);
  }

  /** The intersection allows exactly what both sets allow. */
  lemma IntersectionIsMeet(g: Grants, h: Grants, w: Permission, x: Place)
    ensures g.Intersection(h).Allows(w, x) <==> g.Allows(w, x) && h.Allows(w, x)
    ensures g.Intersection(h).Canonical()
  {
    var raw := Grants(Some(g.AdminScope().Intersection(h.AdminScope())),
                      map p: AppPermission | true :: g.AppScope(p).Intersection(h.AppScope(p)),
                      set y: GlobalPermission | g.HasGlobal(y) && h.HasGlobal(y));
    assert g.Intersection(h) == raw.Normalized();
    NormalizedIsCanonical(raw);
    NormalizedAllows(raw, w, x);
    hide Grants.Normalized, Grants.Canonical, Grants.Intersection, Grants.AppScope;
    if w.App? { SharedAppIsMeet(g, h, raw, w.app, x); }
  }

  lemma SharedAppIsMeet(g: Grants, h: Grants, raw: Grants, p: AppPermission, x: Place)
    requires raw.AdminScope() == g.AdminScope().Intersection(h.AdminScope())
    requires forall q: AppPermission :: q in raw.apps && raw.apps[q] == g.AppScope(q).Intersection(h.AppScope(q))
    ensures raw.Allows(App(p), x) <==> g.Allows(App(p), x) && h.Allows(App(p), x)
  {
    hide Grants.AppScope;
    SharedScope(g, h, p, x);
    assert p in raw.apps && p.Includes(p);
    if raw.Allows(App(p), x) && !raw.AdminScope().Has(x) {
      var q :| q in raw.apps && q.Includes(p) && raw.apps[q].Has(x);
      SharedScope(g, h, q, x);
      IncludingAllows(g, q, p, x);
      IncludingAllows(h, q, p, x);
    }
  }

  lemma SharedScope(g: Grants, h: Grants, q: AppPermission, x: Place)
    ensures g.AppScope(q).Intersection(h.AppScope(q)).Has(x) <==> g.Allows(App(q), x) && h.Allows(App(q), x)
  {
    AppScopeHas(g, q, x);
    AppScopeHas(h, q, x);
    hide Grants.AppScope, Grants.Allows;
  }

  /** A permission brings along whatever it includes. */
  lemma IncludingAllows(g: Grants, q: AppPermission, p: AppPermission, x: Place)
    requires q.Includes(p)
    requires g.Allows(App(q), x)
    ensures g.Allows(App(p), x)
  {
    if !g.AdminScope().Has(x) {
      var r :| r in g.apps && r.Includes(q) && g.apps[r].Has(x);
      assert r.Includes(p);
    }
  }

  /** `Allows` through `Direct`, which needs no membership test. */
  lemma AllowsDirect(g: Grants, p: AppPermission, x: Place)
    ensures g.Allows(App(p), x) <==>
              g.AdminScope().Has(x) || exists q: AppPermission :: q.Includes(p) && g.Direct(q).Has(x)
  {
    if q: AppPermission :| q.Includes(p) && g.Direct(q).Has(x) {
      assert q in g.apps;
    }
    if q :| q in g.apps && q.Includes(p) && g.apps[q].Has(x) {
      assert g.Direct(q).Has(x);
    }
  }

  lemma MergedAllows(g: Grants, h: Grants, w: Permission, x: Place)
    ensures g.Merged(h).Allows(w, x) <==> g.Allows(w, x) || h.Allows(w, x)
  {
    var merged := g.Merged(h);
    if w.App? {
      AllowsDirect(merged, w.app, x);
      AllowsDirect(g, w.app, x);
      AllowsDirect(h, w.app, x);
      forall q: AppPermission ensures merged.Direct(q).Has(x) <==> g.Direct(q).Has(x) || h.Direct(q).Has(x) {
      }
    }
  }

  /** Extending by a set allows exactly what either set allows. */
  lemma ExtendedIsJoin(g: Grants, h: Grants, w: Permission, x: Place)
    ensures g.Extended(h).Allows(w, x) <==> g.Allows(w, x) || h.Allows(w, x)
    ensures g.Extended(h).Canonical()
  {
    NormalizedIsCanonical(g.Merged(h));
    NormalizedAllows(g.Merged(h), w, x);
    MergedAllows(g, h, w, x);
  }

  /** The bounds, and both greatest lower and least upper bounds. */
  lemma GrantsFormLattice(f: Grants, g: Grants, h: Grants)
    ensures SUPERUSER.Covers(g) && g.Covers(NOTHING)
    ensures f.Covers(g.Extended(h)) <==> f.Covers(g) && f.Covers(h)
    ensures g.Intersection(h).Covers(f) <==> g.Covers(f) && h.Covers(f)
  {
    forall w: Permission, x: Place
      ensures g.Extended(h).Allows(w, x) <==> g.Allows(w, x) || h.Allows(w, x)
      ensures g.Intersection(h).Allows(w, x) <==> g.Allows(w, x) && h.Allows(w, x)
    {
      ExtendedIsJoin(g, h, w, x);
      IntersectionIsMeet(g, h, w, x);
    }
    CoversIsPointwise(f, g.Extended(h));
    CoversIsPointwise(f, g);
    CoversIsPointwise(f, h);
    CoversIsPointwise(g.Intersection(h), f);
    CoversIsPointwise(g, f);
    CoversIsPointwise(h, f);
    CoversIsPointwise(SUPERUSER, g);
    CoversIsPointwise(g, NOTHING);
  }

  /** Limiting a union limits each part: the two operations distribute. */
  lemma IntersectionDistributes(f: Grants, g: Grants, h: Grants)
    ensures f.Intersection(g.Extended(h)) == f.Intersection(g).Extended(f.Intersection(h))
    ensures f.Intersection(g.Extended(h)).Canonical()
  {
    var left, right := f.Intersection(g.Extended(h)), f.Intersection(g).Extended(f.Intersection(h));
    forall w: Permission, x: Place ensures left.Allows(w, x) <==> right.Allows(w, x) {
      IntersectionIsMeet(f, g.Extended(h), w, x);
      ExtendedIsJoin(g, h, w, x);
      ExtendedIsJoin(f.Intersection(g), f.Intersection(h), w, x);
      IntersectionIsMeet(f, g, w, x);
      IntersectionIsMeet(f, h, w, x);
    }
    IntersectionIsMeet(f, g.Extended(h), Admin, Later);
    ExtendedIsJoin(f.Intersection(g), f.Intersection(h), Admin, Later);
    SameAccessIsPointwise(left, right);
    CanonicalFormIsUnique(left, right);
  }
}
