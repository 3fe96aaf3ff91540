/**
 Resolution of a user's access records to one grant, and the coherence of the cache in front of it.
 Rows are those of AccessRows; a person is named by the identity-provider id. What roles, clients
 and sites the rows refer to is a fixed environment.
 */
module GrantResolution {
  import opened Prelude
  import opened Scopes
  import opened AccessGrants
  import opened AccessRows
  import opened GrantCacheKeys

  datatype RoleInfo = RoleInfo(scope: Scope, capabilities: seq<string>)

  datatype Env = Env(role: string -> RoleInfo, clientActive: string -> bool, siteActive: string -> bool,
                     bootstrapAdmin: string -> bool, validCapabilities: seq<string>)

  datatype Reason = NoAccessGrant | RequestDenied | ClientInactive | SiteInactive

  /** `primary` is the record reported in the details of a denial. */
  datatype Outcome =
    | Granted(grant: Grant)
    | Denied(reason: Reason, primary: Option<RowKey>)
    | StatusesNotFound

  // ---- The query for the user's records ----

  function CreatedOn(t: Table, k: RowKey): int { if k in t then t[k].createdOn else 0 }

  /** isPrimary descending, then createdOn ascending; rows may tie. */
  predicate Before(t: Table, a: RowKey, b: RowKey) {
    || (IsPrimary(t, a) && !IsPrimary(t, b))
    || (IsPrimary(t, a) == IsPrimary(t, b) && CreatedOn(t, a) <= CreatedOn(t, b))
  }

  ghost predicate Sorted(t: Table, ks: seq<RowKey>) {
    forall i, j :: 0 <= i < j < |ks| ==> ks[i] != ks[j] && Before(t, ks[i], ks[j])
  }

  /** `ks` is a result of the query: the person's rows, each once, in an order the sort keys allow. */
  ghost predicate Listing(t: Table, idp: string, ks: seq<RowKey>) {
    Sorted(t, ks) && forall k :: k in ks <==> k in t && k.person == idp
  }

  // ---- Activation rules ----

  function GrantOf(env: Env, k: RowKey): Grant {
    Grant(k.role, env.role(k.role).scope, env.role(k.role).capabilities, k.client, k.site)
  }

  function GrantsOf(env: Env, ks: seq<RowKey>): (gs: seq<Grant>)
    ensures |gs| == |ks|
    ensures forall i :: 0 <= i < |gs| ==> gs[i] == GrantOf(env, ks[i])
  {
    seq(|ks|, i requires 0 <= i < |ks| => GrantOf(env, ks[i]))
  }

  function ValidateAndBuild(env: Env, ks: seq<RowKey>): Outcome
    requires ks != []
  {
    var grant := Reduce(GrantsOf(env, ks));
    if IsScopeAtLeast(grant.scope, GLOBAL) then Granted(grant)
    else
      var at := Filter(ks, (k: RowKey) => k.client == grant.clientId && k.site == grant.siteId);
      if at == [] then StatusesNotFound
      else if !env.clientActive(at[0].client) then Denied(ClientInactive, None)
      else if IsScopeAtLeast(grant.scope, CLIENT) then Granted(grant)
      else if !env.siteActive(at[0].site) then Denied(SiteInactive, None)
      else Granted(grant)
  }

  // ---- Ephemeral grants of system administrators ----

  /** Larger scope, then more capabilities; the earlier role wins ties. */
  predicate MorePermissive(env: Env, a: string, b: string) {
    || (env.role(a).scope != env.role(b).scope && IsScopeAtLeast(env.role(a).scope, env.role(b).scope))
    || (env.role(a).scope == env.role(b).scope && |env.role(a).capabilities| > |env.role(b).capabilities|)
  }

  function MostPermissiveRole(env: Env, roles: seq<string>): (r: string)
    requires roles != []
    ensures r in roles && forall x :: x in roles ==> !MorePermissive(env, x, r)
  {
    if |roles| == 1 then roles[0]
    else
      var n := |roles| - 1;
      var best := MostPermissiveRole(env, roles[..n]);
      assert roles == roles[..n] + [roles[n]];
      if MorePermissive(env, roles[n], best) then roles[n] else best
  }

  /** Role `i` of the list ranks no higher than role `n`, and strictly lower if it comes before it. */
  predicate RanksBelow(env: Env, roles: seq<string>, i: nat, n: nat)
    requires i < |roles| && n < |roles|
  {
    var a, b := env.role(roles[i]), env.role(roles[n]);
    || !IsScopeAtLeast(a.scope, b.scope)
    || (a.scope == b.scope && |a.capabilities| < |b.capabilities|)
    || (a.scope == b.scope && |a.capabilities| == |b.capabilities| && n <= i)
  }

  /** The role chosen has the largest scope, of those the most capabilities, and of those it comes first. */
  lemma {:induction false} MostPermissiveMeans(env: Env, roles: seq<string>) returns (n: nat)
    requires roles != []
    ensures n < |roles| && MostPermissiveRole(env, roles) == roles[n]
    ensures forall i: nat :: i < |roles| ==> RanksBelow(env, roles, i, n)
  {
    n := 0;
    if |roles| > 1 {
      var last := |roles| - 1;
      n := MostPermissiveMeans(env, roles[..last]);
      var before := n;
      if MorePermissive(env, roles[last], roles[n]) {
        n := last;
      }
      forall i: nat | i < |roles| ensures RanksBelow(env, roles, i, n) {
        if i < last {
          assert RanksBelow(env, roles[..last], i, before);
        }
        DifferentScopesDiffer(env.role(roles[i]).scope, env.role(roles[n]).scope);
        DifferentScopesDiffer(env.role(roles[last]).scope, env.role(roles[before]).scope);
      }
    }
  }

  lemma DifferentScopesDiffer(a: Scope, b: Scope)
    ensures a == b <==> IndexOf(a) == IndexOf(b)
  {
    assert SCOPE_HIERARCHY[IndexOf(a)] == a && SCOPE_HIERARCHY[IndexOf(b)] == b;
  }

  /** `systemRoles` are the user's roles of SYSTEM scope; `firstSite` is the client's primary or first site. */
  function SystemAdminGrant(env: Env, systemRoles: seq<string>, client: string, site: Option<string>,
                            firstSite: Option<string>): Option<Grant>
  {
    var chosen := if Given(site) then site else firstSite;
    if systemRoles == [] || !Given(chosen) then None
    else
      var role := MostPermissiveRole(env, systemRoles);
      Some(Grant(role, env.role(role).scope, env.role(role).capabilities, client, chosen.value))
  }

  // ---- Resolution ----

  /** A header that is present and not empty. */
  predicate Given(id: Option<string>) { id.Some? && id.value != "" }

  predicate Matches(ctx: Context, k: RowKey)
    requires Given(ctx.client)
  {
    k.client == ctx.client.value && (Given(ctx.site) ==> k.site == ctx.site.value)
  }

  function Asked(ctx: Context): RowKey -> bool { (k: RowKey) => Given(ctx.client) && Matches(ctx, k) }

  function Primary(t: Table): RowKey -> bool { (k: RowKey) => IsPrimary(t, k) }

  /** The records a request is decided on. */
  function Considered(t: Table, ks: seq<RowKey>, ctx: Context): seq<RowKey> {
    if Given(ctx.client) then Filter(ks, Asked(ctx))
    else
      var primary := Filter(ks, Primary(t));
      if primary != [] then primary else if ks != [] then ks[..1] else []
  }

  function EphemeralAdmin(env: Env, ctx: Context): Grant {
    Grant("ephemeral-system-admin", SYSTEM, env.validCapabilities,
          if Given(ctx.client) then ctx.client.value else "",
          if Given(ctx.client) && ctx.site.Some? then ctx.site.value else "")
  }

  function ResolveRecords(env: Env, t: Table, ks: seq<RowKey>, idp: string, ctx: Context): Outcome {
    var considered := Considered(t, ks, ctx);
    if considered != [] then ValidateAndBuild(env, considered)
    else if Given(ctx.client) then
      if env.bootstrapAdmin(idp) then Granted(EphemeralAdmin(env, ctx))
      else
        var primary := Filter(ks, Primary(t));
        Denied(RequestDenied, if primary == [] then None else Some(primary[0]))
    else if IntentOf(ctx) != User && env.bootstrapAdmin(idp) then Granted(EphemeralAdmin(env, ctx))
    else Denied(NoAccessGrant, None)
  }

  function Resolve(env: Env, t: Table, ks: seq<RowKey>, idp: string, ctx: Context,
                   systemRoles: seq<string>, firstSite: Option<string>): Outcome
  {
    if Given(ctx.client) && IntentOf(ctx) != User then
      var admin := SystemAdminGrant(env, systemRoles, ctx.client.value, ctx.site, firstSite);
      if admin.Some? then Granted(admin.value) else ResolveRecords(env, t, ks, idp, ctx)
    else ResolveRecords(env, t, ks, idp, ctx)
  }

  // ---- What a grant says ----

  /** The grant is record `k`, with the capabilities of all considered records. */
  ghost predicate GrantFrom(env: Env, grant: Grant, k: RowKey, considered: seq<RowKey>) {
    && grant.clientId == k.client && grant.siteId == k.site && grant.roleId == k.role
    && grant.scope == env.role(k.role).scope
    && (forall c :: c in grant.capabilities <==>
          exists i :: 0 <= i < |considered| && c in env.role(considered[i].role).capabilities)
    && (forall i :: 0 <= i < |considered| ==> IsScopeAtLeast(grant.scope, env.role(considered[i].role).scope))
  }

  lemma ReducedGrantIsRecord(env: Env, ks: seq<RowKey>) returns (n: nat)
    requires ks != []
    ensures n < |ks| && GrantFrom(env, Reduce(GrantsOf(env, ks)), ks[n], ks)
  {
    var gs := GrantsOf(env, ks);
    n := ReduceMeans(gs);
    forall c ensures c in Reduce(gs).capabilities <==>
      exists i :: 0 <= i < |ks| && c in env.role(ks[i].role).capabilities
    {
      CapabilityOfSome(gs, c);
      if i :| 0 <= i < |gs| && c in gs[i].capabilities {
        assert c in env.role(ks[i].role).capabilities;
      }
      if i :| 0 <= i < |ks| && c in env.role(ks[i].role).capabilities {
        assert c in gs[i].capabilities;
      }
    }
    forall i | 0 <= i < |ks| ensures IsScopeAtLeast(gs[n].scope, env.role(ks[i].role).scope) {
      assert gs[i].scope == env.role(ks[i].role).scope;
    }
  }

  /** Activation: the client must be active below GLOBAL scope, the site below CLIENT scope. */
  predicate MayEnter(env: Env, grant: Grant) {
    && (env.clientActive(grant.clientId) || IsScopeAtLeast(grant.scope, GLOBAL))
    && (env.siteActive(grant.siteId) || IsScopeAtLeast(grant.scope, CLIENT))
  }

  /** A grant is built exactly when activation allows it; the lookup of the statuses cannot fail. */
  lemma BuiltGrant(env: Env, ks: seq<RowKey>)
    requires ks != []
    ensures var grant, o := Reduce(GrantsOf(env, ks)), ValidateAndBuild(env, ks);
      && o != StatusesNotFound
      && (o.Granted? <==> MayEnter(env, grant))
      && (o.Granted? ==> o.grant == grant)
  {
    var n := ReducedGrantIsRecord(env, ks);
    var grant := Reduce(GrantsOf(env, ks));
    var at := Filter(ks, (k: RowKey) => k.client == grant.clientId && k.site == grant.siteId);
    assert ks[n] in at;
    assert at[0] in at;
  }

  /**
   For a 'user' request of someone who is not a bootstrap administrator: a grant is that of one of the
   person's own records matching the request, with the union of the considered capabilities, and only
   where activation allows; the internal error cannot occur.
   */
  lemma UserGrantIsOwnRecord(env: Env, t: Table, ks: seq<RowKey>, idp: string, ctx: Context,
                             systemRoles: seq<string>, firstSite: Option<string>)
    requires Listing(t, idp, ks) && IntentOf(ctx) == User && !env.bootstrapAdmin(idp)
    ensures var o := Resolve(env, t, ks, idp, ctx, systemRoles, firstSite); var considered := Considered(t, ks, ctx);
      && o != StatusesNotFound
      && (o.Granted? <==> considered != [] && MayEnter(env, Reduce(GrantsOf(env, considered))))
      && (o.Granted? ==> MayEnter(env, o.grant) && exists k ::
            && k in considered && k in t && k.person == idp && (Given(ctx.client) ==> Matches(ctx, k))
            && GrantFrom(env, o.grant, k, considered))
  {
    var considered := Considered(t, ks, ctx);
    if considered != [] {
      BuiltGrant(env, considered);
      var n := ReducedGrantIsRecord(env, considered);
      assert considered[n] in considered;
      assert considered[n] in ks;
    }
  }

  // ---- What a request is decided on, and every other answer ----

  /** The records of a request: those at the place asked for, or the primary ones, in the order of the query. */
  lemma ConsideredAre(t: Table, idp: string, ks: seq<RowKey>, ctx: Context, x: RowKey)
    requires Listing(t, idp, ks)
    ensures Given(ctx.client) ==> (x in Considered(t, ks, ctx) <==>
      && x in t && x.person == idp && x.client == ctx.client.value
      && (Given(ctx.site) ==> x.site == ctx.site.value))
    ensures !Given(ctx.client) && HasPrimary(t, idp, All) ==>
      (x in Considered(t, ks, ctx) <==> x in t && x.person == idp && t[x].isPrimary)
    ensures !Given(ctx.client) && !HasPrimary(t, idp, All) && Holds(t, idp) ==> Considered(t, ks, ctx) == ks[..1] != []
    ensures !Holds(t, idp) ==> Considered(t, ks, ctx) == []
    ensures Sorted(t, Considered(t, ks, ctx))
  {
    FilterSorted(t, ks, Asked(ctx));
    FilterSorted(t, ks, Primary(t));
    var primary := Filter(ks, Primary(t));
    if HasPrimary(t, idp, All) {
      var y :| y in t && t[y].isPrimary && y.person == idp && Sees(All, y);
      assert y in primary;
    } else if primary != [] {
      assert primary[0] in primary && Sees(All, primary[0]);
    }
    if Holds(t, idp) {
      var y :| y in t && y.person == idp;
      assert y in ks;
    } else {
      assert forall y :: y !in ks;
    }
  }

  /** Why a grant is not built: the client is inactive below GLOBAL scope, or else the site below CLIENT scope. */
  lemma InactiveBecause(env: Env, ks: seq<RowKey>)
    requires ks != []
    ensures var grant, o := Reduce(GrantsOf(env, ks)), ValidateAndBuild(env, ks);
      && (o == Denied(ClientInactive, None) <==>
            !IsScopeAtLeast(grant.scope, GLOBAL) && !env.clientActive(grant.clientId))
      && (o == Denied(SiteInactive, None) <==>
            !IsScopeAtLeast(grant.scope, CLIENT) && env.clientActive(grant.clientId) && !env.siteActive(grant.siteId))
      && (o.Granted? || o == Denied(ClientInactive, None) || o == Denied(SiteInactive, None))
  {
    BuiltGrant(env, ks);
    var grant := Reduce(GrantsOf(env, ks));
    var at := Filter(ks, (k: RowKey) => k.client == grant.clientId && k.site == grant.siteId);
    if at != [] {
      assert at[0] in at;
    }
  }

  /** The grant of a bootstrap administrator without records. */
  predicate IsBootstrapGrant(env: Env, g: Grant, client: string, site: string) {
    && g.roleId == "ephemeral-system-admin" && g.scope == SYSTEM && g.capabilities == env.validCapabilities
    && g.clientId == client && g.siteId == site
  }

  /** The answer when no record matches. */
  lemma UnmatchedAnswer(env: Env, t: Table, ks: seq<RowKey>, idp: string, ctx: Context)
    requires Listing(t, idp, ks) && Considered(t, ks, ctx) == []
    ensures var o := ResolveRecords(env, t, ks, idp, ctx);
      if Given(ctx.client) then
        if env.bootstrapAdmin(idp) then
          o.Granted? && IsBootstrapGrant(env, o.grant, ctx.client.value, if ctx.site.Some? then ctx.site.value else "")
        else
          && o.Denied? && o.reason == RequestDenied
          && (o.primary.Some? <==> HasPrimary(t, idp, All))
          && (o.primary.Some? ==> IsPrimary(t, o.primary.value) && o.primary.value.person == idp)
      else if IntentOf(ctx) != User && env.bootstrapAdmin(idp) then
        o.Granted? && IsBootstrapGrant(env, o.grant, "", "")
      else o == Denied(NoAccessGrant, None)
  {
    var primary := Filter(ks, Primary(t));
    if HasPrimary(t, idp, All) {
      var y :| y in t && t[y].isPrimary && y.person == idp && Sees(All, y);
      assert y in primary;
    }
    if primary != [] {
      assert primary[0] in primary && Sees(All, primary[0]);
    }
  }

  /**
   An elevated or system request that names a client: the most permissive of the user's SYSTEM roles, at that client,
   for the site asked for or else the client's first; without such a role or site it is decided on the records.
   */
  lemma ElevatedAnswer(
    env: Env, t: Table, ks: seq<RowKey>, idp: string, ctx: Context, systemRoles: seq<string>, firstSite: Option<string>)
    requires Given(ctx.client) && IntentOf(ctx) != User
    ensures var o := Resolve(env, t, ks, idp, ctx, systemRoles, firstSite);
      var site := if Given(ctx.site) then ctx.site else firstSite;
      if systemRoles != [] && Given(site) then
        && o.Granted? && o.grant.clientId == ctx.client.value && o.grant.siteId == site.value
        && o.grant.roleId in systemRoles && (forall r :: r in systemRoles ==> !MorePermissive(env, r, o.grant.roleId))
        && o.grant.scope == env.role(o.grant.roleId).scope
        && o.grant.capabilities == env.role(o.grant.roleId).capabilities
      else o == ResolveRecords(env, t, ks, idp, ctx)
  {
  }

  /** The query for the user's SYSTEM roles: those of the person's rows, each once. */
  ghost predicate AreSystemRoles(env: Env, t: Table, idp: string, roles: seq<string>) {
    && Distinct(roles)
    && forall r :: r in roles <==>
      IsScopeAtLeast(env.role(r).scope, SYSTEM) && exists k :: k in t && k.person == idp && k.role == r
  }

  /** A row of the person that accounts for a grant: of its role, and at the place asked for or of SYSTEM scope. */
  predicate Accounts(t: Table, idp: string, ctx: Context, g: Grant, k: RowKey) {
    && k in t && k.person == idp && k.role == g.roleId
    && (Given(ctx.client) ==> g.clientId == ctx.client.value && (Matches(ctx, k) || g.scope == SYSTEM))
  }

  lemma RecordAccounts(env: Env, t: Table, ks: seq<RowKey>, idp: string, ctx: Context)
    requires Listing(t, idp, ks) && !env.bootstrapAdmin(idp)
    ensures var o := ResolveRecords(env, t, ks, idp, ctx);
      o.Granted? ==> exists k :: Accounts(t, idp, ctx, o.grant, k)
  {
    var o, rs := ResolveRecords(env, t, ks, idp, ctx), Considered(t, ks, ctx);
    if o.Granted? {
      BuiltGrant(env, rs);
      var n := ReducedGrantIsRecord(env, rs);
      assert rs[n] in rs && rs[n] in ks;
      assert Accounts(t, idp, ctx, o.grant, rs[n]);
    }
  }

  /** Whatever the intent, a grant is of a role the person holds, at the place asked for or of SYSTEM scope. */
  lemma GrantIsHeld(
    env: Env, t: Table, ks: seq<RowKey>, idp: string, ctx: Context, systemRoles: seq<string>, firstSite: Option<string>)
    requires Listing(t, idp, ks) && AreSystemRoles(env, t, idp, systemRoles) && !env.bootstrapAdmin(idp)
    ensures var o := Resolve(env, t, ks, idp, ctx, systemRoles, firstSite);
      o.Granted? ==> exists k :: Accounts(t, idp, ctx, o.grant, k)
  {
    var o := Resolve(env, t, ks, idp, ctx, systemRoles, firstSite);
    if Given(ctx.client) && IntentOf(ctx) != User
       && SystemAdminGrant(env, systemRoles, ctx.client.value, ctx.site, firstSite).Some? {
      var r := MostPermissiveRole(env, systemRoles);
      var k :| k in t && k.person == idp && k.role == r;
      DifferentScopesDiffer(env.role(r).scope, SYSTEM);
      assert Accounts(t, idp, ctx, o.grant, k);
    } else if o.Granted? {
      RecordAccounts(env, t, ks, idp, ctx);
    }
  }

  /** All other requests are decided on the records, whatever system roles there are. */
  lemma OrdinaryAnswer(
    env: Env, t: Table, ks: seq<RowKey>, idp: string, ctx: Context, systemRoles: seq<string>, firstSite: Option<string>)
    requires !Given(ctx.client) || IntentOf(ctx) == User
    ensures var o, rs := Resolve(env, t, ks, idp, ctx, systemRoles, firstSite), Considered(t, ks, ctx);
      o == if rs != [] then ValidateAndBuild(env, rs) else ResolveRecords(env, t, ks, idp, ctx)
  {
  }

  lemma DefaultConsidersPrimaries(t: Table, ks: seq<RowKey>, idp: string, ctx: Context, home: RowKey)
    requires Listing(t, idp, ks) && !Given(ctx.client) && IsPrimary(t, home) && home.person == idp
    requires SinglePlace(t)
    ensures Considered(t, ks, ctx) != []
    ensures forall k :: k in Considered(t, ks, ctx) ==> SamePlace(k, home)
  {
  }

  lemma BuiltGrantPlace(env: Env, ks: seq<RowKey>, home: RowKey)
    requires ks != [] && forall k :: k in ks ==> SamePlace(k, home)
    ensures var o := ValidateAndBuild(env, ks);
      o.Granted? ==> o.grant.clientId == home.client && o.grant.siteId == home.site
  {
    BuiltGrant(env, ks);
    var n := ReducedGrantIsRecord(env, ks);
    assert ks[n] in ks;
  }

  /** With the primary rows at one place, a default grant built from primary records is for that place. */
  lemma DefaultGrantIsForPrimaryPlace(env: Env, t: Table, ks: seq<RowKey>, idp: string, ctx: Context,
                                      systemRoles: seq<string>, firstSite: Option<string>, home: RowKey)
    requires Listing(t, idp, ks) && SinglePlace(t) && !Given(ctx.client)
    requires IsPrimary(t, home) && home.person == idp
    ensures var o := Resolve(env, t, ks, idp, ctx, systemRoles, firstSite);
      o.Granted? ==> o.grant.clientId == home.client && o.grant.siteId == home.site
  {
    DefaultConsidersPrimaries(t, ks, idp, ctx, home);
    BuiltGrantPlace(env, Considered(t, ks, ctx), home);
  }

  // ---- Which requests a write can affect ----

  /** Outcomes up to the details of a denial. */
  predicate SameOutcome(a: Outcome, b: Outcome) {
    a == b || (a.Denied? && b.Denied? && a.reason == b.reason)
  }

  /** Some order the query may return leads to this outcome. */
  ghost predicate CanResolve(env: Env, t: Table, idp: string, ctx: Context, o: Outcome) {
    exists ks :: Listing(t, idp, ks) && SameOutcome(ResolveRecords(env, t, ks, idp, ctx), o)
  }

  /** Some order the query may return has the request decided on these records. */
  ghost predicate CanConsider(t: Table, idp: string, ctx: Context, rs: seq<RowKey>) {
    exists ks :: Listing(t, idp, ks) && Considered(t, ks, ctx) == rs
  }

  /** Whatever records the request could be decided on before, it can still be afterwards. */
  ghost predicate Keeps(t: Table, t': Table, idp: string, ctx: Context) {
    forall rs :: CanConsider(t, idp, ctx, rs) ==> CanConsider(t', idp, ctx, rs)
  }

  /** The outcome depends on the records considered only. */
  lemma SameRecordsSameOutcome(
    env: Env, t: Table, ks: seq<RowKey>, t': Table, ks': seq<RowKey>, idp: string, ctx: Context)
    requires Considered(t, ks, ctx) == Considered(t', ks', ctx)
    ensures SameOutcome(ResolveRecords(env, t', ks', idp, ctx), ResolveRecords(env, t, ks, idp, ctx))
  {
  }

  /** So if no list of records is lost, no possible outcome is, whatever the roles, clients and sites are. */
  lemma KeptRecordsKeepOutcomes(env: Env, t: Table, t': Table, idp: string, ctx: Context, o: Outcome)
    requires Keeps(t, t', idp, ctx) && CanResolve(env, t, idp, ctx, o)
    ensures CanResolve(env, t', idp, ctx, o)
  {
    var ks :| Listing(t, idp, ks) && SameOutcome(ResolveRecords(env, t, ks, idp, ctx), o);
    assert CanConsider(t, idp, ctx, Considered(t, ks, ctx));
    var ks' :| Listing(t', idp, ks') && Considered(t', ks', ctx) == Considered(t, ks, ctx);
    SameRecordsSameOutcome(env, t, ks, t', ks', idp, ctx);
  }

  // ---- Listings ----

  lemma FilterSorted(t: Table, ks: seq<RowKey>, p: RowKey -> bool)
    requires Sorted(t, ks)
    ensures Sorted(t, Filter(ks, p))
  {
    FilterPairwise(ks, p, (a: RowKey, b: RowKey) => a != b && Before(t, a, b));
  }

  /** Sorted insertion, in front of equals. */
  function Insert(t: Table, ks: seq<RowKey>, k: RowKey): seq<RowKey> {
    if ks == [] then [k] else if Before(t, k, ks[0]) then [k] + ks else [ks[0]] + Insert(t, ks[1..], k)
  }

  lemma SortedCons(t: Table, x: RowKey, ks: seq<RowKey>)
    requires Sorted(t, ks) && forall y :: y in ks ==> x != y && Before(t, x, y)
    ensures Sorted(t, [x] + ks)
  {
    var r := [x] + ks;
    assert forall i :: 1 <= i < |r| ==> r[i] == ks[i - 1] && ks[i - 1] in ks;
  }

  lemma {:induction false} InsertHas(t: Table, ks: seq<RowKey>, k: RowKey, x: RowKey)
    ensures x in Insert(t, ks, k) <==> x in ks || x == k
  {
    if ks != [] {
      InsertHas(t, ks[1..], k, x);
      assert x in ks <==> x == ks[0] || x in ks[1..];
    }
  }

  lemma {:induction false} InsertSorted(t: Table, ks: seq<RowKey>, k: RowKey)
    requires Sorted(t, ks) && k !in ks
    ensures Sorted(t, Insert(t, ks, k)) && forall x :: x in Insert(t, ks, k) <==> x in ks || x == k
  {
    forall x ensures x in Insert(t, ks, k) <==> x in ks || x == k {
      InsertHas(t, ks, k, x);
    }
    if ks != [] {
      assert forall x :: x in ks[1..] ==> x in ks && x != ks[0] && Before(t, ks[0], x);
      if Before(t, k, ks[0]) {
        forall y | y in ks ensures k != y && Before(t, k, y) {
          assert y == ks[0] || y in ks[1..];
        }
        SortedCons(t, k, ks);
      } else {
        InsertSorted(t, ks[1..], k);
        SortedCons(t, ks[0], Insert(t, ks[1..], k));
      }
    } else {
      SortedCons(t, k, []);
    }
  }

  lemma {:induction false} InsertFilter(t: Table, ks: seq<RowKey>, k: RowKey, p: RowKey -> bool)
    requires !p(k)
    ensures Filter(Insert(t, ks, k), p) == Filter(ks, p)
  {
    if ks != [] {
      if Before(t, k, ks[0]) {
        FilterConcat([k], ks, p);
      } else {
        InsertFilter(t, ks[1..], k, p);
        FilterConcat([ks[0]], Insert(t, ks[1..], k), p);
      }
    }
  }

  /** Rows that `p` rejects can be added to a sorted list without disturbing what it selects. */
  lemma {:induction false} Complete(t: Table, ks: seq<RowKey>, rest: set<RowKey>, p: RowKey -> bool)
    returns (r: seq<RowKey>)
    requires Sorted(t, ks) && forall k :: k in rest ==> k !in ks && !p(k)
    ensures Sorted(t, r) && (forall k :: k in r <==> k in ks || k in rest) && Filter(r, p) == Filter(ks, p)
    decreases rest
  {
    if rest == {} {
      r := ks;
    } else {
      var k :| k in rest;
      var r' := Complete(t, ks, rest - {k}, p);
      InsertSorted(t, r', k);
      InsertFilter(t, r', k, p);
      r := Insert(t, r', k);
      assert forall x :: x in rest <==> x == k || x in rest - {k};
    }
  }

  function RowsOf(t: Table, idp: string): set<RowKey> { set k | k in t && k.person == idp }

  /** The query always has a result. */
  lemma SomeListing(t: Table, idp: string) returns (ks: seq<RowKey>)
    ensures Listing(t, idp, ks)
  {
    ks := Complete(t, [], RowsOf(t, idp), k => false);
  }

  // ---- When the records considered are kept ----

  ghost predicate SameRowsOf(t: Table, t': Table, idp: string) {
    forall k: RowKey :: k.person == idp ==> (k in t <==> k in t') && (k in t ==> t[k] == t'[k])
  }

  lemma SameRowsKeep(t: Table, t': Table, idp: string, ctx: Context)
    requires SameRowsOf(t, t', idp)
    ensures Keeps(t, t', idp, ctx)
  {
    forall rs | CanConsider(t, idp, ctx, rs) ensures CanConsider(t', idp, ctx, rs) {
      var ks :| Listing(t, idp, ks) && Considered(t, ks, ctx) == rs;
      assert forall i :: 0 <= i < |ks| ==> ks[i] in ks;
      assert Listing(t', idp, ks);
      FilterSame(ks, Primary(t), Primary(t'));
      assert Considered(t', ks, ctx) == rs;
    }
  }

  /** The rows selected are the same and those in order stay in order. */
  ghost predicate KeepsOrder(t: Table, t': Table, idp: string, p: RowKey -> bool) {
    && (forall k: RowKey :: k.person == idp && p(k) ==> (k in t <==> k in t'))
    && forall a, b :: a in t && b in t && a.person == idp && b.person == idp && p(a) && p(b) ==>
      Before(t, a, b) ==> Before(t', a, b)
  }

  lemma CarryListing(t: Table, t': Table, idp: string, ks: seq<RowKey>, p: RowKey -> bool) returns (ks': seq<RowKey>)
    requires Listing(t, idp, ks) && KeepsOrder(t, t', idp, p)
    ensures Listing(t', idp, ks') && Filter(ks', p) == Filter(ks, p)
  {
    var selected := Filter(ks, p);
    FilterSorted(t, ks, p);
    assert forall i :: 0 <= i < |selected| ==> selected[i] in selected;
    assert Sorted(t', selected);
    var others := set k | k in t' && k.person == idp && !p(k);
    ks' := Complete(t', selected, others, p);
    FilterAll(selected, p);
  }

  lemma KeptOrderKeeps(t: Table, t': Table, idp: string, ctx: Context)
    requires Given(ctx.client) && KeepsOrder(t, t', idp, Asked(ctx))
    ensures Keeps(t, t', idp, ctx)
  {
    forall rs | CanConsider(t, idp, ctx, rs) ensures CanConsider(t', idp, ctx, rs) {
      var ks :| Listing(t, idp, ks) && Considered(t, ks, ctx) == rs;
      var ks' := CarryListing(t, t', idp, ks, Asked(ctx));
      assert Considered(t', ks', ctx) == rs;
    }
  }

  // ---- Writes to single rows ----

  ghost predicate AgreeExcept(t: Table, t': Table, k: RowKey) {
    forall x :: x != k ==> (x in t <==> x in t') && (x in t ==> t[x] == t'[x])
  }

  /** A write to one row keeps the records of every request it does not concern. */
  lemma WriteKeepsOtherRequests(t: Table, t': Table, k: RowKey, idp: string, ctx: Context)
    requires AgreeExcept(t, t', k) && Proper(idp, ctx)
    requires k.person == idp ==> !Concerns(ctx, k.client, k.site)
    ensures Keeps(t, t', idp, ctx) && Keeps(t', t, idp, ctx)
  {
    if k.person == idp {
      KeptOrderKeeps(t, t', idp, ctx);
      KeptOrderKeeps(t', t, idp, ctx);
    } else {
      SameRowsKeep(t, t', idp, ctx);
      SameRowsKeep(t', t, idp, ctx);
    }
  }

  /** Keys deleted for one written row. */
  function ClearedFor(k: RowKey): set<string> {
    set key | key in AllKeys(k.person, ClearContexts(k.client, SitesToClear(Some(k.site), [])))
  }

  function ClearedForAll(ws: seq<Write>): set<string> {
    if ws == [] then {} else ClearedForAll(ws[..|ws| - 1]) + ClearedFor(ws[|ws| - 1].key)
  }

  lemma UnclearedIsUnconcerned(k: RowKey, idp: string, ctx: Context)
    requires Proper(idp, ctx) && IntentOf(ctx) == User && CacheKey(idp, ctx) !in ClearedFor(k)
    ensures k.person == idp ==> !Concerns(ctx, k.client, k.site)
  {
    if k.person == idp && Concerns(ctx, k.client, k.site) {
      ConcernedKeysAreCleared(idp, ctx, k.client, k.site);
    }
  }

  lemma {:induction false} UpsertsKeepUncleared(t: Table, ws: seq<Write>, now: int, idp: string, ctx: Context)
    requires Proper(idp, ctx) && IntentOf(ctx) == User && CacheKey(idp, ctx) !in ClearedForAll(ws)
    ensures Keeps(t, UpsertAll(t, ws, now), idp, ctx) && Keeps(UpsertAll(t, ws, now), t, idp, ctx)
  {
    if ws != [] {
      var n := |ws| - 1;
      UpsertsKeepUncleared(t, ws[..n], now, idp, ctx);
      UnclearedIsUnconcerned(ws[n].key, idp, ctx);
      WriteKeepsOtherRequests(UpsertAll(t, ws[..n], now), UpsertAll(t, ws, now), ws[n].key, idp, ctx);
    }
  }

  /** addRole and accept change the possible outcomes of no request whose key they do not delete. */
  lemma WritesKeepUncleared(env: Env, t: Table, ws: seq<Write>, now: int, idp: string, ctx: Context, o: Outcome)
    requires Proper(idp, ctx) && IntentOf(ctx) == User && CacheKey(idp, ctx) !in ClearedForAll(ws)
    ensures CanResolve(env, t, idp, ctx, o) <==> CanResolve(env, UpsertAll(t, ws, now), idp, ctx, o)
  {
    UpsertsKeepUncleared(t, ws, now, idp, ctx);
    if CanResolve(env, t, idp, ctx, o) {
      KeptRecordsKeepOutcomes(env, t, UpsertAll(t, ws, now), idp, ctx, o);
    }
    if CanResolve(env, UpsertAll(t, ws, now), idp, ctx, o) {
      KeptRecordsKeepOutcomes(env, UpsertAll(t, ws, now), t, idp, ctx, o);
    }
  }

  /** A missing intent resolves like 'user'. */
  lemma IntentDefaultsToUser(env: Env, t: Table, ks: seq<RowKey>, idp: string, a: Context, b: Context)
    requires a.client == b.client && a.site == b.site && IntentOf(a) == IntentOf(b)
    ensures ResolveRecords(env, t, ks, idp, a) == ResolveRecords(env, t, ks, idp, b)
  {
    FilterSame(ks, Asked(a), Asked(b));
    assert Considered(t, ks, a) == Considered(t, ks, b);
  }
}
