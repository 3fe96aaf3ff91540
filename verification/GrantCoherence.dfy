/**
 What the cache in front of grant resolution answers, over runs in which the read of the tables, the store
 into the cache, the write of rows and the deletion of keys are steps of their own, for all writers of rows.
 */
module GrantCoherence {
  import opened Prelude
  import opened Scopes
  import opened AccessGrants
  import opened AccessRows
  import opened GrantCacheKeys
  import opened GrantResolution

  // ---- The keys each writer deletes ----

  /** The members service reads only the rows of the caller's client. */
  predicate OwnSight(op: Op) {
    match op
    case MembersRemoveRole(key, sight, _) => sight == Only(key.client)
    case MembersRemove(_, client, sight, _) => sight == Only(client)
    case _ => true
  }

  /** The sync deletes none. */
  function ClearedBy(t: Table, op: Op): set<string> {
    match op
    case Accept(keys, clicked, first, _) => ClearedForAll(AcceptWrites(keys, clicked, first))
    case UsersAddRole(key, _, _) => ClearedFor(key)
    case UsersRemoveRole(key, _) => ClearedFor(key)
    case MembersAddRole(key, _, _) => ClearedFor(key)
    case MembersRemoveRole(key, _, _) => ClearedFor(key)
    case MembersRemove(person, client, _, _) =>
      (set key | key in AllKeys(person, ClearContexts(client, SitesToClear(None, []))))
      + (set k, key | k in MemberRows(t, person, client) && key in ClearedFor(k) :: key)
    case SyncUser(_, _, _, _, _) => {}
  }

  // ---- Removing a row ----

  /**
   The promotion after a removal puts the promoted place before another site of its client that came first
   so far, or could have.
   */
  ghost predicate PromotionReorders(t: Table, key: RowKey, sight: Sight, oldest: Option<RowKey>, ctx: Context)
    requires key in t
  {
    && LosesPrimary(t, key, sight) && oldest.Some?
    && ctx.client == Some(oldest.value.client) && ctx.site.None?
    && exists a, b :: Overtakes(t, key.person, oldest.value, a, b)
  }

  /** `b` is at the promoted place, `a` at another site of the client and no younger. */
  predicate Overtakes(t: Table, person: string, place: RowKey, a: RowKey, b: RowKey) {
    && a in t && b in t && a.person == person && b.person == person
    && a.client == place.client && a.site != place.site && SamePlace(b, place)
    && t[a].createdOn <= t[b].createdOn
  }

  lemma RemovalKeepsOrder(t: Table, key: RowKey, sight: Sight, oldest: Option<RowKey>, ctx: Context)
    requires key in t && Sees(sight, key) && Oldest(t - {key}, key.person, sight, oldest)
    requires sight.Only? ==> sight.client == key.client
    requires Proper(key.person, ctx) && !Concerns(ctx, key.client, key.site)
    requires !PromotionReorders(t, key, sight, oldest, ctx)
    ensures KeepsOrder(t, RemoveRow(t, key, sight, oldest), key.person, Asked(ctx))
  {
    var t' := RemoveRow(t, key, sight, oldest);
    forall a, b | a in t && b in t && a.person == key.person && b.person == key.person
                  && Asked(ctx)(a) && Asked(ctx)(b) && Before(t, a, b)
      ensures Before(t', a, b)
    {
      if LosesPrimary(t, key, sight) && oldest.Some? && a.client == oldest.value.client {
        assert !IsPrimary(t, a) && !IsPrimary(t, b);
        assert !Overtakes(t, key.person, oldest.value, a, b) || ctx.site.Some?;
      }
    }
  }

  predicate Precedes<T(==)>(ks: seq<T>, a: T, b: T) {
    exists i, j :: 0 <= i < j < |ks| && ks[i] == a && ks[j] == b
  }

  lemma {:induction false} InsertPrecedes(t: Table, ks: seq<RowKey>, a: RowKey, b: RowKey)
    requires b in ks && Before(t, a, b)
    ensures Precedes(Insert(t, ks, a), a, b)
  {
    if Before(t, a, ks[0]) {
      var j :| 0 <= j < |ks| && ks[j] == b;
      var r := Insert(t, ks, a);
      assert r[0] == a && r[j + 1] == b;
    } else {
      InsertPrecedes(t, ks[1..], a, b);
      var r := Insert(t, ks[1..], a);
      var i, j :| 0 <= i < j < |r| && r[i] == a && r[j] == b;
      var r' := Insert(t, ks, a);
      assert r'[i + 1] == a && r'[j + 1] == b;
    }
  }

  lemma ConcatPrecedes<T>(front: seq<T>, back: seq<T>, a: T, b: T)
    requires a in front && b in back
    ensures Precedes(front + back, a, b)
  {
    var m :| 0 <= m < |front| && front[m] == a;
    var n :| 0 <= n < |back| && back[n] == b;
    assert (front + back)[m] == a && (front + back)[|front| + n] == b;
  }

  lemma FilterPrecedes<T(!new)>(ks: seq<T>, p: T -> bool, a: T, b: T)
    requires Precedes(ks, a, b) && p(a) && p(b)
    ensures Precedes(Filter(ks, p), a, b)
  {
    var i, j :| 0 <= i < j < |ks| && ks[i] == a && ks[j] == b;
    var front, back := ks[..j], ks[j..];
    assert ks == front + back && front[i] == a && back[0] == b;
    FilterConcat(front, back, p);
    ConcatPrecedes(Filter(front, p), Filter(back, p), a, b);
  }

  /** Two rows that may come in this order do so in some result of the query. */
  lemma ListingInOrder(t: Table, idp: string, a: RowKey, b: RowKey) returns (ks: seq<RowKey>)
    requires a in t && b in t && a != b && a.person == idp && b.person == idp && Before(t, a, b)
    ensures Listing(t, idp, ks) && Precedes(ks, a, b)
  {
    var others := Complete(t, [], RowsOf(t, idp) - {a}, k => false);
    InsertSorted(t, others, a);
    InsertPrecedes(t, others, a, b);
    ks := Insert(t, others, a);
  }

  lemma ReorderingLosesRecords(t: Table, t': Table, idp: string, ctx: Context, a: RowKey, b: RowKey)
    requires Given(ctx.client) && Asked(ctx)(a) && Asked(ctx)(b)
    requires a in t && b in t && a != b && a.person == idp && b.person == idp && Before(t, a, b) && !Before(t', a, b)
    ensures !Keeps(t, t', idp, ctx)
  {
    var ks := ListingInOrder(t, idp, a, b);
    var rs := Considered(t, ks, ctx);
    FilterPrecedes(ks, Asked(ctx), a, b);
    assert CanConsider(t, idp, ctx, rs) && Precedes(rs, a, b);
    forall ks' | Listing(t', idp, ks') ensures Considered(t', ks', ctx) != rs {
      FilterSorted(t', ks', Asked(ctx));
    }
    assert !CanConsider(t', idp, ctx, rs);
  }

  /** Removing a row keeps the records of a request it does not concern exactly if no promotion reorders them. */
  lemma RemovalKeepsIff(t: Table, key: RowKey, sight: Sight, oldest: Option<RowKey>, idp: string, ctx: Context)
    requires key in t && Sees(sight, key) && Oldest(t - {key}, key.person, sight, oldest)
    requires sight.Only? ==> sight.client == key.client
    requires Proper(idp, ctx) && (key.person == idp ==> !Concerns(ctx, key.client, key.site))
    ensures Keeps(t, RemoveRow(t, key, sight, oldest), idp, ctx)
      <==> !(key.person == idp && PromotionReorders(t, key, sight, oldest, ctx))
  {
    var t' := RemoveRow(t, key, sight, oldest);
    if key.person != idp {
      SameRowsKeep(t, t', idp, ctx);
    } else if PromotionReorders(t, key, sight, oldest, ctx) {
      var a, b :| Overtakes(t, key.person, oldest.value, a, b);
      assert !IsPrimary(t, a) && !IsPrimary(t, b) && IsPrimary(t', b) && !IsPrimary(t', a);
      ReorderingLosesRecords(t, t', idp, ctx, a, b);
    } else {
      RemovalKeepsOrder(t, key, sight, oldest, ctx);
      KeptOrderKeeps(t, t', idp, ctx);
    }
  }

  /** After a role is removed no result of the query has it, and no request of the person is decided on it. */
  lemma RemovedRoleIsGone(t: Table, op: Op, ks: seq<RowKey>, ctx: Context)
    requires (op.UsersRemoveRole? || op.MembersRemoveRole?) && Allowed(t, op)
    requires Listing(Apply(t, op), op.key.person, ks)
    ensures op.key !in ks && op.key !in Considered(Apply(t, op), ks, ctx)
    ensures forall k :: k in ks <==> k in t && k.person == op.key.person && k != op.key
  {
    RemoveRoleChanges(t, op, op.key);
  }

  /** After a member is removed, the person's requests for the client are decided on no record. */
  lemma RemovedMemberIsGone(t: Table, op: Op, ks: seq<RowKey>, ctx: Context)
    requires op.MembersRemove? && Allowed(t, op) && Listing(Apply(t, op), op.person, ks)
    requires Given(ctx.client) && ctx.client.value == op.client
    ensures Considered(Apply(t, op), ks, ctx) == []
  {
    forall k | k in ks ensures !Asked(ctx)(k) {
      MembersRemoveChanges(t, op, k);
    }
    FilterNone(ks, Asked(ctx));
  }

  /** Removing a member with own-client reads keeps the records of every request whose key it does not delete. */
  lemma MemberRemovalKeeps(t: Table, op: Op, idp: string, ctx: Context)
    requires op.MembersRemove? && Allowed(t, op) && OwnSight(op)
    requires Proper(idp, ctx) && IntentOf(ctx) == User && CacheKey(idp, ctx) !in ClearedBy(t, op)
    ensures Keeps(t, Apply(t, op), idp, ctx)
  {
    var t' := Apply(t, op);
    assert t' == WithoutMember(t, op.person, op.client);
    if idp != op.person {
      SameRowsKeep(t, t', idp, ctx);
    } else {
      if ctx.client.None? || (ctx.client.value == op.client && ctx.site.None?) {
        ContextKeyIsCleared(idp, ctx, op.client);
        assert false;
      }
      forall k | k in t && k.person == idp && Asked(ctx)(k) ensures k.client != op.client {
        if k.client == op.client {
          assert k in MemberRows(t, op.person, op.client) && CacheKey(idp, ctx) !in ClearedFor(k);
          UnclearedIsUnconcerned(k, idp, ctx);
        }
      }
      KeptOrderKeeps(t, t', idp, ctx);
    }
  }

  // ---- The sync ----

  /** Some row of the sync does not exist yet. */
  predicate SomeMissing(t: Table, op: Op)
    requires op.SyncUser?
  {
    exists i :: 0 <= i < |op.roles| && RowKey(op.person, op.client, op.site, op.roles[i]) !in t
  }

  /**
   The sync gives the person rows that count for the request: at the requested place, or, for a default
   request, a first row at all, or one older than all others of someone without a primary row.
   */
  ghost predicate SyncOutdates(t: Table, op: Op, ctx: Context)
    requires op.SyncUser?
  {
    && SomeMissing(t, op)
    && if ctx.client.Some? then ctx.client.value == op.client && (ctx.site.Some? ==> ctx.site.value == op.site)
       else
         || !Holds(t, op.person)
         || (!HasPrimary(t, op.person, All)
             && forall k :: k in t && k.person == op.person ==> op.now < t[k].createdOn)
  }

  lemma SyncedAt(t: Table, op: Op, k: RowKey)
    requires op.SyncUser? && Allowed(t, op)
    ensures var r := Apply(t, op);
      && (k in t ==> k in r && r[k] == t[k])
      && (k in r && k !in t ==> r[k] == Row(!Holds(t, op.person), op.now))
      && (k in r && k !in t ==> k == RowKey(op.person, op.client, op.site, k.role) && SomeMissing(t, op))
      && (k.person == op.person && k.client == op.client && k.site == op.site && k.role in op.roles ==> k in r)
  {
    var ks := RoleKeys(op.person, op.client, op.site, op.roles);
    CreateMissingAt(t, ks, !Holds(t, op.person), op.now, k);
    if k in ks {
      var i :| 0 <= i < |ks| && ks[i] == k;
      assert op.roles[i] == k.role;
    }
    if k.person == op.person && k.client == op.client && k.site == op.site && k.role in op.roles {
      var i :| 0 <= i < |op.roles| && op.roles[i] == k.role;
      assert ks[i] == k;
    }
  }

  lemma MissingRow(t: Table, op: Op) returns (k: RowKey)
    requires op.SyncUser? && Allowed(t, op) && SomeMissing(t, op)
    ensures k !in t && k in Apply(t, op) && k.person == op.person && k.client == op.client && k.site == op.site
    ensures Apply(t, op)[k] == Row(!Holds(t, op.person), op.now)
  {
    var i :| 0 <= i < |op.roles| && RowKey(op.person, op.client, op.site, op.roles[i]) !in t;
    k := RowKey(op.person, op.client, op.site, op.roles[i]);
    SyncedAt(t, op, k);
  }

  /** A new row at the requested place is in every list of records decided on, and was in none. */
  lemma SyncOutdatesPlace(t: Table, op: Op, ctx: Context)
    requires op.SyncUser? && Allowed(t, op) && Proper(op.person, ctx) && ctx.client.Some? && SyncOutdates(t, op, ctx)
    ensures !Keeps(t, Apply(t, op), op.person, ctx)
  {
    var k := MissingRow(t, op);
    var ks := SomeListing(t, op.person);
    var rs := Considered(t, ks, ctx);
    assert CanConsider(t, op.person, ctx, rs) && k !in rs;
    forall ks' | Listing(Apply(t, op), op.person, ks') ensures Considered(Apply(t, op), ks', ctx) != rs {
      assert k in Considered(Apply(t, op), ks', ctx);
    }
    assert !CanConsider(Apply(t, op), op.person, ctx, rs);
  }

  /** A first row is primary and ends the denial of default requests. */
  lemma SyncOutdatesNoAccess(t: Table, op: Op, ctx: Context)
    requires op.SyncUser? && Allowed(t, op) && ctx.client.None? && SyncOutdates(t, op, ctx) && !Holds(t, op.person)
    ensures !Keeps(t, Apply(t, op), op.person, ctx)
  {
    var t' := Apply(t, op);
    var k := MissingRow(t, op);
    assert Listing(t, op.person, []);
    assert Considered(t, [], ctx) == [];
    assert CanConsider(t, op.person, ctx, []);
    forall ks' | Listing(t', op.person, ks') ensures Considered(t', ks', ctx) != [] {
      assert k in Filter(ks', Primary(t'));
    }
    assert !CanConsider(t', op.person, ctx, []);
  }

  lemma NoPrimaryAfterSync(t: Table, op: Op)
    requires op.SyncUser? && Allowed(t, op) && Holds(t, op.person) && !HasPrimary(t, op.person, All)
    ensures !HasPrimary(Apply(t, op), op.person, All) && Holds(Apply(t, op), op.person)
  {
    forall k | k in Apply(t, op) && k.person == op.person ensures !Apply(t, op)[k].isPrimary {
      SyncedAt(t, op, k);
      assert k in t ==> !t[k].isPrimary || !Sees(All, k);
    }
    var x :| x in t && x.person == op.person;
    SyncedAt(t, op, x);
  }

  lemma NoPrimaryListed(t: Table, person: string, ks: seq<RowKey>)
    requires !HasPrimary(t, person, All) && Listing(t, person, ks)
    ensures Filter(ks, Primary(t)) == []
  {
    forall k | k in ks ensures !IsPrimary(t, k) {
      assert Sees(All, k);
    }
    FilterNone(ks, Primary(t));
  }

  predicate IsOldestRow(t: Table, person: string, k: RowKey) {
    k in t && k.person == person && forall x :: x in t && x.person == person ==> t[k].createdOn <= t[x].createdOn
  }

  /** Some result of the query starts with a given oldest row, if none is primary. */
  lemma ListingFrom(t: Table, person: string, first: RowKey) returns (ks: seq<RowKey>)
    requires !HasPrimary(t, person, All) && IsOldestRow(t, person, first)
    ensures Listing(t, person, ks) && ks != [] && ks[0] == first
  {
    var others := Complete(t, [], RowsOf(t, person) - {first}, k => false);
    InsertSorted(t, others, first);
    ks := Insert(t, others, first);
    if others != [] {
      assert others[0] in others;
      assert Sees(All, first) && Sees(All, others[0]);
      assert Before(t, first, others[0]);
    }
  }

  lemma FirstListedIsOldest(t: Table, person: string, ks: seq<RowKey>)
    requires !HasPrimary(t, person, All) && Listing(t, person, ks) && ks != []
    ensures IsOldestRow(t, person, ks[0])
  {
    assert ks[0] in ks && Sees(All, ks[0]);
    forall k | k in t && k.person == person ensures t[ks[0]].createdOn <= t[k].createdOn {
      assert k in ks && Sees(All, k);
      var j :| 0 <= j < |ks| && ks[j] == k;
      assert j > 0 ==> Before(t, ks[0], ks[j]);
    }
  }

  /** Without a primary row a default request is decided on one of the oldest rows, and on any of them. */
  lemma OldestRowDecides(t: Table, person: string, ctx: Context, rs: seq<RowKey>)
    requires ctx.client.None? && Holds(t, person) && !HasPrimary(t, person, All)
    ensures CanConsider(t, person, ctx, rs) <==> |rs| == 1 && IsOldestRow(t, person, rs[0])
  {
    if CanConsider(t, person, ctx, rs) {
      var ks :| Listing(t, person, ks) && Considered(t, ks, ctx) == rs;
      NoPrimaryListed(t, person, ks);
      var x :| x in t && x.person == person;
      assert x in ks && rs == [ks[0]];
      FirstListedIsOldest(t, person, ks);
    }
    if |rs| == 1 && IsOldestRow(t, person, rs[0]) {
      var ks := ListingFrom(t, person, rs[0]);
      NoPrimaryListed(t, person, ks);
      assert Considered(t, ks, ctx) == rs;
    }
  }

  lemma {:induction false} OldestRowExists(t: Table, person: string, ks: set<RowKey>) returns (k: RowKey)
    requires ks != {} && ks <= RowsOf(t, person)
    ensures k in ks && forall x :: x in ks ==> t[k].createdOn <= t[x].createdOn
  {
    var x :| x in ks;
    k := x;
    if ks != {x} {
      assert ks - {x} != {};
      var y := OldestRowExists(t, person, ks - {x});
      k := if t[y].createdOn < t[x].createdOn then y else x;
      assert forall z :: z in ks ==> z == x || z in ks - {x};
    }
  }

  /** For someone without a primary row the sync matters exactly if it adds a row older than all others. */
  lemma SyncKeepsFirstIff(t: Table, op: Op, ctx: Context)
    requires op.SyncUser? && Allowed(t, op) && ctx.client.None? && Holds(t, op.person) && !HasPrimary(t, op.person, All)
    ensures Keeps(t, Apply(t, op), op.person, ctx) <==> !SyncOutdates(t, op, ctx)
  {
    var t', p := Apply(t, op), op.person;
    NoPrimaryAfterSync(t, op);
    forall rs ensures CanConsider(t, p, ctx, rs) <==> |rs| == 1 && IsOldestRow(t, p, rs[0])
      ensures CanConsider(t', p, ctx, rs) <==> |rs| == 1 && IsOldestRow(t', p, rs[0])
    {
      OldestRowDecides(t, p, ctx, rs);
      OldestRowDecides(t', p, ctx, rs);
    }
    forall k ensures (k in t ==> k in t' && t'[k] == t[k])
      ensures k in t' && k !in t ==> t'[k].createdOn == op.now && SomeMissing(t, op)
    {
      SyncedAt(t, op, k);
    }
    var x :| x in t && x.person == p;
    assert x in RowsOf(t, p);
    var oldest := OldestRowExists(t, p, RowsOf(t, p));
    assert IsOldestRow(t, p, oldest);
    if SyncOutdates(t, op, ctx) {
      var k := MissingRow(t, op);
      assert CanConsider(t, p, ctx, [oldest]) && !IsOldestRow(t', p, oldest);
    } else {
      forall k | IsOldestRow(t, p, k) ensures IsOldestRow(t', p, k) {
      }
    }
  }

  /** Default requests of someone with a primary row depend on the primary rows only. */
  lemma PrimariesKeep(t: Table, t': Table, idp: string, ctx: Context, home: RowKey)
    requires ctx.client.None? && IsPrimary(t, home) && home.person == idp
    requires forall k :: IsPrimary(t', k) == IsPrimary(t, k) && (k in t ==> k in t' && t'[k] == t[k])
    ensures Keeps(t, t', idp, ctx)
  {
    assert KeepsOrder(t, t', idp, Primary(t));
    forall rs | CanConsider(t, idp, ctx, rs) ensures CanConsider(t', idp, ctx, rs) {
      var ks :| Listing(t, idp, ks) && Considered(t, ks, ctx) == rs;
      var ks' := CarryListing(t, t', idp, ks, Primary(t));
      assert home in Filter(ks, Primary(t));
      FilterSame(ks', Primary(t'), Primary(t));
      assert Considered(t', ks', ctx) == rs;
    }
  }

  /** With a primary row, default requests are decided on the primary rows, and the sync adds none. */
  lemma SyncKeepsPrimaries(t: Table, op: Op, ctx: Context)
    requires op.SyncUser? && Allowed(t, op) && ctx.client.None? && HasPrimary(t, op.person, All)
    ensures Keeps(t, Apply(t, op), op.person, ctx)
  {
    var t' := Apply(t, op);
    var home :| home in t && t[home].isPrimary && home.person == op.person && Sees(All, home);
    forall k ensures IsPrimary(t', k) == IsPrimary(t, k) && (k in t ==> k in t' && t'[k] == t[k]) {
      SyncedAt(t, op, k);
    }
    PrimariesKeep(t, t', op.person, ctx, home);
  }

  /** The sync keeps the records of a request exactly when it does not outdate it. */
  lemma SyncKeepsIff(t: Table, op: Op, idp: string, ctx: Context)
    requires op.SyncUser? && Allowed(t, op) && Proper(idp, ctx)
    ensures Keeps(t, Apply(t, op), idp, ctx) <==> !(op.person == idp && SyncOutdates(t, op, ctx))
  {
    var t' := Apply(t, op);
    forall k ensures (k in t ==> k in t' && t'[k] == t[k])
      ensures k in t' && k !in t ==> k == RowKey(op.person, op.client, op.site, k.role) && SomeMissing(t, op)
    {
      SyncedAt(t, op, k);
    }
    if op.person != idp || !SomeMissing(t, op) {
      SameRowsKeep(t, t', idp, ctx);
    } else if ctx.client.Some? && SyncOutdates(t, op, ctx) {
      SyncOutdatesPlace(t, op, ctx);
    } else if ctx.client.Some? {
      KeptOrderKeeps(t, t', idp, ctx);
    } else if HasPrimary(t, idp, All) {
      SyncKeepsPrimaries(t, op, ctx);
    } else if Holds(t, idp) {
      SyncKeepsFirstIff(t, op, ctx);
    } else {
      SyncOutdatesNoAccess(t, op, ctx);
    }
  }

  // ---- All writers ----

  /** The write outdates answers to the request and does not delete its key. */
  ghost predicate Outdates(t: Table, op: Op, idp: string, ctx: Context)
    requires Allowed(t, op)
  {
    match op
    case UsersRemoveRole(key, oldest) => key.person == idp && PromotionReorders(t, key, All, oldest, ctx)
    case SyncUser(person, _, _, _, _) => person == idp && SyncOutdates(t, op, ctx)
    case _ => false
  }

  /**
   For every writer and every 'user' request whose key it does not delete: the request can still be decided on
   whatever it could be decided on before, unless the writer is the sync and adds rows that count for the
   request, or the removal of a role whose promotion reorders the rows of the requested client.
   */
  lemma WriteKeepsIff(t: Table, op: Op, idp: string, ctx: Context)
    requires Allowed(t, op) && OwnSight(op) && Proper(idp, ctx) && IntentOf(ctx) == User
    requires CacheKey(idp, ctx) !in ClearedBy(t, op)
    ensures Keeps(t, Apply(t, op), idp, ctx) <==> !Outdates(t, op, idp, ctx)
  {
    match op
    case Accept(keys, clicked, first, now) =>
      UpsertsKeepUncleared(t, AcceptWrites(keys, clicked, first), now, idp, ctx);
    case UsersAddRole(key, _, _) =>
      UnclearedIsUnconcerned(key, idp, ctx);
      WriteKeepsOtherRequests(t, Apply(t, op), key, idp, ctx);
    case MembersAddRole(key, _, _) =>
      UnclearedIsUnconcerned(key, idp, ctx);
      WriteKeepsOtherRequests(t, Apply(t, op), key, idp, ctx);
    case UsersRemoveRole(key, oldest) =>
      UnclearedIsUnconcerned(key, idp, ctx);
      RemovalKeepsIff(t, key, All, oldest, idp, ctx);
    case MembersRemoveRole(key, sight, oldest) =>
      UnclearedIsUnconcerned(key, idp, ctx);
      RemovalKeepsIff(t, key, sight, oldest, idp, ctx);
    case MembersRemove(_, _, _, _) => MemberRemovalKeeps(t, op, idp, ctx);
    case SyncUser(_, _, _, _, _) => SyncKeepsIff(t, op, idp, ctx);
  }

  // ---- Runs ----

  /**
   An answer computed for a request. It is late if a write deleted its key while the answer was on its way to
   the cache, and outdated if a write outdated it without deleting its key.
   */
  datatype Entry = Entry(idp: string, ctx: Context, answer: Outcome, late: bool, outdated: bool)

  /** `pending` are answers computed and not stored yet, `jobs` the keys writers have still to delete. */
  datatype State = State(rows: Table, cache: map<string, Entry>, pending: map<nat, Entry>, jobs: map<nat, set<string>>)

  datatype Step =
    | Read(id: nat, idp: string, ctx: Context, ks: seq<RowKey>)             // the factory of a 'user' request
    | ReadOther(id: nat, idp: string, other: Context, answer: Outcome)      // that of another intent, with any result
    | Store(id: nat)
    | Change(job: nat, op: Op)                                              // a writer's transaction
    | Clear(job: nat, keys: set<string>)                                    // its deletion of keys, or of some
    | Forget(keys: set<string>)                                             // expiry, or deletion by anyone else

  function KeyOf(e: Entry): string { CacheKey(e.idp, e.ctx) }

  ghost predicate Enabled(s: State, step: Step) {
    match step
    case Read(id, idp, ctx, ks) =>
      id !in s.pending && Proper(idp, ctx) && IntentOf(ctx) == User && Listing(s.rows, idp, ks)
    case ReadOther(id, idp, other, _) => id !in s.pending && Proper(idp, other) && IntentOf(other) != User
    case Store(id) => id in s.pending
    case Change(job, op) => job !in s.jobs && Allowed(s.rows, op) && OwnSight(op)
    case Clear(job, keys) => job in s.jobs && keys <= s.jobs[job]
    case Forget(_) => true
  }

  ghost function MarkPending(t: Table, op: Op, e: Entry): Entry
    requires Allowed(t, op)
  {
    if KeyOf(e) in ClearedBy(t, op) then e.(late := true) else MarkCached(t, op, e)
  }

  ghost function MarkCached(t: Table, op: Op, e: Entry): Entry
    requires Allowed(t, op)
  {
    if KeyOf(e) !in ClearedBy(t, op) && Outdates(t, op, e.idp, e.ctx) then e.(outdated := true) else e
  }

  ghost function Next(env: Env, s: State, step: Step): State
    requires Enabled(s, step)
  {
    match step
    case Read(id, idp, ctx, ks) =>
      s.(pending := s.pending[id := Entry(idp, ctx, ResolveRecords(env, s.rows, ks, idp, ctx), false, false)])
    case ReadOther(id, idp, other, answer) => s.(pending := s.pending[id := Entry(idp, other, answer, false, false)])
    case Store(id) => s.(cache := s.cache[KeyOf(s.pending[id]) := s.pending[id]], pending := s.pending - {id})
    case Change(job, op) =>
      State(Apply(s.rows, op), map key | key in s.cache :: MarkCached(s.rows, op, s.cache[key]),
            map id | id in s.pending :: MarkPending(s.rows, op, s.pending[id]), s.jobs[job := ClearedBy(s.rows, op)])
    case Clear(job, keys) => s.(cache := s.cache - keys, jobs := s.jobs[job := s.jobs[job] - keys])
    case Forget(keys) => s.(cache := s.cache - keys)
  }

  ghost predicate Legal(env: Env, steps: seq<Step>)
    decreases |steps|, 0
  {
    steps == [] || (Legal(env, steps[..|steps| - 1]) && Enabled(After(env, steps[..|steps| - 1]), steps[|steps| - 1]))
  }

  ghost function After(env: Env, steps: seq<Step>): State
    requires Legal(env, steps)
    decreases |steps|, 1
  {
    if steps == [] then State(map[], map[], map[], map[])
    else Next(env, After(env, steps[..|steps| - 1]), steps[|steps| - 1])
  }

  // ---- What the cache answers ----

  /** The answer is one the tables give now. */
  ghost predicate Current(env: Env, t: Table, e: Entry) { CanResolve(env, t, e.idp, e.ctx, e.answer) }

  /** A writer has still to delete the key. */
  ghost predicate AwaitsClear(s: State, key: string) { exists job :: job in s.jobs && key in s.jobs[job] }

  ghost predicate Explained(env: Env, t: Table, e: Entry) {
    Proper(e.idp, e.ctx) && (IntentOf(e.ctx) == User ==> Current(env, t, e) || e.late || e.outdated)
  }

  ghost predicate PendingExplained(env: Env, s: State) {
    forall id :: id in s.pending ==> Explained(env, s.rows, s.pending[id])
  }

  ghost predicate CacheExplained(env: Env, s: State) {
    forall key :: key in s.cache ==> CachedWell(env, s, key, s.cache[key])
  }

  ghost predicate CachedWell(env: Env, s: State, key: string, e: Entry) {
    key == KeyOf(e) && Proper(e.idp, e.ctx) && (Explained(env, s.rows, e) || AwaitsClear(s, key))
  }

  lemma ReadIsCurrent(env: Env, t: Table, idp: string, ctx: Context, ks: seq<RowKey>)
    requires Listing(t, idp, ks)
    ensures CanResolve(env, t, idp, ctx, ResolveRecords(env, t, ks, idp, ctx))
  {
  }

  lemma UntouchedStaysCurrent(env: Env, t: Table, op: Op, e: Entry)
    requires Allowed(t, op) && OwnSight(op) && Proper(e.idp, e.ctx) && IntentOf(e.ctx) == User
    requires KeyOf(e) !in ClearedBy(t, op)
    ensures !Outdates(t, op, e.idp, e.ctx) && Current(env, t, e) ==> Current(env, Apply(t, op), e)
  {
    WriteKeepsIff(t, op, e.idp, e.ctx);
    if Keeps(t, Apply(t, op), e.idp, e.ctx) && Current(env, t, e) {
      KeptRecordsKeepOutcomes(env, t, Apply(t, op), e.idp, e.ctx, e.answer);
    }
  }

  lemma MarkedIsExplained(env: Env, t: Table, op: Op, e: Entry)
    requires Allowed(t, op) && OwnSight(op) && Explained(env, t, e)
    ensures KeyOf(e) in ClearedBy(t, op) || Explained(env, Apply(t, op), MarkCached(t, op, e))
  {
    if KeyOf(e) !in ClearedBy(t, op) {
      if Outdates(t, op, e.idp, e.ctx) {
        assert MarkCached(t, op, e) == e.(outdated := true);
      } else if IntentOf(e.ctx) == User && Current(env, t, e) {
        UntouchedStaysCurrent(env, t, op, e);
      }
    }
  }

  lemma StepKeepsPending(env: Env, s: State, step: Step)
    requires Enabled(s, step) && PendingExplained(env, s)
    ensures PendingExplained(env, Next(env, s, step))
  {
    if step.Read? {
      ReadIsCurrent(env, s.rows, step.idp, step.ctx, step.ks);
    }
    if step.Change? {
      forall id | id in s.pending
        ensures Explained(env, Apply(s.rows, step.op), MarkPending(s.rows, step.op, s.pending[id]))
      {
        MarkedIsExplained(env, s.rows, step.op, s.pending[id]);
      }
    }
  }

  lemma ChangeKeepsCached(env: Env, s: State, step: Step, key: string)
    requires Enabled(s, step) && step.Change? && key in s.cache && CachedWell(env, s, key, s.cache[key])
    ensures CachedWell(env, Next(env, s, step), key, MarkCached(s.rows, step.op, s.cache[key]))
  {
    var s' := Next(env, s, step);
    if AwaitsClear(s, key) {
      var job :| job in s.jobs && key in s.jobs[job];
      assert job in s'.jobs && key in s'.jobs[job];
    } else {
      MarkedIsExplained(env, s.rows, step.op, s.cache[key]);
      assert step.job in s'.jobs && s'.jobs[step.job] == ClearedBy(s.rows, step.op);
    }
  }

  lemma ClearKeepsCached(env: Env, s: State, step: Step, key: string)
    requires Enabled(s, step) && step.Clear? && key in s.cache && key !in step.keys
    requires CachedWell(env, s, key, s.cache[key])
    ensures CachedWell(env, Next(env, s, step), key, s.cache[key])
  {
    if AwaitsClear(s, key) {
      var job :| job in s.jobs && key in s.jobs[job];
      var s' := Next(env, s, step);
      assert job in s'.jobs && key in s'.jobs[job];
    }
  }

  lemma StoreKeepsCached(env: Env, s: State, step: Step, key: string)
    requires Enabled(s, step) && step.Store? && key in Next(env, s, step).cache
    requires PendingExplained(env, s) && CacheExplained(env, s)
    ensures CachedWell(env, Next(env, s, step), key, Next(env, s, step).cache[key])
  {
    assert key in s.cache ==> CachedWell(env, s, key, s.cache[key]);
    assert AwaitsClear(Next(env, s, step), key) <==> AwaitsClear(s, key);
  }

  lemma StepKeepsCache(env: Env, s: State, step: Step)
    requires Enabled(s, step) && PendingExplained(env, s) && CacheExplained(env, s)
    ensures CacheExplained(env, Next(env, s, step))
  {
    var s' := Next(env, s, step);
    forall key | key in s'.cache ensures CachedWell(env, s', key, s'.cache[key]) {
      if step.Change? {
        ChangeKeepsCached(env, s, step, key);
      } else if step.Clear? {
        ClearKeepsCached(env, s, step, key);
      } else if step.Store? {
        StoreKeepsCached(env, s, step, key);
      } else {
        assert s'.cache[key] == s.cache[key] && s'.rows == s.rows && s'.jobs == s.jobs;
      }
    }
  }

  lemma {:induction false} RunsAreExplained(env: Env, steps: seq<Step>)
    requires Legal(env, steps)
    ensures PendingExplained(env, After(env, steps)) && CacheExplained(env, After(env, steps))
  {
    if steps != [] {
      RunsAreExplained(env, steps[..|steps| - 1]);
      StepKeepsPending(env, After(env, steps[..|steps| - 1]), steps[|steps| - 1]);
      StepKeepsCache(env, After(env, steps[..|steps| - 1]), steps[|steps| - 1]);
    }
  }

  /**
   In every run of requests and of all writers, interleaved at every await: what the cache answers to a 'user'
   request is what the tables give, unless its key is about to be deleted, or it was on its way to the cache when
   a writer deleted its key, or the sync or a promotion outdated it.
   */
  lemma RunsAreCoherent(env: Env, steps: seq<Step>, idp: string, ctx: Context)
    requires Legal(env, steps) && Proper(idp, ctx) && IntentOf(ctx) == User
    requires CacheKey(idp, ctx) in After(env, steps).cache
    ensures var s := After(env, steps); var e := s.cache[CacheKey(idp, ctx)];
      CanResolve(env, s.rows, idp, ctx, e.answer) || e.late || e.outdated || AwaitsClear(s, CacheKey(idp, ctx))
  {
    RunsAreExplained(env, steps);
    var s := After(env, steps);
    var e := s.cache[CacheKey(idp, ctx)];
    assert CachedWell(env, s, CacheKey(idp, ctx), e);
    KeyIsInjective(idp, ctx, e.idp, e.ctx);
    if Current(env, s.rows, e) {
      var ks :| Listing(s.rows, idp, ks) && SameOutcome(ResolveRecords(env, s.rows, ks, idp, e.ctx), e.answer);
      IntentDefaultsToUser(env, s.rows, ks, idp, e.ctx, ctx);
    }
  }

  // ---- Runs without exceptions ----

  /** The write meets no pending answer whose key it deletes, and outdates none that it leaves in place. */
  ghost predicate Calm(s: State, step: Step)
    requires Enabled(s, step)
  {
    step.Change? ==>
      && (forall id :: id in s.pending ==> MarkPending(s.rows, step.op, s.pending[id]) == s.pending[id])
      && (forall key :: key in s.cache ==> MarkCached(s.rows, step.op, s.cache[key]) == s.cache[key])
  }

  ghost predicate CalmRun(env: Env, steps: seq<Step>)
    requires Legal(env, steps)
  {
    steps == [] ||
      (CalmRun(env, steps[..|steps| - 1]) && Calm(After(env, steps[..|steps| - 1]), steps[|steps| - 1]))
  }

  ghost predicate Unmarked(s: State) {
    && (forall id :: id in s.pending ==> !s.pending[id].late && !s.pending[id].outdated)
    && (forall key :: key in s.cache ==> !s.cache[key].late && !s.cache[key].outdated)
  }

  lemma CalmStepLeavesUnmarked(env: Env, s: State, step: Step)
    requires Enabled(s, step) && Calm(s, step) && Unmarked(s)
    ensures Unmarked(Next(env, s, step))
  {
  }

  lemma {:induction false} CalmRunsAreUnmarked(env: Env, steps: seq<Step>)
    requires Legal(env, steps) && CalmRun(env, steps)
    ensures Unmarked(After(env, steps))
  {
    if steps != [] {
      CalmRunsAreUnmarked(env, steps[..|steps| - 1]);
      CalmStepLeavesUnmarked(env, After(env, steps[..|steps| - 1]), steps[|steps| - 1]);
    }
  }

  /** Over calm runs a cached answer is what the tables give once the writers have deleted their keys. */
  lemma CalmRunsAreCoherent(env: Env, steps: seq<Step>, idp: string, ctx: Context)
    requires Legal(env, steps) && CalmRun(env, steps) && Proper(idp, ctx) && IntentOf(ctx) == User
    requires CacheKey(idp, ctx) in After(env, steps).cache && !AwaitsClear(After(env, steps), CacheKey(idp, ctx))
    ensures CanResolve(env, After(env, steps).rows, idp, ctx, After(env, steps).cache[CacheKey(idp, ctx)].answer)
  {
    RunsAreCoherent(env, steps, idp, ctx);
    CalmRunsAreUnmarked(env, steps);
  }

  // ---- The exceptions occur ----

  lemma Extend(env: Env, steps: seq<Step>, step: Step)
    requires Legal(env, steps) && Enabled(After(env, steps), step)
    ensures Legal(env, steps + [step]) && After(env, steps + [step]) == Next(env, After(env, steps), step)
  {
    assert (steps + [step])[..|steps|] == steps;
  }

  const DEFAULT := Context(None, None, None)

  lemma BuildingHasItsReasons(env: Env, ks: seq<RowKey>)
    requires ks != []
    ensures var o := ValidateAndBuild(env, ks); o.Denied? ==> o.reason == ClientInactive || o.reason == SiteInactive
  {
  }

  /** Whoever holds a row is not told that they have no access at all. */
  lemma HolderHasAccess(env: Env, t: Table, idp: string, ctx: Context)
    requires Holds(t, idp) && !Given(ctx.client)
    ensures !CanResolve(env, t, idp, ctx, Denied(NoAccessGrant, None))
  {
    var x :| x in t && x.person == idp;
    forall ks | Listing(t, idp, ks)
      ensures !SameOutcome(ResolveRecords(env, t, ks, idp, ctx), Denied(NoAccessGrant, None))
    {
      assert x in ks && Considered(t, ks, ctx) != [];
      BuildingHasItsReasons(env, Considered(t, ks, ctx));
    }
  }

  /** Nor is anyone else told anything else. */
  lemma StrangerHasNone(env: Env, t: Table, idp: string, ctx: Context)
    requires !Holds(t, idp) && !Given(ctx.client) && IntentOf(ctx) == User
    ensures CanResolve(env, t, idp, ctx, Denied(NoAccessGrant, None))
  {
    assert Listing(t, idp, []);
    assert ResolveRecords(env, t, [], idp, ctx) == Denied(NoAccessGrant, None);
  }

  /**
   Why contexts that name a site without a client are excluded: resolution ignores the site, no writer
   deletes the key, and the cached denial outlives the first role.
   */
  lemma SiteAloneStaysStale(env: Env, key: RowKey, site: string, now: int)
    requires '|' !in key.person && ProperId(Some(key.client)) && ProperId(Some(site))
    ensures var ctx, op := Context(None, Some(site), None), UsersAddRole(key, None, now);
      && Allowed(map[], op) && CacheKey(key.person, ctx) !in ClearedBy(map[], op)
      && CanResolve(env, map[], key.person, ctx, Denied(NoAccessGrant, None))
      && !CanResolve(env, Apply(map[], op), key.person, ctx, Denied(NoAccessGrant, None))
  {
    var ctx, op := Context(None, Some(site), None), UsersAddRole(key, None, now);
    ConcernedKeyIsClearedIff(key.person, ctx, key.client, key.site);
    StrangerHasNone(env, map[], key.person, ctx);
    assert key in Apply(map[], op) && key.person == key.person;
    HolderHasAccess(env, Apply(map[], op), key.person, ctx);
  }

  /** A cached answer that the tables do not give, although no writer has still to delete its key. */
  ghost predicate Stale(env: Env, s: State, idp: string, ctx: Context) {
    && CacheKey(idp, ctx) in s.cache && !AwaitsClear(s, CacheKey(idp, ctx))
    && !CanResolve(env, s.rows, idp, ctx, s.cache[CacheKey(idp, ctx)].answer)
  }

  function NoAccess(person: string): Entry { Entry(person, DEFAULT, Denied(NoAccessGrant, None), false, false) }

  lemma ReadWithoutRows(env: Env, person: string)
    requires '|' !in person
    ensures var read := Read(0, person, DEFAULT, []);
      Legal(env, [read]) && After(env, [read]) == State(map[], map[], map[0 := NoAccess(person)], map[])
  {
    var read := Read(0, person, DEFAULT, []);
    Extend(env, [], read);
    assert [] + [read] == [read];
  }

  lemma AddFirstRole(key: RowKey, now: int)
    ensures Allowed(map[], UsersAddRole(key, None, now))
    ensures Apply(map[], UsersAddRole(key, None, now)) == map[key := Row(true, now)]
  {
  }

  lemma RoleWhilePending(env: Env, s: State, key: RowKey, now: int)
    requires '|' !in key.person && s == State(map[], map[], map[0 := NoAccess(key.person)], map[])
    ensures var change := Change(0, UsersAddRole(key, None, now));
      && Enabled(s, change)
      && Next(env, s, change) == State(map[key := Row(true, now)], map[], map[0 := NoAccess(key.person).(late := true)],
                                       map[0 := ClearedFor(key)])
  {
    ConcernedKeysAreCleared(key.person, DEFAULT, key.client, key.site);
    AddFirstRole(key, now);
    var op := UsersAddRole(key, None, now);
    assert ClearedBy(map[], op) == ClearedFor(key);
    assert MarkPending(map[], op, NoAccess(key.person)) == NoAccess(key.person).(late := true);
  }

  lemma StoreAfterClear(env: Env, s: State, key: RowKey, now: int)
    requires s == State(map[key := Row(true, now)], map[], map[0 := NoAccess(key.person).(late := true)],
                        map[0 := ClearedFor(key)])
    ensures Enabled(s, Clear(0, ClearedFor(key))) && Enabled(Next(env, s, Clear(0, ClearedFor(key))), Store(0))
    ensures Stale(env, Next(env, Next(env, s, Clear(0, ClearedFor(key))), Store(0)), key.person, DEFAULT)
  {
    assert key in s.rows && key.person == key.person;
    HolderHasAccess(env, s.rows, key.person, DEFAULT);
  }

  /** A person without rows is read, given a role, has the keys deleted, and only then is the denial stored. */
  lemma LateAnswerIsStale(env: Env, key: RowKey, now: int)
    requires '|' !in key.person
    ensures var steps := [Read(0, key.person, DEFAULT, []), Change(0, UsersAddRole(key, None, now)),
                          Clear(0, ClearedFor(key)), Store(0)];
      Legal(env, steps) && Stale(env, After(env, steps), key.person, DEFAULT)
  {
    var read, change := Read(0, key.person, DEFAULT, []), Change(0, UsersAddRole(key, None, now));
    var clear, store := Clear(0, ClearedFor(key)), Store(0);
    ReadWithoutRows(env, key.person);
    RoleWhilePending(env, After(env, [read]), key, now);
    Extend(env, [read], change);
    StoreAfterClear(env, After(env, [read] + [change]), key, now);
    Extend(env, [read] + [change], clear);
    Extend(env, [read] + [change] + [clear], store);
    assert [read] + [change] + [clear] + [store] == [read, change, clear, store];
  }

  lemma SyncWhileCached(env: Env, s: State, person: string, op: Op)
    requires s == State(map[], map[CacheKey(person, DEFAULT) := NoAccess(person)], map[], map[])
    requires op.SyncUser? && op.person == person && op.roles != []
    ensures Enabled(s, Change(0, op)) && Stale(env, Next(env, s, Change(0, op)), person, DEFAULT)
  {
    var s' := Next(env, s, Change(0, op));
    assert s'.jobs == map[0 := {}];
    var k := RowKey(person, op.client, op.site, op.roles[0]);
    SyncedAt(s.rows, op, k);
    assert k in s'.rows && k.person == person;
    HolderHasAccess(env, s'.rows, person, DEFAULT);
  }

  /** The sync gives a first role to a person whose denial is cached, and deletes no key. */
  lemma SyncLeavesStaleAnswer(env: Env, person: string, op: Op)
    requires '|' !in person && op.SyncUser? && op.person == person && op.roles != []
    ensures var steps := [Read(0, person, DEFAULT, []), Store(0), Change(0, op)];
      Legal(env, steps) && Stale(env, After(env, steps), person, DEFAULT)
  {
    var read, store, sync := Read(0, person, DEFAULT, []), Store(0), Change(0, op);
    ReadWithoutRows(env, person);
    Extend(env, [read], store);
    var s := After(env, [read] + [store]);
    assert s == State(map[], map[CacheKey(person, DEFAULT) := NoAccess(person)], map[], map[]);
    SyncWhileCached(env, s, person, op);
    Extend(env, [read] + [store], sync);
    assert [read] + [store] + [sync] == [read, store, sync];
  }

  /** All roles have one scope, and all clients and sites are active. */
  ghost predicate Plain(env: Env, scope: Scope) {
    (forall r :: env.role(r).scope == scope) && (forall c :: env.clientActive(c)) && (forall c :: env.siteActive(c))
  }

  /** The row comes after all others the request asks for, in every order the query may return. */
  ghost predicate ComesLast(t: Table, idp: string, ctx: Context, last: RowKey) {
    && last in t && last.person == idp && Asked(ctx)(last)
    && forall x :: x in t && x.person == idp && Asked(ctx)(x) && x != last ==> !Before(t, last, x)
  }

  lemma LastConsidered(t: Table, idp: string, ctx: Context, ks: seq<RowKey>, last: RowKey)
    requires Given(ctx.client) && ComesLast(t, idp, ctx, last) && Listing(t, idp, ks)
    ensures var rs := Considered(t, ks, ctx); rs != [] && rs[|rs| - 1] == last
  {
    var rs := Considered(t, ks, ctx);
    FilterSorted(t, ks, Asked(ctx));
    assert last in ks && last in rs;
    var i :| 0 <= i < |rs| && rs[i] == last;
    assert rs[|rs| - 1] in rs;
  }

  lemma PlainGrant(env: Env, scope: Scope, rs: seq<RowKey>)
    requires Plain(env, scope) && rs != []
    ensures var o, last := ValidateAndBuild(env, rs), rs[|rs| - 1];
      o.Granted? && o.grant.clientId == last.client && o.grant.siteId == last.site && o.grant.roleId == last.role
  {
    BuiltGrant(env, rs);
    var n := ReduceMeans(GrantsOf(env, rs));
    assert n == |rs| - 1;
  }

  lemma LastRecordIsGranted(env: Env, t: Table, idp: string, ctx: Context, scope: Scope, ks: seq<RowKey>, last: RowKey)
    requires Given(ctx.client) && Plain(env, scope) && ComesLast(t, idp, ctx, last) && Listing(t, idp, ks)
    ensures var o := ResolveRecords(env, t, ks, idp, ctx); o.Granted? && o.grant.siteId == last.site
  {
    LastConsidered(t, idp, ctx, ks, last);
    PlainGrant(env, scope, Considered(t, ks, ctx));
  }

  /** An answer is lost when another site comes last. */
  lemma AnotherLastLosesTheAnswer(
    env: Env, t: Table, t': Table, idp: string, ctx: Context, scope: Scope, a: RowKey, b: RowKey)
    requires Given(ctx.client) && Plain(env, scope)
    requires ComesLast(t, idp, ctx, b) && ComesLast(t', idp, ctx, a) && a.site != b.site
    ensures LosesAnswer(env, t, t', idp, ctx)
  {
    var ks := SomeListing(t, idp);
    var o := ResolveRecords(env, t, ks, idp, ctx);
    LastRecordIsGranted(env, t, idp, ctx, scope, ks, b);
    ReadIsCurrent(env, t, idp, ctx, ks);
    forall ks' | Listing(t', idp, ks') ensures !SameOutcome(ResolveRecords(env, t', ks', idp, ctx), o) {
      LastRecordIsGranted(env, t', idp, ctx, scope, ks', a);
    }
  }

  // ---- When the sync loses an answer ----

  /** The row that comes last after the sync, later than all others, is one it has added. */
  lemma SyncedComesLast(t: Table, op: Op, ctx: Context, ks: seq<RowKey>)
    requires op.SyncUser? && Allowed(t, op) && Proper(op.person, ctx) && ctx.client.Some? && SyncOutdates(t, op, ctx)
    requires Holds(t, op.person) && forall k :: k in t && k.person == op.person ==> t[k].createdOn < op.now
    requires Listing(Apply(t, op), op.person, ks)
    ensures var rs := Considered(Apply(t, op), ks, ctx); rs != [] && rs[|rs| - 1] !in t
  {
    var t' := Apply(t, op);
    var m := MissingRow(t, op);
    var rs := Considered(t', ks, ctx);
    FilterSorted(t', ks, Asked(ctx));
    assert m in ks && m in rs;
    var i :| 0 <= i < |rs| && rs[i] == m;
    var last := rs[|rs| - 1];
    assert last in rs && last in ks && (i < |rs| - 1 ==> Before(t', m, last));
    NotBeforeOlder(t, op, m, last);
  }

  /** A row the sync adds does not come before one that was there. */
  lemma NotBeforeOlder(t: Table, op: Op, m: RowKey, x: RowKey)
    requires op.SyncUser? && Allowed(t, op) && Holds(t, op.person)
    requires forall k :: k in t && k.person == op.person ==> t[k].createdOn < op.now
    requires m in Apply(t, op) && m !in t && x.person == op.person
    ensures x in t ==> !Before(Apply(t, op), m, x)
  {
    SyncedAt(t, op, m);
    SyncedAt(t, op, x);
  }

  lemma SyncedGrantDiffers(env: Env, scope: Scope, t: Table, op: Op, ctx: Context, ks: seq<RowKey>)
    requires op.SyncUser? && Allowed(t, op) && Proper(op.person, ctx) && ctx.client.Some? && SyncOutdates(t, op, ctx)
    requires Plain(env, scope) && Listing(t, op.person, ks) && Considered(t, ks, ctx) != []
    requires forall k :: k in t && k.person == op.person ==> t[k].createdOn < op.now
    ensures !CanResolve(env, Apply(t, op), op.person, ctx, ResolveRecords(env, t, ks, op.person, ctx))
  {
    var t', rs := Apply(t, op), Considered(t, ks, ctx);
    PlainGrant(env, scope, rs);
    var z := rs[|rs| - 1];
    assert z in rs && z in ks && z in t;
    forall ks' | Listing(t', op.person, ks')
      ensures !SameOutcome(ResolveRecords(env, t', ks', op.person, ctx), ResolveRecords(env, t, ks, op.person, ctx))
    {
      SyncedGrantIsNew(env, scope, t, op, ctx, ks', z);
    }
  }

  lemma SyncedGrantIsNew(env: Env, scope: Scope, t: Table, op: Op, ctx: Context, ks: seq<RowKey>, z: RowKey)
    requires op.SyncUser? && Allowed(t, op) && Proper(op.person, ctx) && ctx.client.Some? && SyncOutdates(t, op, ctx)
    requires Plain(env, scope) && Listing(Apply(t, op), op.person, ks) && z in t && z.person == op.person
    requires forall k :: k in t && k.person == op.person ==> t[k].createdOn < op.now
    ensures var o := ResolveRecords(env, Apply(t, op), ks, op.person, ctx);
      o.Granted? && (o.grant.clientId, o.grant.siteId, o.grant.roleId) != (z.client, z.site, z.role)
  {
    SyncedComesLast(t, op, ctx, ks);
    var rs := Considered(Apply(t, op), ks, ctx);
    PlainGrant(env, scope, rs);
    var x := rs[|rs| - 1];
    assert x in rs && x in ks;
  }

  lemma SyncedEndsDenial(env: Env, scope: Scope, t: Table, op: Op, ctx: Context, ks: seq<RowKey>)
    requires op.SyncUser? && Allowed(t, op) && Proper(op.person, ctx) && ctx.client.Some? && SyncOutdates(t, op, ctx)
    requires Plain(env, scope) && !env.bootstrapAdmin(op.person)
    requires Listing(t, op.person, ks) && Considered(t, ks, ctx) == []
    ensures !CanResolve(env, Apply(t, op), op.person, ctx, ResolveRecords(env, t, ks, op.person, ctx))
  {
    var t' := Apply(t, op);
    var m := MissingRow(t, op);
    assert ResolveRecords(env, t, ks, op.person, ctx).Denied?;
    forall ks' | Listing(t', op.person, ks')
      ensures !SameOutcome(ResolveRecords(env, t', ks', op.person, ctx), ResolveRecords(env, t, ks, op.person, ctx))
    {
      assert m in Considered(t', ks', ctx);
      PlainGrant(env, scope, Considered(t', ks', ctx));
    }
  }

  ghost predicate LosesAnswer(env: Env, t: Table, t': Table, idp: string, ctx: Context) {
    exists o :: CanResolve(env, t, idp, ctx, o) && !CanResolve(env, t', idp, ctx, o)
  }

  lemma KeptLosesNoAnswer(env: Env, t: Table, t': Table, idp: string, ctx: Context)
    requires Keeps(t, t', idp, ctx)
    ensures !LosesAnswer(env, t, t', idp, ctx)
  {
    forall o | CanResolve(env, t, idp, ctx, o) ensures CanResolve(env, t', idp, ctx, o) {
      KeptRecordsKeepOutcomes(env, t, t', idp, ctx, o);
    }
  }

  lemma SomePlainEnv() returns (env: Env)
    ensures Plain(env, GLOBAL) && forall p :: !env.bootstrapAdmin(p)
  {
    env := Env(r => RoleInfo(GLOBAL, []), c => true, c => true, p => false, []);
  }

  lemma SyncLosesAnswer(env: Env, scope: Scope, t: Table, op: Op, ctx: Context)
    requires op.SyncUser? && Allowed(t, op) && SyncOutdates(t, op, ctx)
    requires Proper(op.person, ctx) && IntentOf(ctx) == User
    requires Plain(env, scope) && !env.bootstrapAdmin(op.person)
    requires forall k :: k in t && k.person == op.person ==> t[k].createdOn < op.now
    ensures LosesAnswer(env, t, Apply(t, op), op.person, ctx)
  {
    if ctx.client.None? {
      var m := MissingRow(t, op);
      assert !Holds(t, op.person);
      StrangerHasNone(env, t, op.person, ctx);
      HolderHasAccess(env, Apply(t, op), op.person, ctx);
    } else {
      var ks := SomeListing(t, op.person);
      ReadIsCurrent(env, t, op.person, ctx, ks);
      if Considered(t, ks, ctx) == [] {
        SyncedEndsDenial(env, scope, t, op, ctx, ks);
      } else {
        SyncedGrantDiffers(env, scope, t, op, ctx, ks);
      }
    }
  }

  /**
   With a clock later than all rows of the person, the sync makes some answer to a request wrong, for some
   roles, clients and sites, exactly when it outdates the request.
   */
  lemma SyncLosesAnswerIff(t: Table, op: Op, idp: string, ctx: Context)
    requires op.SyncUser? && Allowed(t, op) && Proper(idp, ctx) && IntentOf(ctx) == User
    requires forall k :: k in t && k.person == op.person ==> t[k].createdOn < op.now
    ensures (exists env :: LosesAnswer(env, t, Apply(t, op), idp, ctx))
      <==> op.person == idp && SyncOutdates(t, op, ctx)
  {
    SyncKeepsIff(t, op, idp, ctx);
    if op.person == idp && SyncOutdates(t, op, ctx) {
      var env := SomePlainEnv();
      SyncLosesAnswer(env, GLOBAL, t, op, ctx);
    } else {
      forall env ensures !LosesAnswer(env, t, Apply(t, op), idp, ctx) {
        KeptLosesNoAnswer(env, t, Apply(t, op), idp, ctx);
      }
    }
  }

  // ---- A promotion that moves the grant ----

  /** Four rows of a person: the primary one, and three at another client, the middle one at a site of its own. */
  ghost predicate Quartet(home: RowKey, b1: RowKey, a: RowKey, b2: RowKey) {
    && home.person == b1.person == a.person == b2.person && home.client != b1.client
    && b1.client == a.client == b2.client && b1.site == b2.site != a.site && b1.role != b2.role
  }

  function QuartetRows(home: RowKey, b1: RowKey, a: RowKey, b2: RowKey): Table {
    map[home := Row(true, 0), b1 := Row(false, 1), a := Row(false, 2), b2 := Row(false, 3)]
  }

  /** A row added away from the primary place is not primary. */
  lemma AddElsewhere(ops: seq<Op>, t: Table, home: RowKey, k: RowKey, now: int)
    requires AccessRows.Legal(ops) && AccessRows.After(ops) == t
    requires IsPrimary(t, home) && home.person == k.person && !SamePlace(home, k) && k !in t
    ensures var ops' := ops + [UsersAddRole(k, Some(home), now)];
      AccessRows.Legal(ops') && AccessRows.After(ops') == t[k := Row(false, now)]
  {
    assert (ops + [UsersAddRole(k, Some(home), now)])[..|ops|] == ops;
  }

  /** The four rows come about by four roles added in turn. */
  lemma QuartetIsReachable(home: RowKey, b1: RowKey, a: RowKey, b2: RowKey)
    requires Quartet(home, b1, a, b2)
    ensures exists ops :: AccessRows.Legal(ops) && AccessRows.After(ops) == QuartetRows(home, b1, a, b2)
  {
    var ops := [UsersAddRole(home, None, 0)];
    assert ops[..0] == [] && AccessRows.Legal(ops);
    var t: Table := map[home := Row(true, 0)];
    assert AccessRows.After(ops) == t;
    AddElsewhere(ops, t, home, b1, 1);
    ops, t := ops + [UsersAddRole(b1, Some(home), 1)], t[b1 := Row(false, 1)];
    AddElsewhere(ops, t, home, a, 2);
    ops, t := ops + [UsersAddRole(a, Some(home), 2)], t[a := Row(false, 2)];
    AddElsewhere(ops, t, home, b2, 3);
    ops, t := ops + [UsersAddRole(b2, Some(home), 3)], t[b2 := Row(false, 3)];
    assert t == QuartetRows(home, b1, a, b2);
  }

  lemma PromoteQuartet(t: Table, home: RowKey, b1: RowKey, a: RowKey, b2: RowKey)
    requires Quartet(home, b1, a, b2) && t == QuartetRows(home, b1, a, b2)
    ensures var op := UsersRemoveRole(home, Some(b1));
      && Allowed(t, op) && Apply(t, op) == map[b1 := Row(true, 1), a := Row(false, 2), b2 := Row(true, 3)]
  {
    var op := UsersRemoveRole(home, Some(b1));
    assert t - {home} == map[b1 := Row(false, 1), a := Row(false, 2), b2 := Row(false, 3)];
    assert Allowed(t, op);
  }

  lemma LastOfQuartet(t: Table, home: RowKey, b1: RowKey, a: RowKey, b2: RowKey, ctx: Context)
    requires Quartet(home, b1, a, b2) && Given(ctx.client) && ctx == Context(Some(a.client), None, None)
    requires Allowed(t, UsersRemoveRole(home, Some(b1))) && t == QuartetRows(home, b1, a, b2)
    ensures ComesLast(t, home.person, ctx, b2)
    ensures ComesLast(Apply(t, UsersRemoveRole(home, Some(b1))), home.person, ctx, a)
  {
    PromoteQuartet(t, home, b1, a, b2);
  }

  /**
   A role is removed at one client and the oldest place, at another, is promoted: the cached grant for that
   client was for the promoted site and is now for another, and its key is not deleted.
   */
  lemma PromotionMovesTheGrant(env: Env, scope: Scope, home: RowKey, b1: RowKey, a: RowKey, b2: RowKey)
    requires Quartet(home, b1, a, b2) && Plain(env, scope)
    requires '|' !in home.person && ProperId(Some(home.client)) && ProperId(Some(a.client))
    ensures var t := QuartetRows(home, b1, a, b2);
      var op, ctx := UsersRemoveRole(home, Some(b1)), Context(Some(a.client), None, None);
      && (exists ops :: AccessRows.Legal(ops) && AccessRows.After(ops) == t)
      && Allowed(t, op) && CacheKey(home.person, ctx) !in ClearedBy(t, op)
      && LosesAnswer(env, t, Apply(t, op), home.person, ctx)
  {
    var t := QuartetRows(home, b1, a, b2);
    var op, ctx := UsersRemoveRole(home, Some(b1)), Context(Some(a.client), None, None);
    QuartetIsReachable(home, b1, a, b2);
    PromoteQuartet(t, home, b1, a, b2);
    LastOfQuartet(t, home, b1, a, b2, ctx);
    OtherClientsKeyIsKept(home, ctx);
    AnotherLastLosesTheAnswer(env, t, Apply(t, op), home.person, ctx, scope, a, b2);
  }

  /** The keys deleted for a row are those of its own client, or of none. */
  lemma OtherClientsKeyIsKept(k: RowKey, ctx: Context)
    requires Proper(k.person, ctx) && ctx.client.Some? && ctx.client.value != k.client && ProperId(Some(k.client))
    ensures CacheKey(k.person, ctx) !in ClearedFor(k)
  {
    var contexts := ClearContexts(k.client, SitesToClear(Some(k.site), []));
    InFlatMap(contexts, c => IntentKeys(k.person, c), CacheKey(k.person, ctx));
    forall i | 0 <= i < |contexts| ensures CacheKey(k.person, ctx) !in IntentKeys(k.person, contexts[i]) {
      assert contexts[i].client == None || contexts[i].client == Some(k.client);
      OtherClientOtherKeys(k.person, ctx, contexts[i]);
    }
  }
}
