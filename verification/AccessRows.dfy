/**
 The PersonClientAccess table and its `isPrimary` flag, written by invitation accepts, the users
 and members services and the Keycloak sync. Each operation is one atomic step. Where a query has
 no order, or an order with ties, the row it picks is a parameter restricted to what the query may
 return.
 */
module AccessRows {
  import opened Prelude

  /** The unique tuple that identifies a row. */
  datatype RowKey = RowKey(person: string, client: string, site: string, role: string)

  datatype Row = Row(isPrimary: bool, createdOn: int)

  type Table = map<RowKey, Row>

  /** Which clients' rows a query can see: all of them (RLS bypassed) or those of one client. */
  datatype Sight = All | Only(client: string)

  predicate Sees(sight: Sight, k: RowKey) { sight.All? || k.client == sight.client }

  predicate IsPrimary(t: Table, k: RowKey) { k in t && t[k].isPrimary }

  predicate Holds(t: Table, person: string) { exists k :: k in t && k.person == person }

  predicate HasPrimary(t: Table, person: string, sight: Sight) {
    exists k :: k in t && t[k].isPrimary && k.person == person && Sees(sight, k)
  }

  predicate SamePlace(a: RowKey, b: RowKey) { a.client == b.client && a.site == b.site }

  // ---- Query results ----

  /** `r` is a row findFirst may return for the person's primary rows, without any order. */
  ghost predicate FirstPrimary(t: Table, person: string, r: Option<RowKey>) {
    if r.Some? then IsPrimary(t, r.value) && r.value.person == person else !HasPrimary(t, person, All)
  }

  /** `r` is a row of the person that was created no later than any other visible one. */
  ghost predicate Oldest(t: Table, person: string, sight: Sight, r: Option<RowKey>) {
    if r.Some? then
      && r.value in t && r.value.person == person && Sees(sight, r.value)
      && forall k :: k in t && k.person == person && Sees(sight, k) ==> t[r.value].createdOn <= t[k].createdOn
    else
      forall k :: k in t && k.person == person ==> !Sees(sight, k)
  }

  // ---- Writes ----

  function Upsert(t: Table, k: RowKey, isPrimary: bool, now: int): Table {
    t[k := if k in t then t[k].(isPrimary := isPrimary) else Row(isPrimary, now)]
  }

  datatype Write = Write(key: RowKey, isPrimary: bool)

  function UpsertAll(t: Table, ws: seq<Write>, now: int): Table {
    if ws == [] then t
    else Upsert(UpsertAll(t, ws[..|ws| - 1], now), ws[|ws| - 1].key, ws[|ws| - 1].isPrimary, now)
  }

  /** Create the rows that do not exist yet and leave the others alone. */
  function CreateMissing(t: Table, ks: seq<RowKey>, isPrimary: bool, now: int): Table {
    if ks == [] then t
    else
      var before := CreateMissing(t, ks[..|ks| - 1], isPrimary, now);
      if ks[|ks| - 1] in before then before else before[ks[|ks| - 1] := Row(isPrimary, now)]
  }

  /** Make all rows of the person at one client and site primary. */
  function Promote(t: Table, place: RowKey): Table {
    map k | k in t :: if k.person == place.person && SamePlace(k, place) then t[k].(isPrimary := true) else t[k]
  }

  /** May this row be primary, given the primary row found? */
  predicate MayBePrimary(first: Option<RowKey>, k: RowKey) { first.None? || SamePlace(first.value, k) }

  /** The writes of an accept: only the clicked offer is a candidate for primary. */
  function AcceptWrites(keys: seq<RowKey>, clicked: nat, first: Option<RowKey>): (ws: seq<Write>)
    ensures |ws| == |keys|
    ensures forall i :: 0 <= i < |ws| ==> ws[i] == Write(keys[i], i == clicked && MayBePrimary(first, keys[i]))
  {
    seq(|keys|, i requires 0 <= i < |keys| => Write(keys[i], i == clicked && MayBePrimary(first, keys[i])))
  }

  function AcceptRows(t: Table, keys: seq<RowKey>, clicked: nat, first: Option<RowKey>, now: int): Table {
    UpsertAll(t, AcceptWrites(keys, clicked, first), now)
  }

  /** Is a primary row lost by this delete, as far as the caller can see? */
  predicate LosesPrimary(t: Table, k: RowKey, sight: Sight)
    requires k in t
  {
    t[k].isPrimary && !HasPrimary(t - {k}, k.person, sight)
  }

  function RemoveRow(t: Table, k: RowKey, sight: Sight, oldest: Option<RowKey>): Table
    requires k in t
  {
    if LosesPrimary(t, k, sight) && oldest.Some? then Promote(t - {k}, oldest.value) else t - {k}
  }

  function WithoutMember(t: Table, person: string, client: string): Table {
    map k | k in t && !(k.person == person && k.client == client) :: t[k]
  }

  function RemoveMember(t: Table, person: string, client: string, sight: Sight, oldest: Option<RowKey>): Table {
    var rest := WithoutMember(t, person, client);
    if HasPrimary(t, person, sight) && oldest.Some? then Promote(rest, oldest.value) else rest
  }

  function RoleKeys(person: string, client: string, site: string, roles: seq<string>): (ks: seq<RowKey>)
    ensures |ks| == |roles|
    ensures forall i :: 0 <= i < |ks| ==> ks[i] == RowKey(person, client, site, roles[i])
  {
    seq(|roles|, i requires 0 <= i < |roles| => RowKey(person, client, site, roles[i]))
  }

  function SyncRows(t: Table, person: string, client: string, site: string, roles: seq<string>, now: int): Table {
    CreateMissing(t, RoleKeys(person, client, site, roles), !Holds(t, person), now)
  }

  // ---- Operations ----

  datatype Op =
    | Accept(keys: seq<RowKey>, clicked: nat, first: Option<RowKey>, now: int)
    | UsersAddRole(key: RowKey, first: Option<RowKey>, now: int)
    | UsersRemoveRole(key: RowKey, oldest: Option<RowKey>)
    | MembersAddRole(key: RowKey, sight: Sight, now: int)
    | MembersRemoveRole(key: RowKey, sight: Sight, oldest: Option<RowKey>)
    | MembersRemove(person: string, client: string, sight: Sight, oldest: Option<RowKey>)
    | SyncUser(person: string, client: string, site: string, roles: seq<string>, now: int)

  function MemberRows(t: Table, person: string, client: string): set<RowKey> {
    set k | k in t && k.person == person && k.client == client
  }

  /** Whom the members service finds: with own-client reads only people who hold a row at the client. */
  predicate SeesPerson(t: Table, sight: Sight, person: string) {
    sight.All? || exists k :: k in t && k.person == person && k.client == sight.client
  }

  /** The operation succeeds, with query results it may have read. */
  ghost predicate Allowed(t: Table, op: Op) {
    match op
    case Accept(keys, clicked, first, _) =>
      && clicked < |keys| && Distinct(keys)
      && (forall i :: 0 <= i < |keys| ==> keys[i].person == keys[clicked].person)
      && FirstPrimary(t, keys[clicked].person, first)
    case UsersAddRole(key, first, _) => FirstPrimary(t, key.person, first)
    case UsersRemoveRole(key, oldest) => key in t && Oldest(t - {key}, key.person, All, oldest)
    case MembersAddRole(key, sight, _) => key !in t && Sees(sight, key) && SeesPerson(t, sight, key.person)
    case MembersRemoveRole(key, sight, oldest) =>
      && key in t && Sees(sight, key) && |MemberRows(t, key.person, key.client)| > 1
      && Oldest(t - {key}, key.person, sight, oldest)
    case MembersRemove(person, client, sight, oldest) =>
      && (sight.Only? ==> sight.client == client) && SeesPerson(t, sight, person)
      && Oldest(WithoutMember(t, person, client), person, sight, oldest)
    case SyncUser(_, _, _, roles, _) => roles != []
  }

  /** The new row takes the primary status of the member's visible rows at the same site. */
  function AddMemberRow(t: Table, key: RowKey, now: int): Table {
    t[key := Row(exists k :: k in t && t[k].isPrimary && k.person == key.person && SamePlace(k, key), now)]
  }

  function Apply(t: Table, op: Op): Table
    requires Allowed(t, op)
  {
    match op
    case Accept(keys, clicked, first, now) => AcceptRows(t, keys, clicked, first, now)
    case UsersAddRole(key, first, now) => Upsert(t, key, MayBePrimary(first, key), now)
    case UsersRemoveRole(key, oldest) => RemoveRow(t, key, All, oldest)
    case MembersAddRole(key, _, now) => AddMemberRow(t, key, now)
    case MembersRemoveRole(key, sight, oldest) => RemoveRow(t, key, sight, oldest)
    case MembersRemove(person, client, sight, oldest) => RemoveMember(t, person, client, sight, oldest)
    case SyncUser(person, client, site, roles, now) => SyncRows(t, person, client, site, roles, now)
  }

  // ---- Effect of the loops of writes ----

  lemma {:induction false} UpsertAllAt(t: Table, ws: seq<Write>, now: int, k: RowKey)
    ensures var r := UpsertAll(t, ws, now);
      && (k in r <==> k in t || exists i :: 0 <= i < |ws| && ws[i].key == k)
      && ((forall i :: 0 <= i < |ws| ==> ws[i].key != k) && k in t ==> r[k] == t[k])
      && (IsPrimary(r, k) ==> IsPrimary(t, k) || exists i :: 0 <= i < |ws| && ws[i] == Write(k, true))
      && (k in t && k in r ==> r[k].createdOn == t[k].createdOn)
  {
    if ws != [] {
      UpsertAllAt(t, ws[..|ws| - 1], now, k);
      assert forall i :: 0 <= i < |ws| - 1 ==> ws[..|ws| - 1][i] == ws[i];
    }
  }

  /** With distinct keys every written row has its own flag. */
  lemma {:induction false} UpsertAllFlag(t: Table, ws: seq<Write>, now: int, i: nat)
    requires i < |ws| && forall a, b :: 0 <= a < b < |ws| ==> ws[a].key != ws[b].key
    ensures var r := UpsertAll(t, ws, now); ws[i].key in r && r[ws[i].key].isPrimary == ws[i].isPrimary
  {
    var n := |ws| - 1;
    if i < n {
      UpsertAllFlag(t, ws[..n], now, i);
    }
  }

  lemma {:induction false} CreateMissingAt(t: Table, ks: seq<RowKey>, isPrimary: bool, now: int, k: RowKey)
    ensures var r := CreateMissing(t, ks, isPrimary, now);
      && (k in r <==> k in t || k in ks)
      && (k in r ==> r[k] == if k in t then t[k] else Row(isPrimary, now))
  {
    if ks != [] {
      CreateMissingAt(t, ks[..|ks| - 1], isPrimary, now, k);
      assert k in ks <==> k in ks[..|ks| - 1] || k == ks[|ks| - 1];
    }
  }

  // ---- What each writer changes ----

  /** All primary rows of the person are at the row's client and site. */
  ghost predicate PrimariesAt(t: Table, key: RowKey) {
    forall y :: IsPrimary(t, y) && y.person == key.person ==> SamePlace(y, key)
  }

  /** Adding a role leaves all other rows alone; the row is primary exactly if no primary row is elsewhere. */
  lemma UsersAddRoleChanges(t: Table, op: Op, x: RowKey)
    requires op.UsersAddRole? && Allowed(t, op) && SinglePlace(t)
    ensures var r := Apply(t, op);
      && (x in r <==> x in t || x == op.key)
      && (x in t && x != op.key ==> r[x] == t[x])
      && r[op.key].createdOn == (if op.key in t then t[op.key].createdOn else op.now)
      && (r[op.key].isPrimary <==> PrimariesAt(t, op.key))
  {
  }

  /** An accept writes the rows of its group; only the clicked one can be primary, if no primary row is elsewhere. */
  lemma AcceptRowsChange(t: Table, op: Op, x: RowKey, i: nat)
    requires op.Accept? && Allowed(t, op) && SinglePlace(t) && i < |op.keys|
    ensures var r := Apply(t, op);
      && (x in r <==> x in t || x in op.keys)
      && (x in t && x !in op.keys ==> r[x] == t[x])
      && op.keys[i] in r
      && r[op.keys[i]].createdOn == (if op.keys[i] in t then t[op.keys[i]].createdOn else op.now)
      && (r[op.keys[i]].isPrimary <==> i == op.clicked && PrimariesAt(t, op.keys[i]))
  {
    var ws := AcceptWrites(op.keys, op.clicked, op.first);
    UpsertAllAt(t, ws, op.now, x);
    UpsertAllAt(t, ws, op.now, op.keys[i]);
    UpsertAllFlag(t, ws, op.now, i);
    assert ws[i].key == op.keys[i];
    if op.keys[i] !in t {
      UpsertAllCreates(t, ws, op.now, op.keys[i]);
    }
    if x in op.keys {
      var j :| 0 <= j < |op.keys| && op.keys[j] == x;
      assert ws[j].key == x;
    }
  }

  lemma {:induction false} UpsertAllCreates(t: Table, ws: seq<Write>, now: int, k: RowKey)
    requires k !in t && k in UpsertAll(t, ws, now)
    ensures UpsertAll(t, ws, now)[k].createdOn == now
  {
    var before := UpsertAll(t, ws[..|ws| - 1], now);
    if k in before {
      UpsertAllCreates(t, ws[..|ws| - 1], now, k);
    }
  }

  /** Which rows a removal of a role can see. */
  function SightOf(op: Op): Sight {
    match op
    case MembersAddRole(_, sight, _) => sight
    case MembersRemoveRole(_, sight, _) => sight
    case MembersRemove(_, _, sight, _) => sight
    case _ => All
  }

  /** The row to remove is primary, and no other visible row of the person is. */
  ghost predicate IsLastPrimary(t: Table, key: RowKey, sight: Sight) {
    && IsPrimary(t, key)
    && forall y :: IsPrimary(t, y) && y.person == key.person && Sees(sight, y) ==> y == key
  }

  /**
   Removing a role deletes its row and no other, and keeps creation times. A flag changes only to true, and exactly
   for the rows at the place of the oldest visible row, when the last visible primary row was removed.
   */
  lemma RemoveRoleChanges(t: Table, op: Op, x: RowKey)
    requires (op.UsersRemoveRole? || op.MembersRemoveRole?) && Allowed(t, op)
    ensures var r := Apply(t, op);
      && r.Keys == t.Keys - {op.key}
      && (x in r ==> r[x].createdOn == t[x].createdOn)
      && (x in r ==> (r[x].isPrimary <==>
            || t[x].isPrimary
            || (IsLastPrimary(t, op.key, SightOf(op)) && op.oldest.Some?
                && x.person == op.key.person && SamePlace(x, op.oldest.value))))
  {
    assert IsLastPrimary(t, op.key, SightOf(op)) <==> LosesPrimary(t, op.key, SightOf(op));
  }

  /** A new member row is primary exactly if the person has a primary row at the same client and site. */
  lemma MembersAddRoleChanges(t: Table, op: Op, x: RowKey)
    requires op.MembersAddRole? && Allowed(t, op)
    ensures var r := Apply(t, op);
      && r.Keys == t.Keys + {op.key} && op.key !in t
      && (x in t ==> r[x] == t[x])
      && r[op.key].createdOn == op.now
      && (r[op.key].isPrimary <==>
            exists y :: IsPrimary(t, y) && y.person == op.key.person && SamePlace(y, op.key))
  {
    if y :| IsPrimary(t, y) && y.person == op.key.person && SamePlace(y, op.key) {
      assert y in t && t[y].isPrimary;
    }
  }

  /**
   Removing a member deletes exactly their rows at the client. A flag changes only to true, and exactly for the rows
   at the place of the oldest visible row left, if a primary row was visible before.
   */
  lemma MembersRemoveChanges(t: Table, op: Op, x: RowKey)
    requires op.MembersRemove? && Allowed(t, op)
    ensures var r := Apply(t, op);
      && (x in r <==> x in t && !(x.person == op.person && x.client == op.client))
      && (x in r ==> r[x].createdOn == t[x].createdOn)
      && (x in r ==> (r[x].isPrimary <==>
            || t[x].isPrimary
            || ((exists y :: IsPrimary(t, y) && y.person == op.person && Sees(op.sight, y)) && op.oldest.Some?
                && x.person == op.person && SamePlace(x, op.oldest.value))))
  {
    assert HasPrimary(t, op.person, op.sight) <==>
      exists y :: IsPrimary(t, y) && y.person == op.person && Sees(op.sight, y);
  }

  /** The sync adds exactly the missing rows, primary exactly for a person who had none, and touches no other. */
  lemma SyncChanges(t: Table, op: Op, x: RowKey)
    requires op.SyncUser? && Allowed(t, op)
    ensures var r := Apply(t, op);
      && (x in r <==> x in t || (x == RowKey(op.person, op.client, op.site, x.role) && x.role in op.roles))
      && (x in t ==> r[x] == t[x])
      && (x in r && x !in t ==> r[x].createdOn == op.now)
      && (x in r && x !in t ==> (r[x].isPrimary <==> forall y :: y in t ==> y.person != op.person))
  {
    var ks := RoleKeys(op.person, op.client, op.site, op.roles);
    CreateMissingAt(t, ks, !Holds(t, op.person), op.now, x);
    if x in ks {
      var i :| 0 <= i < |ks| && ks[i] == x;
      assert op.roles[i] == x.role;
    }
    if x == RowKey(op.person, op.client, op.site, x.role) && x.role in op.roles {
      var i :| 0 <= i < |op.roles| && op.roles[i] == x.role;
      assert ks[i] == x;
    }
  }

  // ---- All primary rows of a person lie at one client and site ----

  ghost predicate SinglePlace(t: Table) {
    forall a, b :: IsPrimary(t, a) && IsPrimary(t, b) && a.person == b.person ==> SamePlace(a, b)
  }

  lemma AcceptPrimaries(t: Table, keys: seq<RowKey>, clicked: nat, first: Option<RowKey>, now: int, k: RowKey)
    requires clicked < |keys| && IsPrimary(AcceptRows(t, keys, clicked, first, now), k)
    ensures IsPrimary(t, k) || (k == keys[clicked] && MayBePrimary(first, k))
  {
    var ws := AcceptWrites(keys, clicked, first);
    UpsertAllAt(t, ws, now, k);
    if !IsPrimary(t, k) {
      var i :| 0 <= i < |ws| && ws[i] == Write(k, true);
    }
  }

  lemma AcceptKeepsSinglePlace(t: Table, op: Op)
    requires op.Accept? && Allowed(t, op) && SinglePlace(t)
    ensures SinglePlace(Apply(t, op))
  {
    var Accept(keys, clicked, first, now) := op;
    var r := Apply(t, op);
    forall a, b | IsPrimary(r, a) && IsPrimary(r, b) && a.person == b.person ensures SamePlace(a, b) {
      AcceptPrimaries(t, keys, clicked, first, now, a);
      AcceptPrimaries(t, keys, clicked, first, now, b);
    }
  }

  lemma RemoveRowKeepsSinglePlace(t: Table, k: RowKey, sight: Sight, oldest: Option<RowKey>)
    requires k in t && Sees(sight, k) && SinglePlace(t) && Oldest(t - {k}, k.person, sight, oldest)
    ensures SinglePlace(RemoveRow(t, k, sight, oldest))
  {
  }

  lemma SyncKeepsSinglePlace(t: Table, op: Op)
    requires op.SyncUser? && Allowed(t, op) && SinglePlace(t)
    ensures SinglePlace(Apply(t, op))
  {
    var ks := RoleKeys(op.person, op.client, op.site, op.roles);
    var r := Apply(t, op);
    forall a, b | IsPrimary(r, a) && IsPrimary(r, b) && a.person == b.person ensures SamePlace(a, b) {
      CreateMissingAt(t, ks, !Holds(t, op.person), op.now, a);
      CreateMissingAt(t, ks, !Holds(t, op.person), op.now, b);
    }
  }

  /** Some visible primary row survives and the row promoted next to it is elsewhere. */
  ghost predicate PromotesElsewhere(t: Table, op: Op)
    requires op.MembersRemove?
  {
    && op.oldest.Some?
    && exists k :: IsPrimary(t, k) && k.person == op.person && k.client != op.client && Sees(op.sight, k)
                   && !SamePlace(k, op.oldest.value)
  }

  /** Removing a member keeps the invariant exactly when it does not promote a second place. */
  lemma RemoveMemberKeepsSinglePlaceIff(t: Table, op: Op)
    requires op.MembersRemove? && Allowed(t, op) && SinglePlace(t)
    ensures SinglePlace(Apply(t, op)) <==> !PromotesElsewhere(t, op)
    ensures op.sight.Only? ==> SinglePlace(Apply(t, op)) && op.oldest.None?
  {
  }

  /**
   With every client's rows visible, removing a member can leave two primary places: removing `b` promotes
   `c`, the oldest row left, beside the primary row `a`.
   */
  lemma SightBeyondOwnClientBreaksSinglePlace(a: RowKey, b: RowKey, c: RowKey)
    requires a.person == b.person == c.person && a.client != b.client && a.client != c.client && b.client != c.client
    ensures var t: Table := map[a := Row(true, 2), b := Row(false, 3), c := Row(false, 1)];
      var op := MembersRemove(a.person, b.client, All, Some(c));
      Allowed(t, op) && SinglePlace(t) && !SinglePlace(Apply(t, op))
  {
    var t: Table := map[a := Row(true, 2), b := Row(false, 3), c := Row(false, 1)];
    var op := MembersRemove(a.person, b.client, All, Some(c));
    assert IsPrimary(t, a);
    RemoveMemberKeepsSinglePlaceIff(t, op);
  }

  lemma AddsKeepSinglePlace(t: Table, op: Op)
    requires (op.UsersAddRole? || op.MembersAddRole?) && Allowed(t, op) && SinglePlace(t)
    ensures SinglePlace(Apply(t, op))
  {
  }

  lemma StepKeepsSinglePlace(t: Table, op: Op)
    requires Allowed(t, op) && SinglePlace(t)
    requires op.MembersRemove? ==> op.sight.Only?
    ensures SinglePlace(Apply(t, op))
  {
    match op
    case Accept(_, _, _, _) => AcceptKeepsSinglePlace(t, op);
    case UsersAddRole(_, _, _) => AddsKeepSinglePlace(t, op);
    case UsersRemoveRole(key, oldest) => RemoveRowKeepsSinglePlace(t, key, All, oldest);
    case MembersAddRole(_, _, _) => AddsKeepSinglePlace(t, op);
    case MembersRemoveRole(key, sight, oldest) => RemoveRowKeepsSinglePlace(t, key, sight, oldest);
    case MembersRemove(_, _, _, _) => RemoveMemberKeepsSinglePlaceIff(t, op);
    case SyncUser(_, _, _, _, _) => SyncKeepsSinglePlace(t, op);
  }

  // ---- A person with rows has a primary one ----

  ghost predicate Anchored(t: Table, person: string) { Holds(t, person) ==> HasPrimary(t, person, All) }

  function PersonOf(op: Op): string {
    match op
    case Accept(keys, clicked, _, _) => if clicked < |keys| then keys[clicked].person else ""
    case UsersAddRole(key, _, _) => key.person
    case UsersRemoveRole(key, _) => key.person
    case MembersAddRole(key, _, _) => key.person
    case MembersRemoveRole(key, _, _) => key.person
    case MembersRemove(person, _, _, _) => person
    case SyncUser(person, _, _, _, _) => person
  }

  /** An operation touches the rows of one person only. */
  lemma OthersUntouched(t: Table, op: Op, k: RowKey)
    requires Allowed(t, op) && k.person != PersonOf(op)
    ensures var r := Apply(t, op); (k in r <==> k in t) && (k in t ==> r[k] == t[k])
  {
    match op
    case Accept(keys, clicked, first, now) => UpsertAllAt(t, AcceptWrites(keys, clicked, first), now, k);
    case SyncUser(person, client, site, roles, now) =>
      CreateMissingAt(t, RoleKeys(person, client, site, roles), !Holds(t, person), now, k);
    case _ =>
  }

  lemma OthersStayAnchored(t: Table, op: Op, person: string)
    requires Allowed(t, op) && person != PersonOf(op) && Anchored(t, person)
    ensures Anchored(Apply(t, op), person)
  {
    var r := Apply(t, op);
    forall k: RowKey | k.person == person ensures (k in r <==> k in t) && (k in t ==> r[k] == t[k]) {
      OthersUntouched(t, op, k);
    }
    if Holds(r, person) {
      var k :| k in r && k.person == person;
      assert k in t;
      var w :| w in t && t[w].isPrimary && w.person == person && Sees(All, w);
      assert w in r && r[w].isPrimary;
    }
  }

  /**
   After an accept the person has a primary row exactly when the clicked offer could take it or
   some primary row is not offered again.
   */
  lemma AcceptLeavesPrimaryIff(t: Table, op: Op)
    requires op.Accept? && Allowed(t, op) && SinglePlace(t)
    ensures HasPrimary(Apply(t, op), PersonOf(op), All) <==>
      || MayBePrimary(op.first, op.keys[op.clicked])
      || exists k :: IsPrimary(t, k) && k.person == PersonOf(op) && k !in op.keys
  {
    var Accept(keys, clicked, first, now) := op;
    var ws := AcceptWrites(keys, clicked, first);
    var r := Apply(t, op);
    var person := PersonOf(op);
    assert forall a, b :: 0 <= a < b < |ws| ==> ws[a].key != ws[b].key;
    UpsertAllFlag(t, ws, now, clicked);
    if MayBePrimary(first, keys[clicked]) {
      assert keys[clicked] in r && r[keys[clicked]].isPrimary;
    } else if k :| IsPrimary(t, k) && k.person == person && k !in keys {
      UpsertAllAt(t, ws, now, k);
      assert k in r && r[k].isPrimary && Sees(All, k);
    } else {
      forall k | k in r && k.person == person ensures !r[k].isPrimary {
        UpsertAllAt(t, ws, now, k);
        if k in keys {
          var i :| 0 <= i < |keys| && keys[i] == k;
          UpsertAllFlag(t, ws, now, i);
        }
      }
    }
  }

  /** Removing a row and promoting the oldest visible one leaves no one without a primary row. */
  lemma RemoveRowStaysAnchored(t: Table, k: RowKey, sight: Sight, oldest: Option<RowKey>)
    requires k in t && Sees(sight, k) && SinglePlace(t) && Oldest(t - {k}, k.person, sight, oldest)
    requires Anchored(t, k.person)
    requires sight.Only? ==> exists x :: x in t - {k} && x.person == k.person && Sees(sight, x)
    ensures Anchored(RemoveRow(t, k, sight, oldest), k.person)
  {
  }

  lemma AnotherMemberRow(t: Table, k: RowKey) returns (x: RowKey)
    requires k in t && |MemberRows(t, k.person, k.client)| > 1
    ensures x in t - {k} && x.person == k.person && x.client == k.client
  {
    var rows := MemberRows(t, k.person, k.client);
    assert rows == {k} + (rows - {k});
    x :| x in rows && x != k;
  }

  lemma SyncStaysAnchored(t: Table, op: Op)
    requires op.SyncUser? && Allowed(t, op) && Anchored(t, op.person)
    ensures Anchored(Apply(t, op), op.person)
  {
    var ks := RoleKeys(op.person, op.client, op.site, op.roles);
    var r := Apply(t, op);
    if Holds(t, op.person) {
      var w :| w in t && t[w].isPrimary && w.person == op.person && Sees(All, w);
      CreateMissingAt(t, ks, false, op.now, w);
      assert w in r && r[w].isPrimary;
    } else {
      assert ks[0] in ks;
      CreateMissingAt(t, ks, true, op.now, ks[0]);
      assert ks[0] in r && r[ks[0]].isPrimary && ks[0].person == op.person && Sees(All, ks[0]);
    }
  }

  /**
   Adding a member role never creates the first primary row, so it leaves a person without one exactly when
   the caller sees beyond the own client and the person held no row.
   */
  lemma MembersAddRolePrimaryIff(t: Table, op: Op)
    requires op.MembersAddRole? && Allowed(t, op) && SinglePlace(t)
    ensures HasPrimary(Apply(t, op), op.key.person, All) <==> HasPrimary(t, op.key.person, All)
    ensures Anchored(t, op.key.person) ==>
      (Anchored(Apply(t, op), op.key.person) <==> op.sight.Only? || Holds(t, op.key.person))
  {
  }

  /**
   Removing a member leaves the person without a primary row exactly when only the caller's client is
   visible, the primary place was at that client and rows at another client remain.
   */
  lemma RemoveMemberAnchoredIff(t: Table, op: Op)
    requires op.MembersRemove? && Allowed(t, op) && SinglePlace(t) && Anchored(t, op.person)
    ensures Anchored(Apply(t, op), op.person) <==>
      !(op.sight.Only?
        && (exists k :: IsPrimary(t, k) && k.person == op.person && k.client == op.client)
        && (exists k :: k in t && k.person == op.person && k.client != op.client))
  {
    var r := Apply(t, op);
    if op.sight.All? && Holds(r, op.person) {
      var x :| x in r && x.person == op.person;
      assert x in t && op.oldest.Some? && HasPrimary(t, op.person, All);
      assert op.oldest.value in r && r[op.oldest.value].isPrimary && Sees(All, op.oldest.value);
    }
  }

  /** The hypotheses under which no one loses the last primary row. */
  ghost predicate Careful(t: Table, op: Op) {
    match op
    case MembersRemove(_, _, _, _) => false
    case MembersAddRole(key, sight, _) => sight.Only? || Holds(t, key.person)
    case Accept(keys, clicked, _, _) =>
      forall i :: 0 <= i < |keys| && i != clicked ==> !IsPrimary(t, keys[i])
    case _ => true
  }

  lemma StepKeepsAnchored(t: Table, op: Op, person: string)
    requires Allowed(t, op) && Careful(t, op) && SinglePlace(t) && Anchored(t, person)
    ensures Anchored(Apply(t, op), person)
  {
    if person != PersonOf(op) {
      OthersStayAnchored(t, op, person);
    } else {
      match op
      case Accept(keys, clicked, first, _) =>
        AcceptLeavesPrimaryIff(t, op);
        if !MayBePrimary(first, keys[clicked]) {
          assert IsPrimary(t, first.value) && first.value !in keys;
        }
      case UsersAddRole(key, first, _) =>
        var r := Apply(t, op);
        var w := if MayBePrimary(first, key) then key else first.value;
        assert w in r && r[w].isPrimary && w.person == person && Sees(All, w);
      case UsersRemoveRole(key, oldest) => RemoveRowStaysAnchored(t, key, All, oldest);
      case MembersAddRole(_, _, _) => MembersAddRolePrimaryIff(t, op);
      case MembersRemoveRole(key, sight, oldest) =>
        var x := AnotherMemberRow(t, key);
        assert Sees(sight, x);
        RemoveRowStaysAnchored(t, key, sight, oldest);
      case SyncUser(_, _, _, _, _) => SyncStaysAnchored(t, op);
    }
  }

  // ---- Runs from an empty table ----

  ghost predicate Legal(ops: seq<Op>)
    decreases |ops|, 0
  {
    ops == [] || (Legal(ops[..|ops| - 1]) && Allowed(After(ops[..|ops| - 1]), ops[|ops| - 1]))
  }

  ghost function After(ops: seq<Op>): Table
    requires Legal(ops)
    decreases |ops|, 1
  {
    if ops == [] then map[] else Apply(After(ops[..|ops| - 1]), ops[|ops| - 1])
  }

  /** Over every run, when members.remove reads only its own client's rows, a person's primary rows lie at one place. */
  lemma {:induction false} RunsKeepSinglePlace(ops: seq<Op>)
    requires Legal(ops) && forall op :: op in ops && op.MembersRemove? ==> op.sight.Only?
    ensures SinglePlace(After(ops))
  {
    if ops != [] {
      RunsKeepSinglePlace(ops[..|ops| - 1]);
      StepKeepsSinglePlace(After(ops[..|ops| - 1]), ops[|ops| - 1]);
    }
  }

  ghost predicate CarefulRun(ops: seq<Op>)
    requires Legal(ops)
  {
    ops == [] || (CarefulRun(ops[..|ops| - 1]) && Careful(After(ops[..|ops| - 1]), ops[|ops| - 1]))
  }

  /** Over every careful run, a person who holds a row holds a primary one. */
  lemma {:induction false} CarefulRunsKeepAPrimary(ops: seq<Op>, person: string)
    requires Legal(ops) && CarefulRun(ops)
    ensures SinglePlace(After(ops)) && Anchored(After(ops), person)
  {
    if ops != [] {
      var before := ops[..|ops| - 1];
      CarefulRunsKeepAPrimary(before, person);
      StepKeepsSinglePlace(After(before), ops[|ops| - 1]);
      StepKeepsAnchored(After(before), ops[|ops| - 1], person);
    }
  }
}
