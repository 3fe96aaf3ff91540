/** The text key under which a resolved grant is cached, and the keys a writer deletes. */
module GrantCacheKeys {
  import opened Prelude

  datatype Intent = System | Elevated | User

  datatype Context = Context(client: Option<string>, site: Option<string>, intent: Option<Intent>)

  const INTENT_VARIANTS: seq<Intent> := [System, Elevated, User]

  function IntentOf(ctx: Context): Intent { if ctx.intent.Some? then ctx.intent.value else User }

  function IntentText(intent: Intent): string {
    match intent
    case System => "system"
    case Elevated => "elevated"
    case User => "user"
  }

  function OrDefault(id: Option<string>): string { if id.Some? then id.value else "default" }

  function UserPart(idp: string): string { "access-grant:idpId:" + idp }
  function ClientPart(ctx: Context): string { "client:" + OrDefault(ctx.client) }
  function SitePart(ctx: Context): string { "site:" + OrDefault(ctx.site) }
  function IntentPart(ctx: Context): string { "intent:" + IntentText(IntentOf(ctx)) }

  /** The four parts, separated by bars. */
  function CacheKey(idp: string, ctx: Context): string {
    UserPart(idp) + "|" + (ClientPart(ctx) + "|" + (SitePart(ctx) + "|" + IntentPart(ctx)))
  }

  predicate BarFree(idp: string, ctx: Context) {
    '|' !in idp && '|' !in OrDefault(ctx.client) && '|' !in OrDefault(ctx.site)
  }

  lemma CancelPrefix(p: string, a: string, b: string)
    requires p + a == p + b
    ensures a == b
  {
    assert a == (p + a)[|p|..] && b == (p + b)[|p|..];
  }

  /**
   Keys built from ids without a bar agree exactly when user, client, site and intent agree once
   missing ids are replaced by the word "default".
   */
  lemma KeysAgreeIff(idp: string, a: Context, idp': string, b: Context)
    requires BarFree(idp, a) && BarFree(idp', b)
    ensures CacheKey(idp, a) == CacheKey(idp', b) <==>
      idp == idp' && OrDefault(a.client) == OrDefault(b.client) && OrDefault(a.site) == OrDefault(b.site)
      && IntentOf(a) == IntentOf(b)
  {
    if CacheKey(idp, a) == CacheKey(idp', b) {
      SplitAtBar(UserPart(idp), ClientPart(a) + "|" + (SitePart(a) + "|" + IntentPart(a)),
                 UserPart(idp'), ClientPart(b) + "|" + (SitePart(b) + "|" + IntentPart(b)));
      CancelPrefix("access-grant:idpId:", idp, idp');
      SplitAtBar(ClientPart(a), SitePart(a) + "|" + IntentPart(a), ClientPart(b), SitePart(b) + "|" + IntentPart(b));
      CancelPrefix("client:", OrDefault(a.client), OrDefault(b.client));
      SplitAtBar(SitePart(a), IntentPart(a), SitePart(b), IntentPart(b));
      CancelPrefix("site:", OrDefault(a.site), OrDefault(b.site));
      CancelPrefix("intent:", IntentText(IntentOf(a)), IntentText(IntentOf(b)));
    }
  }

  /** The client of a request is read off its key whatever the site is. */
  lemma DifferentClientDifferentKey(idp: string, a: Context, b: Context)
    requires '|' !in idp && '|' !in OrDefault(a.client) && '|' !in OrDefault(b.client)
    requires OrDefault(a.client) != OrDefault(b.client)
    ensures CacheKey(idp, a) != CacheKey(idp, b)
  {
    if CacheKey(idp, a) == CacheKey(idp, b) {
      SplitAtBar(UserPart(idp), ClientPart(a) + "|" + (SitePart(a) + "|" + IntentPart(a)),
                 UserPart(idp), ClientPart(b) + "|" + (SitePart(b) + "|" + IntentPart(b)));
      SplitAtBar(ClientPart(a), SitePart(a) + "|" + IntentPart(a), ClientPart(b), SitePart(b) + "|" + IntentPart(b));
      CancelPrefix("client:", OrDefault(a.client), OrDefault(b.client));
    }
  }

  predicate ProperId(id: Option<string>) {
    id.Some? ==> id.value != "" && id.value != "default" && '|' !in id.value
  }

  /** Nonempty ids that are not the word "default" and have no bar, and a site only with a client. */
  predicate Proper(idp: string, ctx: Context) {
    && '|' !in idp && ProperId(ctx.client) && ProperId(ctx.site)
    && (ctx.site.Some? ==> ctx.client.Some?)
  }

  /** On proper contexts the key is injective, up to a missing intent meaning 'user'. */
  lemma KeyIsInjective(idp: string, a: Context, idp': string, b: Context)
    requires Proper(idp, a) && Proper(idp', b) && CacheKey(idp, a) == CacheKey(idp', b)
    ensures idp == idp' && a.client == b.client && a.site == b.site && IntentOf(a) == IntentOf(b)
  {
    KeysAgreeIff(idp, a, idp', b);
  }

  /** Which is why the word must be excluded: a client called "default" shares its key with naming no client. */
  lemma DefaultClientCollides(idp: string)
    ensures CacheKey(idp, Context(Some("default"), None, None)) == CacheKey(idp, Context(None, None, None))
  {
  }

  // ---- The keys deleted after a write at a client and sites ----

  function ClearContexts(client: string, sites: seq<string>): seq<Context> {
    [Context(None, None, None), Context(Some(client), None, None)]
    + seq(|sites|, i requires 0 <= i < |sites| => Context(Some(client), Some(sites[i]), None))
  }

  /** The keys of a context under all intents. */
  function IntentKeys(idp: string, ctx: Context): (keys: seq<string>)
    ensures |keys| == |INTENT_VARIANTS|
    ensures forall j :: 0 <= j < |keys| ==> keys[j] == CacheKey(idp, ctx.(intent := Some(INTENT_VARIANTS[j])))
  {
    seq(|INTENT_VARIANTS|, j requires 0 <= j < |INTENT_VARIANTS| =>
      CacheKey(idp, ctx.(intent := Some(INTENT_VARIANTS[j]))))
  }

  function AllKeys(idp: string, contexts: seq<Context>): seq<string> {
    FlatMap(contexts, ctx => IntentKeys(idp, ctx))
  }

  /** A proper request with 'user' intent is affected by a write at this client and site. */
  predicate Concerns(ctx: Context, client: string, site: string) {
    ctx.client.None? || (ctx.client.value == client && (ctx.site.None? || ctx.site.value == site))
  }

  /** Keys are deleted under every intent there is. */
  lemma IntentKeysHave(idp: string, ctx: Context, intent: Intent)
    ensures CacheKey(idp, ctx.(intent := Some(intent))) in IntentKeys(idp, ctx)
  {
    var j := match intent case System => 0 case Elevated => 1 case User => 2;
    assert INTENT_VARIANTS[j] == intent;
    assert IntentKeys(idp, ctx)[j] == CacheKey(idp, ctx.(intent := Some(intent)));
  }

  /** A request that names nothing, the client alone, or the client with one of the sites. */
  predicate Named(ctx: Context, client: string, site: Option<string>, siteIds: seq<string>) {
    || (ctx.client.None? && ctx.site.None?)
    || (ctx.client == Some(client) && ctx.site.None?)
    || (ctx.client == Some(client) && ctx.site.Some?
        && (ctx.site.value in siteIds || (ctx.site == site && ctx.site.value != "")))
  }

  /** Every request named has its key deleted, whatever its intent. */
  lemma NamedKeyIsCleared(idp: string, ctx: Context, client: string, site: Option<string>, siteIds: seq<string>)
    requires Named(ctx, client, site, siteIds)
    ensures CacheKey(idp, ctx) in AllKeys(idp, ClearContexts(client, SitesToClear(site, siteIds)))
  {
    var sites := SitesToClear(site, siteIds);
    var contexts := ClearContexts(client, sites);
    var i := 0;
    if ctx.client.Some? {
      i := 1;
      if ctx.site.Some? {
        assert ctx.site.value in sites;
        var n :| 0 <= n < |sites| && sites[n] == ctx.site.value;
        i := n + 2;
      }
    }
    assert contexts[i] == ctx.(intent := None);
    IntentKeysHave(idp, contexts[i], IntentOf(ctx));
    assert CacheKey(idp, ctx) == CacheKey(idp, contexts[i].(intent := Some(IntentOf(ctx))));
    InFlatMap(contexts, c => IntentKeys(idp, c), CacheKey(idp, ctx));
  }

  lemma ClearContextsAreNamed(client: string, site: Option<string>, siteIds: seq<string>, i: nat)
    requires i < |ClearContexts(client, SitesToClear(site, siteIds))|
    ensures Named(ClearContexts(client, SitesToClear(site, siteIds))[i], client, site, siteIds)
  {
    var sites := SitesToClear(site, siteIds);
    if i >= 2 {
      assert sites[i - 2] in sites;
    }
  }

  lemma KeyOfSomeIntent(idp: string, ctx: Context, key: string) returns (intent: Intent)
    requires key in IntentKeys(idp, ctx)
    ensures key == CacheKey(idp, ctx.(intent := Some(intent)))
  {
    var j :| 0 <= j < |INTENT_VARIANTS| && IntentKeys(idp, ctx)[j] == key;
    intent := INTENT_VARIANTS[j];
  }

  /** The key is that of a request named. */
  ghost predicate IsNamedKey(key: string, idp: string, client: string, site: Option<string>, siteIds: seq<string>) {
    exists ctx :: Named(ctx, client, site, siteIds) && key == CacheKey(idp, ctx)
  }

  /** The keys deleted are those of the requests named, and no others. */
  lemma ClearedKeysAre(idp: string, client: string, site: Option<string>, siteIds: seq<string>, key: string)
    ensures key in AllKeys(idp, ClearContexts(client, SitesToClear(site, siteIds)))
      <==> IsNamedKey(key, idp, client, site, siteIds)
  {
    var contexts := ClearContexts(client, SitesToClear(site, siteIds));
    if key in AllKeys(idp, contexts) {
      InFlatMap(contexts, c => IntentKeys(idp, c), key);
      var i :| 0 <= i < |contexts| && key in IntentKeys(idp, contexts[i]);
      ClearContextsAreNamed(client, site, siteIds, i);
      var intent := KeyOfSomeIntent(idp, contexts[i], key);
      assert Named(contexts[i].(intent := Some(intent)), client, site, siteIds);
    }
    if IsNamedKey(key, idp, client, site, siteIds) {
      var ctx :| Named(ctx, client, site, siteIds) && key == CacheKey(idp, ctx);
      NamedKeyIsCleared(idp, ctx, client, site, siteIds);
    }
  }

  /** The deleted keys include that of every proper request the write concerns, whatever its intent. */
  lemma ConcernedKeysAreCleared(idp: string, ctx: Context, client: string, site: string)
    requires Proper(idp, ctx) && Concerns(ctx, client, site)
    ensures CacheKey(idp, ctx) in AllKeys(idp, ClearContexts(client, SitesToClear(Some(site), [])))
  {
    NamedKeyIsCleared(idp, ctx, client, Some(site), []);
  }

  /** A request that names no client, or the client alone, is always among them. */
  lemma ContextKeyIsCleared(idp: string, ctx: Context, client: string)
    requires Proper(idp, ctx) && (ctx.client.None? || (ctx.client.value == client && ctx.site.None?))
    ensures CacheKey(idp, ctx) in AllKeys(idp, ClearContexts(client, SitesToClear(None, [])))
  {
    NamedKeyIsCleared(idp, ctx, client, None, []);
  }

  lemma OtherClientOtherKeys(idp: string, a: Context, b: Context)
    requires '|' !in idp && '|' !in OrDefault(a.client) && '|' !in OrDefault(b.client)
    requires OrDefault(a.client) != OrDefault(b.client)
    ensures CacheKey(idp, a) !in IntentKeys(idp, b)
  {
    var keys := IntentKeys(idp, b);
    forall j | 0 <= j < |keys| ensures CacheKey(idp, a) != keys[j] {
      DifferentClientDifferentKey(idp, a, b.(intent := Some(INTENT_VARIANTS[j])));
    }
  }

  /**
   A request the write concerns has its key deleted exactly when it names a client or no site: why contexts
   that name a site alone must be excluded.
   */
  lemma ConcernedKeyIsClearedIff(idp: string, ctx: Context, client: string, site: string)
    requires '|' !in idp && ProperId(ctx.client) && ProperId(ctx.site) && ProperId(Some(client))
    requires Concerns(ctx, client, site)
    ensures CacheKey(idp, ctx) in AllKeys(idp, ClearContexts(client, SitesToClear(Some(site), [])))
      <==> ctx.client.Some? || ctx.site.None?
  {
    if ctx.client.Some? || ctx.site.None? {
      ConcernedKeysAreCleared(idp, ctx, client, site);
    } else {
      SiteAloneIsKept(idp, ctx, client, site);
    }
  }

  lemma SiteAloneIsKept(idp: string, ctx: Context, client: string, site: string)
    requires '|' !in idp && ctx.client.None? && ctx.site.Some? && ProperId(ctx.site) && ProperId(Some(client))
    ensures CacheKey(idp, ctx) !in AllKeys(idp, ClearContexts(client, SitesToClear(Some(site), [])))
  {
    var contexts := ClearContexts(client, SitesToClear(Some(site), []));
    InFlatMap(contexts, c => IntentKeys(idp, c), CacheKey(idp, ctx));
    SiteAloneIsNotDefault(idp, ctx);
    forall i | 0 < i < |contexts| ensures CacheKey(idp, ctx) !in IntentKeys(idp, contexts[i]) {
      OtherClientOtherKeys(idp, ctx, contexts[i]);
    }
  }

  lemma SiteAloneIsNotDefault(idp: string, ctx: Context)
    requires '|' !in idp && ctx.client.None? && ctx.site.Some? && ProperId(ctx.site)
    ensures CacheKey(idp, ctx) !in IntentKeys(idp, Context(None, None, None))
  {
    var none := Context(None, None, None);
    forall j | 0 <= j < |INTENT_VARIANTS| ensures CacheKey(idp, ctx) != IntentKeys(idp, none)[j] {
      KeysAgreeIff(idp, ctx, idp, none.(intent := Some(INTENT_VARIANTS[j])));
    }
  }

  function SitesToClear(site: Option<string>, siteIds: seq<string>): seq<string> {
    (if site.Some? && site.value != "" then [site.value] else []) + siteIds
  }

  /** The inner loop, over the intents. */
  method KeysOfContext(idp: string, ctx: Context) returns (keys: seq<string>)
    ensures keys == IntentKeys(idp, ctx)
  {
    keys := [];
    for j := 0 to |INTENT_VARIANTS|
      invariant keys == IntentKeys(idp, ctx)[..j]
    {
      keys := keys + [CacheKey(idp, ctx.(intent := Some(INTENT_VARIANTS[j])))];
    }
  }

  /** The key list clearAccessGrantResponseCache hands to its delete function. */
  method ClearKeys(idp: string, client: string, site: Option<string>, siteIds: seq<string>) returns (keys: seq<string>)
    ensures keys == AllKeys(idp, ClearContexts(client, SitesToClear(site, siteIds)))
    ensures forall key :: key in keys <==> IsNamedKey(key, idp, client, site, siteIds)
  {
    var allSiteIds: seq<string> := [];
    if site.Some? && site.value != "" {
      allSiteIds := [site.value];
    }
    allSiteIds := allSiteIds + siteIds;
    var contexts := ClearContexts(client, allSiteIds);
    keys := [];
    for i := 0 to |contexts|
      invariant keys == AllKeys(idp, contexts[..i])
    {
      var more := KeysOfContext(idp, contexts[i]);
      keys := keys + more;
      assert contexts[..i + 1][..i] == contexts[..i];
    }
    assert contexts[..|contexts|] == contexts;
    forall key ensures key in keys <==> IsNamedKey(key, idp, client, site, siteIds) {
      ClearedKeysAre(idp, client, site, siteIds, key);
    }
  }
}
