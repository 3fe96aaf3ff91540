/** Who sees which sites: the reduced-grant rule of the notifications and the record-by-record rule of tags. */
module SiteVisibility {
  import opened Prelude
  import opened Scopes
  import opened AccessGrants
  import opened SiteHierarchy

  /** Sites of the table form a forest whose parents exist. */
  ghost predicate Forest(sites: seq<Site>) { DistinctIds(sites) && Acyclic(sites) && ParentsExist(sites) }

  /** Visible site ids; None stands for all sites of the client. */
  function VisibleSiteIds(grant: Grant, h: Hierarchy): Option<seq<string>> {
    if IsScopeAtLeast(grant.scope, CLIENT) then None
    else
      match grant.scope
      case SITE_GROUP =>
        Some([grant.siteId]
             + if grant.siteId in h.descendantsBySiteId then h.descendantsBySiteId[grant.siteId] else [])
      case SITE => Some([grant.siteId])
      case _ => Some([])
  }

  function ForClient(records: seq<Grant>, client: string): seq<Grant> {
    Filter(records, (g: Grant) => g.clientId == client)
  }

  function VisibleSiteIdsForMember(records: seq<Grant>, client: string, h: Hierarchy): Option<seq<string>> {
    var mine := ForClient(records, client);
    if mine == [] then Some([]) else VisibleSiteIds(Reduce(mine), h)
  }

  predicate Shows(visible: Option<seq<string>>, site: string) { visible.None? || site in visible.value }

  /** `h` is what buildSiteHierarchy computes for the sites. */
  ghost predicate HierarchyOf(h: Hierarchy, sites: seq<Site>)
    requires DistinctIds(sites) && Acyclic(sites)
  {
    && (forall id :: id in h.descendantsBySiteId <==> id in Ids(sites))
    && (forall id :: id in h.descendantsBySiteId ==> h.descendantsBySiteId[id] == Descendants(sites, id))
  }

  /** What one record shows, said without the hierarchy map. */
  ghost predicate RecordShows(sites: seq<Site>, g: Grant, site: string) {
    || IsScopeAtLeast(g.scope, CLIENT)
    || (g.scope == SITE_GROUP && (site == g.siteId || Descends(sites, site, g.siteId)))
    || (g.scope == SITE && site == g.siteId)
  }

  lemma VisibleMeans(sites: seq<Site>, h: Hierarchy, g: Grant, site: string)
    requires Forest(sites) && HierarchyOf(h, sites)
    ensures Shows(VisibleSiteIds(g, h), site) <==> RecordShows(sites, g, site)
  {
    DescendantsAre(sites, g.siteId, site);
    if Descends(sites, site, g.siteId) {
      AncestorExists(sites, site, g.siteId);
    }
  }

  /** After reduction a member sees no site that none of the records shows by itself. */
  lemma MemberSeesNoMoreThanRecords(sites: seq<Site>, h: Hierarchy, records: seq<Grant>, client: string, site: string)
    requires Forest(sites) && HierarchyOf(h, sites)
    requires Shows(VisibleSiteIdsForMember(records, client, h), site)
    ensures exists g :: g in records && g.clientId == client && RecordShows(sites, g, site)
  {
    var mine := ForClient(records, client);
    var k := ReduceMeans(mine);
    assert mine[k] in mine;
    VisibleMeans(sites, h, Reduce(mine), site);
    assert RecordShows(sites, mine[k], site);
  }

  lemma DescendsTransitively(sites: seq<Site>, a: string, b: string, c: string)
    requires Descends(sites, a, b) && AtOrBelow(sites, b, c)
    ensures Descends(sites, a, c)
  {
    if b != c {
      var m: nat :| m >= 1 && Up(sites, a, m) == Some(b);
      var n: nat :| n >= 1 && Up(sites, b, n) == Some(c);
      UpUp(sites, a, m, n);
      assert m + n >= 1;
    }
  }

  /** A record that shows another record's own site shows all that record does, if its scope is as large. */
  lemma ShowsAllOf(sites: seq<Site>, top: Grant, g: Grant, site: string)
    requires IsScopeAtLeast(top.scope, g.scope) && RecordShows(sites, g, site)
    requires g.scope == SITE_GROUP || g.scope == SITE ==> RecordShows(sites, top, g.siteId)
    ensures RecordShows(sites, top, site)
  {
    if top.scope == SITE_GROUP && g.scope == SITE_GROUP && site != g.siteId {
      DescendsTransitively(sites, site, g.siteId, top.siteId);
    }
  }

  /**
   After reduction a member sees all that the records show exactly when the record the reduction keeps, the
   last of the largest scope, shows the own site of every SITE and SITE_GROUP record.
   */
  lemma MemberSeesUnionIff(sites: seq<Site>, h: Hierarchy, records: seq<Grant>, client: string)
    requires Forest(sites) && HierarchyOf(h, sites) && ForClient(records, client) != []
    ensures var mine := ForClient(records, client);
      var visible := VisibleSiteIdsForMember(records, client, h);
      (forall g, site :: g in mine && RecordShows(sites, g, site) ==> Shows(visible, site))
      <==> forall g :: g in mine && (g.scope == SITE_GROUP || g.scope == SITE) ==>
        RecordShows(sites, Reduce(mine), g.siteId)
  {
    var mine := ForClient(records, client);
    var top := Reduce(mine);
    var k := ReduceMeans(mine);
    forall site ensures Shows(VisibleSiteIdsForMember(records, client, h), site) <==> RecordShows(sites, top, site) {
      VisibleMeans(sites, h, top, site);
    }
    if forall g :: g in mine && (g.scope == SITE_GROUP || g.scope == SITE) ==> RecordShows(sites, top, g.siteId) {
      forall g, site | g in mine && RecordShows(sites, g, site) ensures RecordShows(sites, top, site) {
        ShowsAllOf(sites, top, g, site);
      }
    } else {
      var g :| g in mine && (g.scope == SITE_GROUP || g.scope == SITE) && !RecordShows(sites, top, g.siteId);
      assert RecordShows(sites, g, g.siteId);
    }
  }

  lemma AllForClient(records: seq<Grant>, client: string)
    requires forall g :: g in records ==> g.clientId == client
    ensures ForClient(records, client) == records
  {
    FilterAll(records, (g: Grant) => g.clientId == client);
  }

  /** The failing input: of two SITE records at different sites only the later one's site is seen. */
  lemma TwoSitesAreNotBothSeen(h: Hierarchy, a: Grant, b: Grant)
    requires a.clientId == b.clientId && a.scope == b.scope == SITE && a.siteId != b.siteId
    ensures var visible := VisibleSiteIdsForMember([a, b], a.clientId, h);
      Shows(visible, b.siteId) && !Shows(visible, a.siteId)
  {
    AllForClient([a, b], a.clientId);
    var k := ReduceMeans([a, b]);
    assert [a, b][k] == b;
  }

  // ---- The rule for tags ----

  /** One record admits its holder to a tag's site. */
  predicate Admits(sites: seq<Site>, g: Grant, tagSite: string) {
    || IsScopeAtLeast(g.scope, CLIENT)
    || g.siteId == tagSite
    || (IsScopeAtLeast(g.scope, SITE_GROUP) && tagSite in AllowedSiteIds(sites, g.siteId))
  }

  predicate FirstAdmitting(sites: seq<Site>, records: seq<Grant>, i: int, tagSite: string) {
    && 0 <= i < |records| && Admits(sites, records[i], tagSite)
    && forall j :: 0 <= j < i ==> !Admits(sites, records[j], tagSite)
  }

  /** The first of the user's records for the tag's client that admits them; any record if the tag has no site. */
  method ResolveAccessForClient(sites: seq<Site>, records: seq<Grant>, tagSite: Option<string>)
    returns (r: Option<Grant>)
    ensures records == [] ==> r == None
    ensures records != [] && (tagSite.None? || tagSite.value == "") ==> r == Some(records[0])
    ensures tagSite.Some? && tagSite.value != "" ==>
      && (r.Some? <==> exists g :: g in records && Admits(sites, g, tagSite.value))
      && (r.Some? ==> exists i :: FirstAdmitting(sites, records, i, tagSite.value) && r.value == records[i])
  {
    if |records| == 0 {
      return None;
    }
    if tagSite.None? || tagSite.value == "" {
      return Some(records[0]);
    }
    for i := 0 to |records|
      invariant forall j :: 0 <= j < i ==> !Admits(sites, records[j], tagSite.value)
    {
      var record := records[i];
      assert record in records;
      assert Admits(sites, record, tagSite.value) ==> FirstAdmitting(sites, records, i, tagSite.value);
      if IsScopeAtLeast(record.scope, CLIENT) {
        return Some(record);
      }
      if record.siteId == tagSite.value {
        return Some(record);
      }
      if IsScopeAtLeast(record.scope, SITE_GROUP) {
        var allowedSites := AllowedSiteIds(sites, record.siteId);
        if tagSite.value in allowedSites {
          return Some(record);
        }
      }
    }
    return None;
  }

  /** No site has anything four levels below it. */
  ghost predicate ThreeLevels(sites: seq<Site>) { forall id :: !DeeperThanThree(sites, id) }

  /**
   In a forest of at most three levels a record admits to exactly the sites it shows, except that a
   SELF record, which shows none, admits to its own.
   */
  lemma AdmitsWhatItShows(sites: seq<Site>, g: Grant, site: string)
    requires Forest(sites) && ThreeLevels(sites)
    ensures Admits(sites, g, site) <==> RecordShows(sites, g, site) || (g.scope == SELF && g.siteId == site)
  {
    AllowedSitesAreTheSubtreeIff(sites, g.siteId);
    assert !DeeperThanThree(sites, g.siteId);
  }

  /** Deeper trees only narrow what a record admits to. */
  lemma AdmitsNoMoreThanItShows(sites: seq<Site>, g: Grant, site: string)
    requires Forest(sites) && Admits(sites, g, site)
    ensures RecordShows(sites, g, site) || (g.scope == SELF && g.siteId == site)
  {
    AllowedSitesAreTheSubtreeIff(sites, g.siteId);
  }

  /** With no SELF records the tag rule grants a site exactly when some record alone shows it. */
  lemma TagRuleIsRecordByRecord(sites: seq<Site>, h: Hierarchy, records: seq<Grant>, client: string, site: string)
    requires Forest(sites) && ThreeLevels(sites) && HierarchyOf(h, sites)
    ensures (forall g :: g in ForClient(records, client) ==> g.scope != SELF) ==>
      ((exists g :: g in ForClient(records, client) && Admits(sites, g, site))
       <==> exists g :: g in ForClient(records, client) && Shows(VisibleSiteIds(g, h), site))
  {
    forall g ensures Admits(sites, g, site) <==> RecordShows(sites, g, site) || (g.scope == SELF && g.siteId == site)
      ensures Shows(VisibleSiteIds(g, h), site) <==> RecordShows(sites, g, site)
    {
      AdmitsWhatItShows(sites, g, site);
      VisibleMeans(sites, h, g, site);
    }
  }

  /** Every site a member sees after reduction is granted by the tag rule as well. */
  lemma VisibleSitesAreGranted(sites: seq<Site>, h: Hierarchy, records: seq<Grant>, client: string, site: string)
    requires Forest(sites) && ThreeLevels(sites) && HierarchyOf(h, sites)
    requires Shows(VisibleSiteIdsForMember(records, client, h), site)
    ensures exists g :: g in ForClient(records, client) && Admits(sites, g, site)
  {
    MemberSeesNoMoreThanRecords(sites, h, records, client, site);
    var g :| g in records && g.clientId == client && RecordShows(sites, g, site);
    AdmitsWhatItShows(sites, g, site);
    assert g in ForClient(records, client);
  }
}
