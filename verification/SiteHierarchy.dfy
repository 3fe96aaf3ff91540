/** Site trees: the recursive descendant map and the fixed three-level query beside it. */
module SiteHierarchy {
  import opened Prelude

  datatype Site = Site(id: string, parentSiteId: Option<string>)

  predicate DistinctIds(sites: seq<Site>) {
    forall i, j :: 0 <= i < j < |sites| ==> sites[i].id != sites[j].id
  }

  /** An empty parent id counts as none. */
  predicate IsChildOf(s: Site, parent: string) { s.parentSiteId == Some(parent) && parent != "" }

  function Ids(sites: seq<Site>): (ids: seq<string>)
    ensures |ids| == |sites| && forall i :: 0 <= i < |ids| ==> ids[i] == sites[i].id
  {
    seq(|sites|, i requires 0 <= i < |sites| => sites[i].id)
  }

  /** Ids of the sites directly below `id`, in list order. */
  function Children(sites: seq<Site>, id: string): seq<string> {
    if sites == [] then []
    else
      var n := |sites| - 1;
      Children(sites[..n], id) + if IsChildOf(sites[n], id) then [sites[n].id] else []
  }

  function ParentOf(sites: seq<Site>, id: string): Option<string> {
    if sites == [] then None
    else
      var last := sites[|sites| - 1];
      if last.id != id then ParentOf(sites[..|sites| - 1], id)
      else if last.parentSiteId == Some("") then None else last.parentSiteId
  }

  lemma {:induction false} ChildrenHaveParent(sites: seq<Site>, id: string, c: string)
    requires DistinctIds(sites)
    ensures c in Children(sites, id) <==> ParentOf(sites, c) == Some(id)
    ensures Distinct(Children(sites, id))
    ensures c in Children(sites, id) ==> c in Ids(sites)
    ensures ParentOf(sites, c).Some? ==> c in Ids(sites)
  {
    if sites != [] {
      var n := |sites| - 1;
      ChildrenHaveParent(sites[..n], id, c);
      ChildrenHaveParent(sites[..n], id, sites[n].id);
      assert Ids(sites) == Ids(sites[..n]) + [sites[n].id];
      assert sites[n].id !in Ids(sites[..n]);
    }
  }

  // ---- Ancestors and descendants ----

  /** The ancestor `n` levels above. */
  function Up(sites: seq<Site>, id: string, n: nat): Option<string> {
    if n == 0 then Some(id)
    else
      var above := Up(sites, id, n - 1);
      if above.None? then None else ParentOf(sites, above.value)
  }

  lemma {:induction false} UpUp(sites: seq<Site>, id: string, m: nat, n: nat)
    requires Up(sites, id, m).Some?
    ensures Up(sites, id, m + n) == Up(sites, Up(sites, id, m).value, n)
    decreases n
  {
    if n > 0 {
      UpUp(sites, id, m, n - 1);
    }
  }

  lemma {:induction false} UpDefined(sites: seq<Site>, id: string, m: nat, n: nat)
    requires m <= n && Up(sites, id, n).Some?
    ensures Up(sites, id, m).Some?
    decreases n
  {
    if m < n {
      UpDefined(sites, id, m, n - 1);
    }
  }

  ghost predicate Descends(sites: seq<Site>, d: string, a: string) {
    exists n: nat :: n >= 1 && Up(sites, d, n) == Some(a)
  }

  /** No site is above itself. */
  ghost predicate Acyclic(sites: seq<Site>) { forall id :: !Descends(sites, id, id) }

  ghost function Below(sites: seq<Site>, a: string): set<string> {
    set d | d in Ids(sites) && Descends(sites, d, a)
  }

  lemma DescendsThroughChild(sites: seq<Site>, d: string, a: string)
    requires DistinctIds(sites)
    ensures Descends(sites, d, a) <==> exists c :: c in Children(sites, a) && (d == c || Descends(sites, d, c))
  {
    if Descends(sites, d, a) {
      var n: nat :| n >= 1 && Up(sites, d, n) == Some(a);
      var c := Up(sites, d, n - 1).value;
      ChildrenHaveParent(sites, a, c);
      assert c in Children(sites, a) && (d == c || (n - 1 >= 1 && Up(sites, d, n - 1) == Some(c)));
    }
    if c :| c in Children(sites, a) && (d == c || Descends(sites, d, c)) {
      ChildrenHaveParent(sites, a, c);
      if d == c {
        assert Up(sites, d, 0) == Some(c) && Up(sites, d, 1) == Some(a);
      } else {
        var n: nat :| n >= 1 && Up(sites, d, n) == Some(c);
        assert Up(sites, d, n + 1) == Some(a);
      }
    }
  }

  lemma {:induction false} SubsetSmaller(a: set<string>, b: set<string>)
    requires a < b
    ensures |a| < |b|
  {
    var x :| x in b && x !in a;
    if a != {} {
      var y :| y in a;
      SubsetSmaller(a - {y}, b - {y});
    }
  }

  /** The measure of the recursion: a child has fewer sites below it. */
  lemma ChildHasFewerBelow(sites: seq<Site>, a: string, c: string)
    requires DistinctIds(sites) && Acyclic(sites) && c in Children(sites, a)
    ensures |Below(sites, c)| < |Below(sites, a)|
  {
    ChildrenHaveParent(sites, a, c);
    DescendsThroughChild(sites, c, a);
    forall d | d in Below(sites, c) ensures d in Below(sites, a) {
      DescendsThroughChild(sites, d, a);
    }
    assert c in Below(sites, a) && c !in Below(sites, c);
    SubsetSmaller(Below(sites, c), Below(sites, a));
  }

  // ---- getDescendants ----

  function Descendants(sites: seq<Site>, id: string): seq<string>
    requires DistinctIds(sites) && Acyclic(sites)
    decreases |Below(sites, id)|, |Children(sites, id)| + 1
  {
    WithDescendants(sites, id, Children(sites, id))
  }

  /** The given children of `id`, each followed by its own descendants. */
  function WithDescendants(sites: seq<Site>, id: string, cs: seq<string>): seq<string>
    requires DistinctIds(sites) && Acyclic(sites) && forall c :: c in cs ==> c in Children(sites, id)
    decreases |Below(sites, id)|, |cs|
  {
    if cs == [] then []
    else
      var n := |cs| - 1;
      ChildHasFewerBelow(sites, id, cs[n]);
      WithDescendants(sites, id, cs[..n]) + ([cs[n]] + Descendants(sites, cs[n]))
  }

  ghost predicate AtOrBelow(sites: seq<Site>, d: string, c: string) { d == c || Descends(sites, d, c) }

  ghost predicate BelowSome(sites: seq<Site>, d: string, cs: seq<string>) {
    exists c :: c in cs && AtOrBelow(sites, d, c)
  }

  lemma OneMoreChild(sites: seq<Site>, d: string, cs: seq<string>)
    requires cs != []
    ensures BelowSome(sites, d, cs) <==> BelowSome(sites, d, cs[..|cs| - 1]) || AtOrBelow(sites, d, cs[|cs| - 1])
  {
    var front, last := cs[..|cs| - 1], cs[|cs| - 1];
    assert forall x :: x in cs <==> x in front || x == last;
  }

  lemma {:induction false} WithDescendantsAre(sites: seq<Site>, id: string, cs: seq<string>, d: string)
    requires DistinctIds(sites) && Acyclic(sites) && forall c :: c in cs ==> c in Children(sites, id)
    ensures d in WithDescendants(sites, id, cs) <==> BelowSome(sites, d, cs)
    decreases |Below(sites, id)|, |cs|
  {
    if cs != [] {
      var n := |cs| - 1;
      ChildHasFewerBelow(sites, id, cs[n]);
      WithDescendantsAre(sites, id, cs[..n], d);
      DescendantsAre(sites, cs[n], d);
      OneMoreChild(sites, d, cs);
    }
  }

  lemma {:induction false} DescendantsAre(sites: seq<Site>, id: string, d: string)
    requires DistinctIds(sites) && Acyclic(sites)
    ensures d in Descendants(sites, id) <==> Descends(sites, d, id)
    decreases |Below(sites, id)|, |Children(sites, id)| + 1
  {
    WithDescendantsAre(sites, id, Children(sites, id), d);
    DescendsThroughChild(sites, d, id);
    assert BelowSome(sites, d, Children(sites, id)) <==>
      exists c :: c in Children(sites, id) && (d == c || Descends(sites, d, c));
  }

  predicate InSubtree(sites: seq<Site>, x: string, n: nat, c: string) { Up(sites, x, n) == Some(c) }

  /** Subtrees of two siblings have no site in common. */
  lemma SiblingsAreApart(sites: seq<Site>, a: string, c: string, c': string, x: string, n: nat, m: nat)
    requires DistinctIds(sites) && Acyclic(sites) && c in Children(sites, a) && c' in Children(sites, a)
    requires InSubtree(sites, x, n, c) && InSubtree(sites, x, m, c') && n <= m
    ensures c == c'
  {
    ChildrenHaveParent(sites, a, c);
    ChildrenHaveParent(sites, a, c');
    UpUp(sites, x, n, m - n);
    if n < m {
      var k := m - n;
      assert !Descends(sites, a, a) && Up(sites, a, k) != Some(a);
      assert Up(sites, c, 0) == Some(c) && Up(sites, c, 1) == Some(a);
      UpUp(sites, c, 1, k - 1);
    }
  }

  lemma SubtreeMember(sites: seq<Site>, x: string, c: string) returns (n: nat)
    requires x == c || Descends(sites, x, c)
    ensures InSubtree(sites, x, n, c)
  {
    if x == c {
      n := 0;
    } else {
      n :| n >= 1 && Up(sites, x, n) == Some(c);
    }
  }

  lemma {:induction false} WithDescendantsDistinct(sites: seq<Site>, id: string, cs: seq<string>)
    requires DistinctIds(sites) && Acyclic(sites) && Distinct(cs) && forall c :: c in cs ==> c in Children(sites, id)
    ensures Distinct(WithDescendants(sites, id, cs))
    decreases |Below(sites, id)|, |cs|
  {
    if cs != [] {
      var n := |cs| - 1;
      var c := cs[n];
      ChildHasFewerBelow(sites, id, c);
      var front, back := WithDescendants(sites, id, cs[..n]), Descendants(sites, c);
      WithDescendantsDistinct(sites, id, cs[..n]);
      DescendantsDistinct(sites, c);
      DescendantsAre(sites, c, c);
      forall x | x in front ensures x !in [c] + back {
        WithDescendantsAre(sites, id, cs[..n], x);
        DescendantsAre(sites, c, x);
        var c' :| c' in cs[..n] && (x == c' || Descends(sites, x, c'));
        if x == c || Descends(sites, x, c) {
          var i := SubtreeMember(sites, x, c);
          var j := SubtreeMember(sites, x, c');
          if i <= j {
            SiblingsAreApart(sites, id, c, c', x, i, j);
          } else {
            SiblingsAreApart(sites, id, c', c, x, j, i);
          }
        }
      }
      DistinctConcat([c], back);
      DistinctConcat(front, [c] + back);
    }
  }

  lemma {:induction false} DescendantsDistinct(sites: seq<Site>, id: string)
    requires DistinctIds(sites) && Acyclic(sites)
    ensures Distinct(Descendants(sites, id))
    decreases |Below(sites, id)|, |Children(sites, id)| + 1
  {
    ChildrenHaveParent(sites, id, id);
    WithDescendantsDistinct(sites, id, Children(sites, id));
  }

  lemma DistinctConcat(a: seq<string>, b: seq<string>)
    requires Distinct(a) && Distinct(b) && forall x :: x in a ==> x !in b
    ensures Distinct(a + b)
  {
    forall i, j | 0 <= i < j < |a + b| ensures (a + b)[i] != (a + b)[j] {
      if i < |a| <= j {
        assert a[i] in a && b[j - |a|] in b;
      }
    }
  }

  // ---- buildSiteHierarchy ----

  datatype Hierarchy = Hierarchy(allSiteIds: seq<string>, descendantsBySiteId: map<string, seq<string>>)

  predicate IsChildrenMap(m: map<string, seq<string>>, sites: seq<Site>, id: string) {
    (if id in m then m[id] else []) == Children(sites, id)
  }

  method BuildChildrenMap(sites: seq<Site>) returns (childrenMap: map<string, seq<string>>)
    ensures forall id :: IsChildrenMap(childrenMap, sites, id)
  {
    childrenMap := map[];
    for i := 0 to |sites|
      invariant forall id :: IsChildrenMap(childrenMap, sites[..i], id)
    {
      ghost var before := childrenMap;
      var site := sites[i];
      if site.parentSiteId.Some? && site.parentSiteId.value != "" {
        var parent := site.parentSiteId.value;
        var siblings := if parent in childrenMap then childrenMap[parent] else [];
        childrenMap := childrenMap[parent := siblings + [site.id]];
      }
      ghost var prefix := sites[..i + 1];
      assert prefix[..i] == sites[..i];
      forall id ensures IsChildrenMap(childrenMap, prefix, id) {
        assert IsChildrenMap(before, sites[..i], id);
      }
    }
    assert sites[..|sites|] == sites;
  }

  method GetDescendants(childrenMap: map<string, seq<string>>, ghost sites: seq<Site>, siteId: string)
    returns (r: seq<string>)
    requires DistinctIds(sites) && Acyclic(sites) && forall id :: IsChildrenMap(childrenMap, sites, id)
    ensures r == Descendants(sites, siteId)
    decreases |Below(sites, siteId)|
  {
    assert IsChildrenMap(childrenMap, sites, siteId);
    var directChildren := if siteId in childrenMap then childrenMap[siteId] else [];
    r := [];
    for i := 0 to |directChildren|
      invariant r == WithDescendants(sites, siteId, directChildren[..i])
    {
      ChildHasFewerBelow(sites, siteId, directChildren[i]);
      var below := GetDescendants(childrenMap, sites, directChildren[i]);
      assert directChildren[..i + 1][..i] == directChildren[..i];
      r := r + ([directChildren[i]] + below);
    }
    assert directChildren[..|directChildren|] == directChildren;
  }

  /** Each site's entry lists exactly its strict descendants, each once. */
  method BuildSiteHierarchy(sites: seq<Site>) returns (h: Hierarchy)
    requires DistinctIds(sites) && Acyclic(sites)
    ensures h.allSiteIds == Ids(sites)
    ensures h.descendantsBySiteId.Keys == set id | id in Ids(sites)
    ensures forall id :: id in h.descendantsBySiteId ==>
      && h.descendantsBySiteId[id] == Descendants(sites, id)
      && Distinct(h.descendantsBySiteId[id])
      && forall d :: d in h.descendantsBySiteId[id] <==> Descends(sites, d, id)
  {
    var childrenMap := BuildChildrenMap(sites);
    var descendants: map<string, seq<string>> := map[];
    for i := 0 to |sites|
      invariant descendants.Keys == set id | id in Ids(sites)[..i]
      invariant forall id :: id in descendants ==> descendants[id] == Descendants(sites, id)
    {
      var below := GetDescendants(childrenMap, sites, sites[i].id);
      descendants := descendants[sites[i].id := below];
      assert Ids(sites)[..i + 1] == Ids(sites)[..i] + [sites[i].id];
    }
    assert Ids(sites)[..|sites|] == Ids(sites);
    forall id | id in descendants
      ensures Distinct(descendants[id]) && forall d :: d in descendants[id] <==> Descends(sites, d, id)
    {
      DescendantsDistinct(sites, id);
      forall d ensures d in descendants[id] <==> Descends(sites, d, id) {
        DescendantsAre(sites, id, d);
      }
    }
    h := Hierarchy(Ids(sites), descendants);
  }

  // ---- getAllowedSiteIdsForSite ----

  /** A site and what lies at most `depth` levels below it. */
  function Levels(sites: seq<Site>, id: string, depth: nat): seq<string>
    decreases depth, 0
  {
    [id] + if depth == 0 then [] else AllLevels(sites, Children(sites, id), depth - 1)
  }

  function AllLevels(sites: seq<Site>, ids: seq<string>, depth: nat): seq<string>
    decreases depth, |ids|
  {
    if ids == [] then [] else AllLevels(sites, ids[..|ids| - 1], depth) + Levels(sites, ids[|ids| - 1], depth)
  }

  function AllowedSiteIds(sites: seq<Site>, id: string): seq<string> {
    if id in Ids(sites) then Levels(sites, id, 3) else [id]
  }

  ghost predicate Within(sites: seq<Site>, x: string, id: string, depth: nat) {
    exists n: nat :: n <= depth && Up(sites, x, n) == Some(id)
  }

  lemma WithinThroughChild(sites: seq<Site>, x: string, id: string, depth: nat)
    requires DistinctIds(sites)
    ensures Within(sites, x, id, depth) <==>
      x == id || (depth > 0 && exists c :: c in Children(sites, id) && Within(sites, x, c, depth - 1))
  {
    if x == id {
      assert Up(sites, x, 0) == Some(id);
    } else {
      if n: nat :| n <= depth && Up(sites, x, n) == Some(id) {
        var c := Up(sites, x, n - 1).value;
        ChildrenHaveParent(sites, id, c);
        assert c in Children(sites, id) && Within(sites, x, c, depth - 1);
      }
      if depth > 0 {
        if c :| c in Children(sites, id) && Within(sites, x, c, depth - 1) {
          var n: nat :| n <= depth - 1 && Up(sites, x, n) == Some(c);
          ChildrenHaveParent(sites, id, c);
          assert Up(sites, x, n + 1) == Some(id);
        }
      }
    }
  }

  lemma {:induction false} LevelsAre(sites: seq<Site>, id: string, depth: nat, x: string)
    requires DistinctIds(sites)
    ensures x in Levels(sites, id, depth) <==> Within(sites, x, id, depth)
    decreases depth, 0
  {
    WithinThroughChild(sites, x, id, depth);
    if depth > 0 {
      AllLevelsAre(sites, Children(sites, id), depth - 1, x);
      assert Levels(sites, id, depth) == [id] + AllLevels(sites, Children(sites, id), depth - 1);
    } else {
      assert Levels(sites, id, depth) == [id] + [];
    }
  }

  lemma {:induction false} AllLevelsAre(sites: seq<Site>, ids: seq<string>, depth: nat, x: string)
    requires DistinctIds(sites)
    ensures x in AllLevels(sites, ids, depth) <==> exists c :: c in ids && Within(sites, x, c, depth)
    decreases depth, |ids|
  {
    if ids != [] {
      var n := |ids| - 1;
      AllLevelsAre(sites, ids[..n], depth, x);
      LevelsAre(sites, ids[n], depth, x);
      assert ids == ids[..n] + [ids[n]];
      if x in AllLevels(sites, ids[..n], depth) {
        var c :| c in ids[..n] && Within(sites, x, c, depth);
        assert c in ids;
      } else if Within(sites, x, ids[n], depth) {
        assert ids[n] in ids;
      }
    }
  }

  /** Parent ids refer to sites of the table. */
  ghost predicate ParentsExist(sites: seq<Site>) {
    forall x :: ParentOf(sites, x).Some? ==> ParentOf(sites, x).value in Ids(sites)
  }

  lemma AncestorExists(sites: seq<Site>, x: string, a: string)
    requires ParentsExist(sites) && Descends(sites, x, a)
    ensures a in Ids(sites)
  {
  }

  /** Something lies four levels below the site. */
  ghost predicate DeeperThanThree(sites: seq<Site>, id: string) { exists x :: Up(sites, x, 4) == Some(id) }

  lemma AllowedAreWithinThree(sites: seq<Site>, id: string, x: string)
    requires DistinctIds(sites) && ParentsExist(sites)
    ensures x in AllowedSiteIds(sites, id) <==> Within(sites, x, id, 3)
    ensures Within(sites, x, id, 3) ==> x == id || Descends(sites, x, id)
  {
    LevelsAre(sites, id, 3, x);
    if x == id {
      assert Up(sites, x, 0) == Some(id);
    } else if Within(sites, x, id, 3) {
      var n: nat :| n <= 3 && Up(sites, x, n) == Some(id);
      assert n >= 1 && Descends(sites, x, id);
      AncestorExists(sites, x, id);
    }
  }

  /** Within three levels lies every descendant exactly when none is four levels down. */
  lemma WithinThreeIffNotDeeper(sites: seq<Site>, id: string)
    requires Acyclic(sites)
    ensures (forall x :: Descends(sites, x, id) ==> Within(sites, x, id, 3)) <==> !DeeperThanThree(sites, id)
  {
    if DeeperThanThree(sites, id) {
      var x :| Up(sites, x, 4) == Some(id);
      assert Descends(sites, x, id) && !Descends(sites, id, id);
      forall n: nat | n <= 3 ensures Up(sites, x, n) != Some(id) {
        assert Up(sites, id, 4 - n) != Some(id);
        if Up(sites, x, n).Some? {
          UpUp(sites, x, n, 4 - n);
        }
      }
    } else {
      forall x | Descends(sites, x, id) ensures Within(sites, x, id, 3) {
        var n: nat :| n >= 1 && Up(sites, x, n) == Some(id);
        if n > 3 {
          UpDefined(sites, x, n - 4, n);
          UpUp(sites, x, n - 4, 4);
        }
      }
    }
  }

  /** The query returns only the site and its descendants, and all of them exactly when none is deeper than three. */
  lemma AllowedSitesAreTheSubtreeIff(sites: seq<Site>, id: string)
    requires DistinctIds(sites) && ParentsExist(sites) && Acyclic(sites)
    ensures forall x :: x in AllowedSiteIds(sites, id) ==> x == id || Descends(sites, x, id)
    ensures (forall x :: x == id || Descends(sites, x, id) ==> x in AllowedSiteIds(sites, id))
      <==> !DeeperThanThree(sites, id)
  {
    forall x ensures x in AllowedSiteIds(sites, id) <==> Within(sites, x, id, 3)
      ensures Within(sites, x, id, 3) ==> x == id || Descends(sites, x, id)
      ensures x == id ==> Within(sites, x, id, 3)
    {
      AllowedAreWithinThree(sites, id, x);
      WithinThroughChild(sites, x, id, 3);
    }
    WithinThreeIffNotDeeper(sites, id);
  }

  // ---- The failing input: a chain of five sites ----

  /** Each site is the parent of the next. */
  function Chain(names: seq<string>): (sites: seq<Site>)
    ensures |sites| == |names|
    ensures forall i :: 0 <= i < |sites| ==>
      sites[i] == Site(names[i], if i == 0 then None else Some(names[i - 1]))
  {
    seq(|names|, i requires 0 <= i < |names| => Site(names[i], if i == 0 then None else Some(names[i - 1])))
  }

  lemma {:induction false} ParentInChain(names: seq<string>, i: nat)
    requires Distinct(names) && "" !in names && i < |names|
    ensures ParentOf(Chain(names), names[i]) == if i == 0 then None else Some(names[i - 1])
  {
    var n := |names| - 1;
    if i < n {
      assert Chain(names)[..n] == Chain(names[..n]);
      ParentInChain(names[..n], i);
    } else {
      assert i > 0 ==> names[i - 1] in names;
    }
  }

  lemma {:induction false} NoParentOutsideChain(names: seq<string>, x: string)
    requires x !in names
    ensures ParentOf(Chain(names), x) == None
  {
    if names != [] {
      var n := |names| - 1;
      assert Chain(names)[..n] == Chain(names[..n]);
      NoParentOutsideChain(names[..n], x);
    }
  }

  lemma {:induction false} UpInChain(names: seq<string>, i: nat, n: nat)
    requires Distinct(names) && "" !in names && i < |names|
    ensures Up(Chain(names), names[i], n) == if n <= i then Some(names[i - n]) else None
  {
    if n > 0 {
      UpInChain(names, i, n - 1);
      if n - 1 <= i {
        ParentInChain(names, i - (n - 1));
      }
    }
  }

  lemma PlaceInChain(names: seq<string>, x: string) returns (i: nat)
    requires ParentOf(Chain(names), x).Some?
    ensures i < |names| && names[i] == x
  {
    if x !in names {
      NoParentOutsideChain(names, x);
    }
    i :| i < |names| && names[i] == x;
  }

  lemma ChainIsForest(names: seq<string>)
    requires Distinct(names) && "" !in names
    ensures DistinctIds(Chain(names)) && Acyclic(Chain(names)) && ParentsExist(Chain(names))
  {
    var sites := Chain(names);
    forall x, n: nat | n >= 1 && Up(sites, x, n).Some? ensures Up(sites, x, n).value != x {
      UpDefined(sites, x, 1, n);
      assert Up(sites, x, 0) == Some(x) && Up(sites, x, 1) == ParentOf(sites, x);
      var i := PlaceInChain(names, x);
      UpInChain(names, i, n);
    }
    forall x | ParentOf(sites, x).Some? ensures ParentOf(sites, x).value in Ids(sites) {
      var i := PlaceInChain(names, x);
      ParentInChain(names, i);
      assert Ids(sites)[i - 1] == names[i - 1];
    }
  }

  /** The fifth site of a chain lies below the first and is not among its allowed sites. */
  lemma FifthInChainIsCut(names: seq<string>)
    requires Distinct(names) && "" !in names && |names| >= 5
    ensures var sites := Chain(names);
      && DistinctIds(sites) && Acyclic(sites) && ParentsExist(sites)
      && Descends(sites, names[4], names[0]) && names[4] !in AllowedSiteIds(sites, names[0])
  {
    var sites := Chain(names);
    ChainIsForest(names);
    UpInChain(names, 4, 4);
    AllowedAreWithinThree(sites, names[0], names[4]);
    forall n: nat | n <= 3 ensures Up(sites, names[4], n) != Some(names[0]) {
      UpInChain(names, 4, n);
    }
  }
}
