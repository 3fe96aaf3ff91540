/** Access grants: reduction of several grants to one. */
module AccessGrants {
  import opened Prelude
  import opened Scopes

  datatype Grant = Grant(roleId: string, scope: Scope, capabilities: seq<string>, clientId: string, siteId: string)

  /** Insertion-ordered set union, as a JavaScript Set performs it. */
  function AddAll(seen: seq<string>, more: seq<string>): (r: seq<string>)
    ensures forall x :: x in r <==> x in seen || x in more
    decreases |more|
  {
    if more == [] then seen
    else if more[0] in seen then AddAll(seen, more[1..])
    else AddAll(seen + [more[0]], more[1..])
  }

  lemma {:induction false} AddAllConcat(seen: seq<string>, a: seq<string>, b: seq<string>)
    ensures AddAll(seen, a + b) == AddAll(AddAll(seen, a), b)
    decreases |a|
  {
    if a == [] {
      assert a + b == b;
    } else {
      assert (a + b)[1..] == a[1..] + b;
      AddAllConcat(if a[0] in seen then seen else seen + [a[0]], a[1..], b);
    }
  }

  lemma {:induction false} AddAllDistinct(seen: seq<string>, more: seq<string>)
    requires Distinct(seen)
    ensures Distinct(AddAll(seen, more))
    decreases |more|
  {
    if more != [] {
      AddAllDistinct(if more[0] in seen then seen else seen + [more[0]], more[1..]);
    }
  }

  /** Adding a union element by element is adding both parts. */
  lemma {:induction false} AddAllAssociates(a: seq<string>, b: seq<string>, c: seq<string>)
    ensures AddAll(a, AddAll(b, c)) == AddAll(AddAll(a, b), c)
    decreases |c|
  {
    if c != [] {
      if c[0] in b {
        AddAllAssociates(a, b, c[1..]);
        assert c[0] in AddAll(a, b);
      } else {
        AddAllAssociates(a, b + [c[0]], c[1..]);
        AddAllConcat(a, b, [c[0]]);
      }
    }
  }

  /** The effect of one loop iteration: the later grant wins ties of scope. */
  function Merge(a: Grant, b: Grant): Grant {
    var capabilities := AddAll(a.capabilities, b.capabilities);
    if IsScopeAtLeast(b.scope, a.scope) then b.(capabilities := capabilities) else a.(capabilities := capabilities)
  }

  function Single(g: Grant): Grant { g.(capabilities := AddAll([], g.capabilities)) }

  function Reduce(gs: seq<Grant>): Grant
    requires gs != []
  {
    if |gs| == 1 then Single(gs[0]) else Merge(Reduce(gs[..|gs| - 1]), gs[|gs| - 1])
  }

  /** The loop of reduceAccessGrants; an empty list is the thrown error. */
  method ReduceAccessGrants(gs: seq<Grant>) returns (r: Option<Grant>)
    ensures r == if gs == [] then None else Some(Reduce(gs))
  {
    if gs == [] {
      return None;
    }
    var clientId, siteId, roleId := gs[0].clientId, gs[0].siteId, gs[0].roleId;
    var mostPermissiveScope := SELF;
    var combined: seq<string> := [];
    for i := 0 to |gs|
      invariant i == 0 ==> mostPermissiveScope == SELF && combined == []
      invariant i > 0 ==> Grant(roleId, mostPermissiveScope, combined, clientId, siteId) == Reduce(gs[..i])
    {
      if IsScopeAtLeast(gs[i].scope, mostPermissiveScope) {
        mostPermissiveScope := gs[i].scope;
        clientId, siteId, roleId := gs[i].clientId, gs[i].siteId, gs[i].roleId;
      }
      ghost var before := combined;
      for j := 0 to |gs[i].capabilities|
        invariant combined == AddAll(before, gs[i].capabilities[..j])
      {
        var c := gs[i].capabilities[j];
        assert gs[i].capabilities[..j + 1] == gs[i].capabilities[..j] + [c];
        AddAllConcat(before, gs[i].capabilities[..j], [c]);
        if c !in combined {
          combined := combined + [c];
        }
      }
      assert gs[i].capabilities[..|gs[i].capabilities|] == gs[i].capabilities;
      assert gs[..i + 1][..i] == gs[..i];
    }
    assert gs[..|gs|] == gs;
    r := Some(Grant(roleId, mostPermissiveScope, combined, clientId, siteId));
  }

  // ---- What the reduction means ----

  /** Record `k` has the largest scope and no later record reaches it. */
  predicate LastOfLargestScope(gs: seq<Grant>, k: nat) {
    && k < |gs|
    && (forall i :: 0 <= i < |gs| ==> IsScopeAtLeast(gs[k].scope, gs[i].scope))
    && (forall i :: k < i < |gs| ==> !IsScopeAtLeast(gs[i].scope, gs[k].scope))
  }

  /** All capabilities in order of appearance, with repetitions. */
  function AllCapabilities(gs: seq<Grant>): seq<string> {
    if gs == [] then [] else AllCapabilities(gs[..|gs| - 1]) + gs[|gs| - 1].capabilities
  }

  lemma LastOfLargestScopeSnoc(gs: seq<Grant>, k: nat)
    requires |gs| > 1 && LastOfLargestScope(gs[..|gs| - 1], k)
    ensures LastOfLargestScope(gs, if IsScopeAtLeast(gs[|gs| - 1].scope, gs[k].scope) then |gs| - 1 else k)
  {
  }

  /**
   The reduced grant is the last record of the largest scope, with the capabilities of all
   records, each once, in order of first appearance.
   */
  lemma {:induction false} ReduceMeans(gs: seq<Grant>) returns (k: nat)
    requires gs != []
    ensures LastOfLargestScope(gs, k)
    ensures Reduce(gs) == gs[k].(capabilities := AddAll([], AllCapabilities(gs)))
  {
    var n := |gs| - 1;
    if n == 0 {
      k := 0;
      assert gs[..0] == [];
      assert AllCapabilities(gs) == [] + gs[0].capabilities == gs[0].capabilities;
    } else {
      var before := gs[..n];
      k := ReduceMeans(before);
      LastOfLargestScopeSnoc(gs, k);
      AddAllConcat([], AllCapabilities(before), gs[n].capabilities);
      if IsScopeAtLeast(gs[n].scope, gs[k].scope) {
        k := n;
      }
    }
  }

  lemma MergeAssociates(a: Grant, b: Grant, c: Grant)
    ensures Merge(Merge(a, b), c) == Merge(a, Merge(b, c))
  {
    AddAllAssociates(a.capabilities, b.capabilities, c.capabilities);
  }

  lemma {:induction false} ReduceConcat(xs: seq<Grant>, ys: seq<Grant>)
    requires xs != [] && ys != []
    ensures Reduce(xs + ys) == Merge(Reduce(xs), Reduce(ys))
    decreases |ys|
  {
    var n := |ys| - 1;
    assert (xs + ys)[..|xs + ys| - 1] == xs + ys[..n];
    if n == 0 {
      assert xs + ys[..0] == xs;
      AddAllAssociates(Reduce(xs).capabilities, [], ys[0].capabilities);
    } else {
      ReduceConcat(xs, ys[..n]);
      MergeAssociates(Reduce(xs), Reduce(ys[..n]), ys[n]);
    }
  }

  lemma ReducedCapabilitiesDistinct(gs: seq<Grant>)
    requires gs != []
    ensures Distinct(Reduce(gs).capabilities)
  {
    var _ := ReduceMeans(gs);
    AddAllDistinct([], AllCapabilities(gs));
  }

  /** Reducing in two parts and reducing the results is reducing at once, in every field. */
  lemma ReduceIsHomomorphic(xs: seq<Grant>, ys: seq<Grant>)
    requires xs != [] && ys != []
    ensures Reduce(xs + ys) == Reduce([Reduce(xs), Reduce(ys)])
  {
    var a, b := Reduce(xs), Reduce(ys);
    ReduceConcat(xs, ys);
    ReducedCapabilitiesDistinct(xs);
    assert [] + a.capabilities == a.capabilities;
    DistinctIsItsOwnUnion([], a.capabilities);
    assert [a, b][..1] == [a];
    assert Reduce([a]) == a;
  }

  lemma {:induction false} DistinctIsItsOwnUnion(seen: seq<string>, s: seq<string>)
    requires Distinct(seen + s)
    ensures AddAll(seen, s) == seen + s
    decreases |s|
  {
    if s != [] {
      assert seen + s == seen + [s[0]] + s[1..];
      var all := seen + s;
      forall i | 0 <= i < |seen| ensures seen[i] != s[0] {
        assert all[i] == seen[i] && all[|seen|] == s[0];
      }
      DistinctIsItsOwnUnion(seen + [s[0]], s[1..]);
    } else {
      assert seen + s == seen;
    }
  }

  lemma {:induction false} CapabilityOfSome(gs: seq<Grant>, c: string)
    ensures c in AllCapabilities(gs) <==> exists i :: 0 <= i < |gs| && c in gs[i].capabilities
  {
    if gs != [] {
      var n := |gs| - 1;
      CapabilityOfSome(gs[..n], c);
      if i :| 0 <= i < |gs| && c in gs[i].capabilities {
        assert i < n ==> gs[..n][i] == gs[i];
      }
    }
  }

  /** Scope and capability set depend only on which records there are, not on their order or number. */
  lemma ScopeAndCapabilitiesIgnoreOrder(xs: seq<Grant>, ys: seq<Grant>)
    requires xs != [] && forall g :: g in xs <==> g in ys
    ensures ys != []
    ensures Reduce(xs).scope == Reduce(ys).scope
    ensures forall c :: c in Reduce(xs).capabilities <==> c in Reduce(ys).capabilities
  {
    assert xs[0] in ys;
    var i := ReduceMeans(xs);
    var j := ReduceMeans(ys);
    assert xs[i] in ys && ys[j] in xs;
    forall c ensures c in Reduce(xs).capabilities <==> c in Reduce(ys).capabilities {
      CapabilityOfSome(xs, c);
      CapabilityOfSome(ys, c);
      if k :| 0 <= k < |xs| && c in xs[k].capabilities {
        assert xs[k] in ys;
      }
      if k :| 0 <= k < |ys| && c in ys[k].capabilities {
        assert ys[k] in xs;
      }
    }
  }
}
