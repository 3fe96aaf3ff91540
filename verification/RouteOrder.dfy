/** Reordering the points of an inspection route. */
module RouteOrder {
  import opened Prelude

  datatype Point = Point(id: string, order: int)

  datatype Update = Update(id: string, order: int)

  predicate DistinctIds(points: seq<Point>) {
    forall i, j :: 0 <= i < j < |points| ==> points[i].id != points[j].id
  }

  /** As read from the table; equal orders may come in any sequence. */
  predicate OrderSorted(points: seq<Point>) {
    forall i, j :: 0 <= i < j < |points| ==> points[i].order <= points[j].order
  }

  predicate Normalized(points: seq<Point>) { forall i :: 0 <= i < |points| ==> points[i].order == i }

  // ---- The operation ----

  /** First position of the id, or -1. */
  function FindIndex(points: seq<Point>, id: string): (k: int)
    ensures -1 <= k < |points|
    ensures k >= 0 ==> points[k].id == id
    ensures k == -1 <==> forall i :: 0 <= i < |points| ==> points[i].id != id
  {
    if points == [] then -1
    else
      var k := FindIndex(points[..|points| - 1], id);
      if k >= 0 then k else if points[|points| - 1].id == id then |points| - 1 else -1
  }

  function RemoveAt<T>(s: seq<T>, k: nat): seq<T>
    requires k < |s|
  {
    s[..k] + s[k + 1..]
  }

  function InsertAt<T>(s: seq<T>, k: nat, x: T): seq<T>
    requires k <= |s|
  {
    s[..k] + [x] + s[k..]
  }

  /** A negative start of splice counts from the end, so an unknown id takes the last point. */
  function Picked(points: seq<Point>, id: string): (k: nat)
    requires points != []
    ensures k < |points|
  {
    if FindIndex(points, id) == -1 then |points| - 1 else FindIndex(points, id)
  }

  /** Points that stay in front of the moved one. */
  function InFront(target: real, moveForward: bool): Point -> bool {
    (p: Point) => (moveForward && p.order as real == target) || (p.order as real) < target
  }

  function NewIndex(points: seq<Point>, k: nat, target: real): (n: nat)
    requires k < |points|
    ensures n < |points|
  {
    var rest := RemoveAt(points, k);
    TallyAllIff(rest, InFront(target, target > points[k].order as real));
    Tally(rest, InFront(target, target > points[k].order as real))
  }

  /** The points in their new sequence, orders not yet updated. */
  function Moved(points: seq<Point>, k: nat, target: real): (r: seq<Point>)
    requires k < |points|
    ensures |r| == |points|
  {
    InsertAt(RemoveAt(points, k), NewIndex(points, k, target), points[k])
  }

  /** Updates for the points among the first `n` whose order is not their position. */
  function Updates(points: seq<Point>, n: nat): seq<Update>
    requires n <= |points|
  {
    if n == 0 then []
    else Updates(points, n - 1) + if points[n - 1].order != n - 1 then [Update(points[n - 1].id, n - 1)] else []
  }

  /** Reading the order of an absent point is a TypeError, which happens exactly on a route without points. */
  method ReorderPoints(points: seq<Point>, id: string, target: real) returns (r: Option<seq<Update>>)
    ensures r.None? <==> points == []
    ensures points != [] ==> r == Some(Updates(Moved(points, Picked(points, id), target), |points|))
  {
    var allPoints := points;
    if |allPoints| == 0 {
      return None;
    }
    var currentIndex := FindIndex(allPoints, id);
    var at := if currentIndex < 0 then |allPoints| + currentIndex else currentIndex;
    var pointToMove := allPoints[at];
    allPoints := RemoveAt(allPoints, at);
    var moveForward := target > pointToMove.order as real;
    var newIndex := Tally(allPoints, InFront(target, moveForward));
    TallyAllIff(allPoints, InFront(target, moveForward));
    allPoints := InsertAt(allPoints, newIndex, pointToMove);
    var pointsToUpdate := [];
    for idx := 0 to |allPoints|
      invariant pointsToUpdate == Updates(allPoints, idx)
    {
      if allPoints[idx].order != idx {
        pointsToUpdate := pointsToUpdate + [Update(allPoints[idx].id, idx)];
      }
    }
    r := Some(pointsToUpdate);
  }

  // ---- The table afterwards ----

  /** Order of a point after the updates, the last one for its id winning. */
  function OrderAfter(p: Point, us: seq<Update>): int {
    if us == [] then p.order
    else if us[|us| - 1].id == p.id then us[|us| - 1].order
    else OrderAfter(p, us[..|us| - 1])
  }

  function After(points: seq<Point>, us: seq<Update>): (r: seq<Point>)
    ensures |r| == |points| && forall i :: 0 <= i < |r| ==> r[i] == points[i].(order := OrderAfter(points[i], us))
  {
    seq(|points|, i requires 0 <= i < |points| => points[i].(order := OrderAfter(points[i], us)))
  }

  function Renumbered(points: seq<Point>): (r: seq<Point>)
    ensures |r| == |points| && forall i :: 0 <= i < |r| ==> r[i] == points[i].(order := i)
  {
    seq(|points|, i requires 0 <= i < |points| => points[i].(order := i))
  }

  lemma OrderAfterOneMore(p: Point, us: seq<Update>, u: Update)
    ensures OrderAfter(p, us + [u]) == if u.id == p.id then u.order else OrderAfter(p, us)
  {
  }

  lemma OneMorePosition(points: seq<Point>, n: nat, i: nat)
    requires DistinctIds(points) && n < |points| && i < |points|
    ensures OrderAfter(points[i], Updates(points, n + 1))
      == if i == n && points[n].order != n then n else OrderAfter(points[i], Updates(points, n))
  {
    var us := Updates(points, n);
    if points[n].order != n {
      OrderAfterOneMore(points[i], us, Update(points[n].id, n));
    } else {
      assert us + [] == us;
    }
  }

  lemma {:induction false} UpdatesSetPosition(points: seq<Point>, n: nat, i: nat)
    requires DistinctIds(points) && n <= |points| && i < |points|
    ensures OrderAfter(points[i], Updates(points, n)) == if i < n then i else points[i].order
  {
    if n > 0 {
      UpdatesSetPosition(points, n - 1, i);
      OneMorePosition(points, n - 1, i);
    }
  }

  /** Just the emitted updates number the points 0 to n-1 in their new sequence. */
  lemma UpdatesRenumber(points: seq<Point>)
    requires DistinctIds(points)
    ensures After(points, Updates(points, |points|)) == Renumbered(points)
  {
    forall i | 0 <= i < |points| ensures OrderAfter(points[i], Updates(points, |points|)) == i {
      UpdatesSetPosition(points, |points|, i);
    }
  }

  /** Nothing is emitted exactly when the sequence is numbered already. */
  lemma {:induction false} NoUpdatesIff(points: seq<Point>, n: nat)
    requires n <= |points|
    ensures Updates(points, n) == [] <==> forall i :: 0 <= i < n ==> points[i].order == i
  {
    if n > 0 {
      NoUpdatesIff(points, n - 1);
    }
  }

  // ---- What the move does ----

  /** Where the point now at `i` was before one was moved from `k` to `m`. */
  function Origin(k: nat, m: nat, i: nat): nat {
    if i == m then k
    else
      var j := if i < m then i else i - 1;
      if j < k then j else j + 1
  }

  lemma MovedAt(points: seq<Point>, k: nat, target: real, i: nat)
    requires k < |points| && i < |points|
    ensures var o := Origin(k, NewIndex(points, k, target), i); o < |points| && Moved(points, k, target)[i] == points[o]
  {
  }

  lemma MovedKeepsIdsDistinct(points: seq<Point>, k: nat, target: real)
    requires DistinctIds(points) && k < |points|
    ensures DistinctIds(Moved(points, k, target))
  {
  }

  /** Apart from the moved point the sequence is the old one. */
  lemma OthersKeepTheirSequence(points: seq<Point>, k: nat, target: real)
    requires k < |points|
    ensures var r, m := Moved(points, k, target), NewIndex(points, k, target);
      r[m] == points[k] && RemoveAt(r, m) == RemoveAt(points, k)
  {
  }

  /** On a sorted list the target splits the other points: those in front come first, and no others. */
  lemma TargetSplitsOthers(points: seq<Point>, k: nat, target: real)
    requires OrderSorted(points) && k < |points|
    ensures var r, m := Moved(points, k, target), NewIndex(points, k, target);
      var forward := target > points[k].order as real;
      && (forall i :: 0 <= i < m ==> (r[i].order as real) < target || (forward && r[i].order as real == target))
      && (forall i :: m < i < |r| ==> r[i].order as real > target || (!forward && r[i].order as real == target))
  {
    var rest, p := RemoveAt(points, k), InFront(target, target > points[k].order as real);
    assert OrderSorted(rest);
    TallyPrefix(rest, p);
    var r, m := Moved(points, k, target), NewIndex(points, k, target);
    forall i | m < i < |r| ensures !p(r[i]) {
      assert r[i] == rest[i - 1];
    }
  }

  /** The table after the move: orders are exactly 0 to n-1, in the new sequence. */
  lemma MoveRenumbers(points: seq<Point>, k: nat, target: real)
    requires DistinctIds(points) && k < |points|
    ensures var r := Moved(points, k, target);
      After(r, Updates(r, |r|)) == Renumbered(r) && Normalized(Renumbered(r)) && DistinctIds(Renumbered(r))
  {
    MovedKeepsIdsDistinct(points, k, target);
    UpdatesRenumber(Moved(points, k, target));
  }

  // ---- Reading the route back ----

  lemma {:induction false} StrictOrdersAreAtLeast(s: seq<Point>, i: nat)
    requires i < |s| && (forall j :: 0 <= j < |s| ==> s[j].order >= 0)
    requires forall a, b :: 0 <= a < b < |s| ==> s[a].order < s[b].order
    ensures s[i].order >= i
  {
    if i > 0 {
      StrictOrdersAreAtLeast(s, i - 1);
    }
  }

  lemma {:induction false} StrictOrdersAreAtMost(s: seq<Point>, i: nat)
    requires i < |s| && (forall j :: 0 <= j < |s| ==> s[j].order < |s|)
    requires forall a, b :: 0 <= a < b < |s| ==> s[a].order < s[b].order
    ensures s[i].order <= i
    decreases |s| - i
  {
    if i < |s| - 1 {
      StrictOrdersAreAtMost(s, i + 1);
    }
  }

  /** A sorted listing of a numbered table has only one possible sequence. */
  lemma ReadBack(table: seq<Point>, r: seq<Point>)
    requires Normalized(table) && DistinctIds(r) && OrderSorted(r) && |r| == |table|
    requires forall i :: 0 <= i < |r| ==> r[i] in table
    ensures r == table
  {
    forall i | 0 <= i < |r| ensures 0 <= r[i].order < |table| && r[i] == table[r[i].order] {
      assert r[i] in table;
    }
    forall a, b | 0 <= a < b < |r| ensures r[a].order < r[b].order {
      assert r[a].id != r[b].id;
    }
    forall i | 0 <= i < |r| ensures r[i] == table[i] {
      StrictOrdersAreAtLeast(r, i);
      StrictOrdersAreAtMost(r, i);
    }
  }

  // ---- Moves on a numbered route ----

  function Ceil(x: real): int { -((-x).Floor) }

  /** Where a move to a target ends: fractions round towards the place the point comes from. */
  function Landing(n: nat, k: nat, target: real): int {
    if target > k as real then (if target.Floor < n - 1 then target.Floor else n - 1)
    else if Ceil(target) < 0 then 0 else Ceil(target)
  }

  lemma SamePrefix<T>(s: seq<T>, p: T -> bool, n: nat)
    requires n <= |s| && forall i :: 0 <= i < |s| ==> (p(s[i]) <==> i < n)
    ensures Tally(s, p) == n
  {
    TallyPrefix(s, p);
    var t := Tally(s, p);
    assert t < |s| ==> !p(s[t]);
    assert n < |s| ==> !p(s[n]);
  }

  lemma LandsAt(points: seq<Point>, k: nat, target: real)
    requires Normalized(points) && k < |points|
    ensures NewIndex(points, k, target) == Landing(|points|, k, target)
  {
    var rest, forward := RemoveAt(points, k), target > points[k].order as real;
    var p := InFront(target, forward);
    var n := Landing(|points|, k, target);
    forall i | 0 <= i < |rest| ensures p(rest[i]) <==> i < n {
      assert rest[i].order == if i < k then i else i + 1;
      if forward {
        assert p(rest[i]) <==> rest[i].order as real <= target;
        assert p(rest[i]) <==> rest[i].order <= target.Floor;
      } else {
        assert p(rest[i]) <==> (rest[i].order as real) < target;
        assert p(rest[i]) <==> rest[i].order < Ceil(target);
      }
    }
    SamePrefix(rest, p, n);
  }

  /** A whole-number target is reached exactly, clamped to the route. */
  lemma LandsAtClampedTarget(points: seq<Point>, k: nat, target: int)
    requires Normalized(points) && k < |points|
    ensures NewIndex(points, k, target as real)
      == if target < 0 then 0 else if target >= |points| then |points| - 1 else target
  {
    LandsAt(points, k, target as real);
  }

  function Move(points: seq<Point>, k: nat, target: real): (r: seq<Point>)
    requires k < |points|
  {
    Renumbered(Moved(points, k, target))
  }

  /** The moved point is found again where it landed. */
  lemma FoundWhereItLanded(points: seq<Point>, k: nat, target: real)
    requires DistinctIds(points) && k < |points|
    ensures Picked(Move(points, k, target), points[k].id) == NewIndex(points, k, target)
  {
    MoveRenumbers(points, k, target);
    OthersKeepTheirSequence(points, k, target);
    var r, m := Move(points, k, target), NewIndex(points, k, target);
    assert r[m].id == points[k].id;
    assert FindIndex(r, points[k].id) != -1;
  }

  /** Repeating a move changes and emits nothing. */
  lemma RepeatingEmitsNothing(points: seq<Point>, k: nat, target: real)
    requires Normalized(points) && DistinctIds(points) && k < |points|
    ensures var r, m := Move(points, k, target), NewIndex(points, k, target);
      Moved(r, m, target) == r && Updates(Moved(r, m, target), |r|) == []
  {
    var r, m := Move(points, k, target), NewIndex(points, k, target);
    LandsAt(points, k, target);
    LandsAt(r, m, target);
    assert Landing(|r|, m, target) == m;
    assert InsertAt(RemoveAt(r, m), m, r[m]) == r;
    NoUpdatesIff(r, |r|);
  }

  /** Moving the point back to its old position restores the route. */
  lemma MovingBackRestores(points: seq<Point>, k: nat, target: real)
    requires Normalized(points) && DistinctIds(points) && k < |points|
    ensures Move(Move(points, k, target), NewIndex(points, k, target), k as real) == points
  {
    var m := NewIndex(points, k, target);
    var r := Move(points, k, target);
    LandsAt(r, m, k as real);
    var back := Moved(r, m, k as real);
    assert NewIndex(r, m, k as real) == k;
    forall i | 0 <= i < |points| ensures back[i].id == points[i].id {
      MovedAt(r, m, k as real, i);
      MovedAt(points, k, target, Origin(m, k, i));
      assert Origin(k, m, Origin(m, k, i)) == i;
    }
  }

  // ---- Unknown ids ----

  /** The point moved is the one asked for exactly when the route has it. */
  lemma MovesRequestedPointIff(points: seq<Point>, id: string)
    requires points != []
    ensures points[Picked(points, id)].id == id <==> exists i :: 0 <= i < |points| && points[i].id == id
  {
  }

  /** The failing input: an id that is not on the route moves the last point. */
  lemma UnknownIdMovesLast(points: seq<Point>, id: string)
    requires points != [] && DistinctIds(points) && forall i :: 0 <= i < |points| ==> points[i].id != id
    ensures Picked(points, id) == Picked(points, points[|points| - 1].id) == |points| - 1
  {
  }

  /** The last point of a sorted list cannot move forward in it and leave positions numbered. */
  lemma MovedLastIsNumberedIff(points: seq<Point>, target: real)
    requires points != [] && OrderSorted(points)
    ensures Normalized(Moved(points, |points| - 1, target))
      <==> Normalized(points) && NewIndex(points, |points| - 1, target) == |points| - 1
  {
    var n := |points| - 1;
    var r, m := Moved(points, n, target), NewIndex(points, n, target);
    if m == n {
      assert r == points;
    } else {
      MovedAt(points, n, target, m);
      MovedAt(points, n, target, n);
      assert r[m] == points[n] && r[n] == points[n - 1] && r[n].order <= r[m].order;
    }
  }

  /** Where the last point of a numbered route stays. */
  lemma LastStaysIff(points: seq<Point>, target: real)
    requires points != [] && Normalized(points)
    ensures NewIndex(points, |points| - 1, target) == |points| - 1
      <==> |points| == 1 || target > (|points| - 2) as real
  {
    LandsAt(points, |points| - 1, target);
  }

  /**
   A call with an unknown id leaves the route alone exactly when the route is numbered and the target
   does not come before its last point.
   */
  lemma UnknownIdEmitsNothingIff(points: seq<Point>, id: string, target: real)
    requires points != [] && OrderSorted(points) && forall i :: 0 <= i < |points| ==> points[i].id != id
    ensures Updates(Moved(points, Picked(points, id), target), |points|) == []
      <==> Normalized(points) && (|points| == 1 || target > (|points| - 2) as real)
  {
    NoUpdatesIff(Moved(points, |points| - 1, target), |points|);
    MovedLastIsNumberedIff(points, target);
    if Normalized(points) {
      LastStaysIff(points, target);
    }
  }
}
