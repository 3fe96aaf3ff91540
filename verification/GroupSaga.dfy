/** Adding a user to Keycloak groups, or removing them, with rollback of what succeeded. */
module GroupSaga {
  import opened Prelude

  datatype Action = Add | Remove

  function Inverse(a: Action): Action { if a == Add then Remove else Add }

  /** What calls that succeed for the given groups do to a user's membership. */
  function Effect(a: Action, member: set<string>, ids: set<string>): set<string> {
    if a == Add then member + ids else member - ids
  }

  function Elements(s: seq<string>): set<string> { set x | x in s }

  /** The elements at the positions kept, in order. */
  function Pick(s: seq<string>, keep: nat -> bool): (r: seq<string>)
    ensures |r| <= |s|
    ensures forall x :: x in r <==> exists i :: 0 <= i < |s| && s[i] == x && keep(i)
  {
    if s == [] then []
    else
      var n := |s| - 1;
      Pick(s[..n], keep) + if keep(n) then [s[n]] else []
  }

  function Not(p: nat -> bool): nat -> bool { (i: nat) => !p(i) }

  /** An order in which `n` concurrent calls take effect. */
  ghost predicate IsSchedule(order: seq<nat>, n: nat) {
    Distinct(order) && forall i :: i in order <==> i < n
  }

  datatype Outcome = Done | Failed(failures: seq<string>, rollbackFailures: seq<string>)

  /** Membership after the whole transaction. */
  function Final(
    a: Action, member: set<string>, ids: seq<string>, fails: nat -> bool, rollbackFails: nat -> bool): set<string>
  {
    var successes := Pick(ids, Not(fails));
    var tried := Effect(a, member, Elements(successes));
    if Pick(ids, fails) == [] then tried
    else Effect(Inverse(a), tried, Elements(Pick(successes, Not(rollbackFails))))
  }

  /** The loop over the settled results. */
  method Partition(ids: seq<string>, fails: nat -> bool) returns (successes: seq<string>, failures: seq<string>)
    ensures successes == Pick(ids, Not(fails)) && failures == Pick(ids, fails)
  {
    successes, failures := [], [];
    for index := 0 to |ids|
      invariant successes == Pick(ids[..index], Not(fails)) && failures == Pick(ids[..index], fails)
    {
      assert ids[..index + 1][..index] == ids[..index];
      if !fails(index) {
        successes := successes + [ids[index]];
      } else {
        failures := failures + [ids[index]];
      }
    }
    assert ids[..|ids|] == ids;
  }

  class Keycloak {
    /** Groups of the user. */
    var member: set<string>

    constructor ()
      ensures member == {}
    {
      member := {};
    }

    /** All calls at once: those that do not fail take effect in some order, a failed one has no effect. */
    method AllSettled(a: Action, ids: seq<string>, fails: nat -> bool, order: seq<nat>)
      requires IsSchedule(order, |ids|)
      modifies this
      ensures member == Effect(a, old(member), Elements(Pick(ids, Not(fails))))
    {
      ghost var before := member;
      for k := 0 to |order|
        invariant member == Effect(a, before, set i | i in order[..k] && i < |ids| && !fails(i) :: ids[i])
      {
        var i := order[k];
        assert i in order;
        assert order[..k + 1] == order[..k] + [i];
        if !fails(i) {
          member := Effect(a, member, {ids[i]});
        }
      }
      assert order[..|order|] == order;
      assert Elements(Pick(ids, Not(fails))) == set i | i in order && i < |ids| && !fails(i) :: ids[i];
    }

    /** Both transactions: they differ in the call made and in the call that undoes it. */
    method Transactional(
      a: Action, groupIds: seq<string>, fails: nat -> bool, rollbackFails: nat -> bool, schedule: nat -> seq<nat>)
      returns (r: Outcome)
      requires forall n :: IsSchedule(schedule(n), n)
      modifies this
      ensures member == Final(a, old(member), groupIds, fails, rollbackFails)
      ensures r.Done? <==> forall i :: 0 <= i < |groupIds| ==> !fails(i)
      ensures r.Failed? ==> r.failures == Pick(groupIds, fails)
      ensures r.Failed? ==> r.rollbackFailures == Pick(Pick(groupIds, Not(fails)), rollbackFails)
    {
      if |groupIds| == 0 {
        assert Elements([]) == {};
        return Done;
      }
      AllSettled(a, groupIds, fails, schedule(|groupIds|));
      var successes, failures := Partition(groupIds, fails);
      if |failures| == 0 {
        forall i | 0 <= i < |groupIds| ensures !fails(i) {
          assert groupIds[i] !in failures;
        }
        return Done;
      }
      assert failures[0] in failures;
      AllSettled(Inverse(a), successes, rollbackFails, schedule(|successes|));
      var _, rollbackFailures := Partition(successes, rollbackFails);
      r := Failed(failures, rollbackFailures);
    }
  }

  // ---- What a failed transaction leaves behind ----

  lemma {:induction false} PickDistinct(s: seq<string>, keep: nat -> bool)
    requires Distinct(s)
    ensures Distinct(Pick(s, keep))
  {
    if s != [] {
      var n := |s| - 1;
      PickDistinct(s[..n], keep);
      var front := Pick(s[..n], keep);
      forall k | 0 <= k < |front| ensures front[k] != s[n] {
        assert front[k] in front;
        var i :| 0 <= i < n && s[..n][i] == front[k];
        assert s[i] == front[k];
      }
    }
  }

  /** Of distinct elements, those not kept are those left out. */
  lemma PickSplits(s: seq<string>, keep: nat -> bool)
    requires Distinct(s)
    ensures Elements(Pick(s, Not(keep))) == Elements(s) - Elements(Pick(s, keep))
    ensures Elements(Pick(s, keep)) <= Elements(s)
  {
  }

  /**
   Where the user ends up, group by group: a group whose call succeeded is changed if nothing failed at all, and else
   changed exactly if its rollback failed; all other groups are left alone.
   */
  lemma FinalMeans(
    a: Action, member: set<string>, ids: seq<string>, fails: nat -> bool, rollbackFails: nat -> bool, x: string)
    requires Distinct(ids)
    ensures var successes := Pick(ids, Not(fails));
      x in Final(a, member, ids, fails, rollbackFails) <==>
        if x !in successes then x in member
        else if Pick(ids, fails) == [] || x in Pick(successes, rollbackFails) then a == Add
        else a == Remove
  {
    var successes := Pick(ids, Not(fails));
    PickDistinct(ids, Not(fails));
    PickSplits(successes, rollbackFails);
    assert x in Elements(Pick(successes, Not(rollbackFails))) <==>
      x in Elements(successes) && x !in Elements(Pick(successes, rollbackFails));
  }

  /** The user is where the transaction would take them from: in no group to add, in every group to remove. */
  predicate Untouched(a: Action, member: set<string>, ids: set<string>) {
    forall x :: x in ids ==> (x in member <==> a == Remove)
  }

  /**
   A failed transaction leaves the initial membership changed by exactly the reported rollback
   failures if and only if the user was where each rolled back call took them from.
   */
  lemma FailureLeavesRollbackFailuresIff(
    a: Action, member: set<string>, ids: seq<string>, fails: nat -> bool, rollbackFails: nat -> bool)
    requires Distinct(ids) && Pick(ids, fails) != []
    ensures
      var successes := Pick(ids, Not(fails));
      Final(a, member, ids, fails, rollbackFails) == Effect(a, member, Elements(Pick(successes, rollbackFails)))
      <==> Untouched(a, member, Elements(Pick(successes, Not(rollbackFails))))
  {
    var successes := Pick(ids, Not(fails));
    PickDistinct(ids, Not(fails));
    PickSplits(successes, rollbackFails);
    var all, undone, left :=
      Elements(successes), Elements(Pick(successes, Not(rollbackFails))), Elements(Pick(successes, rollbackFails));
    assert undone == all - left && left <= all;
    var final := Final(a, member, ids, fails, rollbackFails);
    if a == Add {
      assert final == (member + all) - undone;
      assert forall x :: x in undone ==> x !in final;
    } else {
      assert final == (member - all) + undone;
      assert forall x :: x in undone ==> x in final;
    }
    assert Untouched(a, member, undone) ==> final == Effect(a, member, left);
  }

  /** Either everything happens, or the reported rollback failures do and nothing else. */
  lemma AllOrReported(a: Action, member: set<string>, ids: seq<string>, fails: nat -> bool, rollbackFails: nat -> bool)
    requires Distinct(ids) && Untouched(a, member, Elements(ids))
    ensures Final(a, member, ids, fails, rollbackFails)
      == if Pick(ids, fails) == [] then Effect(a, member, Elements(ids))
         else Effect(a, member, Elements(Pick(Pick(ids, Not(fails)), rollbackFails)))
  {
    PickSplits(ids, fails);
    if Pick(ids, fails) != [] {
      var successes := Pick(ids, Not(fails));
      FailureLeavesRollbackFailuresIff(a, member, ids, fails, rollbackFails);
      forall x | x in Pick(successes, Not(rollbackFails)) ensures x in Elements(ids) {
        assert x in successes;
      }
    } else {
      assert Elements([]) == {};
    }
  }

  /** If the transaction fails, it leaves the initial membership changed by just the reported rollback failures. */
  ghost predicate Restores(
    a: Action, member: set<string>, ids: seq<string>, fails: nat -> bool, rollbackFails: nat -> bool)
  {
    Pick(ids, fails) != [] ==>
      Final(a, member, ids, fails, rollbackFails)
      == Effect(a, member, Elements(Pick(Pick(ids, Not(fails)), rollbackFails)))
  }

  /** With two groups, rolling back the call for a group the user was already in, or out of, goes too far. */
  lemma RollbackGoesTooFar(a: Action, member: set<string>, ids: seq<string>, k: nat)
    returns (fails: nat -> bool, rollbackFails: nat -> bool)
    requires Distinct(ids) && |ids| > 1 && k < |ids| && (ids[k] in member <==> a == Add)
    ensures !Restores(a, member, ids, fails, rollbackFails)
  {
    fails, rollbackFails := (i: nat) => i != k, (i: nat) => false;
    var x, successes := ids[k], Pick(ids, Not(fails));
    assert Not(fails)(k) && x in successes;
    var j :| 0 <= j < |successes| && successes[j] == x;
    assert Not(rollbackFails)(j) && x in Pick(successes, Not(rollbackFails));
    var m := if k == 0 then 1 else 0;
    assert fails(m) && ids[m] in Pick(ids, fails);
    FailureLeavesRollbackFailuresIff(a, member, ids, fails, rollbackFails);
    assert x in Elements(Pick(successes, Not(rollbackFails)));
  }

  lemma OneGroupRestores(
    a: Action, member: set<string>, ids: seq<string>, fails: nat -> bool, rollbackFails: nat -> bool)
    requires |ids| <= 1
    ensures Restores(a, member, ids, fails, rollbackFails)
  {
  }

  /**
   Whatever fails, membership is restored up to the reported rollback failures exactly when there is
   one group at most or the user starts untouched by all of them.
   */
  lemma AlwaysRestoredIff(a: Action, member: set<string>, ids: seq<string>)
    requires Distinct(ids)
    ensures (forall fails, rollbackFails :: Restores(a, member, ids, fails, rollbackFails))
      <==> |ids| <= 1 || Untouched(a, member, Elements(ids))
  {
    if |ids| > 1 && !Untouched(a, member, Elements(ids)) {
      var x :| x in Elements(ids) && !(x in member <==> a == Remove);
      var k :| 0 <= k < |ids| && ids[k] == x;
      var fails, rollbackFails := RollbackGoesTooFar(a, member, ids, k);
    } else {
      forall fails, rollbackFails ensures Restores(a, member, ids, fails, rollbackFails) {
        if |ids| <= 1 {
          OneGroupRestores(a, member, ids, fails, rollbackFails);
        } else {
          AllOrReported(a, member, ids, fails, rollbackFails);
        }
      }
    }
  }
}
