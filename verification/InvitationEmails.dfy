/**
 Emails for a batch of invitations: one for each group and one for each invitation without a group.
 The grouping is stated for any items `T` with a group `G`, and used for invitations.
 */
module InvitationEmails {
  import opened Prelude
  import I = Invitations

  /** The items of one group, or those without a group, in order. */
  function Members<T, G(==)>(s: seq<T>, f: T -> Option<G>, g: Option<G>): seq<T> {
    if s == [] then []
    else Members(s[..|s| - 1], f, g) + if f(s[|s| - 1]) == g then [s[|s| - 1]] else []
  }

  /** Groups in the order a JavaScript Map keeps them: that of their first appearance. */
  function GroupOrder<T, G(==)>(s: seq<T>, f: T -> Option<G>): seq<G> {
    if s == [] then []
    else
      var before, g := GroupOrder(s[..|s| - 1], f), f(s[|s| - 1]);
      if g.None? || g.value in before then before else before + [g.value]
  }

  function Singles<T>(s: seq<T>): seq<seq<T>> {
    if s == [] then [] else Singles(s[..|s| - 1]) + [[s[|s| - 1]]]
  }

  function Groups<T, G(==)>(s: seq<T>, f: T -> Option<G>, order: seq<G>): seq<seq<T>> {
    if order == [] then []
    else Groups(s, f, order[..|order| - 1]) + [Members(s, f, Some(order[|order| - 1]))]
  }

  /** The items each email is about. */
  function Batches<T, G(==)>(s: seq<T>, f: T -> Option<G>): seq<seq<T>> {
    Singles(Members(s, f, None)) + Groups(s, f, GroupOrder(s, f))
  }

  lemma {:induction false} GroupOrderIs<T, G>(s: seq<T>, f: T -> Option<G>, g: G)
    ensures g in GroupOrder(s, f) <==> Members(s, f, Some(g)) != []
  {
    if s != [] {
      GroupOrderIs(s[..|s| - 1], f, g);
    }
  }

  // ---- The loops ----

  /** What a Map lookup with an empty default gives. */
  function Lookup<T, G>(grouped: map<G, seq<T>>, g: G): seq<T> { if g in grouped then grouped[g] else [] }

  /** `grouped`, with its keys in `order`, is the Map after the given items. */
  ghost predicate IsGrouping<T, G(!new)>(grouped: map<G, seq<T>>, order: seq<G>, s: seq<T>, f: T -> Option<G>) {
    && order == GroupOrder(s, f)
    && (forall g :: g in order <==> g in grouped)
    && forall g :: Lookup(grouped, g) == Members(s, f, Some(g))
  }

  /** The loop that fills the Map and the list of items without a group. */
  method SplitByGroup<T, G(!new, ==)>(s: seq<T>, f: T -> Option<G>)
    returns (grouped: map<G, seq<T>>, order: seq<G>, ungrouped: seq<T>)
    ensures IsGrouping(grouped, order, s, f) && ungrouped == Members(s, f, None)
  {
    grouped, order, ungrouped := map[], [], [];
    for i := 0 to |s|
      invariant IsGrouping(grouped, order, s[..i], f) && ungrouped == Members(s[..i], f, None)
    {
      ghost var before := grouped;
      assert s[..i + 1][..i] == s[..i];
      if f(s[i]).Some? {
        var g := f(s[i]).value;
        order := if g in grouped then order else order + [g];
        grouped := grouped[g := Lookup(grouped, g) + [s[i]]];
      } else {
        ungrouped := ungrouped + [s[i]];
      }
      ghost var prefix := s[..i + 1];
      forall h ensures Lookup(grouped, h) == Members(prefix, f, Some(h)) {
        assert Lookup(before, h) == Members(s[..i], f, Some(h));
      }
    }
    assert s[..|s|] == s;
  }

  method Batch<T, G(!new, ==)>(s: seq<T>, f: T -> Option<G>) returns (emails: seq<seq<T>>)
    ensures emails == Batches(s, f)
  {
    var grouped, order, ungrouped := SplitByGroup(s, f);
    var single := WrapEach(ungrouped);
    var shared: seq<seq<T>> := [];
    for i := 0 to |order|
      invariant shared == Groups(s, f, order[..i])
    {
      assert order[i] in order && order[..i + 1][..i] == order[..i];
      assert Lookup(grouped, order[i]) == Members(s, f, Some(order[i]));
      shared := shared + [grouped[order[i]]];
    }
    assert order[..|order|] == order;
    emails := single + shared;
  }

  method WrapEach<T>(s: seq<T>) returns (r: seq<seq<T>>)
    ensures r == Singles(s)
  {
    r := [];
    for i := 0 to |s|
      invariant r == Singles(s[..i])
    {
      assert s[..i + 1][..i] == s[..i];
      r := r + [[s[i]]];
    }
    assert s[..|s|] == s;
  }

  // ---- Every item is in exactly one batch ----

  function Concat<T>(ss: seq<seq<T>>): seq<T> {
    if ss == [] then [] else Concat(ss[..|ss| - 1]) + ss[|ss| - 1]
  }

  lemma {:induction false} ConcatAppend<T>(a: seq<seq<T>>, b: seq<seq<T>>)
    ensures Concat(a + b) == Concat(a) + Concat(b)
  {
    if b == [] {
      assert a + b == a;
    } else {
      var front, last := b[..|b| - 1], b[|b| - 1];
      assert a + b == (a + front) + [last];
      ConcatAppend(a, front);
      ConcatSnoc(a + front, last);
    }
  }

  lemma ConcatSnoc<T>(a: seq<seq<T>>, last: seq<T>)
    ensures Concat(a + [last]) == Concat(a) + last
  {
  }

  lemma {:induction false} ConcatSingles<T>(s: seq<T>)
    ensures Concat(Singles(s)) == s
  {
    if s != [] {
      var n := |s| - 1;
      ConcatSingles(s[..n]);
      ConcatSnoc(Singles(s[..n]), [s[n]]);
    }
  }

  lemma {:induction false} MembersCount<T, G>(s: seq<T>, f: T -> Option<G>, g: Option<G>, x: T)
    ensures multiset(Members(s, f, g))[x] == if f(x) == g then multiset(s)[x] else 0
  {
    if s != [] {
      var n := |s| - 1;
      assert s == s[..n] + [s[n]];
      MembersCount(s[..n], f, g, x);
    }
  }

  lemma CountOneMoreGroup<T, G>(s: seq<T>, f: T -> Option<G>, order: seq<G>, g: G, x: T)
    ensures multiset(Concat(Groups(s, f, order + [g])))[x]
      == multiset(Concat(Groups(s, f, order)))[x] + if f(x) == Some(g) then multiset(s)[x] else 0
  {
    assert (order + [g])[..|order|] == order;
    ConcatSnoc(Groups(s, f, order), Members(s, f, Some(g)));
    MembersCount(s, f, Some(g), x);
  }

  lemma LastIsNew<G>(front: seq<G>, g: G)
    requires Distinct(front + [g])
    ensures Distinct(front) && g !in front
  {
    var all := front + [g];
    assert forall i :: 0 <= i < |front| ==> all[i] == front[i];
    assert forall i :: 0 <= i < |front| ==> all[i] != all[|front|];
  }

  lemma {:induction false} GroupsCount<T, G>(s: seq<T>, f: T -> Option<G>, order: seq<G>, x: T)
    requires Distinct(order)
    ensures multiset(Concat(Groups(s, f, order)))[x]
      == if f(x).Some? && f(x).value in order then multiset(s)[x] else 0
  {
    if order != [] {
      var front, g := order[..|order| - 1], order[|order| - 1];
      assert order == front + [g];
      LastIsNew(front, g);
      GroupsCount(s, f, front, x);
      CountOneMoreGroup(s, f, front, g, x);
    }
  }

  lemma BatchedOnce<T(!new), G>(s: seq<T>, f: T -> Option<G>)
    ensures multiset(Concat(Batches(s, f))) == multiset(s)
  {
    var order, alone := GroupOrder(s, f), Members(s, f, None);
    ConcatAppend(Singles(alone), Groups(s, f, order));
    ConcatSingles(alone);
    forall x ensures multiset(Concat(Batches(s, f)))[x] == multiset(s)[x] {
      MembersCount(s, f, f(x), x);
      MembersCount(s, f, None, x);
      if f(x).Some? {
        GroupOrderIs(s, f, f(x).value);
      }
      OrderDistinct(s, f);
      GroupsCount(s, f, order, x);
    }
  }

  lemma {:induction false} OrderDistinct<T, G>(s: seq<T>, f: T -> Option<G>)
    ensures Distinct(GroupOrder(s, f))
  {
    if s != [] {
      OrderDistinct(s[..|s| - 1], f);
    }
  }

  lemma {:induction false} GroupsAt<T, G>(s: seq<T>, f: T -> Option<G>, order: seq<G>, k: int)
    ensures |Groups(s, f, order)| == |order|
    ensures 0 <= k < |order| ==> Groups(s, f, order)[k] == Members(s, f, Some(order[k]))
  {
    if order != [] {
      GroupsAt(s, f, order[..|order| - 1], k);
    }
  }

  lemma {:induction false} SinglesAt<T>(s: seq<T>, k: int)
    ensures |Singles(s)| == |s| && (0 <= k < |s| ==> Singles(s)[k] == [s[k]])
  {
    if s != [] {
      SinglesAt(s[..|s| - 1], k);
    }
  }

  // ---- Invitations ----

  /** Group of an invitation; an empty id counts as none. */
  function GroupOf(): I.Invitation -> Option<string> {
    (inv: I.Invitation) => if inv.groupId == Some("") then None else inv.groupId
  }

  /** The invitations each email of buildInvitationEmails is about. */
  method BuildInvitationEmails(invs: seq<I.Invitation>) returns (emails: seq<seq<I.Invitation>>)
    ensures emails == Batches(invs, GroupOf())
    ensures multiset(Concat(emails)) == multiset(invs)
  {
    emails := Batch(invs, GroupOf());
    BatchedOnce(invs, GroupOf());
  }

  /**
   The first emails are about one invitation without a group each, in order; then comes one email for each group, in
   order of first appearance, about all its invitations.
   */
  lemma EmailsAre(invs: seq<I.Invitation>, k: nat)
    requires k < |Batches(invs, GroupOf())|
    ensures var emails, alone := Batches(invs, GroupOf()), Members(invs, GroupOf(), None);
      var order := GroupOrder(invs, GroupOf());
      && |emails| == |alone| + |order|
      && emails[k] == if k < |alone| then [alone[k]] else Members(invs, GroupOf(), Some(order[k - |alone|]))
  {
    var alone, order := Members(invs, GroupOf(), None), GroupOrder(invs, GroupOf());
    SinglesAt(alone, k);
    GroupsAt(invs, GroupOf(), order, k - |alone|);
  }

  /** A group, or being in none, has exactly the invitations that say so. */
  lemma {:induction false} MembersAre<T, G>(s: seq<T>, f: T -> Option<G>, g: Option<G>, x: T)
    ensures x in Members(s, f, g) <==> x in s && f(x) == g
  {
    if s != [] {
      MembersAre(s[..|s| - 1], f, g, x);
      assert x in s <==> x in s[..|s| - 1] || x == s[|s| - 1];
    }
  }

  /** The k-th grouped email is about all invitations of the k-th group and is not empty. */
  lemma GroupedEmailsAreGroups(invs: seq<I.Invitation>, k: nat)
    requires k < |GroupOrder(invs, GroupOf())|
    ensures var order := GroupOrder(invs, GroupOf());
      var emails := Groups(invs, GroupOf(), order);
      |emails| == |order| && emails[k] == Members(invs, GroupOf(), Some(order[k])) != []
  {
    GroupsAt(invs, GroupOf(), GroupOrder(invs, GroupOf()), k);
    GroupOrderIs(invs, GroupOf(), GroupOrder(invs, GroupOf())[k]);
  }

  /** An invitation is mailed alone exactly if it has no group id, or an empty one; else with those of its group id. */
  lemma MailedWith(invs: seq<I.Invitation>, x: I.Invitation, g: string)
    ensures x in Members(invs, GroupOf(), None) <==> x in invs && (x.groupId == None || x.groupId == Some(""))
    ensures x in Members(invs, GroupOf(), Some(g)) <==> x in invs && x.groupId == Some(g) && g != ""
  {
    MembersAre(invs, GroupOf(), None, x);
    MembersAre(invs, GroupOf(), Some(g), x);
  }
}
