/**
 Where the answers of getOrSet come from, said on the steps of a run: the reads, factories and writes of the calls.
 */
module CoalescingAnswers {
  import opened Prelude
  import opened Coalescing

  /** At step `n` a read of the key is answered `r`: an error of its own, or what the cache holds at that point. */
  ghost predicate ReadYields(es: seq<Event>, n: nat, k: Key, failure: Option<string>, r: Outcome)
    requires n < |es|
  {
    match failure
    case Some(e) => r == Threw(e)
    case None =>
      && Legal(es[..n])
      && var cache := After(es[..n]).cache;
         if k in cache then r == Returned(cache[k]) else r == Returned(Nil)
  }

  ghost predicate FirstRead(es: seq<Event>, id: CallId, k: Key, r: Outcome) {
    exists n, f :: 0 <= n < |es| && es[n] == ReadFirst(id, f) && ReadYields(es, n, k, f, r)
  }

  ghost predicate SecondRead(es: seq<Event>, id: CallId, k: Key, r: Outcome) {
    exists n, f :: 0 <= n < |es| && es[n] == ReadSecond(id, f) && ReadYields(es, n, k, f, r)
  }

  /** The call looked twice and found nothing. */
  ghost predicate Missed(es: seq<Event>, id: CallId, k: Key) {
    FirstRead(es, id, k, Returned(Nil)) && SecondRead(es, id, k, Returned(Nil))
  }

  /** What happened in the run that explains where a call stands. */
  ghost predicate Explained(es: seq<Event>, id: CallId, stage: Stage) {
    var k := stage.key;
    match stage
    case AwaitGet(_) => true
    case GotFirst(_, r) => FirstRead(es, id, k, r)
    case Following(_, _) => FirstRead(es, id, k, Returned(Nil))
    case AwaitRecheck(_) => FirstRead(es, id, k, Returned(Nil))
    case GotSecond(_, r) => FirstRead(es, id, k, Returned(Nil)) && SecondRead(es, id, k, r)
    case Running(_) => Missed(es, id, k)
    case Setting(_, v) => Missed(es, id, k) && FactorySettles(id, Returned(v)) in es
    case SetSettled(_, r) => Missed(es, id, k) && WriteExplained(es, id, r)
    case Settled(_, r) => FirstRead(es, id, k, Returned(Nil)) && LeaderExplained(es, id, k, r)
    case Answered(_, r, via) => if via.Some? then FirstRead(es, id, k, Returned(Nil))
                                else r != Returned(Nil) && FirstRead(es, id, k, r)
  }

  /** The factory returned the value and the write succeeded, or the write threw. */
  ghost predicate WriteExplained(es: seq<Event>, id: CallId, r: Outcome) {
    match r
    case Returned(_) => FactorySettles(id, r) in es && ApplySet(id, None) in es
    case Threw(e) => ApplySet(id, Some(e)) in es
  }

  /**
   A leader has what its own second read found or threw; or else that found nothing, and it has what its own factory
   returned, or the error of its factory or write.
   */
  ghost predicate LeaderExplained(es: seq<Event>, id: CallId, k: Key, r: Outcome) {
    || (r != Returned(Nil) && SecondRead(es, id, k, r))
    || (Missed(es, id, k) && ((r.Threw? && FactorySettles(id, r) in es) || WriteExplained(es, id, r)))
  }

  lemma ReadStays(es: seq<Event>, e: Event, n: nat, k: Key, f: Option<string>, r: Outcome)
    requires n < |es| && ReadYields(es, n, k, f, r)
    ensures ReadYields(es + [e], n, k, f, r)
  {
    assert (es + [e])[..n] == es[..n];
  }

  lemma ExplanationStays(es: seq<Event>, e: Event, id: CallId, stage: Stage)
    requires Explained(es, id, stage)
    ensures Explained(es + [e], id, stage)
  {
    forall n, f, k, r | 0 <= n < |es| && ReadYields(es, n, k, f, r)
      ensures (es + [e])[n] == es[n] && ReadYields(es + [e], n, k, f, r)
    {
      ReadStays(es, e, n, k, f, r);
    }
  }

  /** The call a step belongs to. */
  function Actor(e: Event): Option<CallId> {
    match e
    case Put(_, _) => None
    case Delete(_) => None
    case Clear => None
    case _ => Some(e.id)
  }

  lemma OnlyActorMoves(s: State, e: Event, id: CallId)
    requires Enabled(s, e) && Actor(e) != Some(id) && At(Next(s, e), id)
    ensures At(s, id) && Next(s, e).calls[id] == s.calls[id]
  {
  }

  lemma ReadNowYields(es: seq<Event>, e: Event, k: Key, f: Option<string>)
    requires Legal(es)
    ensures ReadYields(es + [e], |es|, k, f, ReadNow(After(es), k, f))
  {
    assert (es + [e])[..|es|] == es;
  }

  lemma ReadExplains(es: seq<Event>, e: Event)
    requires Legal(es) && Enabled(After(es), e) && (e.ReadFirst? || e.ReadSecond?)
    requires Explained(es + [e], e.id, After(es).calls[e.id])
    ensures Explained(es + [e], e.id, Next(After(es), e).calls[e.id])
  {
    assert (es + [e])[|es|] == e;
    ReadNowYields(es, e, After(es).calls[e.id].key, e.failure);
  }

  /** The step itself explains where it leaves its call, given where it found it. */
  lemma StepExplains(es: seq<Event>, e: Event, id: CallId)
    requires Legal(es) && Enabled(After(es), e) && Actor(e) == Some(id)
    requires At(After(es), id) ==> Explained(es + [e], id, After(es).calls[id])
    ensures At(Next(After(es), e), id) && Explained(es + [e], id, Next(After(es), e).calls[id])
  {
    assert e in es + [e];
    if e.ReadFirst? || e.ReadSecond? {
      ReadExplains(es, e);
    }
  }

  lemma {:induction false} RunsAreExplained(es: seq<Event>, id: CallId)
    requires Legal(es) && At(After(es), id)
    ensures Explained(es, id, After(es).calls[id])
  {
    if es != [] {
      var before, e := es[..|es| - 1], es[|es| - 1];
      assert es == before + [e];
      if At(After(before), id) {
        RunsAreExplained(before, id);
      }
      if Actor(e) == Some(id) {
        if At(After(before), id) {
          ExplanationStays(before, e, id, After(before).calls[id]);
        }
        StepExplains(before, e, id);
      } else {
        OnlyActorMoves(After(before), e, id);
        ExplanationStays(before, e, id, After(before).calls[id]);
      }
    }
  }

  /**
   In every run, whoever is answered: from the cache with what its own first read found there, or with its error; or,
   when that read found nothing, with the outcome of a leader of the same key, which is what that leader's second
   read found, or else what its factory returned, or the error of its read, factory or write.
   */
  lemma AnswersAreExplained(es: seq<Event>, id: CallId)
    requires Legal(es) && At(After(es), id)
    ensures var stage := After(es).calls[id];
      && (stage.Settled? ==> LeaderExplained(es, id, stage.key, stage.result))
      && (stage.Answered? && stage.via.Some? ==> LeaderExplained(es, stage.via.value, stage.key, stage.result))
      && (stage.Answered? && stage.via.None? ==>
            stage.result != Returned(Nil) && FirstRead(es, id, stage.key, stage.result))
      && (stage.Settled? || (stage.Answered? && stage.via.Some?) ==> FirstRead(es, id, stage.key, Returned(Nil)))
  {
    RunsAreExplained(es, id);
    RunsAreValid(es);
    var stage := After(es).calls[id];
    if stage.Answered? && stage.via.Some? {
      RunsAreExplained(es, stage.via.value);
    }
  }

  predicate SameEntry(before: map<Key, Value>, after: map<Key, Value>, k: Key) {
    (k in after <==> k in before) && (k in before ==> after[k] == before[k])
  }

  /** Only puts, deletions and successful writes change an entry; a write stores what the call's factory returned. */
  ghost predicate EntryChanges(es: seq<Event>, e: Event, k: Key, before: map<Key, Value>, after: map<Key, Value>)
    requires Legal(es) && Enabled(After(es), e)
  {
    if e.Put? && e.key == k then k in after && after[k] == e.value
    else if (e.Delete? && k in e.keys) || e.Clear? then k !in after
    else if e.ApplySet? && e.failure.None? && After(es).calls[e.id].key == k then
      k in after && FactorySettles(e.id, Returned(after[k])) in es
    else SameEntry(before, after, k)
  }

  lemma EntryAfter(es: seq<Event>, e: Event, k: Key)
    requires Legal(es) && Enabled(After(es), e)
    ensures EntryChanges(es, e, k, After(es).cache, Next(After(es), e).cache)
  {
    if e.ApplySet? {
      RunsAreExplained(es, e.id);
    }
  }

  lemma StepKeepsKey(s: State, e: Event, id: CallId)
    requires Enabled(s, e) && At(Next(s, e), id)
    ensures if At(s, id) then Next(s, e).calls[id].key == s.calls[id].key else e == Invoke(id, Next(s, e).calls[id].key)
  {
  }

  /** A call is for the key it was made with. */
  lemma {:induction false} KeyIsInvoked(es: seq<Event>, id: CallId)
    requires Legal(es) && At(After(es), id)
    ensures Invoke(id, After(es).calls[id].key) in es
  {
    var before, e := es[..|es| - 1], es[|es| - 1];
    StepKeepsKey(After(before), e, id);
    if At(After(before), id) {
      KeyIsInvoked(before, id);
    }
  }
}
