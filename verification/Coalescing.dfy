/**
 Request coalescing of MemoryCacheService.getOrSet as a protocol of interleaved steps.

 Every `await` is a point where any other call may run. A cache read is one step that fixes
 the value read and a second step in which the suspended caller resumes, so other calls may
 run between the two; the same holds for the cache write. A promise is named by the call
 that created it.
 */
module Coalescing {
  import opened Prelude

  type Key = string
  type CallId = nat

  /** A cached value; `Nil` stands for null and undefined. */
  datatype Value = Nil | Val(payload: string)

  datatype Outcome = Returned(value: Value) | Threw(error: string)

  /** Where one getOrSet call is suspended. */
  datatype Stage =
    | AwaitGet(key: Key)
    | GotFirst(key: Key, read: Outcome)
    | Following(key: Key, leader: CallId)
    | AwaitRecheck(key: Key)
    | GotSecond(key: Key, read: Outcome)
    | Running(key: Key)
    | Setting(key: Key, value: Value)
    | SetSettled(key: Key, result: Outcome)
    | Settled(key: Key, result: Outcome)                          // a leader whose promise is settled
    | Answered(key: Key, result: Outcome, via: Option<CallId>)    // from the first read, or from a leader

  datatype State = State(cache: map<Key, Value>, inFlight: map<Key, CallId>, calls: map<CallId, Stage>)

  datatype Event =
    | Invoke(id: CallId, key: Key)
    | ReadFirst(id: CallId, failure: Option<string>)
    | ResumeFirst(id: CallId)
    | ReadSecond(id: CallId, failure: Option<string>)
    | ResumeSecond(id: CallId)
    | FactorySettles(id: CallId, outcome: Outcome)
    | ApplySet(id: CallId, failure: Option<string>)
    | ResumeSet(id: CallId)
    | ResumeFollower(id: CallId)
    | Put(key: Key, value: Value)        // set, called from elsewhere
    | Delete(keys: set<Key>)             // del, mdel, or the expiry of entries
    | Clear

  const INITIAL := State(map[], map[], map[])

  predicate At(s: State, id: CallId) { id in s.calls }

  predicate Enabled(s: State, e: Event) {
    match e
    case Invoke(id, _) => id !in s.calls
    case ReadFirst(id, _) => At(s, id) && s.calls[id].AwaitGet?
    case ResumeFirst(id) => At(s, id) && s.calls[id].GotFirst?
    case ReadSecond(id, _) => At(s, id) && s.calls[id].AwaitRecheck?
    case ResumeSecond(id) => At(s, id) && s.calls[id].GotSecond?
    case FactorySettles(id, _) => At(s, id) && s.calls[id].Running?
    case ApplySet(id, _) => At(s, id) && s.calls[id].Setting?
    case ResumeSet(id) => At(s, id) && s.calls[id].SetSettled?
    case ResumeFollower(id) =>
      At(s, id) && s.calls[id].Following? && At(s, s.calls[id].leader) && s.calls[s.calls[id].leader].Settled?
    case Put(_, _) => true
    case Delete(_) => true
    case Clear => true
  }

  /** What a cache read yields now: the entry, undefined, or a rejection. */
  function ReadNow(s: State, key: Key, failure: Option<string>): Outcome {
    if failure.Some? then Threw(failure.value)
    else if key in s.cache then Returned(s.cache[key]) else Returned(Nil)
  }

  function Move(s: State, id: CallId, stage: Stage): State { s.(calls := s.calls[id := stage]) }

  /** The `finally` block: drop the in-flight entry of the key and settle the promise. */
  function Finish(s: State, id: CallId, key: Key, result: Outcome): State {
    Move(s.(inFlight := s.inFlight - {key}), id, Settled(key, result))
  }

  function Next(s: State, e: Event): State
    requires Enabled(s, e)
  {
    match e
    case Invoke(id, key) => Move(s, id, AwaitGet(key))
    case ReadFirst(id, failure) =>
      var key := s.calls[id].key;
      Move(s, id, GotFirst(key, ReadNow(s, key, failure)))
    case ResumeFirst(id) =>
      var GotFirst(key, read) := s.calls[id];
      if read != Returned(Nil) then Move(s, id, Answered(key, read, None))
      else if key in s.inFlight then Move(s, id, Following(key, s.inFlight[key]))
      else Move(s, id, AwaitRecheck(key)).(inFlight := s.inFlight[key := id])
    case ReadSecond(id, failure) =>
      var key := s.calls[id].key;
      Move(s, id, GotSecond(key, ReadNow(s, key, failure)))
    case ResumeSecond(id) =>
      var GotSecond(key, read) := s.calls[id];
      if read != Returned(Nil) then Finish(s, id, key, read) else Move(s, id, Running(key))
    case FactorySettles(id, outcome) =>
      var key := s.calls[id].key;
      if outcome.Threw? then Finish(s, id, key, outcome) else Move(s, id, Setting(key, outcome.value))
    case ApplySet(id, failure) =>
      var Setting(key, value) := s.calls[id];
      if failure.Some? then Move(s, id, SetSettled(key, Threw(failure.value)))
      else Move(s, id, SetSettled(key, Returned(value))).(cache := s.cache[key := value])
    case ResumeSet(id) =>
      var SetSettled(key, result) := s.calls[id];
      Finish(s, id, key, result)
    case ResumeFollower(id) =>
      var Following(key, leader) := s.calls[id];
      Move(s, id, Answered(key, s.calls[leader].result, Some(leader)))
    case Put(key, value) => s.(cache := s.cache[key := value])
    case Delete(keys) => s.(cache := s.cache - keys)
    case Clear => s.(cache := map[])
  }

  /**
   The service itself. `calls` holds the suspended continuations; each method is the code that
   runs between two awaits, or one access of the cache behind an await.
   */
  class MemoryCacheService {
    var cache: map<Key, Value>
    var inFlight: map<Key, CallId>
    var calls: map<CallId, Stage>
    ghost var log: seq<Event>

    function View(): State
      reads this
    {
      State(cache, inFlight, calls)
    }

    /** The log is a run of the protocol and the fields are the state it leads to. */
    ghost predicate Faithful()
      reads this
    {
      Legal(log) && View() == After(log)
    }

    constructor ()
      ensures Faithful() && log == []
    {
      cache, inFlight, calls, log := map[], map[], map[], [];
    }

    /** Write down the step about to be taken. */
    ghost method Log(e: Event)
      requires Faithful() && Enabled(View(), e)
      modifies this`log
      ensures log == old(log) + [e] && Legal(log) && After(log) == Next(View(), e)
    {
      Extend(log, e);
      log := log + [e];
    }

    /** getOrSet up to its first await. */
    method GetOrSet(id: CallId, key: Key)
      requires Faithful() && Enabled(View(), Invoke(id, key))
      modifies this
      ensures Faithful() && log == old(log) + [Invoke(id, key)] && View() == Next(old(View()), Invoke(id, key))
    {
      Log(Invoke(id, key));
      calls := calls[id := AwaitGet(key)];
    }

    method CacheGet(key: Key, failure: Option<string>) returns (read: Outcome)
      ensures read == ReadNow(View(), key, failure)
    {
      if failure.Some? {
        read := Threw(failure.value);
      } else if key in cache {
        read := Returned(cache[key]);
      } else {
        read := Returned(Nil);
      }
    }

    method FirstReadSettles(id: CallId, failure: Option<string>)
      requires Faithful() && Enabled(View(), ReadFirst(id, failure))
      modifies this
      ensures Faithful() && log == old(log) + [ReadFirst(id, failure)]
      ensures View() == Next(old(View()), ReadFirst(id, failure))
    {
      Log(ReadFirst(id, failure));
      var key := calls[id].key;
      var read := CacheGet(key, failure);
      calls := calls[id := GotFirst(key, read)];
    }

    /** From the first read to the next await: answer, follow, or create the promise and lead. */
    method AfterFirstRead(id: CallId)
      requires Faithful() && Enabled(View(), ResumeFirst(id))
      modifies this
      ensures Faithful() && log == old(log) + [ResumeFirst(id)] && View() == Next(old(View()), ResumeFirst(id))
    {
      Log(ResumeFirst(id));
      var GotFirst(key, read) := calls[id];
      if read != Returned(Nil) {
        calls := calls[id := Answered(key, read, None)];
        return;
      }
      if key in inFlight {
        calls := calls[id := Following(key, inFlight[key])];
        return;
      }
      calls := calls[id := AwaitRecheck(key)];
      inFlight := inFlight[key := id];
    }

    method SecondReadSettles(id: CallId, failure: Option<string>)
      requires Faithful() && Enabled(View(), ReadSecond(id, failure))
      modifies this
      ensures Faithful() && log == old(log) + [ReadSecond(id, failure)]
      ensures View() == Next(old(View()), ReadSecond(id, failure))
    {
      Log(ReadSecond(id, failure));
      var key := calls[id].key;
      var read := CacheGet(key, failure);
      calls := calls[id := GotSecond(key, read)];
    }

    method RunFinally(id: CallId, key: Key, result: Outcome)
      modifies this`inFlight, this`calls
      ensures View() == Finish(old(View()), id, key, result)
    {
      inFlight := inFlight - {key};
      calls := calls[id := Settled(key, result)];
    }

    method AfterSecondRead(id: CallId)
      requires Faithful() && Enabled(View(), ResumeSecond(id))
      modifies this
      ensures Faithful() && log == old(log) + [ResumeSecond(id)] && View() == Next(old(View()), ResumeSecond(id))
    {
      Log(ResumeSecond(id));
      var GotSecond(key, read) := calls[id];
      if read != Returned(Nil) {
        RunFinally(id, key, read);
      } else {
        calls := calls[id := Running(key)];
      }
    }

    method AfterFactory(id: CallId, outcome: Outcome)
      requires Faithful() && Enabled(View(), FactorySettles(id, outcome))
      modifies this
      ensures Faithful() && log == old(log) + [FactorySettles(id, outcome)]
      ensures View() == Next(old(View()), FactorySettles(id, outcome))
    {
      Log(FactorySettles(id, outcome));
      var key := calls[id].key;
      if outcome.Threw? {
        RunFinally(id, key, outcome);
      } else {
        calls := calls[id := Setting(key, outcome.value)];
      }
    }

    method SetSettles(id: CallId, failure: Option<string>)
      requires Faithful() && Enabled(View(), ApplySet(id, failure))
      modifies this
      ensures Faithful() && log == old(log) + [ApplySet(id, failure)]
      ensures View() == Next(old(View()), ApplySet(id, failure))
    {
      Log(ApplySet(id, failure));
      var Setting(key, value) := calls[id];
      if failure.Some? {
        calls := calls[id := SetSettled(key, Threw(failure.value))];
      } else {
        cache := cache[key := value];
        calls := calls[id := SetSettled(key, Returned(value))];
      }
    }

    method AfterSet(id: CallId)
      requires Faithful() && Enabled(View(), ResumeSet(id))
      modifies this
      ensures Faithful() && log == old(log) + [ResumeSet(id)] && View() == Next(old(View()), ResumeSet(id))
    {
      Log(ResumeSet(id));
      var SetSettled(key, result) := calls[id];
      RunFinally(id, key, result);
    }

    method LeaderSettled(id: CallId)
      requires Faithful() && Enabled(View(), ResumeFollower(id))
      modifies this
      ensures Faithful() && log == old(log) + [ResumeFollower(id)] && View() == Next(old(View()), ResumeFollower(id))
    {
      Log(ResumeFollower(id));
      var Following(key, leader) := calls[id];
      calls := calls[id := Answered(key, calls[leader].result, Some(leader))];
    }

    method Set(key: Key, value: Value)
      requires Faithful()
      modifies this
      ensures Faithful() && log == old(log) + [Put(key, value)] && View() == Next(old(View()), Put(key, value))
    {
      Log(Put(key, value));
      cache := cache[key := value];
    }

    method Mdel(keys: seq<Key>)
      requires Faithful()
      modifies this
      ensures Faithful() && log == old(log) + [Delete(set k | k in keys)]
      ensures View() == Next(old(View()), Delete(set k | k in keys))
    {
      Log(Delete(set k | k in keys));
      for i := 0 to |keys|
        invariant log == old(log) + [Delete(set k | k in keys)] && Legal(log)
        invariant After(log) == Next(old(View()), Delete(set k | k in keys))
        invariant View() == Next(old(View()), Delete(set k | k in keys[..i]))
      {
        cache := cache - {keys[i]};
        assert keys[..i + 1] == keys[..i] + [keys[i]];
      }
      assert keys[..|keys|] == keys;
    }

    method ClearAll()
      requires Faithful()
      modifies this
      ensures Faithful() && log == old(log) + [Clear] && View() == Next(old(View()), Clear)
    {
      Log(Clear);
      cache := map[];
    }

    /**
     In whatever order the methods above are called, a key is in flight exactly while an unfinished leader
     for it is suspended, there is only one, and whoever was answered by a leader has that leader's outcome.
     */
    lemma Coalesces(key: Key, id: CallId)
      requires Faithful()
      ensures key in inFlight <==> exists l :: l in calls && Leads(calls[l]) && calls[l].key == key
      ensures forall a, b :: a in calls && b in calls && Leads(calls[a]) && Leads(calls[b]) ==>
        calls[a].key == calls[b].key ==> a == b
      ensures id in calls && calls[id].Answered? && calls[id].via.Some? ==>
        calls[id].via.value in calls && calls[calls[id].via.value] == Settled(calls[id].key, calls[id].result)
    {
      RunsAreValid(log);
      InFlightExactlyWhileLed(log, key);
    }
  }

  // ---- Runs ----

  predicate Legal(es: seq<Event>)
    decreases |es|, 0
  {
    es == [] || (Legal(es[..|es| - 1]) && Enabled(After(es[..|es| - 1]), es[|es| - 1]))
  }

  /** The state reached by a run from the initial state. */
  function After(es: seq<Event>): State
    requires Legal(es)
    decreases |es|, 1
  {
    if es == [] then INITIAL else Next(After(es[..|es| - 1]), es[|es| - 1])
  }

  lemma Extend(es: seq<Event>, e: Event)
    requires Legal(es) && Enabled(After(es), e)
    ensures Legal(es + [e]) && After(es + [e]) == Next(After(es), e)
  {
  }

  // ---- The coalescing invariant ----

  /** A call that created the in-flight promise and has not run its `finally` block. */
  predicate Leads(stage: Stage) {
    stage.AwaitRecheck? || stage.GotSecond? || stage.Running? || stage.Setting? || stage.SetSettled?
  }

  ghost predicate EntriesHaveLeaders(s: State) {
    forall k :: k in s.inFlight ==>
      At(s, s.inFlight[k]) && Leads(s.calls[s.inFlight[k]]) && s.calls[s.inFlight[k]].key == k
  }

  ghost predicate LeadersHaveEntries(s: State) {
    forall id :: At(s, id) && Leads(s.calls[id]) ==>
      s.calls[id].key in s.inFlight && s.inFlight[s.calls[id].key] == id
  }

  ghost predicate FollowersHaveLeaders(s: State) {
    forall id :: At(s, id) && s.calls[id].Following? ==>
      var l := s.calls[id].leader;
      At(s, l) && s.calls[l].key == s.calls[id].key && (Leads(s.calls[l]) || s.calls[l].Settled?)
  }

  ghost predicate AnswersMatchLeaders(s: State) {
    forall id :: At(s, id) && s.calls[id].Answered? && s.calls[id].via.Some? ==>
      var l := s.calls[id].via.value;
      At(s, l) && s.calls[l] == Settled(s.calls[id].key, s.calls[id].result)
  }

  ghost predicate Valid(s: State) {
    EntriesHaveLeaders(s) && LeadersHaveEntries(s) && FollowersHaveLeaders(s) && AnswersMatchLeaders(s)
  }

  ghost predicate EntryHasLeader(s: State, k: Key)
    requires k in s.inFlight
  {
    At(s, s.inFlight[k]) && Leads(s.calls[s.inFlight[k]]) && s.calls[s.inFlight[k]].key == k
  }

  lemma StepKeepsEntry(s: State, e: Event, k: Key)
    requires Enabled(s, e) && k in Next(s, e).inFlight && (k in s.inFlight ==> EntryHasLeader(s, k))
    requires forall id :: At(s, id) && Leads(s.calls[id]) ==> InFlight(s, id)
    ensures EntryHasLeader(Next(s, e), k)
  {
  }

  predicate InFlight(s: State, id: CallId)
    requires At(s, id)
  {
    s.calls[id].key in s.inFlight && s.inFlight[s.calls[id].key] == id
  }

  lemma StepKeepsEntries(s: State, e: Event)
    requires EntriesHaveLeaders(s) && LeadersHaveEntries(s) && Enabled(s, e)
    ensures EntriesHaveLeaders(Next(s, e))
  {
    forall k | k in Next(s, e).inFlight ensures EntryHasLeader(Next(s, e), k) {
      StepKeepsEntry(s, e, k);
    }
  }

  lemma StepKeepsLeaders(s: State, e: Event)
    requires LeadersHaveEntries(s) && Enabled(s, e)
    ensures LeadersHaveEntries(Next(s, e))
  {
  }

  lemma StepKeepsFollowers(s: State, e: Event)
    requires EntriesHaveLeaders(s) && FollowersHaveLeaders(s) && Enabled(s, e)
    ensures FollowersHaveLeaders(Next(s, e))
  {
  }

  lemma StepKeepsAnswers(s: State, e: Event)
    requires FollowersHaveLeaders(s) && AnswersMatchLeaders(s) && Enabled(s, e)
    ensures AnswersMatchLeaders(Next(s, e))
  {
  }

  /** Every reachable state is valid. */
  lemma {:induction false} RunsAreValid(es: seq<Event>)
    requires Legal(es)
    ensures Valid(After(es))
  {
    if es != [] {
      var s, e := After(es[..|es| - 1]), es[|es| - 1];
      RunsAreValid(es[..|es| - 1]);
      StepKeepsEntries(s, e);
      StepKeepsLeaders(s, e);
      StepKeepsFollowers(s, e);
      StepKeepsAnswers(s, e);
    }
  }

  /**
   In every interleaving a key is in flight exactly while an unfinished leader for it exists, and
   that leader is unique; so two factories for one key never overlap.
   */
  lemma InFlightExactlyWhileLed(es: seq<Event>, key: Key)
    requires Legal(es)
    ensures var s := After(es);
      && (key in s.inFlight <==> exists id :: At(s, id) && Leads(s.calls[id]) && s.calls[id].key == key)
      && (forall a, b | At(s, a) && At(s, b) && Leads(s.calls[a]) && Leads(s.calls[b]) ::
            s.calls[a].key == s.calls[b].key ==> a == b)
  {
    RunsAreValid(es);
    var s := After(es);
    if key in s.inFlight {
      assert At(s, s.inFlight[key]) && Leads(s.calls[s.inFlight[key]]);
    }
  }

  /** The call whose promise the step settles, if any. */
  function Settling(s: State, e: Event): Option<CallId>
    requires Enabled(s, e)
  {
    match e
    case ResumeSecond(id) => if s.calls[id].read != Returned(Nil) then Some(id) else None
    case FactorySettles(id, outcome) => if outcome.Threw? then Some(id) else None
    case ResumeSet(id) => Some(id)
    case _ => None
  }

  /** The `finally` block only ever removes the entry its own call put there. */
  lemma FinallyRemovesOwnEntry(es: seq<Event>, e: Event)
    requires Legal(es) && Enabled(After(es), e)
    ensures var s := After(es);
      match Settling(s, e)
      case Some(id) =>
        && s.calls[id].key in s.inFlight && s.inFlight[s.calls[id].key] == id
        && Next(s, e).inFlight == s.inFlight - {s.calls[id].key}
        && Next(s, e).calls[id].Settled?
      case None => s.inFlight.Keys <= Next(s, e).inFlight.Keys
  {
    RunsAreValid(es);
  }

  /** A call answered through a leader has that leader's result or error. */
  lemma FollowersGetTheirLeadersOutcome(es: seq<Event>, id: CallId)
    requires Legal(es) && At(After(es), id)
    requires After(es).calls[id].Answered? && After(es).calls[id].via.Some?
    ensures var s := After(es); var l := s.calls[id].via.value;
      At(s, l) && s.calls[l].Settled? && s.calls[l].key == s.calls[id].key && s.calls[l].result == s.calls[id].result
  {
    RunsAreValid(es);
  }

  predicate Finished(stage: Stage) { stage.Settled? || stage.Answered? }

  /** How many steps a call that waits for no other is away from being finished. */
  function StepsLeft(stage: Stage): nat {
    match stage
    case AwaitGet(_) => 9
    case GotFirst(_, _) => 8
    case AwaitRecheck(_) => 5
    case GotSecond(_, _) => 4
    case Running(_) => 3
    case Setting(_, _) => 2
    case SetSettled(_, _) => 1
    case _ => 0
  }

  /** The same for any call; a follower also waits for the steps of its leader. */
  function Remaining(s: State, id: CallId): nat
    requires At(s, id)
  {
    var stage := s.calls[id];
    if stage.Following? then 1 + (if At(s, stage.leader) then StepsLeft(s.calls[stage.leader]) else 0)
    else StepsLeft(stage)
  }

  /** The next step of call `id` itself; its factory, if it runs one, returns `v`. */
  function OwnStep(stage: Stage, id: CallId, v: Value): Event {
    match stage
    case AwaitGet(_) => ReadFirst(id, None)
    case GotFirst(_, _) => ResumeFirst(id)
    case AwaitRecheck(_) => ReadSecond(id, None)
    case GotSecond(_, _) => ResumeSecond(id)
    case Running(_) => FactorySettles(id, Returned(v))
    case Setting(_, _) => ApplySet(id, None)
    case SetSettled(_, _) => ResumeSet(id)
    case _ => ResumeFollower(id)
  }

  /** The step that brings call `id` closer to its answer: its own, or its leader's. */
  function Unblock(s: State, id: CallId, v: Value): Event
    requires At(s, id)
  {
    var stage := s.calls[id];
    if stage.Following? && At(s, stage.leader) && Leads(s.calls[stage.leader])
    then OwnStep(s.calls[stage.leader], stage.leader, v)
    else OwnStep(stage, id, v)
  }

  lemma OwnStepAdvances(s: State, id: CallId, v: Value)
    requires Valid(s) && At(s, id) && !Finished(s.calls[id]) && !s.calls[id].Following?
    ensures var e := OwnStep(s.calls[id], id, v);
      && Enabled(s, e) && Next(s, e).calls[id].key == s.calls[id].key
      && Remaining(Next(s, e), id) < Remaining(s, id)
      && (Leads(s.calls[id]) ==> StepsLeft(Next(s, e).calls[id]) < StepsLeft(s.calls[id]))
      && (forall x :: At(s, x) && x != id ==> Next(s, e).calls[x] == s.calls[x])
  {
  }

  lemma UnblockAdvances(s: State, id: CallId, v: Value)
    requires Valid(s) && At(s, id) && !Finished(s.calls[id])
    ensures var e := Unblock(s, id, v);
      Enabled(s, e) && At(Next(s, e), id) && Remaining(Next(s, e), id) < Remaining(s, id)
  {
    var stage := s.calls[id];
    if !stage.Following? {
      OwnStepAdvances(s, id, v);
    } else if Leads(s.calls[stage.leader]) {
      OwnStepAdvances(s, stage.leader, v);
    }
  }

  /** No call is ever stuck: from every reachable state some continuation answers it. */
  lemma {:induction false} EveryCallCanFinish(es: seq<Event>, id: CallId, v: Value) returns (fs: seq<Event>)
    requires Legal(es) && At(After(es), id)
    ensures Legal(es + fs) && At(After(es + fs), id) && Finished(After(es + fs).calls[id])
    decreases Remaining(After(es), id)
  {
    if Finished(After(es).calls[id]) {
      fs := [];
      assert es + fs == es;
    } else {
      RunsAreValid(es);
      UnblockAdvances(After(es), id, v);
      var e := Unblock(After(es), id, v);
      Extend(es, e);
      var rest := EveryCallCanFinish(es + [e], id, v);
      fs := [e] + rest;
      assert es + fs == es + [e] + rest;
    }
  }

  // ---- At most one successful factory ----

  /** No entry is dropped, no write is rejected, and only non-nil values are produced or put. */
  predicate Quiet(e: Event) {
    match e
    case Delete(_) => false
    case Clear => false
    case ApplySet(_, failure) => failure.None?
    case FactorySettles(_, outcome) => outcome.Returned? ==> outcome.value.Val?
    case Put(_, value) => value.Val?
    case _ => true
  }

  /** How many times in the run a factory for `key` returned a value. */
  function Successes(es: seq<Event>, key: Key): nat
    requires Legal(es)
  {
    if es == [] then 0
    else
      var before, e := es[..|es| - 1], es[|es| - 1];
      Successes(before, key) + if Succeeds(After(before), e, key) then 1 else 0
  }

  predicate Cached(s: State, key: Key) { key in s.cache && s.cache[key].Val? }

  ghost predicate StoringNow(s: State, key: Key) {
    exists id :: At(s, id) && s.calls[id].Setting? && s.calls[id].key == key
  }

  /** The call has seen no cached value on its second look and will produce one. */
  predicate Producing(stage: Stage, key: Key) {
    stage == Running(key) || stage == GotSecond(key, Returned(Nil))
  }

  ghost predicate ProducingNow(s: State, key: Key) {
    exists id :: At(s, id) && Producing(s.calls[id], key)
  }

  ghost predicate StoresValues(s: State) {
    forall id :: At(s, id) && s.calls[id].Setting? ==> s.calls[id].value.Val?
  }

  /** What `n` successes for the key say about the state of a quiet run. */
  ghost predicate SuccessesLeaveTrace(s: State, key: Key, n: nat) {
    && n <= 1
    && (n == 1 ==> Cached(s, key) || StoringNow(s, key))
    && (ProducingNow(s, key) ==> n == 0)
    && StoresValues(s)
  }

  predicate Succeeds(s: State, e: Event, key: Key)
    requires Enabled(s, e)
  {
    e.FactorySettles? && e.outcome.Returned? && s.calls[e.id].key == key
  }

  lemma QuietStepStores(s: State, e: Event, key: Key)
    requires Enabled(s, e) && Quiet(e) && StoresValues(s)
    ensures StoresValues(Next(s, e))
    ensures Cached(s, key) || StoringNow(s, key) || Succeeds(s, e, key) ==>
      Cached(Next(s, e), key) || StoringNow(Next(s, e), key)
  {
    var s' := Next(s, e);
    if Succeeds(s, e, key) {
      assert At(s', e.id) && s'.calls[e.id].Setting?;
    } else if StoringNow(s, key) && !Cached(s, key) {
      var w :| At(s, w) && s.calls[w].Setting? && s.calls[w].key == key;
      assert (e.ApplySet? && e.id == w) || s'.calls[w] == s.calls[w];
    }
  }

  lemma QuietStepProduces(s: State, e: Event, key: Key)
    requires LeadersHaveEntries(s) && Enabled(s, e) && Quiet(e) && ProducingNow(Next(s, e), key)
    ensures !Succeeds(s, e, key)
    ensures ProducingNow(s, key) || (!Cached(s, key) && !StoringNow(s, key))
  {
    var s' := Next(s, e);
    var id :| At(s', id) && Producing(s'.calls[id], key);
    assert At(s, id) && Leads(s.calls[id]) && s.inFlight[key] == id;
    if !Producing(s.calls[id], key) {
      assert e.ReadSecond? && e.id == id;
    }
  }

  lemma QuietStepKeepsTrace(s: State, e: Event, key: Key, n: nat)
    requires Valid(s) && Enabled(s, e) && Quiet(e) && SuccessesLeaveTrace(s, key, n)
    ensures SuccessesLeaveTrace(Next(s, e), key, n + if Succeeds(s, e, key) then 1 else 0)
  {
    QuietStepStores(s, e, key);
    if Succeeds(s, e, key) {
      assert Producing(s.calls[e.id], key);
    }
    if ProducingNow(Next(s, e), key) {
      QuietStepProduces(s, e, key);
    }
  }

  lemma {:induction false} QuietRunsLeaveTrace(es: seq<Event>, key: Key)
    requires Legal(es) && forall e :: e in es ==> Quiet(e)
    ensures SuccessesLeaveTrace(After(es), key, Successes(es, key))
  {
    if es != [] {
      var before := es[..|es| - 1];
      QuietRunsLeaveTrace(before, key);
      RunsAreValid(before);
      QuietStepKeepsTrace(After(before), es[|es| - 1], key, Successes(before, key));
    }
  }

  /** Over a whole run without deletes, expiry or nil results, a factory for a key succeeds at most once. */
  lemma FactorySucceedsAtMostOnce(es: seq<Event>, key: Key)
    requires Legal(es) && forall e :: e in es ==> Quiet(e)
    ensures Successes(es, key) <= 1
  {
    QuietRunsLeaveTrace(es, key);
  }

  // ---- A delete while a factory runs ----

  /** A call for the key that will write a value computed, or being computed, already. */
  predicate Computing(stage: Stage, key: Key) {
    stage.key == key && (stage.Running? || stage.Setting?)
  }

  /** The continuation neither puts the key from outside nor starts a factory for it. */
  predicate NoNewValue(es: seq<Event>, fs: seq<Event>, key: Key)
    requires Legal(es + fs)
    decreases |fs|
  {
    fs == [] ||
      var init, e := fs[..|fs| - 1], fs[|fs| - 1];
      assert (es + fs)[..|es + fs| - 1] == es + init;
      assert Enabled(After(es + init), e);
      && NoNewValue(es, init, key)
      && !(e.Put? && e.key == key)
      && !(e.ResumeSecond? && After(es + init).calls[e.id] == GotSecond(key, Returned(Nil)))
  }

  ghost predicate ComputedNow(s: State, key: Key) {
    exists id :: At(s, id) && Computing(s.calls[id], key)
  }

  lemma UncomputedStep(s: State, e: Event, key: Key)
    requires Enabled(s, e) && key !in s.cache && !ComputedNow(s, key)
    requires !(e.Put? && e.key == key)
    requires !(e.ResumeSecond? && s.calls[e.id] == GotSecond(key, Returned(Nil)))
    ensures key !in Next(s, e).cache && !ComputedNow(Next(s, e), key)
  {
  }

  lemma {:induction false} UncomputedStaysOut(es: seq<Event>, fs: seq<Event>, key: Key)
    requires Legal(es) && key !in After(es).cache && !ComputedNow(After(es), key)
    requires Legal(es + fs) && NoNewValue(es, fs, key)
    ensures key !in After(es + fs).cache && !ComputedNow(After(es + fs), key)
    decreases |fs|
  {
    if fs == [] {
      assert es + fs == es;
    } else {
      var init, e := fs[..|fs| - 1], fs[|fs| - 1];
      assert (es + fs)[..|es + fs| - 1] == es + init;
      UncomputedStaysOut(es, init, key);
      UncomputedStep(After(es + init), e, key);
    }
  }

  /**
   A deleted key can come back with a value whose computation began before the delete exactly when,
   at the delete, some call is running its factory for that key or about to store its value.
   */
  lemma DeletedKeyComesBackIff(es: seq<Event>, keys: set<Key>, key: Key)
    requires Legal(es) && key in keys
    ensures Legal(es + [Delete(keys)])
    ensures var del := es + [Delete(keys)];
      ComputedNow(After(es), key) <==>
      exists fs :: Legal(del + fs) && NoNewValue(del, fs, key) && key in After(del + fs).cache
  {
    Extend(es, Delete(keys));
    var del := es + [Delete(keys)];
    if ComputedNow(After(es), key) {
      var id :| At(After(es), id) && Computing(After(es).calls[id], key);
      var fs := OverwriteTheDelete(del, id, key);
      assert key in After(del + fs).cache;
    } else {
      assert !ComputedNow(After(del), key);
      forall fs | Legal(del + fs) && NoNewValue(del, fs, key) ensures key !in After(del + fs).cache {
        UncomputedStaysOut(del, fs, key);
      }
    }
  }

  /** A run that gets there: one call finds nothing cached, twice, and starts its factory. */
  lemma FactoryStarts(id: CallId, key: Key)
    ensures var es := [Invoke(id, key), ReadFirst(id, None), ResumeFirst(id), ReadSecond(id, None), ResumeSecond(id)];
      Legal(es) && ComputedNow(After(es), key)
  {
    var es := [Invoke(id, key), ReadFirst(id, None), ResumeFirst(id), ReadSecond(id, None), ResumeSecond(id)];
    Extend([], es[0]);
    Extend([] + [es[0]], es[1]);
    Extend([] + [es[0]] + [es[1]], es[2]);
    Extend([] + [es[0]] + [es[1]] + [es[2]], es[3]);
    Extend([] + [es[0]] + [es[1]] + [es[2]] + [es[3]], es[4]);
    assert [] + [es[0]] + [es[1]] + [es[2]] + [es[3]] + [es[4]] == es;
    assert At(After(es), id) && After(es).calls[id] == Running(key);
  }

  /** The steps by which a running factory re-creates a deleted entry. */
  lemma OverwriteTheDelete(es: seq<Event>, id: CallId, key: Key) returns (fs: seq<Event>)
    requires Legal(es) && At(After(es), id) && Computing(After(es).calls[id], key)
    ensures Legal(es + fs) && NoNewValue(es, fs, key) && key in After(es + fs).cache
  {
    var s := After(es);
    assert es + [] == es;
    if s.calls[id].Setting? {
      fs := [ApplySet(id, None)];
      Extend(es, fs[0]);
      assert fs[..0] == [];
    } else {
      var settle, store := FactorySettles(id, Returned(Val("stale"))), ApplySet(id, None);
      fs := [settle, store];
      Extend(es, settle);
      Extend(es + [settle], store);
      assert es + [settle] + [store] == es + fs;
      assert fs[..1] == [settle] && [settle][..0] == [];
      assert NoNewValue(es, [settle], key);
    }
  }
}
