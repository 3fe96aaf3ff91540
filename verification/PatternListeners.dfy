/**
 RedisService's pattern listeners: a listener list per pattern, the set of subscribed patterns, and
 the commands issued to the subscriber connection, in order. The synchronous part of a call is one
 step; the settling of its pSubscribe is a later one.
 */
module PatternListeners {
  import opened Prelude

  type Pattern = string
  type Listener = int

  datatype Command = PSubscribe(pattern: Pattern) | PUnsubscribe(pattern: Pattern)

  datatype State = State(
    listeners: map<Pattern, seq<Listener>>, subscribed: set<Pattern>, commands: seq<Command>)

  datatype Event =
    | Add(pattern: Pattern, listener: Listener)
    | Remove(pattern: Pattern, listener: Listener)
    | Reject(pattern: Pattern, listener: Listener)   // the pSubscribe of an earlier Add is rejected

  function ListenersOf(s: State, p: Pattern): seq<Listener> { if p in s.listeners then s.listeners[p] else [] }

  /** EventEmitter.off: drop the most recently added instance, if any. */
  function Off(ls: seq<Listener>, l: Listener): seq<Listener> {
    if ls == [] then [] else if ls[|ls| - 1] == l then ls[..|ls| - 1] else Off(ls[..|ls| - 1], l) + [ls[|ls| - 1]]
  }

  function Next(s: State, e: Event): State {
    match e
    case Add(p, l) =>
      var added := s.(listeners := s.listeners[p := ListenersOf(s, p) + [l]]);
      if p in s.subscribed then added
      else added.(subscribed := s.subscribed + {p}, commands := s.commands + [PSubscribe(p)])
    case Remove(p, l) =>
      var left := Off(ListenersOf(s, p), l);
      var removed := s.(listeners := s.listeners[p := left]);
      if left != [] then removed
      else removed.(subscribed := s.subscribed - {p}, commands := s.commands + [PUnsubscribe(p)])
    case Reject(p, l) =>
      s.(listeners := s.listeners[p := Off(ListenersOf(s, p), l)], subscribed := s.subscribed - {p})
  }

  const INITIAL := State(map[], {}, [])

  function After(es: seq<Event>): State {
    if es == [] then INITIAL else Next(After(es[..|es| - 1]), es[|es| - 1])
  }

  /** The service: each method is the code up to the await; the rejection handler is its own method. */
  class RedisService {
    var listeners: map<Pattern, seq<Listener>>
    var subscribedPatterns: set<Pattern>
    var commands: seq<Command>
    ghost var log: seq<Event>

    function View(): State
      reads this
    {
      State(listeners, subscribedPatterns, commands)
    }

    /** The fields are the state the logged events lead to. */
    ghost predicate Faithful()
      reads this
    {
      View() == After(log)
    }

    constructor ()
      ensures Faithful() && log == []
    {
      listeners, subscribedPatterns, commands, log := map[], {}, [], [];
    }

    ghost method Log(e: Event)
      requires Faithful()
      modifies this`log
      ensures log == old(log) + [e] && After(log) == Next(View(), e)
    {
      log := log + [e];
      assert log[..|log| - 1] == old(log);
    }

    method AddPatternListener(pattern: Pattern, listener: Listener)
      requires Faithful()
      modifies this
      ensures Faithful() && log == old(log) + [Add(pattern, listener)]
      ensures View() == Next(old(View()), Add(pattern, listener))
    {
      Log(Add(pattern, listener));
      var registered := if pattern in listeners then listeners[pattern] else [];
      listeners := listeners[pattern := registered + [listener]];
      if pattern !in subscribedPatterns {
        subscribedPatterns := subscribedPatterns + {pattern};
        commands := commands + [PSubscribe(pattern)];
      }
    }

    method OffListener(pattern: Pattern, listener: Listener)
      modifies this`listeners
      ensures listeners == old(listeners)[pattern := Off(old(ListenersOf(View(), pattern)), listener)]
    {
      var registered := if pattern in listeners then listeners[pattern] else [];
      listeners := listeners[pattern := Off(registered, listener)];
    }

    method RemovePatternListener(pattern: Pattern, listener: Listener)
      requires Faithful()
      modifies this
      ensures Faithful() && log == old(log) + [Remove(pattern, listener)]
      ensures View() == Next(old(View()), Remove(pattern, listener))
    {
      Log(Remove(pattern, listener));
      OffListener(pattern, listener);
      if |listeners[pattern]| == 0 {
        subscribedPatterns := subscribedPatterns - {pattern};
        commands := commands + [PUnsubscribe(pattern)];
      }
    }

    method SubscribeRejected(pattern: Pattern, listener: Listener)
      requires Faithful()
      modifies this
      ensures Faithful() && log == old(log) + [Reject(pattern, listener)]
      ensures View() == Next(old(View()), Reject(pattern, listener))
    {
      Log(Reject(pattern, listener));
      OffListener(pattern, listener);
      subscribedPatterns := subscribedPatterns - {pattern};
    }

    /** However the methods above are called, if no subscribe is rejected, subscriptions follow the listeners. */
    lemma StaysInStep(pattern: Pattern)
      requires Faithful() && forall e :: e in log ==> !e.Reject?
      ensures pattern in subscribedPatterns <==> pattern in listeners && listeners[pattern] != []
      ensures LastIsSubscribe(commands, pattern) <==> pattern in listeners && listeners[pattern] != []
      ensures Alternates(commands, pattern)
    {
      SubscriptionsFollowListeners(log, pattern);
    }
  }

  // ---- What the connection does with the commands ----

  /** Callbacks registered for a pattern: each pSubscribe adds one, pUnsubscribe drops all. */
  function Callbacks(commands: seq<Command>, p: Pattern): nat {
    if commands == [] then 0
    else
      var last, before := commands[|commands| - 1], Callbacks(commands[..|commands| - 1], p);
      if last == PSubscribe(p) then before + 1 else if last == PUnsubscribe(p) then 0 else before
  }

  /** How often one published message reaches a listener: once per callback and registration. */
  function Deliveries(s: State, p: Pattern, l: Listener): nat {
    Callbacks(s.commands, p) * multiset(ListenersOf(s, p))[l]
  }

  /** Subscribed, with exactly one callback, just when there is a listener. */
  predicate InStep(s: State, p: Pattern) {
    && (p in s.subscribed <==> ListenersOf(s, p) != [])
    && Callbacks(s.commands, p) == (if ListenersOf(s, p) != [] then 1 else 0)
  }

  lemma StepKeepsInStep(s: State, e: Event, p: Pattern)
    requires InStep(s, p) && !e.Reject?
    ensures InStep(Next(s, e), p)
  {
  }

  /** In every run without rejections each pattern is in step, whatever listeners are added or removed. */
  lemma {:induction false} RunsStayInStep(es: seq<Event>, p: Pattern)
    requires forall e :: e in es ==> !e.Reject?
    ensures InStep(After(es), p)
  {
    if es != [] {
      RunsStayInStep(es[..|es| - 1], p);
      StepKeepsInStep(After(es[..|es| - 1]), es[|es| - 1], p);
    }
  }

  /** So a message is delivered exactly once to each registration of a listener. */
  lemma MessagesAreDeliveredOnce(es: seq<Event>, p: Pattern, l: Listener)
    requires forall e :: e in es ==> !e.Reject?
    ensures Deliveries(After(es), p, l) == multiset(ListenersOf(After(es), p))[l]
  {
    RunsStayInStep(es, p);
    var ls := ListenersOf(After(es), p);
    if ls == [] {
      assert multiset(ls)[l] == 0;
    }
  }

  /** How often a listener is registered after a run: once more for each add, once less for each effective removal. */
  function Registrations(es: seq<Event>, p: Pattern, l: Listener): nat {
    if es == [] then 0
    else
      var n, e := Registrations(es[..|es| - 1], p, l), es[|es| - 1];
      if e.pattern != p || e.listener != l then n else if e.Add? then n + 1 else if n > 0 then n - 1 else 0
  }

  lemma {:induction false} OffCounts(ls: seq<Listener>, l: Listener, x: Listener)
    ensures multiset(Off(ls, l))[x] == multiset(ls)[x] - if x == l && l in ls then 1 else 0
  {
    if ls != [] {
      var front, last := ls[..|ls| - 1], ls[|ls| - 1];
      assert ls == front + [last];
      OffCounts(front, l, x);
    }
  }

  /** What a step does to the listeners of a pattern. */
  lemma ListenersStep(s: State, e: Event, p: Pattern)
    ensures ListenersOf(Next(s, e), p) ==
      if e.pattern != p then ListenersOf(s, p)
      else if e.Add? then ListenersOf(s, p) + [e.listener] else Off(ListenersOf(s, p), e.listener)
  {
  }

  lemma CountStep(ls: seq<Listener>, e: Event, l: Listener)
    ensures var n, ls' := multiset(ls)[l], if e.Add? then ls + [e.listener] else Off(ls, e.listener);
      multiset(ls')[l] == if e.listener != l then n else if e.Add? then n + 1 else if n > 0 then n - 1 else 0
  {
    OffCounts(ls, e.listener, l);
  }

  lemma RegistrationsStep(s: State, e: Event, p: Pattern, l: Listener)
    ensures var n := multiset(ListenersOf(s, p))[l];
      multiset(ListenersOf(Next(s, e), p))[l]
      == if e.pattern != p || e.listener != l then n else if e.Add? then n + 1 else if n > 0 then n - 1 else 0
  {
    ListenersStep(s, e, p);
    CountStep(ListenersOf(s, p), e, l);
  }

  lemma {:induction false} RegistrationsAre(es: seq<Event>, p: Pattern, l: Listener)
    ensures multiset(ListenersOf(After(es), p))[l] == Registrations(es, p, l)
  {
    if es != [] {
      RegistrationsAre(es[..|es| - 1], p, l);
      RegistrationsStep(After(es[..|es| - 1]), es[|es| - 1], p, l);
    }
  }

  predicate IsSubscribe(commands: seq<Command>, p: Pattern, i: int) {
    0 <= i < |commands| && commands[i] == PSubscribe(p)
  }

  /** Between two subscribes for a pattern there is an unsubscribe. */
  ghost predicate Alternates(commands: seq<Command>, p: Pattern) {
    forall i, j :: i < j && IsSubscribe(commands, p, i) && IsSubscribe(commands, p, j) ==>
      PUnsubscribe(p) in commands[i..j]
  }

  /** The last command for the pattern is a subscribe. */
  ghost predicate LastIsSubscribe(commands: seq<Command>, p: Pattern) {
    exists i :: IsSubscribe(commands, p, i) && PUnsubscribe(p) !in commands[i..]
  }

  /** Where at most one callback is ever registered, subscribes and unsubscribes alternate. */
  lemma {:induction false} CallbacksCountSubscribes(commands: seq<Command>, p: Pattern)
    ensures Callbacks(commands, p) > 0 <==> LastIsSubscribe(commands, p)
    ensures (forall n :: 0 <= n <= |commands| ==> Callbacks(commands[..n], p) <= 1) ==> Alternates(commands, p)
  {
    if commands != [] {
      var n := |commands| - 1;
      var before, last := commands[..n], commands[n];
      CallbacksCountSubscribes(before, p);
      assert commands == before + [last];
      forall i | 0 <= i < n ensures commands[i..] == before[i..] + [last]
        ensures IsSubscribe(commands, p, i) <==> IsSubscribe(before, p, i)
      {
      }
      if last == PSubscribe(p) {
        assert IsSubscribe(commands, p, n) && commands[n..] == [last];
      } else if Callbacks(commands, p) > 0 {
        var i :| IsSubscribe(before, p, i) && PUnsubscribe(p) !in before[i..];
        assert IsSubscribe(commands, p, i);
      }
      if forall m :: 0 <= m <= |commands| ==> Callbacks(commands[..m], p) <= 1 {
        forall m | 0 <= m <= n ensures Callbacks(before[..m], p) <= 1 {
          assert before[..m] == commands[..m];
        }
        assert commands[..|commands|] == commands;
        AlternatesExtends(commands, p);
      }
    }
  }

  lemma AlternatesExtends(commands: seq<Command>, p: Pattern)
    requires commands != [] && Alternates(commands[..|commands| - 1], p)
    requires Callbacks(commands[..|commands| - 1], p) > 0 <==> LastIsSubscribe(commands[..|commands| - 1], p)
    requires Callbacks(commands, p) <= 1
    ensures Alternates(commands, p)
  {
    var n := |commands| - 1;
    var before := commands[..n];
    forall i, j | i < j && IsSubscribe(commands, p, i) && IsSubscribe(commands, p, j)
      ensures PUnsubscribe(p) in commands[i..j]
    {
      assert IsSubscribe(before, p, i);
      if j < n {
        assert IsSubscribe(before, p, j) && before[i..j] == commands[i..j];
      } else {
        LastSubscribeFollows(commands, p, i);
      }
    }
  }

  /** A subscribe at the end, with no callback registered before it, follows an unsubscribe. */
  lemma LastSubscribeFollows(commands: seq<Command>, p: Pattern, i: nat)
    requires i < |commands| - 1 && commands[|commands| - 1] == PSubscribe(p) && commands[i] == PSubscribe(p)
    requires Callbacks(commands[..|commands| - 1], p) > 0 <==> LastIsSubscribe(commands[..|commands| - 1], p)
    requires Callbacks(commands, p) <= 1
    ensures PUnsubscribe(p) in commands[i..|commands| - 1]
  {
    var before := commands[..|commands| - 1];
    assert !LastIsSubscribe(before, p) && IsSubscribe(before, p, i);
    assert before[i..] == commands[i..|commands| - 1];
  }

  /** The commands of a run only grow. */
  lemma {:induction false} CommandsGrow(es: seq<Event>, n: nat)
    requires n <= |After(es).commands| && forall e :: e in es ==> !e.Reject?
    ensures exists m :: 0 <= m <= |es| && After(es[..m]).commands == After(es).commands[..n]
  {
    if n == |After(es).commands| {
      assert es[..|es|] == es;
      assert After(es).commands[..n] == After(es).commands;
    } else {
      var before := es[..|es| - 1];
      assert |After(before).commands| >= n && After(before).commands[..n] == After(es).commands[..n];
      CommandsGrow(before, n);
      var m :| 0 <= m <= |before| && After(before[..m]).commands == After(before).commands[..n];
      assert before[..m] == es[..m];
    }
  }

  /**
   In every run without rejections: a pattern is in the subscribed set, and the last command issued for it
   is a subscribe, exactly when it has a listener; and two subscribes are never issued without an unsubscribe
   between them.
   */
  lemma SubscriptionsFollowListeners(es: seq<Event>, p: Pattern)
    requires forall e :: e in es ==> !e.Reject?
    ensures var s := After(es);
      && (p in s.subscribed <==> ListenersOf(s, p) != [])
      && (LastIsSubscribe(s.commands, p) <==> ListenersOf(s, p) != [])
      && Alternates(s.commands, p)
  {
    var s := After(es);
    RunsStayInStep(es, p);
    CallbacksCountSubscribes(s.commands, p);
    forall n | 0 <= n <= |s.commands| ensures Callbacks(s.commands[..n], p) <= 1 {
      CommandsGrow(es, n);
      var m :| 0 <= m <= |es| && After(es[..m]).commands == s.commands[..n];
      RunsStayInStep(es[..m], p);
    }
  }

  /** A rejection keeps the subscribed set right exactly when no other listener has joined the pattern. */
  lemma RejectionKeepsSetIff(s: State, p: Pattern, l: Listener)
    requires p in s.subscribed <==> ListenersOf(s, p) != []
    ensures var s' := Next(s, Reject(p, l));
      (p in s'.subscribed <==> ListenersOf(s', p) != []) <==> ListenersOf(s, p) == [] || ListenersOf(s, p) == [l]
  {
  }

  /** Two listeners join, the first subscribe is rejected: the second is left without a subscription. */
  lemma RejectionStrandsSecondListener(p: Pattern, a: Listener, b: Listener)
    requires a != b
    ensures var s := Next(Next(Next(INITIAL, Add(p, a)), Add(p, b)), Reject(p, a));
      ListenersOf(s, p) == [b] && p !in s.subscribed
  {
    assert [] + [a] == [a] && [a] + [b] == [a, b];
    assert [a, b][..1] == [a] && [a][..0] == [];
    assert Off([a, b], a) == [] + [b];
  }
}
