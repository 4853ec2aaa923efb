/** WpaEventHandler: the table of event listeners, and the dispatch of an event to a copy of it while other threads
    go on changing it. */
module EventListeners {
  import opened HashTable

  /** A listener object. The table holds weak pointers: a listener may be destroyed at any time. */
  type Listener = nat
  type Token = nat

  /** Tokens are 32-bit unsigned numbers. */
  const TOKENS: nat := 0x1_0000_0000

  function NextToken(t: Token): Token { if t + 1 == 0x1_0000_0000 then 0 else t + 1 }

  /** The dispatch of one event: the copy of the table, the order in which it is visited, how far the visits have
      come, and what they did. */
  datatype Round = Round(
    isOpen: bool,
    snapshot: map<Token, Listener>,
    order: seq<Token>,
    visited: nat,
    delivered: seq<Token>,
    expired: seq<Token>)

  const NO_ROUND := Round(false, map[], [], 0, [], [])

  /** The table and the next token of the handler, the number of registrations so far, the listeners destroyed so
      far, and the latest round. */
  datatype Handler = Handler(
    listeners: map<Token, Listener>,
    next: Token,
    issued: nat,
    dead: set<Listener>,
    round: Round)

  const NEW_HANDLER := Handler(map[], 0, 0, {}, NO_ROUND)

  /** What can happen between two points where the lock is free: a registration, an unregistration or the end of a
      listener in any thread, and the steps of the dispatching thread. */
  datatype Step =
    | Register(listener: Listener)
    | Unregister(token: Token)
    | Die(listener: Listener)
    | Snapshot(order: seq<Token>)
    | Visit
    | Erase

  ghost predicate Enabled(h: Handler, s: Step) {
    match s
    case Snapshot(order) => !h.round.isOpen && Enumerates(order, h.listeners.Keys)
    case Visit => h.round.isOpen && h.round.visited < |h.round.order|
    case Erase => h.round.isOpen && h.round.visited >= |h.round.order|
    case _ => true
  }

  function Visited(r: Round, dead: set<Listener>): Round
    requires r.visited < |r.order|
  {
    var t := r.order[r.visited];
    var next := r.(visited := r.visited + 1);
    if t in r.snapshot && r.snapshot[t] !in dead then next.(delivered := r.delivered + [t])
    else next.(expired := r.expired + [t])
  }

  function Tokens(ts: seq<Token>): set<Token> { set t | t in ts }

  function Apply(h: Handler, s: Step): Handler {
    match s
    case Register(l) => h.(listeners := h.listeners[h.next := l], next := NextToken(h.next), issued := h.issued + 1)
    case Unregister(t) => h.(listeners := h.listeners - {t})
    case Die(l) => h.(dead := h.dead + {l})
    case Snapshot(order) => h.(round := Round(true, h.listeners, order, 0, [], []))
    case Visit => if h.round.visited < |h.round.order| then h.(round := Visited(h.round, h.dead)) else h
    case Erase => h.(listeners := h.listeners - Tokens(h.round.expired), round := h.round.(isOpen := false))
  }

  function Run(h: Handler, steps: seq<Step>): Handler {
    if steps == [] then h else Apply(Run(h, steps[..|steps| - 1]), steps[|steps| - 1])
  }

  ghost predicate Legal(h: Handler, steps: seq<Step>) {
    steps != [] ==>
      && Legal(h, steps[..|steps| - 1])
      && Enabled(Run(h, steps[..|steps| - 1]), steps[|steps| - 1])
  }

  // ---------- What every step keeps ----------

  /** Token `t` has been visited in round `r`. */
  ghost predicate IsVisited(r: Round, t: Token) { exists i :: 0 <= i < r.visited <= |r.order| && r.order[i] == t }

  predicate NoRepeats(ts: seq<Token>) { forall i, j :: 0 <= i < j < |ts| ==> ts[i] != ts[j] }

  /** The visits so far: each visited token was either delivered, once, or found expired. */
  ghost predicate RoundInvariant(r: Round, dead: set<Listener>) {
    && Enumerates(r.order, r.snapshot.Keys) && r.visited <= |r.order|
    && NoRepeats(r.delivered)
    && (forall t :: t in r.delivered ==> t !in r.expired)
    && (forall t :: t in r.delivered || t in r.expired <==> IsVisited(r, t))
    && (forall t :: t in r.expired ==> t in r.snapshot && r.snapshot[t] in dead)
  }

  /** As long as no more registrations have been made than there are tokens: the tokens in use have been issued,
      the next one has not, and the copy agrees with the table. */
  ghost predicate TokenInvariant(h: Handler) {
    && h.next == (if h.issued == TOKENS then 0 else h.issued)
    && (forall t :: t in h.listeners || t in h.round.snapshot ==> t < h.issued)
    && (forall t :: t in h.listeners && t in h.round.snapshot ==> h.listeners[t] == h.round.snapshot[t])
  }

  ghost predicate Invariant(h: Handler) {
    RoundInvariant(h.round, h.dead) && (h.issued <= TOKENS ==> TokenInvariant(h))
  }

  lemma VisitKeepsRound(r: Round, dead: set<Listener>)
    requires RoundInvariant(r, dead) && r.visited < |r.order|
    ensures RoundInvariant(Visited(r, dead), dead)
  {
    var t, next := r.order[r.visited], Visited(r, dead);
    assert t in r.order;
    assert !IsVisited(r, t);
    forall u
      ensures IsVisited(next, u) <==> IsVisited(r, u) || u == t
    {
      if u == t {
        assert next.order[r.visited] == u;
      }
      if IsVisited(r, u) {
        var i :| 0 <= i < r.visited && r.order[i] == u;
        assert 0 <= i < next.visited && next.order[i] == u;
      }
    }
    assert forall u :: u in next.delivered || u in next.expired <==> u in r.delivered || u in r.expired || u == t;
  }

  lemma RoundOutlivesDeaths(r: Round, dead: set<Listener>, more: set<Listener>)
    requires RoundInvariant(r, dead) && dead <= more
    ensures RoundInvariant(r, more)
  {
  }

  lemma StepKeepsRound(h: Handler, s: Step)
    requires RoundInvariant(h.round, h.dead) && Enabled(h, s)
    ensures RoundInvariant(Apply(h, s).round, Apply(h, s).dead)
  {
    match s
    case Visit => VisitKeepsRound(h.round, h.dead);
    case Die(l) => RoundOutlivesDeaths(h.round, h.dead, h.dead + {l});
    case Erase =>
      var r := h.round;
      assert forall t :: IsVisited(r.(isOpen := false), t) <==> IsVisited(r, t);
    case _ =>
  }

  lemma StepKeepsTokens(h: Handler, s: Step)
    requires h.issued <= TOKENS ==> TokenInvariant(h)
    ensures Apply(h, s).issued <= TOKENS ==> TokenInvariant(Apply(h, s))
  {
  }

  lemma {:induction false} InvariantAlways(h: Handler, steps: seq<Step>)
    requires Invariant(h) && Legal(h, steps)
    ensures Invariant(Run(h, steps))
  {
    if steps != [] {
      var n := |steps| - 1;
      InvariantAlways(h, steps[..n]);
      StepKeepsRound(Run(h, steps[..n]), steps[n]);
      StepKeepsTokens(Run(h, steps[..n]), steps[n]);
    }
  }

  /** So every handler that any steps can lead to has it. */
  lemma ReachableHandlers(steps: seq<Step>)
    requires Legal(NEW_HANDLER, steps)
    ensures Invariant(Run(NEW_HANDLER, steps))
  {
    InvariantAlways(NEW_HANDLER, steps);
  }

  // ---------- Delivery ----------

  /** When the round is over every listener of the copy was either delivered the event exactly once or found
      destroyed, and one that is still alive was delivered. */
  lemma EveryLivingListenerIsNotified(h: Handler, steps: seq<Step>, t: Token)
    requires Invariant(h) && Legal(h, steps)
    requires var r := Run(h, steps).round; r.visited == |r.order|
    ensures var (r, dead) := (Run(h, steps).round, Run(h, steps).dead);
            && NoRepeats(r.delivered)
            && (t in r.snapshot <==> t in r.delivered || t in r.expired)
            && !(t in r.delivered && t in r.expired)
            && (t in r.snapshot && r.snapshot[t] !in dead ==> t in r.delivered)
  {
    InvariantAlways(h, steps);
    var r := Run(h, steps).round;
    if t in r.snapshot {
      assert t in r.order;
      var i :| 0 <= i < |r.order| && r.order[i] == t;
      assert IsVisited(r, t);
    } else {
      assert forall i :: 0 <= i < |r.order| ==> r.order[i] in r.order;
      assert !IsVisited(r, t);
    }
  }

  // ---------- Removal ----------

  /** Erasing removes only destroyed listeners, as long as the tokens have not run out. */
  lemma ErasedListenersAreDead(h: Handler, steps: seq<Step>, t: Token)
    requires Invariant(h) && Legal(h, steps) && Run(h, steps).issued <= TOKENS
    requires var now := Run(h, steps); t in now.listeners && t !in Apply(now, Erase).listeners
    ensures var now := Run(h, steps); now.listeners[t] in now.dead
  {
    InvariantAlways(h, steps);
  }

  predicate Unregisters(steps: seq<Step>, t: Token) { Unregister(t) in steps }

  lemma {:induction false} CountsOnlyGrow(h: Handler, steps: seq<Step>, k: nat)
    requires k <= |steps|
    ensures Run(h, steps[..k]).issued <= Run(h, steps).issued
    ensures Run(h, steps[..k]).dead <= Run(h, steps).dead
    decreases |steps|
  {
    if k < |steps| {
      var n := |steps| - 1;
      assert steps[..n][..k] == steps[..k];
      CountsOnlyGrow(h, steps[..n], k);
    } else {
      assert steps[..k] == steps;
    }
  }

  /** A registered listener that stays alive leaves the table only through Unregister with its own token, in every
      interleaving of registrations, unregistrations, destructions and dispatches that does not use up the
      tokens. */
  lemma {:induction false} LivingListenerStays(h: Handler, steps: seq<Step>, t: Token)
    requires Invariant(h) && Legal(h, steps) && Run(h, steps).issued <= TOKENS
    requires t in h.listeners && h.listeners[t] !in Run(h, steps).dead && !Unregisters(steps, t)
    ensures t in Run(h, steps).listeners && Run(h, steps).listeners[t] == h.listeners[t]
  {
    if steps != [] {
      var n := |steps| - 1;
      CountsOnlyGrow(h, steps, n);
      assert steps[n] in steps && forall s :: s in steps[..n] ==> s in steps;
      LivingListenerStays(h, steps[..n], t);
      InvariantAlways(h, steps[..n]);
      LivingListenerSurvives(Run(h, steps[..n]), steps[n], t);
    }
  }

  lemma LivingListenerSurvives(h: Handler, s: Step, t: Token)
    requires Invariant(h) && Apply(h, s).issued <= TOKENS
    requires t in h.listeners && h.listeners[t] !in h.dead && s != Unregister(t)
    ensures t in Apply(h, s).listeners && Apply(h, s).listeners[t] == h.listeners[t]
  {
  }

  // ---------- When the tokens run out ----------

  /** In whatever state steps have led to: a registration displaces nobody before all tokens have been issued; after
      that it displaces the listener that still holds the next token, if there is one, and no other ... */
  lemma RegisterDisplaces(steps: seq<Step>, l: Listener, t: Token)
    requires Legal(NEW_HANDLER, steps) && t in Run(NEW_HANDLER, steps).listeners
    ensures var before, after := Run(NEW_HANDLER, steps), Run(NEW_HANDLER, steps + [Register(l)]);
            && t in after.listeners
            && (before.issued < TOKENS ==> after.listeners[t] == before.listeners[t])
            && (after.listeners[t] != before.listeners[t] <==> t == before.next && before.listeners[t] != l)
  {
    ReachableHandlers(steps);
    RunSnoc(NEW_HANDLER, steps, Register(l));
  }

  lemma {:induction false} RunAppend(h: Handler, a: seq<Step>, b: seq<Step>)
    ensures Run(h, a + b) == Run(Run(h, a), b)
    ensures Legal(h, a + b) <==> Legal(h, a) && Legal(Run(h, a), b)
  {
    if b == [] {
      assert a + b == a;
    } else {
      var n := |b| - 1;
      assert (a + b)[..|a| + n] == a + b[..n];
      RunAppend(h, a, b[..n]);
    }
  }

  lemma RunSnoc(h: Handler, steps: seq<Step>, s: Step)
    ensures Run(h, steps + [s]) == Apply(Run(h, steps), s)
    ensures Legal(h, steps + [s]) <==> Legal(h, steps) && Enabled(Run(h, steps), s)
  {
  }

  /** Registering listener 0 for good, and then n others that unregister at once. */
  function Churn(n: nat): seq<Step>
    requires n < TOKENS
  {
    if n == 0 then [Register(0)] else Churn(n - 1) + [Register(1)] + [Unregister(n)]
  }

  lemma RunTwo(h: Handler, steps: seq<Step>, s: Step, t: Step)
    ensures Run(h, steps + [s] + [t]) == Apply(Apply(Run(h, steps), s), t)
    ensures Legal(h, steps + [s] + [t])
        <==> Legal(h, steps) && Enabled(Run(h, steps), s) && Enabled(Apply(Run(h, steps), s), t)
  {
  }

  /** Listener 0 holds token 0, and n + 1 tokens have been issued. */
  function Churned(n: nat): Handler
    requires n < TOKENS
  {
    Handler(map[0 := 0], if n + 1 == TOKENS then 0 else n + 1, n + 1, {}, NO_ROUND)
  }

  lemma ChurnOnce(n: nat)
    requires 0 < n < TOKENS
    ensures Apply(Apply(Churned(n - 1), Register(1)), Unregister(n)) == Churned(n)
  {
  }

  lemma ChurnStart()
    ensures Legal(NEW_HANDLER, Churn(0)) && Run(NEW_HANDLER, Churn(0)) == Churned(0)
  {
    RunSnoc(NEW_HANDLER, [], Register(0));
    assert [] + [Register(0)] == [Register(0)];
  }

  lemma {:induction false} ChurnResult(n: nat)
    requires n < TOKENS
    ensures Legal(NEW_HANDLER, Churn(n))
    ensures Run(NEW_HANDLER, Churn(n)) == Churned(n)
  {
    if n == 0 {
      ChurnStart();
    } else {
      ChurnResult(n - 1);
      ChurnOnce(n);
      RunTwo(NEW_HANDLER, Churn(n - 1), Register(1), Unregister(n));
    }
  }

  /** All tokens are used once, the holder of token 0 is destroyed and found so by a dispatch, and meanwhile a new
      listener registers. */
  function UnluckyRun(): seq<Step> {
    Churn(TOKENS - 1) + [Die(0)] + [Snapshot([0])] + [Visit] + [Register(2)]
  }

  /** ... and so, once 2^32 tokens have been issued, a dispatch can remove a listener that is alive and was never
      unregistered: the new one has the old token, and the erasure takes it. */
  lemma ReusedTokenLosesListener()
    ensures var steps := UnluckyRun();
            && Legal(NEW_HANDLER, steps) && Enabled(Run(NEW_HANDLER, steps), Erase) && !Unregisters(steps, 0)
            && Run(NEW_HANDLER, steps).issued == TOKENS + 1
            && Run(NEW_HANDLER, steps).listeners == map[0 := 2] && 2 !in Run(NEW_HANDLER, steps).dead
            && Apply(Run(NEW_HANDLER, steps), Erase).listeners == map[]
  {
    var s0 := Churn(TOKENS - 1);
    var s1 := s0 + [Die(0)];
    var s2 := s1 + [Snapshot([0])];
    var s3 := s2 + [Visit];
    ChurnResult(TOKENS - 1);
    ChurnKeepsZero(TOKENS - 1);
    RunSnoc(NEW_HANDLER, s0, Die(0));
    RunSnoc(NEW_HANDLER, s1, Snapshot([0]));
    RunSnoc(NEW_HANDLER, s2, Visit);
    RunSnoc(NEW_HANDLER, s3, Register(2));
    assert Enumerates([0], map[0 := 0 as Listener].Keys);
    var h := Run(NEW_HANDLER, UnluckyRun());
    assert h == Handler(map[0 := 2], 1, TOKENS + 1, {0}, Round(true, map[0 := 0], [0], 1, [], [0]));
    assert 0 in Tokens([0]);
  }

  lemma {:induction false} ChurnKeepsZero(n: nat)
    requires n < TOKENS
    ensures !Unregisters(Churn(n), 0)
  {
    if n > 0 {
      ChurnKeepsZero(n - 1);
    }
  }

  /** A listener that is in the table after some steps, survives those that follow and is not unregistered in them
      is still there in the end. */
  ghost predicate Stays(first: seq<Step>, more: seq<Step>, t: Token) {
    var before := Run(NEW_HANDLER, first);
    var after := Run(before, more);
    t in before.listeners && before.listeners[t] !in after.dead && !Unregisters(more, t) ==>
      t in after.listeners && after.listeners[t] == before.listeners[t]
  }

  ghost predicate WithinLimit(first: seq<Step>, more: seq<Step>, registrations: nat) {
    && Legal(NEW_HANDLER, first) && Legal(Run(NEW_HANDLER, first), more)
    && Run(Run(NEW_HANDLER, first), more).issued <= registrations
  }

  /** No run with at most so many registrations loses a living listener. */
  ghost predicate NeverLosesUpTo(registrations: nat) {
    forall first, more, t :: WithinLimit(first, more, registrations) ==> Stays(first, more, t)
  }

  /** Living listeners are never lost if and only if no more than 2^32 registrations are made. */
  lemma NeverLosesExactly(registrations: nat)
    ensures NeverLosesUpTo(registrations) <==> registrations <= TOKENS
  {
    if registrations <= TOKENS {
      forall first, more, t | WithinLimit(first, more, registrations)
        ensures Stays(first, more, t)
      {
        StaysWithinTokens(first, more, t);
      }
    } else {
      LosesBeyondTokens();
      assert WithinLimit(UnluckyRun(), [Erase], registrations);
    }
  }

  lemma StaysWithinTokens(first: seq<Step>, more: seq<Step>, t: Token)
    requires WithinLimit(first, more, TOKENS)
    ensures Stays(first, more, t)
  {
    var h := Run(NEW_HANDLER, first);
    ReachableHandlers(first);
    if t in h.listeners && h.listeners[t] !in Run(h, more).dead && !Unregisters(more, t) {
      LivingListenerStays(h, more, t);
    }
  }

  lemma LosesBeyondTokens()
    ensures WithinLimit(UnluckyRun(), [Erase], TOKENS + 1) && !Stays(UnluckyRun(), [Erase], 0)
  {
    var h := Run(NEW_HANDLER, UnluckyRun());
    ReusedTokenLosesListener();
    RunSnoc(h, [], Erase);
    assert [] + [Erase] == [Erase];
  }

  // ---------- The handler ----------

  predicate OfOtherThreads(steps: seq<Step>) { forall s :: s in steps ==> s.Register? || s.Unregister? || s.Die? }

  /** The steps up to visit i: the copy, and before each visit what other threads do. */
  function Visits(between: nat -> seq<Step>, order: seq<Token>, i: nat): seq<Step> {
    if i == 0 then [Snapshot(order)] else Visits(between, order, i - 1) + between(i - 1) + [Visit]
  }

  /** All steps of a dispatch. */
  function Trace(between: nat -> seq<Step>, order: seq<Token>): seq<Step> {
    Visits(between, order, |order|) + between(|order|) + [Erase]
  }

  lemma VisitsNext(start: Handler, between: nat -> seq<Step>, order: seq<Token>, i: nat)
    ensures var h := Run(start, Visits(between, order, i));
            && Run(start, Visits(between, order, i + 1)) == Apply(Run(h, between(i)), Visit)
            && (Legal(start, Visits(between, order, i + 1))
                <==> Legal(start, Visits(between, order, i)) && Legal(h, between(i))
                     && Enabled(Run(h, between(i)), Visit))
  {
    RunAppend(start, Visits(between, order, i), between(i));
    RunSnoc(start, Visits(between, order, i) + between(i), Visit);
  }

  class WpaEventHandler {
    var eventListeners: map<Token, Listener>
    var eventListenerRegistrationTokenNext: Token
    /** Which listeners have been destroyed: the state of the weak pointers. */
    var destroyed: set<Listener>
    ghost var issued: nat

    ghost function State(round: Round): Handler
      reads this
    {
      Handler(eventListeners, eventListenerRegistrationTokenNext, issued, destroyed, round)
    }

    constructor ()
      ensures State(NO_ROUND) == NEW_HANDLER
    {
      eventListeners, eventListenerRegistrationTokenNext, destroyed, issued := map[], 0, {}, 0;
    }

    method RegisterEventListener(wpaEventListener: Listener, ghost round: Round) returns (token: Token)
      modifies this
      ensures token == old(eventListenerRegistrationTokenNext)
      ensures State(round) == Apply(old(State(round)), Register(wpaEventListener))
    {
      token := eventListenerRegistrationTokenNext;
      eventListenerRegistrationTokenNext := NextToken(eventListenerRegistrationTokenNext);
      eventListeners := eventListeners[token := wpaEventListener];
      issued := issued + 1;
    }

    method UnregisterEventListener(wpaEventListenerRegistrationToken: Token, ghost round: Round)
      modifies this
      ensures State(round) == Apply(old(State(round)), Unregister(wpaEventListenerRegistrationToken))
    {
      eventListeners := eventListeners - {wpaEventListenerRegistrationToken};
    }

    /** One step of another thread. */
    method OtherStep(step: Step, ghost round: Round)
      requires step.Register? || step.Unregister? || step.Die?
      modifies this
      ensures State(round) == Apply(old(State(round)), step)
    {
      match step {
        case Register(l) => var _ := RegisterEventListener(l, round);
        case Unregister(t) => UnregisterEventListener(t, round);
        case Die(l) => destroyed := destroyed + {l};
      }
    }

    /** What other threads do while the dispatching one does not hold the lock. */
    method Meanwhile(steps: seq<Step>, ghost round: Round)
      requires OfOtherThreads(steps)
      modifies this
      ensures Legal(old(State(round)), steps) && State(round) == Run(old(State(round)), steps)
    {
      for i := 0 to |steps|
        invariant Legal(old(State(round)), steps[..i]) && State(round) == Run(old(State(round)), steps[..i])
      {
        assert steps[..i + 1] == steps[..i] + [steps[i]] && steps[i] in steps;
        RunSnoc(old(State(round)), steps[..i], steps[i]);
        OtherStep(steps[i], round);
      }
      assert steps[..|steps|] == steps;
    }

    /** The dispatching part of ProcessNextEvent, while other threads do `between(i)` before visit i and after the
        last visit. Together they make exactly the steps of the trace: no listener is notified twice, and one that
        was registered and is still alive in the end was notified. */
    method DispatchEvent(between: nat -> seq<Step>, ghost before: Round)
      returns (delivered: seq<Token>, ghost order: seq<Token>, ghost after: Round)
      requires !before.isOpen && forall i: nat :: OfOtherThreads(between(i))
      requires Invariant(State(before))
      modifies this
      ensures NoRepeats(delivered) && forall t :: t in delivered ==> t in old(eventListeners)
      ensures forall t :: t in old(eventListeners) && old(eventListeners[t]) !in destroyed ==> t in delivered
      ensures Invariant(State(after)) && Legal(old(State(before)), Trace(between, order))
      ensures State(after) == Run(old(State(before)), Trace(between, order))
      ensures after.delivered == delivered && !after.isOpen && after.visited == |after.order|
    {
      ghost var start := State(before);
      var listeners := eventListeners;
      var tokens := Iterate(listeners.Keys);
      order := tokens;
      RunSnoc(start, [], Snapshot(tokens));
      assert [] + [Snapshot(tokens)] == [Snapshot(tokens)];
      var expired;
      delivered, expired, after := NotifyEach(between, listeners, tokens, start);
      Meanwhile(between(|tokens|), after);
      RunAppend(start, Visits(between, tokens, |tokens|), between(|tokens|));
      RunSnoc(start, Visits(between, tokens, |tokens|) + between(|tokens|), Erase);
      EraseEach(expired);
      after := after.(isOpen := false);
      InvariantAlways(start, Trace(between, order));
      forall t
        ensures t in delivered ==> t in listeners
        ensures t in listeners && listeners[t] !in destroyed ==> t in delivered
      {
        EveryLivingListenerIsNotified(start, Trace(between, order), t);
      }
    }

    /** The loop over the copy of the table. */
    method NotifyEach(between: nat -> seq<Step>, listeners: map<Token, Listener>, tokens: seq<Token>,
                      ghost start: Handler)
      returns (delivered: seq<Token>, expired: seq<Token>, ghost round: Round)
      requires Enumerates(tokens, listeners.Keys) && forall i: nat :: OfOtherThreads(between(i))
      requires Legal(start, Visits(between, tokens, 0))
      requires State(Round(true, listeners, tokens, 0, [], [])) == Run(start, Visits(between, tokens, 0))
      modifies this
      ensures Legal(start, Visits(between, tokens, |tokens|))
      ensures State(round) == Run(start, Visits(between, tokens, |tokens|))
      ensures round.isOpen && round.snapshot == listeners && round.order == tokens && round.visited == |tokens|
      ensures round.delivered == delivered && round.expired == expired
    {
      delivered, expired, round := [], [], Round(true, listeners, tokens, 0, [], []);
      for i := 0 to |tokens|
        invariant Legal(start, Visits(between, tokens, i)) && State(round) == Run(start, Visits(between, tokens, i))
        invariant round.isOpen && round.snapshot == listeners && round.order == tokens && round.visited == i
        invariant round.delivered == delivered && round.expired == expired
      {
        Meanwhile(between(i), round);
        VisitsNext(start, between, tokens, i);
        ghost var now := State(round);
        round := Visited(round, destroyed);
        assert State(round) == Apply(now, Visit);
        var token := tokens[i];
        assert token in tokens;
        if listeners[token] in destroyed {
          expired := expired + [token];
        } else {
          delivered := delivered + [token];
        }
      }
    }

    /** The loop that removes the expired tokens, under the lock. */
    method EraseEach(expired: seq<Token>)
      modifies this`eventListeners
      ensures eventListeners == old(eventListeners) - Tokens(expired)
    {
      for i := 0 to |expired|
        invariant eventListeners == old(eventListeners) - Tokens(expired[..i])
      {
        assert expired[..i + 1] == expired[..i] + [expired[i]];
        assert Tokens(expired[..i + 1]) == Tokens(expired[..i]) + {expired[i]};
        eventListeners := eventListeners - {expired[i]};
      }
      assert expired[..|expired|] == expired;
    }
  }
}
