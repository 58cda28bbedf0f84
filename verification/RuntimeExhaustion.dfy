/**
 * Runs that show where the runtime loses track of a call.
 *
 * The worker (src/runtime/worker.rs:243-247) can miscount one.
 *
 * The pump hands its count of ended calls to the worker only when it succeeds.
 * A call whose sequence numbers run out makes it fail after other calls have
 * already ended. This module follows two calls from a new worker to that point.
 */
module RuntimeExhaustion {
  import opened Wrappers
  import opened RuntimeService
  import opened RuntimeWorker
  import CallRegistry
  import OpaqueIds
  import Shutdown

  type Token = CallRegistry.Token

  /** The second call published one action in each of `n` polls, the first none. */
  predicate Watched(w: Worker, first: Token, second: Token, n: nat) {
    && w.Sound(0) && w.phase == Ready && w.lastPoll == 0 && w.polls == n && w.started == 2 && w.completed == 0
    && first.callId != second.callId && w.service.calls.Keys == {first.callId, second.callId}
    && w.service.calls[first.callId] == Active(first, 2) && w.service.calls[second.callId] == Active(second, 2 + n)
  }

  /** A poll that finds one action at the second call and perhaps an exit at the first. */
  function Next(first: Token, second: Token, exit: Option<nat>): Event {
    PollEvent(0, Scene([first, second],
                       map[first.callId := Visit([], exit), second.callId := Visit([[0]], None)],
                       Joins([], [first.callId, second.callId], map[])))
  }

  lemma OneAction()
    ensures |Actions([[0]])| == 1 && |Actions([])| == 0
  {
    assert [[0]][..0] == [];
  }

  lemma IterationOfTwo(live: map<nat, nat>, a: nat, b: nat)
    requires a != b && live.Keys == {a, b}
    ensures Joins([], [a, b], map[]).Iterate(live)
  {
    assert live.Keys - CallRegistry.Elements([]) == {a, b};
  }

  lemma PumpOfTwo(s: Service, first: Token, second: Token, n: nat) returns (t: Service)
    requires s.Sound({}) && first.callId != second.callId && n < U64_MAX - 2
    requires s.calls.Keys == {first.callId, second.callId}
    requires s.calls[first.callId] == Active(first, 2) && s.calls[second.callId] == Active(second, 2 + n)
    ensures s.Pump([first, second], Next(first, second, None).scene.visits) == (t, 0, None) && t.Sound({})
    ensures t.calls.Keys == s.calls.Keys && t.registry == s.registry
    ensures t.calls[first.callId] == Active(first, 2) && t.calls[second.callId] == Active(second, 3 + n)
  {
    hide Service.Sound, Service.PumpCall;
    OneAction();
    var visits := Next(first, second, None).scene.visits;
    var u, error := PumpPublishes(s, first, VisitOf(visits, first));
    var later;
    t, later := PumpPublishes(u, second, VisitOf(visits, second));
    assert [first, second][1..] == [second] && [second][1..] == [];
    assert u.Pump([second], visits) == (t, 0, None) by {
      assert t.Pump([], visits) == (t, 0, None);
    }
  }

  lemma OneMorePoll(w: Worker, first: Token, second: Token, n: nat) returns (v: Worker)
    requires Watched(w, first, second, n) && n < U64_MAX - 2
    ensures Proper(w, Next(first, second, None)) && LostIn(w, Next(first, second, None)) == 0
    ensures v == Do(w, Next(first, second, None)) && Watched(v, first, second, n + 1)
  {
    hide Service.Sound, Service.Pump, Joins.Iterate, Shutdown.Coordinator.Valid;
    var scene := Next(first, second, None).scene;
    var t := PumpOfTwo(w.service, first, second, n);
    SameCallsRegistered(w.service);
    IterationOfTwo(t.registry.calls, first.callId, second.callId);
    v := PollConserves(w, 0, scene, 0);
    OneAction();
  }

  /** The second call has no number left, and the first ends just before it in the same poll. */
  lemma LastStraw(w: Worker, first: Token, second: Token) returns (v: Worker)
    requires Watched(w, first, second, U64_MAX - 2)
    ensures Proper(w, Next(first, second, Some(0))) && LostIn(w, Next(first, second, Some(0))) == 1
    ensures v == Do(w, Next(first, second, Some(0)))
    ensures v.started == 2 && v.completed == 0 && |v.service.calls| == 1
  {
    hide Service.Sound, Service.Pump, Joins.Iterate;
    var scene := Next(first, second, Some(0)).scene;
    OneAction();
    assert Overflows(w.service, scene.order[1], scene.visits);
    assert scene.order[1..] == [second];
    var t, error := PumpKeepsSound(w.service, scene.order, scene.visits);
    v := PollConserves(w, 0, scene, 0);
  }

  lemma {:induction false} NumbersRunOut(w: Worker, first: Token, second: Token, n: nat) returns (events: seq<Event>)
    requires Watched(w, first, second, n) && n <= U64_MAX - 2
    ensures ProperRun(w, events) && LostOver(w, events) == 1
    ensures Run(w, events).started == 2 && Run(w, events).completed == 0 && |Run(w, events).service.calls| == 1
    decreases U64_MAX - n
  {
    hide Watched, Proper, Do, LostIn;
    if n == U64_MAX - 2 {
      var v := LastStraw(w, first, second);
      events := [Next(first, second, Some(0))];
      assert events[1..] == [];
    } else {
      var v := OneMorePoll(w, first, second, n);
      var rest := NumbersRunOut(v, first, second, n + 1);
      events := [Next(first, second, None)] + rest;
      assert events[1..] == rest;
    }
  }

  lemma ServiceDials(s: Service, callId: nat) returns (t: Service, token: Token)
    requires s.Sound({}) && s.registry.accepting && callId !in s.calls && callId !in s.terminal
    requires |s.calls| + |s.terminal| < s.capacity && s.registry.generator.next != 0
    ensures s.Dial(callId, Prepared(true, true)) == (t, Ok(token)) && token.callId == callId
    ensures t.calls == s.calls[callId := Active(token, 2)] && t.terminal == s.terminal && t.capacity == s.capacity
    ensures t.registry.generator == s.registry.generator.Advanced()
  {
    hide CallRegistry.Registry.Sound, Named, Matched, Delivers, Known, Ahead;
    SameCallsRegistered(s);
    t := s.Dial(callId, Prepared(true, true)).0;
    token := s.Dial(callId, Prepared(true, true)).1.value;
  }

  lemma WorkerDials(w: Worker, callId: nat) returns (v: Worker, token: Token)
    requires w.Sound(0) && w.phase == Ready && callId !in w.service.calls && callId !in w.service.terminal
    requires w.started < U64_MAX && w.service.registry.generator.next != 0
    requires |w.service.calls| + |w.service.terminal| < w.service.capacity
    ensures v == w.Dial(callId, Prepared(true, true)).0 && v.Sound(0) && token.callId == callId
    ensures v == w.(service := v.service, started := w.started + 1)
    ensures v.service.calls == w.service.calls[callId := Active(token, 2)]
    ensures v.service.terminal == w.service.terminal && v.service.capacity == w.service.capacity
    ensures v.service.registry.generator == w.service.registry.generator.Advanced()
  {
    hide Service.Sound, Service.Dial;
    var t;
    t, token := ServiceDials(w.service, callId);
    DialConserves(w, callId, Prepared(true, true), 0);
    v := w.Dial(callId, Prepared(true, true)).0;
  }

  lemma TwoDials(capacity: nat, notificationCapacity: nat, grace: nat, generator: OpaqueIds.Generator)
    returns (u: Worker, v: Worker, first: Token, second: Token)
    requires generator.Valid() && generator.next == 1 && capacity >= 2
    ensures u == New(capacity, notificationCapacity, grace, generator).Dial(1, Prepared(true, true)).0
    ensures v == u.Dial(2, Prepared(true, true)).0 && Watched(v, first, second, 0)
  {
    hide Worker.Sound, Worker.Dial;
    NewIsSound(capacity, notificationCapacity, grace, generator);
    u, first := WorkerDials(New(capacity, notificationCapacity, grace, generator), 1);
    v, second := WorkerDials(u, 2);
  }

  /** Two calls are started; at the end one is active, none is counted as completed, and one is lost. */
  lemma AMiscountIsReachable(capacity: nat, notificationCapacity: nat, grace: nat, generator: OpaqueIds.Generator)
    returns (events: seq<Event>)
    requires generator.Valid() && generator.next == 1 && capacity >= 2
    ensures var w := New(capacity, notificationCapacity, grace, generator);
            && ProperRun(w, events) && LostOver(w, events) == 1
            && Run(w, events).started == 2 && Run(w, events).completed == 0 && |Run(w, events).service.calls| == 1
  {
    hide Watched, New, Worker.Dial;
    var w := New(capacity, notificationCapacity, grace, generator);
    var u, v, first, second := TwoDials(capacity, notificationCapacity, grace, generator);
    var rest := NumbersRunOut(v, first, second, 0);
    var dials := [DialEvent(1, Prepared(true, true)), DialEvent(2, Prepared(true, true))];
    events := dials + rest;
    assert events[1..] == [dials[1]] + rest && events[1..][1..] == rest;
  }

  /**
   * The service (src/runtime/service.rs:314-338) can hold one that its registry
   * has forgotten: here one call has finished, and the shutdown is polled
   * before it has begun.
   */
  lemma ACallIsForgotten(capacity: nat, notificationCapacity: nat, grace: nat, generator: OpaqueIds.Generator)
    returns (s: Service, t: Service)
    requires generator.Valid() && generator.next == 1 && capacity >= 1
    ensures s == New(capacity, notificationCapacity, grace, generator).Dial(1, Prepared(true, true)).0.service
    ensures Joins([1], [], map[]).Iterate(s.registry.calls)
    ensures s.PollShutdown(0, Joins([1], [], map[])) == (t, Err(ShutdownFailed(Shutdown.NotStarted)))
    ensures 1 in t.calls && 1 !in t.registry.calls && !t.Sound({})
  {
    hide Service.Sound, Service.PollShutdown, Worker.Dial;
    NewIsSound(capacity, notificationCapacity, grace, generator);
    var v, token := WorkerDials(New(capacity, notificationCapacity, grace, generator), 1);
    s := v.service;
    SameCallsRegistered(s);
    var joins := Joins([1], [], map[]);
    assert s.registry.calls.Keys == {1};
    assert s.registry.calls.Keys - CallRegistry.Elements([1]) == {};
    FailedPollForgets(s, 0, joins);
    ForgottenCallsAreStuck(s, [1]);
    t := s.PollShutdown(0, joins).0;
    assert 1 in CallRegistry.Elements([1]);
  }
}
