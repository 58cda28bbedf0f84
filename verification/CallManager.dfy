/**
 * The registry of call threads (src/call/execution/manager.rs).
 *
 * A token names a call and the generation it was spawned with; generations come
 * from the identifier generator, so a token outlives its call only as a dead one.
 */
module CallRegistry {
  import opened Wrappers
  import opened OpaqueIds

  const MAX_CALL_MANAGER_CAPACITY: nat := 1_000_000

  datatype Token = Token(callId: nat, generation: nat)

  datatype Error =
    | InvalidCapacity | ShuttingDown | DuplicateCall | AtCapacity | GenerationExhausted
    | UnknownCall | StaleToken | Thread

  /** The registry as a value: the generation each registered call was spawned with. */
  datatype Registry = Registry(calls: map<nat, nat>, capacity: nat, accepting: bool, generator: Generator) {
    /** Every registered generation came out of the generator, and no two calls share one. */
    predicate Sound() {
      && generator.Valid() && |calls| <= capacity
      && (forall id | id in calls :: generator.WasIssued(calls[id]))
      && (forall a, b | a in calls && b in calls && a != b :: calls[a] != calls[b])
    }

    function Verify(token: Token): Result<(), Error> {
      if token.callId !in calls then Err(UnknownCall)
      else if calls[token.callId] != token.generation then Err(StaleToken)
      else Ok(())
    }

    predicate Knows(token: Token) { token.callId in calls && calls[token.callId] == token.generation }

    function SpawnError(callId: nat): Option<Error> {
      if !accepting then Some(ShuttingDown)
      else if callId in calls then Some(DuplicateCall)
      else if |calls| >= capacity then Some(AtCapacity)
      else if generator.next == 0 then Some(GenerationExhausted)
      else None
    }

    /** A generation is spent even when the native thread cannot be created. */
    function Spawn(callId: nat, threadOk: bool): (Registry, Result<Token, Error>) {
      if SpawnError(callId).Some? then (this, Err(SpawnError(callId).value))
      else
        var generation := generator.permutation.Value(generator.next);
        var spent := this.(generator := generator.Advanced());
        if !threadOk then (spent, Err(Thread))
        else (spent.(calls := calls[callId := generation]), Ok(Token(callId, generation)))
    }

    function Without(callId: nat): Registry { this.(calls := calls - {callId}) }

    function Remove(token: Token, joinOk: bool): (Registry, Result<Token, Error>) {
      if Verify(token).Err? then (this, Err(Verify(token).error))
      else (Without(token.callId), if joinOk then Ok(token) else Err(Thread))
    }

    /** Join the finished calls in the order they were collected; the first failing join ends the reap. */
    function Reap(exits: seq<Token>, finished: seq<nat>, joins: set<nat>): (Registry, Result<seq<Token>, Error>)
      decreases |finished|
    {
      if finished == [] then (this, Ok(exits))
      else if finished[0] !in calls then (this, Err(UnknownCall))
      else if finished[0] !in joins then (Without(finished[0]), Err(Thread))
      else Without(finished[0]).Reap(exits + [Token(finished[0], calls[finished[0]])], finished[1..], joins)
    }

    /** All handles leave the registry before any of them is joined; the first failing join is reported. */
    function ShutdownAll(order: seq<nat>, joins: set<nat>): (Registry, Result<seq<Token>, Error>)
      requires forall id | id in order :: id in calls
    {
      (this.(calls := map[], accepting := false),
       if exists id | id in order :: id !in joins then Err(Thread) else Ok(TokensOf(calls, order)))
    }

    function BeginShutdown(): Registry { this.(accepting := false) }
  }

  function TokensOf(calls: map<nat, nat>, order: seq<nat>): (tokens: seq<Token>)
    requires forall id | id in order :: id in calls
    ensures |tokens| == |order| && forall i | 0 <= i < |order| :: tokens[i] == Token(order[i], calls[order[i]])
  {
    if order == [] then [] else [Token(order[0], calls[order[0]])] + TokensOf(calls, order[1..])
  }

  /** `order` lists the keys of `calls` that satisfy a test once each: some iteration order of the hash map. */
  ghost predicate Lists(order: seq<nat>, keys: set<nat>) {
    (forall id :: id in order <==> id in keys) && Distinct(order)
  }

  predicate Distinct(s: seq<nat>) { forall i, j | 0 <= i < j < |s| :: s[i] != s[j] }

  // ---------------------------------------------------------------------------
  // Stale tokens stay dead
  // ---------------------------------------------------------------------------

  /** One operation; the outcome of native threads and joins and the hash order are the environment's. */
  datatype Op =
    | SpawnOp(callId: nat, threadOk: bool)
    | RemoveOp(token: Token, joinOk: bool)
    | ReapOp(finished: seq<nat>, joins: set<nat>)
    | ShutdownAllOp
    | BeginShutdownOp

  function Do(r: Registry, op: Op): Registry {
    match op
    case SpawnOp(callId, threadOk) => r.Spawn(callId, threadOk).0
    case RemoveOp(token, joinOk) => r.Remove(token, joinOk).0
    case ReapOp(finished, joins) => r.Reap([], finished, joins).0
    case ShutdownAllOp => r.ShutdownAll([], {}).0
    case BeginShutdownOp => r.BeginShutdown()
  }

  function Run(r: Registry, ops: seq<Op>): Registry
    decreases |ops|
  {
    if ops == [] then r else Run(Do(r, ops[0]), ops[1..])
  }

  /** `after` is `r` with some calls removed. */
  predicate Within(after: Registry, r: Registry) {
    && after.generator == r.generator && after.capacity == r.capacity
    && (after.accepting ==> r.accepting)
    && (forall id | id in after.calls :: id in r.calls && after.calls[id] == r.calls[id])
  }

  lemma WithinKeepsSound(after: Registry, r: Registry)
    requires r.Sound() && Within(after, r)
    ensures after.Sound()
  {
    CardinalityOfSubset(after.calls.Keys, r.calls.Keys);
  }

  /** A spawn succeeds exactly when admission is open, the call is new, there is room, a generation and a thread. */
  lemma SpawnSucceedsExactly(r: Registry, callId: nat, threadOk: bool)
    ensures r.Spawn(callId, threadOk).1.Ok? <==>
              r.accepting && callId !in r.calls && |r.calls| < r.capacity && r.generator.next != 0 && threadOk
    ensures r.Spawn(callId, threadOk).1.Ok? ==>
              var token := r.Spawn(callId, threadOk).1.value;
              token.callId == callId && r.Spawn(callId, threadOk).0.calls == r.calls[callId := token.generation]
    ensures r.Spawn(callId, threadOk).1.Err? ==> r.Spawn(callId, threadOk).0.calls == r.calls
    ensures r.Spawn(callId, threadOk).1 == Err(ShuttingDown) <==> !r.accepting
    ensures r.Spawn(callId, threadOk).1 == Err(DuplicateCall) <==> r.accepting && callId in r.calls
    ensures r.Spawn(callId, threadOk).1 == Err(AtCapacity) <==>
              r.accepting && callId !in r.calls && |r.calls| >= r.capacity
    ensures r.Spawn(callId, threadOk).1 == Err(GenerationExhausted) <==>
              r.accepting && callId !in r.calls && |r.calls| < r.capacity && r.generator.next == 0
    ensures r.Spawn(callId, threadOk).1 == Err(Thread) <==>
              r.accepting && callId !in r.calls && |r.calls| < r.capacity && r.generator.next != 0 && !threadOk
    ensures r.Spawn(callId, threadOk).0.accepting == r.accepting && r.Spawn(callId, threadOk).0.capacity == r.capacity
  {
  }

  /** A token is current, of an unknown call, or stale; only a current one removes its call, joined or not. */
  lemma TokensAreTold(r: Registry, token: Token, joinOk: bool)
    ensures r.Verify(token) == Ok(()) <==> (token.callId, token.generation) in r.calls.Items
    ensures r.Verify(token) == Err(UnknownCall) <==> token.callId !in r.calls
    ensures r.Verify(token) == Err(StaleToken) <==>
              token.callId in r.calls && (token.callId, token.generation) !in r.calls.Items
    ensures r.Verify(token).Err? ==> r.Remove(token, joinOk) == (r, Err(r.Verify(token).error))
    ensures r.Verify(token).Ok? ==>
              && r.Remove(token, joinOk).0 == r.(calls := r.calls - {token.callId})
              && r.Remove(token, joinOk).1 == if joinOk then Ok(token) else Err(Thread)
  {
  }

  /** Spawns of `n` calls with the identifiers from `id` on. */
  function Spawns(id: nat, n: nat): seq<Op>
    decreases n
  {
    if n == 0 then [] else [SpawnOp(id, true)] + Spawns(id + 1, n - 1)
  }

  /** A registry takes as many new calls as there is room for. */
  lemma {:induction false} RegistryFills(r: Registry, id: nat, n: nat)
    requires r.accepting && |r.calls| + n <= r.capacity && 0 < r.generator.next && r.generator.next + n <= COUNTER_MASK
    requires forall k | k in r.calls :: k < id
    ensures |Run(r, Spawns(id, n)).calls| == |r.calls| + n
    decreases n
  {
    hide Do;
    if n > 0 {
      var t := Do(r, SpawnOp(id, true));
      OneSpawned(r, id);
      assert Spawns(id, n)[1..] == Spawns(id + 1, n - 1);
      RegistryFills(t, id + 1, n - 1);
    }
  }

  lemma OneSpawned(r: Registry, id: nat)
    requires r.accepting && |r.calls| < r.capacity && 0 < r.generator.next < COUNTER_MASK && id !in r.calls
    ensures var t := Do(r, SpawnOp(id, true));
            && t.accepting && t.capacity == r.capacity && t.generator.next == r.generator.next + 1
            && |t.calls| == |r.calls| + 1 && t.calls.Keys == r.calls.Keys + {id}
  {
    hide Permutation.Value;
    var t := Do(r, SpawnOp(id, true));
    assert t.calls.Keys == r.calls.Keys + {id};
  }

  lemma SpawnKeepsSound(r: Registry, callId: nat, threadOk: bool)
    requires r.Sound()
    ensures r.Spawn(callId, threadOk).0.Sound()
    ensures forall g | r.generator.WasIssued(g) :: r.Spawn(callId, threadOk).0.generator.WasIssued(g)
    ensures r.Spawn(callId, threadOk).1.Ok? ==>
              var token := r.Spawn(callId, threadOk).1.value;
              && !r.generator.WasIssued(token.generation)
              && r.Spawn(callId, threadOk).0.generator.WasIssued(token.generation)
              && r.Spawn(callId, threadOk).0.Knows(token)
  {
    if r.SpawnError(callId).None? {
      FreshIdentifier(r.generator);
      var generation := r.generator.permutation.Value(r.generator.next);
      assert r.calls[callId := generation].Keys == r.calls.Keys + {callId};
    }
  }

  lemma {:induction false} ReapOnlyRemoves(r: Registry, exits: seq<Token>, finished: seq<nat>, joins: set<nat>)
    ensures Within(r.Reap(exits, finished, joins).0, r)
    ensures forall id | id in r.calls && id !in finished :: id in r.Reap(exits, finished, joins).0.calls
    decreases |finished|
  {
    if finished != [] && finished[0] in r.calls && finished[0] in joins {
      var token := Token(finished[0], r.calls[finished[0]]);
      ReapOnlyRemoves(r.Without(finished[0]), exits + [token], finished[1..], joins);
    }
  }

  /** Every operation but a spawn only removes calls. */
  lemma OnlySpawnAdds(r: Registry, op: Op)
    ensures op.SpawnOp? || Within(Do(r, op), r)
  {
    match op
    case ReapOp(finished, joins) => ReapOnlyRemoves(r, [], finished, joins);
    case _ =>
  }

  predicate Dead(r: Registry, token: Token) {
    r.generator.WasIssued(token.generation) && !r.Knows(token)
  }

  lemma OperationKeepsSound(r: Registry, op: Op)
    requires r.Sound()
    ensures Do(r, op).Sound()
    ensures forall g | r.generator.WasIssued(g) :: Do(r, op).generator.WasIssued(g)
    ensures forall token | Dead(r, token) :: Dead(Do(r, op), token)
  {
    if op.SpawnOp? {
      SpawnKeepsSound(r, op.callId, op.threadOk);
    } else {
      OnlySpawnAdds(r, op);
      WithinKeepsSound(Do(r, op), r);
    }
  }

  /**
   * A token that no longer names its call never passes verification again,
   * whatever happens to the registry, reuse of its call id included.
   */
  lemma {:induction false} StaleTokensStayDead(r: Registry, ops: seq<Op>, token: Token)
    requires r.Sound() && Dead(r, token)
    ensures Run(r, ops).Sound() && Dead(Run(r, ops), token)
    ensures Run(r, ops).Verify(token).Err?
    decreases |ops|
  {
    if ops != [] {
      OperationKeepsSound(r, ops[0]);
      StaleTokensStayDead(Do(r, ops[0]), ops[1..], token);
    }
  }

  /** Removing a call kills its token for good, even if its call id is spawned again right away. */
  lemma RemovedTokenNeverVerifies(r: Registry, token: Token, joinOk: bool, ops: seq<Op>)
    requires r.Sound() && r.Verify(token).Ok?
    ensures Run(r.Remove(token, joinOk).0, ops).Verify(token).Err?
  {
    WithinKeepsSound(r.Without(token.callId), r);
    StaleTokensStayDead(r.Remove(token, joinOk).0, ops, token);
  }

  /** No token is ever handed out twice: a later spawn differs in its generation from every earlier one. */
  lemma SpawnedTokensDiffer(r: Registry, first: nat, ops: seq<Op>, second: nat)
    requires r.Sound() && r.Spawn(first, true).1.Ok?
    requires Run(r.Spawn(first, true).0, ops).Spawn(second, true).1.Ok?
    ensures r.Spawn(first, true).1.value.generation !=
            Run(r.Spawn(first, true).0, ops).Spawn(second, true).1.value.generation
  {
    SpawnKeepsSound(r, first, true);
    EveryRunKeepsSound(r.Spawn(first, true).0, ops);
    SpawnKeepsSound(Run(r.Spawn(first, true).0, ops), second, true);
  }

  lemma {:induction false} EveryRunKeepsSound(r: Registry, ops: seq<Op>)
    requires r.Sound()
    ensures Run(r, ops).Sound()
    ensures forall g | r.generator.WasIssued(g) :: Run(r, ops).generator.WasIssued(g)
    decreases |ops|
  {
    if ops != [] {
      OperationKeepsSound(r, ops[0]);
      EveryRunKeepsSound(Do(r, ops[0]), ops[1..]);
    }
  }

  /** Once admission has stopped, no run admits another call and the registry only shrinks. */
  lemma {:induction false} ShutdownIsFinal(r: Registry, ops: seq<Op>)
    requires r.Sound() && !r.accepting
    ensures !Run(r, ops).accepting && Run(r, ops).calls.Keys <= r.calls.Keys
    decreases |ops|
  {
    if ops != [] {
      OperationKeepsSound(r, ops[0]);
      OnlySpawnAdds(r, ops[0]);
      ShutdownIsFinal(Do(r, ops[0]), ops[1..]);
    }
  }

  function Elements(s: seq<nat>): set<nat> { set id | id in s }

  lemma DropFirst(m: map<nat, nat>, s: seq<nat>)
    requires s != []
    ensures m - {s[0]} - Elements(s[1..]) == m - Elements(s)
  {
    assert s == [s[0]] + s[1..];
  }

  lemma FirstIsAlone(calls: map<nat, nat>, s: seq<nat>)
    requires s != [] && Distinct(s) && (forall id | id in s :: id in calls)
    ensures forall id | id in s[1..] :: id in calls - {s[0]}
    ensures TokensOf(calls - {s[0]}, s[1..]) == TokensOf(calls, s[1..])
    ensures Distinct(s[1..])
  {
    assert forall i | 0 <= i < |s[1..]| :: s[1..][i] == s[i + 1] != s[0];
    SameTokensOf(calls - {s[0]}, calls, s[1..]);
  }

  lemma SameTokensOf(a: map<nat, nat>, b: map<nat, nat>, s: seq<nat>)
    requires forall id | id in s :: id in a && id in b && a[id] == b[id]
    ensures TokensOf(a, s) == TokensOf(b, s)
  {
  }

  lemma Associate(a: seq<Token>, b: seq<Token>, c: seq<Token>)
    ensures a + b + c == a + (b + c)
  {
  }

  lemma {:induction false} ElementsCount(s: seq<nat>)
    requires Distinct(s)
    ensures |Elements(s)| == |s|
  {
    if s != [] {
      var init, last := s[..|s| - 1], s[|s| - 1];
      ElementsCount(init);
      assert s == init + [last];
      assert Elements(s) == Elements(init) + {last};
    }
  }

  /** With every join succeeding, a reap reports each finished call once and keeps the others. */
  lemma {:induction false} ReapConserves(r: Registry, exits: seq<Token>, finished: seq<nat>, joins: set<nat>)
    requires Distinct(finished) && (forall id | id in finished :: id in r.calls && id in joins)
    ensures r.Reap(exits, finished, joins).1 == Ok(exits + TokensOf(r.calls, finished))
    ensures r.Reap(exits, finished, joins).0 == r.(calls := r.calls - Elements(finished))
    decreases |finished|
  {
    if finished == [] {
      assert r.calls - {} == r.calls;
      assert exits + [] == exits;
    } else {
      var token := Token(finished[0], r.calls[finished[0]]);
      FirstIsAlone(r.calls, finished);
      ReapConserves(r.Without(finished[0]), exits + [token], finished[1..], joins);
      DropFirst(r.calls, finished);
      Associate(exits, [token], TokensOf(r.calls, finished[1..]));
    }
  }

  /** A reap stops at the first call that cannot be joined, which is gone too, or that is not there. */
  lemma {:induction false} ReapStopsAtFirst(r: Registry, exits: seq<Token>, finished: seq<nat>, joins: set<nat>, k: nat)
    requires k < |finished| && Distinct(finished)
    requires forall id | id in finished[..k] :: id in r.calls && id in joins
    requires finished[k] !in r.calls || finished[k] !in joins
    ensures r.Reap(exits, finished, joins) ==
            if finished[k] in r.calls then (r.(calls := r.calls - Elements(finished[..k + 1])), Err(Thread))
            else (r.(calls := r.calls - Elements(finished[..k])), Err(UnknownCall))
    decreases |finished|
  {
    if k == 0 {
      assert finished[..1] == [finished[0]] && Elements([finished[0]]) == {finished[0]};
      assert r.calls - Elements([]) == r.calls;
    } else {
      var first := finished[0];
      assert first in finished[..k];
      var s, rest := r.Without(first), finished[1..];
      forall id | id in rest[..k - 1] ensures id in s.calls && id in joins {
        var i :| 0 <= i < k - 1 && rest[i] == id;
        assert finished[..k][i + 1] == id && finished[i + 1] != first;
      }
      ReapStopsAtFirst(s, exits + [Token(first, r.calls[first])], rest, joins, k - 1);
      DropFirst(r.calls, finished[..k]);
      DropFirst(r.calls, finished[..k + 1]);
      assert finished[..k][1..] == rest[..k - 1] && finished[..k + 1][1..] == rest[..k];
    }
  }

  /** A full shutdown empties the registry and closes admission, and reports all calls unless a join fails. */
  lemma ShutdownEmpties(r: Registry, order: seq<nat>, joins: set<nat>)
    requires forall id | id in order :: id in r.calls
    ensures r.ShutdownAll(order, joins).0 == Registry(map[], r.capacity, false, r.generator)
    ensures r.ShutdownAll(order, joins).1 == Err(Thread) <==> exists id | id in order :: id !in joins
    ensures r.ShutdownAll(order, joins).1.Ok? ==> r.ShutdownAll(order, joins).1.value == TokensOf(r.calls, order)
  {
  }

  /** Once a shutdown has begun no run admits another call, and those admitted stay until removed. */
  lemma AdmissionStops(r: Registry, ops: seq<Op>)
    requires r.Sound()
    ensures Do(r, BeginShutdownOp).calls == r.calls
    ensures !Run(r, [BeginShutdownOp] + ops).accepting && Run(r, [BeginShutdownOp] + ops).calls.Keys <= r.calls.Keys
  {
    assert ([BeginShutdownOp] + ops)[1..] == ops;
    OperationKeepsSound(r, BeginShutdownOp);
    ShutdownIsFinal(Do(r, BeginShutdownOp), ops);
  }

  // ---------------------------------------------------------------------------
  // The manager
  // ---------------------------------------------------------------------------

  class CallManager {
    var calls: map<nat, nat>
    const capacity: nat
    const generations: IdGenerator
    var accepting: bool

    function AsRegistry(): Registry
      reads this, generations
    {
      Registry(calls, capacity, accepting, generations.AsGenerator())
    }

    constructor (capacity: nat, first: nat, second: nat)
      requires first < WORD && second < WORD
      ensures AsRegistry().Sound() && fresh(generations)
      ensures calls == map[] && accepting && this.capacity == capacity
    {
      this.capacity := capacity;
      calls := map[];
      accepting := true;
      generations := new IdGenerator(first, second);
    }

    /** `with_thread_config`; the two random words seed the generator. */
    static method New(capacity: nat, first: nat, second: nat) returns (r: Result<CallManager, Error>)
      requires first < WORD && second < WORD
      ensures r.Ok? <==> 1 <= capacity <= MAX_CALL_MANAGER_CAPACITY
      ensures r.Err? ==> r.error == InvalidCapacity
      ensures r.Ok? ==> fresh(r.value) && r.value.AsRegistry().Sound() && r.value.calls == map[]
      ensures r.Ok? ==> r.value.capacity == capacity && r.value.accepting
    {
      if capacity == 0 || capacity > MAX_CALL_MANAGER_CAPACITY {
        return Err(InvalidCapacity);
      }
      var manager := new CallManager(capacity, first, second);
      return Ok(manager);
    }

    method Spawn(callId: nat, spurious: nat, threadOk: bool) returns (r: Result<Token, Error>)
      requires AsRegistry().Sound()
      modifies this, generations
      ensures (AsRegistry(), r) == old(AsRegistry()).Spawn(callId, threadOk)
      ensures AsRegistry().Sound()
    {
      SpawnKeepsSound(AsRegistry(), callId, threadOk);
      if !accepting {
        return Err(ShuttingDown);
      }
      if callId in calls {
        return Err(DuplicateCall);
      }
      if |calls| >= capacity {
        return Err(AtCapacity);
      }
      var generation := generations.Allocate(spurious);
      if generation.Exhausted? {
        return Err(GenerationExhausted);
      }
      var token := Token(callId, generation.id);
      if !threadOk {
        return Err(Thread);
      }
      calls := calls[callId := generation.id];
      return Ok(token);
    }

    method VerifyToken(token: Token) returns (r: Result<(), Error>)
      ensures r == AsRegistry().Verify(token)
    {
      if token.callId !in calls {
        return Err(UnknownCall);
      }
      return if calls[token.callId] != token.generation then Err(StaleToken) else Ok(());
    }

    method Remove(token: Token, joinOk: bool) returns (r: Result<Token, Error>)
      requires AsRegistry().Sound()
      modifies this
      ensures (AsRegistry(), r) == old(AsRegistry()).Remove(token, joinOk)
      ensures AsRegistry().Sound()
    {
      var verified := VerifyToken(token);
      if verified.Err? {
        return Err(verified.error);
      }
      WithinKeepsSound(AsRegistry().Without(token.callId), AsRegistry());
      calls := calls - {token.callId};
      return if joinOk then Ok(token) else Err(Thread);
    }

    /** `finished` is what the hash map's iteration collects of the terminal calls. */
    method ReapFinishedReports(finished: seq<nat>, joins: set<nat>) returns (r: Result<seq<Token>, Error>)
      requires AsRegistry().Sound()
      modifies this
      ensures (AsRegistry(), r) == old(AsRegistry()).Reap([], finished, joins)
      ensures AsRegistry().Sound()
    {
      ReapOnlyRemoves(AsRegistry(), [], finished, joins);
      WithinKeepsSound(AsRegistry().Reap([], finished, joins).0, AsRegistry());
      var exits := [];
      for i := 0 to |finished|
        invariant AsRegistry().Reap(exits, finished[i..], joins) == old(AsRegistry()).Reap([], finished, joins)
      {
        var id := finished[i];
        assert finished[i..][1..] == finished[i + 1..];
        if id !in calls {
          return Err(UnknownCall);
        }
        var token := Token(id, calls[id]);
        calls := calls - {id};
        if id !in joins {
          return Err(Thread);
        }
        exits := exits + [token];
      }
      return Ok(exits);
    }

    static method JoinAll(drained: map<nat, nat>, order: seq<nat>, joins: set<nat>)
      returns (failed: bool, exits: seq<Token>)
      requires forall id | id in order :: id in drained
      ensures failed <==> exists id | id in order :: id !in joins
      ensures !failed ==> exits == TokensOf(drained, order)
    {
      failed, exits := false, [];
      for i := 0 to |order|
        invariant failed <==> exists k | 0 <= k < i :: order[k] !in joins
        invariant !failed ==> |exits| == i && forall k | 0 <= k < i :: exits[k] == Token(order[k], drained[order[k]])
      {
        if order[i] in joins {
          exits := exits + [Token(order[i], drained[order[i]])];
        } else {
          failed := true;
        }
      }
    }

    /** `order` is the order in which the hash map drains. */
    method ShutdownEverything(order: seq<nat>, joins: set<nat>) returns (r: Result<seq<Token>, Error>)
      requires AsRegistry().Sound() && Lists(order, calls.Keys)
      modifies this
      ensures (AsRegistry(), r) == old(AsRegistry()).ShutdownAll(order, joins)
      ensures AsRegistry().Sound()
    {
      WithinKeepsSound(AsRegistry().ShutdownAll(order, joins).0, AsRegistry());
      accepting := false;
      var drained := calls;
      calls := map[];
      var failed, exits := JoinAll(drained, order, joins);
      return if failed then Err(Thread) else Ok(exits);
    }

    method BeginShutdown()
      requires AsRegistry().Sound()
      modifies this
      ensures AsRegistry() == old(AsRegistry()).BeginShutdown() && AsRegistry().Sound()
    {
      accepting := false;
    }
  }
}
