/**
 * The call runtime's deadline scheduler (src/call/execution/deadline.rs).
 *
 * The code keeps a binary heap that still holds cancelled entries ("tombstones")
 * beside a set of active identifiers. `Plan` is the plain meaning of that pair:
 * a finite map from identifier to pending deadline. The class below is proved to
 * refine the plan operation by operation.
 */
module Deadlines {
  import opened Wrappers

  const MAX_DEADLINES: nat := 1_048_576

  datatype DeadlineOwner = Transaction | Dialog | Call | Media | Transport

  datatype DueDeadline = DueDeadline(id: nat, owner: DeadlineOwner, generation: nat, kind: nat, at: nat)

  datatype DeadlineError = InvalidCapacity | Capacity | ZeroGeneration | IdExhausted

  /** The heap order of `Entry`: by time, then by identifier. */
  predicate NotAfter(a: DueDeadline, b: DueDeadline) {
    a.at < b.at || (a.at == b.at && a.id <= b.id)
  }

  // ---------------------------------------------------------------------------
  // The plain specification
  // ---------------------------------------------------------------------------

  datatype Plan = Plan(maximum: nat, nextId: nat, pending: map<nat, DueDeadline>) {

    ghost predicate WellFormed() {
      && 1 <= maximum <= MAX_DEADLINES
      && 1 <= nextId <= U64_MAX
      && |pending| <= maximum
      && (forall i | i in pending :: pending[i].id == i && i < nextId && pending[i].generation != 0)
    }

    function ScheduleError(generation: nat): Option<DeadlineError> {
      if generation == 0 then Some(ZeroGeneration)
      else if |pending| >= maximum then Some(Capacity)
      else if nextId >= U64_MAX then Some(IdExhausted)
      else None
    }

    function Schedule(at: nat, owner: DeadlineOwner, generation: nat, kind: nat): Plan
      requires ScheduleError(generation).None?
    {
      this.(nextId := nextId + 1, pending := pending[nextId := DueDeadline(nextId, owner, generation, kind, at)])
    }

    function Cancel(id: nat): Plan {
      this.(pending := pending - {id})
    }

    /** `d` is the pending deadline that must fire first. */
    ghost predicate IsEarliest(d: DueDeadline) {
      && d.id in pending && pending[d.id] == d
      && forall i | i in pending :: NotAfter(d, pending[i])
    }

    ghost predicate NothingDue(now: nat) {
      forall i | i in pending :: pending[i].at > now
    }
  }

  lemma ScheduleKeepsWellFormed(p: Plan, at: nat, owner: DeadlineOwner, generation: nat, kind: nat)
    requires p.WellFormed() && p.ScheduleError(generation).None?
    ensures p.Schedule(at, owner, generation, kind).WellFormed()
    ensures p.nextId !in p.pending
  {
    assert p.Schedule(at, owner, generation, kind).pending.Keys == p.pending.Keys + {p.nextId};
  }

  lemma CancelKeepsWellFormed(p: Plan, id: nat)
    requires p.WellFormed()
    ensures p.Cancel(id).WellFormed()
  {
    CardinalityOfSubset((p.pending - {id}).Keys, p.pending.Keys);
  }

  /** At most one pending deadline can be earliest, so `Poll` has no freedom of choice. */
  lemma EarliestIsUnique(p: Plan, d: DueDeadline, e: DueDeadline)
    requires p.WellFormed() && p.IsEarliest(d) && p.IsEarliest(e)
    ensures d == e
  {
    assert NotAfter(d, p.pending[e.id]) && NotAfter(e, p.pending[d.id]);
  }

  /** Of two deadlines for the same instant the one scheduled first is due first. */
  lemma FirstScheduledFirst(p: Plan, at: nat, owner: DeadlineOwner, generation: nat, kind: nat, i: nat)
    requires p.WellFormed() && p.ScheduleError(generation).None? && i in p.pending && p.pending[i].at <= at
    ensures !p.Schedule(at, owner, generation, kind).IsEarliest(
              DueDeadline(p.nextId, owner, generation, kind, at))
  {
    var q := p.Schedule(at, owner, generation, kind);
    assert i in q.pending && q.pending[i] == p.pending[i];
  }

  // ---------------------------------------------------------------------------
  // The tombstoned heap
  // ---------------------------------------------------------------------------

  /** `e` is what `BinaryHeap::peek` shows: no entry of the heap precedes it. */
  predicate IsMinimum(heap: map<nat, DueDeadline>, e: DueDeadline) {
    e.id in heap && heap[e.id] == e && forall i | i in heap :: NotAfter(e, heap[i])
  }

  /** Heap entries that are not tombstones. */
  function Live(heap: map<nat, DueDeadline>, active: set<nat>): (m: map<nat, DueDeadline>)
    requires active <= heap.Keys
    ensures m.Keys == active && |m| == |active|
  {
    var m := map i | i in active :: heap[i];
    assert m.Keys == active;
    m
  }

  lemma LiveInsert(heap: map<nat, DueDeadline>, active: set<nat>, entry: DueDeadline)
    requires active <= heap.Keys && entry.id !in active
    ensures Live(heap[entry.id := entry], active + {entry.id}) == Live(heap, active)[entry.id := entry]
  {
  }

  lemma {:induction false} MinimumExists(heap: map<nat, DueDeadline>)
    requires heap != map[] && forall i | i in heap :: heap[i].id == i
    ensures exists e :: IsMinimum(heap, e)
    decreases |heap|
  {
    var i :| i in heap;
    var rest := heap - {i};
    assert rest.Keys == heap.Keys - {i};
    if rest == map[] {
      assert heap == map[i := heap[i]];
      assert IsMinimum(heap, heap[i]);
    } else {
      MinimumExists(rest);
      var m :| IsMinimum(rest, m);
      var e := if NotAfter(heap[i], m) then heap[i] else m;
      forall j | j in heap ensures NotAfter(e, heap[j]) {
        assert j != i ==> j in rest && NotAfter(m, rest[j]);
      }
      assert IsMinimum(heap, e);
    }
  }

  /**
   * The heap's contents are held by identifier. `Schedule` only ever adds a new
   * identifier, so no entry is overwritten and the size is the heap's length.
   */
  class DeadlineScheduler {
    const maximum: nat
    var nextId: nat
    var heap: map<nat, DueDeadline>
    var active: set<nat>
    ghost var plan: Plan

    /** `plan` is what heap and active set mean. */
    ghost predicate Valid()
      reads this
    {
      && 1 <= maximum <= MAX_DEADLINES
      && 1 <= nextId <= U64_MAX
      && |heap| <= maximum
      && (forall i | i in heap :: heap[i].id == i && i < nextId && heap[i].generation != 0)
      && active <= heap.Keys
      && plan == Plan(maximum, nextId, Live(heap, active))
    }

    lemma PlanIsWellFormed()
      requires Valid()
      ensures plan.WellFormed() && |heap| <= maximum
    {
      CardinalityOfSubset(active, heap.Keys);
    }

    constructor (maximum: nat)
      requires 1 <= maximum <= MAX_DEADLINES
      ensures Valid() && plan == Plan(maximum, 1, map[])
    {
      this.maximum := maximum;
      nextId := 1;
      heap := map[];
      active := {};
      plan := Plan(maximum, 1, map[]);
    }

    /** `DeadlineScheduler::new`: refuses a zero or excessive capacity. */
    static method New(maximum: nat) returns (r: Result<DeadlineScheduler, DeadlineError>)
      ensures r.Ok? <==> 1 <= maximum <= MAX_DEADLINES
      ensures r.Err? ==> r.error == InvalidCapacity
      ensures r.Ok? ==> fresh(r.value) && r.value.Valid() && r.value.plan == Plan(maximum, 1, map[])
    {
      if maximum == 0 || maximum > MAX_DEADLINES {
        return Err(InvalidCapacity);
      }
      var scheduler := new DeadlineScheduler(maximum);
      r := Ok(scheduler);
    }

    method Peek() returns (top: Option<DueDeadline>)
      requires Valid()
      ensures top.None? <==> heap == map[]
      ensures top.Some? ==> IsMinimum(heap, top.value)
    {
      if heap == map[] {
        return None;
      }
      MinimumExists(heap);
      var e :| IsMinimum(heap, e);
      top := Some(e);
    }

    /** Refuses or adds one deadline; the heap, tombstones included, stays within `maximum`. */
    method Schedule(at: nat, owner: DeadlineOwner, generation: nat, kind: nat)
      returns (r: Result<nat, DeadlineError>)
      requires Valid()
      modifies this
      ensures Valid()
      ensures match old(plan).ScheduleError(generation)
              case Some(error) => r == Err(error) && plan == old(plan)
              case None =>
                && r == Ok(old(nextId))
                && plan == old(plan).Schedule(at, owner, generation, kind)
    {
      if generation == 0 {
        return Err(ZeroGeneration);
      }
      if |active| >= maximum {
        return Err(DeadlineError.Capacity);
      }
      if |heap| >= maximum {
        Retain();
      }
      var id := nextId;
      if nextId == U64_MAX {
        return Err(IdExhausted);
      }
      Insert(DueDeadline(id, owner, generation, kind, at));
      r := Ok(id);
    }

    /** Advances the identifier and adds one entry to heap and active set together. */
    method Insert(entry: DueDeadline)
      requires Valid() && |heap| < maximum && nextId < U64_MAX
      requires entry.id == nextId && entry.generation != 0
      modifies this
      ensures Valid()
      ensures plan == Plan(maximum, old(nextId) + 1, old(plan).pending[entry.id := entry])
    {
      PushGrows(heap, entry);
      LiveInsert(heap, active, entry);
      nextId := nextId + 1;
      heap := heap[entry.id := entry];
      active := active + {entry.id};
      plan := Plan(maximum, nextId, plan.pending[entry.id := entry]);
    }

    /** `heap.retain`: drops every tombstone and leaves the meaning alone. */
    method Retain()
      requires Valid()
      modifies this`heap
      ensures Valid() && plan == old(plan) && |heap| == |active|
    {
      CardinalityOfSubset(active, heap.Keys);
      heap := map i | i in heap && i in active :: heap[i];
      assert heap.Keys == active;
    }

    method Cancel(id: nat) returns (wasActive: bool)
      requires Valid()
      modifies this`active, this`plan
      ensures Valid()
      ensures wasActive == (id in old(plan).pending)
      ensures plan == old(plan).Cancel(id)
    {
      wasActive := id in active;
      active := active - {id};
      plan := plan.Cancel(id);
    }

    /** The least (time, identifier) pending deadline at or before `now`, if there is one. */
    method Poll(now: nat) returns (r: Option<DueDeadline>)
      requires Valid()
      modifies this`heap, this`active, this`plan
      ensures Valid()
      ensures r.None? ==> old(plan).NothingDue(now) && plan == old(plan)
      ensures r.Some? ==>
                && r.value.at <= now
                && old(plan).IsEarliest(r.value)
                && plan == old(plan).Cancel(r.value.id)
    {
      while true
        invariant Valid() && plan == old(plan)
        decreases |heap|
      {
        var top := Peek();
        if top.None? {
          return None;
        }
        var entry := top.value;
        if entry.at > now {
          return None;
        }
        if entry.id in active {
          assert plan.IsEarliest(entry);
          var _ := Cancel(entry.id);
          DropTombstone(entry.id);
          return Some(entry);
        }
        DropTombstone(entry.id);
      }
    }

    /** The earliest pending time, found by discarding leading tombstones. */
    method NextDeadline() returns (r: Option<nat>)
      requires Valid()
      modifies this`heap
      ensures Valid() && plan == old(plan)
      ensures r.None? <==> plan.pending == map[]
      ensures r.Some? ==> exists d :: plan.IsEarliest(d) && d.at == r.value
    {
      while true
        invariant Valid() && plan == old(plan)
        decreases |heap|
      {
        var top := Peek();
        if top.None? {
          return None;
        }
        if top.value.id in active {
          assert plan.IsEarliest(top.value);
          return Some(top.value.at);
        }
        DropTombstone(top.value.id);
      }
    }

    /** Pops an entry that is not active; the meaning does not change. */
    method DropTombstone(id: nat)
      requires Valid() && id in heap && id !in active
      modifies this`heap
      ensures Valid() && |heap| < |old(heap)|
    {
      PopShrinks(heap, id);
      heap := heap - {id};
    }
  }

  lemma PushGrows(heap: map<nat, DueDeadline>, entry: DueDeadline)
    requires entry.id !in heap
    ensures |heap[entry.id := entry]| == |heap| + 1
  {
    assert heap[entry.id := entry].Keys == heap.Keys + {entry.id};
  }

  lemma PopShrinks(heap: map<nat, DueDeadline>, id: nat)
    requires id in heap
    ensures |heap - {id}| == |heap| - 1
  {
    assert (heap - {id}).Keys == heap.Keys - {id};
  }
}
