/**
 * The bounded observer queue of the runtime service (src/runtime/service.rs).
 *
 * Delivery is best effort: a full queue drops, but makes room for the
 * notification of a call's end as long as something less important is queued.
 */
module Notifications {
  import opened Wrappers
  import opened CallRegistry

  datatype Kind = DialStarted | Action(code: nat) | CallExited(exit: nat)

  datatype Notification = Notification(token: Token, sequence: nat, kind: Kind) {
    predicate IsTerminal() { kind.CallExited? }
  }

  /** Position of the first queued notification that is not terminal, or the length. */
  function FirstOrdinary(items: seq<Notification>): (r: nat)
    ensures r <= |items|
    ensures forall i | 0 <= i < r :: items[i].IsTerminal()
    ensures r < |items| ==> !items[r].IsTerminal()
  {
    if items == [] || !items[0].IsTerminal() then 0
    else
      var r := FirstOrdinary(items[1..]);
      assert forall i | 0 < i <= r :: items[i] == items[1..][i - 1];
      r + 1
  }

  function RemoveAt(items: seq<Notification>, index: nat): seq<Notification>
    requires index < |items|
  {
    items[..index] + items[index + 1..]
  }

  datatype Queue = Queue(items: seq<Notification>, capacity: nat, dropped: nat) {
    function Enqueue(n: Notification): Queue {
      if |items| < capacity then this.(items := items + [n])
      else
        var index := FirstOrdinary(items);
        if n.IsTerminal() && index < |items| then
          Queue(RemoveAt(items, index) + [n], capacity, SaturatingAdd(dropped, 1))
        else this.(dropped := SaturatingAdd(dropped, 1))
    }
  }

  /** The queue with its history: everything offered to it and everything the observer took. */
  datatype Board = Board(queue: Queue, popped: seq<Notification>, attempted: seq<Notification>) {
    function Enqueue(n: Notification): Board {
      this.(queue := queue.Enqueue(n), attempted := attempted + [n])
    }

    function Pop(): Board {
      if queue.items == [] then this
      else this.(queue := queue.(items := queue.items[1..]), popped := popped + [queue.items[0]])
    }

    /** What the observer has seen or will see. */
    function Kept(): seq<Notification> { popped + queue.items }

    /** Every attempt was popped, is queued or was counted as dropped. */
    predicate Counted() {
      && |queue.items| <= queue.capacity
      && |popped| + |queue.items| <= |attempted|
      && queue.dropped == Min(|attempted| - |popped| - |queue.items|, U64_MAX)
    }

    /** Everything adds up, and what is delivered keeps the order in which it was offered. */
    predicate Sound() { Counted() && Subsequence(Kept(), attempted) }
  }

  function Min(a: nat, b: nat): nat { if a <= b then a else b }

  /** `a` is `b` with some elements left out. */
  predicate Subsequence(a: seq<Notification>, b: seq<Notification>)
    decreases |b|
  {
    if a == [] then true
    else if b == [] then false
    else
      || (a[|a| - 1] == b[|b| - 1] && Subsequence(a[..|a| - 1], b[..|b| - 1]))
      || Subsequence(a, b[..|b| - 1])
  }

  lemma {:induction false} SubsequenceBoth(a: seq<Notification>, b: seq<Notification>, n: Notification)
    requires Subsequence(a, b)
    ensures Subsequence(a + [n], b + [n]) && Subsequence(a, b + [n])
  {
    assert (a + [n])[..|a|] == a && (b + [n])[..|b|] == b;
  }

  /** Leaving one more element out keeps a subsequence. */
  lemma {:induction false} SubsequenceRemove(a: seq<Notification>, b: seq<Notification>, k: nat)
    requires k < |a| && Subsequence(a, b)
    ensures Subsequence(RemoveAt(a, k), b)
    decreases |b|
  {
    var c := RemoveAt(a, k);
    if Subsequence(a, b[..|b| - 1]) {
      SubsequenceRemove(a, b[..|b| - 1], k);
    } else if k == |a| - 1 {
      assert c == a[..|a| - 1];
    } else {
      SubsequenceRemove(a[..|a| - 1], b[..|b| - 1], k);
      assert c[|c| - 1] == a[|a| - 1];
      assert c[..|c| - 1] == RemoveAt(a[..|a| - 1], k);
    }
  }

  lemma {:induction false} SubsequenceReplace(a: seq<Notification>, b: seq<Notification>, k: nat, n: Notification)
    requires k < |a| && Subsequence(a, b)
    ensures Subsequence(RemoveAt(a, k) + [n], b + [n])
  {
    SubsequenceRemove(a, b, k);
    SubsequenceBoth(RemoveAt(a, k), b, n);
  }

  lemma RemoveFromKept(popped: seq<Notification>, items: seq<Notification>, index: nat)
    requires index < |items|
    ensures popped + RemoveAt(items, index) == RemoveAt(popped + items, |popped| + index)
  {
    var all := popped + items;
    assert all[..|popped| + index] == popped + items[..index];
    assert all[|popped| + index + 1..] == items[index + 1..];
  }

  lemma EnqueueKeepsCounted(b: Board, n: Notification)
    requires b.Counted()
    ensures b.Enqueue(n).Counted()
  {
  }

  /** What an attempt can do to the survivors: be added, be dropped, or take the place of an earlier one. */
  predicate Offered(kept: seq<Notification>, n: Notification, k: nat, after: seq<Notification>) {
    after == kept || after == kept + [n] || (k < |kept| && after == RemoveAt(kept, k) + [n])
  }

  lemma KeptAfterEnqueue(b: Board, n: Notification)
    ensures Offered(b.Kept(), n, |b.popped| + FirstOrdinary(b.queue.items), b.Enqueue(n).Kept())
  {
    hide FirstOrdinary, RemoveAt;
    var items, index := b.queue.items, FirstOrdinary(b.queue.items);
    if |items| < b.queue.capacity {
      assert b.popped + (items + [n]) == (b.popped + items) + [n];
    } else if n.IsTerminal() && index < |items| {
      RemoveFromKept(b.popped, items, index);
      assert b.popped + (RemoveAt(items, index) + [n]) == (b.popped + RemoveAt(items, index)) + [n];
    }
  }

  lemma {:induction false} OfferedKeepsOrder(
    kept: seq<Notification>, attempted: seq<Notification>, n: Notification, k: nat, after: seq<Notification>)
    requires Subsequence(kept, attempted) && Offered(kept, n, k, after)
    ensures Subsequence(after, attempted + [n])
  {
    if after == kept || after == kept + [n] {
      SubsequenceBoth(kept, attempted, n);
    } else {
      SubsequenceReplace(kept, attempted, k, n);
    }
  }

  lemma {:induction false} EnqueueKeepsSound(b: Board, n: Notification)
    requires b.Sound()
    ensures b.Enqueue(n).Sound()
  {
    EnqueueKeepsCounted(b, n);
    KeptAfterEnqueue(b, n);
    OfferedKeepsOrder(b.Kept(), b.attempted, n, |b.popped| + FirstOrdinary(b.queue.items), b.Enqueue(n).Kept());
  }

  lemma PopKeepsSound(b: Board)
    requires b.Sound()
    ensures b.Pop().Sound() && b.Pop().Kept() == b.Kept()
  {
    if b.queue.items != [] {
      assert b.popped + [b.queue.items[0]] + b.queue.items[1..] == b.popped + b.queue.items;
    }
  }

  function Terminals(items: seq<Notification>): seq<Notification> {
    if items == [] then []
    else Terminals(items[..|items| - 1]) + (if items[|items| - 1].IsTerminal() then [items[|items| - 1]] else [])
  }

  lemma TerminalsLast(items: seq<Notification>, n: Notification)
    ensures Terminals(items + [n]) == Terminals(items) + (if n.IsTerminal() then [n] else [])
  {
    assert (items + [n])[..|items|] == items;
  }

  lemma {:induction false} TerminalsWithout(items: seq<Notification>, index: nat)
    requires index < |items| && !items[index].IsTerminal()
    ensures Terminals(RemoveAt(items, index)) == Terminals(items)
  {
    var init, last := items[..|items| - 1], items[|items| - 1];
    if index == |items| - 1 {
      assert RemoveAt(items, index) == init;
    } else {
      assert RemoveAt(items, index) == RemoveAt(init, index) + [last];
      TerminalsWithout(init, index);
      TerminalsLast(RemoveAt(init, index), last);
    }
  }

  /** The queue is full of terminal notifications. */
  predicate Saturated(q: Queue) { |q.items| >= q.capacity && forall x | x in q.items :: x.IsTerminal() }

  /** `i` is the oldest queued notification that is not terminal. */
  predicate OldestOrdinary(items: seq<Notification>, i: nat) {
    i < |items| && !items[i].IsTerminal() && forall j | 0 <= j < i :: items[j].IsTerminal()
  }

  /**
   * With room, everything is queued. Without, an ordinary notification is
   * dropped, and a terminal one takes the place of the oldest ordinary one if
   * there is any. Every loss is counted, and only those.
   */
  lemma RoomIsMadeExactly(q: Queue, n: Notification)
    ensures var r := q.Enqueue(n);
            && r.capacity == q.capacity
            && (|q.items| < q.capacity ==> r.items == q.items + [n] && r.dropped == q.dropped)
            && (|q.items| >= q.capacity ==>
                  && r.dropped == Min(q.dropped + 1, U64_MAX)
                  && if n.IsTerminal() && !Saturated(q) then
                       exists i: nat :: OldestOrdinary(q.items, i) && r.items == q.items[..i] + q.items[i + 1..] + [n]
                     else r.items == q.items)
  {
    var index := FirstOrdinary(q.items);
    if index < |q.items| {
      assert OldestOrdinary(q.items, index) && q.items[index] in q.items;
    }
  }

  /** A terminal notification is lost exactly when the queue is full of nothing but terminal ones. */
  lemma TerminalLostExactly(q: Queue, n: Notification)
    requires n.IsTerminal()
    ensures Terminals(q.Enqueue(n).items) == Terminals(q.items) + [n] <==> !Saturated(q)
    ensures Saturated(q) ==> q.Enqueue(n).items == q.items
  {
    var index := FirstOrdinary(q.items);
    TerminalsLast(q.items, n);
    if |q.items| >= q.capacity && index < |q.items| {
      TerminalsWithout(q.items, index);
      TerminalsLast(RemoveAt(q.items, index), n);
    } else if |q.items| >= q.capacity {
      assert |Terminals(q.items) + [n]| == |Terminals(q.items)| + 1;
    }
  }

  /** An ordinary notification never pushes out a terminal one. */
  lemma OrdinarySparesTerminals(q: Queue, n: Notification)
    requires !n.IsTerminal()
    ensures Terminals(q.Enqueue(n).items) == Terminals(q.items)
  {
    TerminalsLast(q.items, n);
  }

  // ---------------------------------------------------------------------------
  // Terminal notifications over whole runs
  // ---------------------------------------------------------------------------

  datatype Event = Offer(n: Notification) | Take

  function After(b: Board, e: Event): Board { if e.Offer? then b.Enqueue(e.n) else b.Pop() }

  function Run(b: Board, events: seq<Event>): Board {
    if events == [] then b else After(Run(b, events[..|events| - 1]), events[|events| - 1])
  }

  /** The terminal notifications that met such a queue, in order. */
  function Refused(b: Board, events: seq<Event>): seq<Notification> {
    if events == [] then []
    else
      var init, last := events[..|events| - 1], events[|events| - 1];
      Refused(b, init)
      + if last.Offer? && last.n.IsTerminal() && Saturated(Run(b, init).queue) then [last.n] else []
  }

  /** Every terminal notification offered was popped, is queued, or is in `refused`. */
  predicate TerminalsAddUp(b: Board, refused: seq<Notification>) {
    multiset(Terminals(b.attempted)) ==
    multiset(Terminals(b.popped)) + multiset(Terminals(b.queue.items)) + multiset(refused)
  }

  lemma {:induction false} TerminalsFirst(items: seq<Notification>)
    requires items != []
    ensures Terminals(items) == (if items[0].IsTerminal() then [items[0]] else []) + Terminals(items[1..])
  {
    if |items| > 1 {
      var init := items[..|items| - 1];
      TerminalsFirst(init);
      assert init[1..] == items[1..][..|items| - 2];
    } else {
      assert items[..0] == [] && items[1..] == [];
    }
  }

  lemma OfferAddsUp(b: Board, n: Notification, refused: seq<Notification>)
    requires TerminalsAddUp(b, refused)
    ensures TerminalsAddUp(b.Enqueue(n), refused + if n.IsTerminal() && Saturated(b.queue) then [n] else [])
  {
    TerminalsLast(b.attempted, n);
    if n.IsTerminal() {
      TerminalLostExactly(b.queue, n);
      OneMoreTerminal(Terminals(b.attempted), Terminals(b.popped), Terminals(b.queue.items), refused, n);
    } else {
      OrdinarySparesTerminals(b.queue, n);
      assert Terminals(b.attempted) + [] == Terminals(b.attempted) && refused + [] == refused;
    }
  }

  lemma OneMoreTerminal(offered: seq<Notification>, popped: seq<Notification>, queued: seq<Notification>,
                        refused: seq<Notification>, n: Notification)
    requires multiset(offered) == multiset(popped) + multiset(queued) + multiset(refused)
    ensures multiset(offered + [n]) == multiset(popped) + multiset(queued + [n]) + multiset(refused + [])
    ensures multiset(offered + [n]) == multiset(popped) + multiset(queued) + multiset(refused + [n])
  {
    assert refused + [] == refused;
  }

  lemma TakeAddsUp(b: Board, refused: seq<Notification>)
    requires TerminalsAddUp(b, refused)
    ensures TerminalsAddUp(b.Pop(), refused)
  {
    if b.queue.items != [] {
      TerminalsFirst(b.queue.items);
      TerminalsLast(b.popped, b.queue.items[0]);
    }
  }

  /** Over every run, the terminal notifications lost are exactly those that met a queue full of terminal ones. */
  lemma {:induction false} TerminalsLostExactly(capacity: nat, events: seq<Event>)
    ensures var b := Board(Queue([], capacity, 0), [], []); TerminalsAddUp(Run(b, events), Refused(b, events))
  {
    var b := Board(Queue([], capacity, 0), [], []);
    if events != [] {
      var init, last := events[..|events| - 1], events[|events| - 1];
      TerminalsLostExactly(capacity, init);
      if last.Offer? {
        OfferAddsUp(Run(b, init), last.n, Refused(b, init));
      } else {
        TakeAddsUp(Run(b, init), Refused(b, init));
        assert Refused(b, init) + [] == Refused(b, init);
      }
    }
  }

  // ---------------------------------------------------------------------------
  // Sequence numbers
  // ---------------------------------------------------------------------------

  /** Per call token, sequence numbers strictly increase. */
  predicate Ordered(s: seq<Notification>) {
    forall i, j | 0 <= i < j < |s| && s[i].token == s[j].token :: s[i].sequence < s[j].sequence
  }

  /** `n` comes after everything its call was offered so far. */
  predicate Latest(s: seq<Notification>, n: Notification) {
    forall x | x in s && x.token == n.token :: x.sequence < n.sequence
  }

  lemma {:induction false} SubsequenceMembers(a: seq<Notification>, b: seq<Notification>)
    requires Subsequence(a, b)
    ensures forall x | x in a :: x in b
    decreases |b|
  {
    if a != [] {
      if Subsequence(a, b[..|b| - 1]) {
        SubsequenceMembers(a, b[..|b| - 1]);
      } else {
        SubsequenceMembers(a[..|a| - 1], b[..|b| - 1]);
        assert a == a[..|a| - 1] + [a[|a| - 1]];
      }
    }
  }

  lemma {:induction false} SubsequenceOrdered(a: seq<Notification>, b: seq<Notification>)
    requires Subsequence(a, b) && Ordered(b)
    ensures Ordered(a)
    decreases |b|
  {
    if a != [] {
      if Subsequence(a, b[..|b| - 1]) {
        SubsequenceOrdered(a, b[..|b| - 1]);
      } else {
        SubsequenceOrdered(a[..|a| - 1], b[..|b| - 1]);
        SubsequenceMembers(a[..|a| - 1], b[..|b| - 1]);
        OrderedLast(b[..|b| - 1], b[|b| - 1]);
        assert b == b[..|b| - 1] + [b[|b| - 1]];
        OrderedLast(a[..|a| - 1], a[|a| - 1]);
        assert a == a[..|a| - 1] + [a[|a| - 1]];
      }
    }
  }

  lemma OrderedLast(s: seq<Notification>, n: Notification)
    ensures Ordered(s + [n]) <==> Ordered(s) && Latest(s, n)
  {
    if Ordered(s + [n]) {
      forall i, j | 0 <= i < j < |s| && s[i].token == s[j].token
        ensures s[i].sequence < s[j].sequence
      {
        assert (s + [n])[i] == s[i] && (s + [n])[j] == s[j];
      }
      forall x | x in s && x.token == n.token
        ensures x.sequence < n.sequence
      {
        var i :| 0 <= i < |s| && s[i] == x;
        assert (s + [n])[i] == x && (s + [n])[|s|] == n;
      }
    }
  }

  // ---------------------------------------------------------------------------
  // The queue in place
  // ---------------------------------------------------------------------------

  class NotificationQueue {
    var items: seq<Notification>
    var dropped: nat
    const capacity: nat
    ghost var popped: seq<Notification>
    ghost var attempted: seq<Notification>

    ghost function AsBoard(): Board
      reads this
    {
      Board(Queue(items, capacity, dropped), popped, attempted)
    }

    constructor (capacity: nat)
      ensures AsBoard() == Board(Queue([], capacity, 0), [], [])
    {
      items, dropped, popped, attempted := [], 0, [], [];
      this.capacity := capacity;
    }

    method FindOrdinary() returns (index: nat)
      ensures index == FirstOrdinary(items)
    {
      index := 0;
      while index < |items| && items[index].IsTerminal()
        invariant index <= |items| && FirstOrdinary(items) == index + FirstOrdinary(items[index..])
      {
        assert items[index..][1..] == items[index + 1..];
        index := index + 1;
      }
    }

    method Enqueue(n: Notification)
      modifies this
      ensures AsBoard() == old(AsBoard()).Enqueue(n)
    {
      attempted := attempted + [n];
      if |items| < capacity {
        items := items + [n];
        return;
      }
      if n.IsTerminal() {
        var index := FindOrdinary();
        if index < |items| {
          items := items[..index] + items[index + 1..] + [n];
          dropped := SaturatingAdd(dropped, 1);
          return;
        }
      }
      dropped := SaturatingAdd(dropped, 1);
    }

    method Next() returns (r: Option<Notification>)
      modifies this
      ensures AsBoard() == old(AsBoard()).Pop()
      ensures r == if old(items) == [] then None else Some(old(items)[0])
    {
      if items == [] {
        return None;
      }
      r := Some(items[0]);
      popped := popped + [items[0]];
      items := items[1..];
    }
  }
}
