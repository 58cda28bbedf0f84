/**
 * Opaque process-local identifiers (src/util/id.rs): a shared counter advanced
 * by compare-and-exchange, and an affine permutation that hides its order.
 */
module OpaqueIds {
  const OPAQUE_BIT: nat := 0x8000_0000_0000_0000
  const COUNTER_MASK: nat := OPAQUE_BIT - 1
  const WORD: nat := 0x1_0000_0000_0000_0000

  /** A counter value in use; 0 stands for "exhausted". */
  type Counter = c: nat | c <= COUNTER_MASK

  /** The parts of a generator that never change: `from_parts` forces the multiplier odd and masks the offset. */
  datatype Permutation = Permutation(multiplier: nat, offset: nat) {
    predicate Valid() {
      multiplier < WORD && multiplier % 2 == 1 && offset < OPAQUE_BIT
    }

    /** Wrapping 64-bit multiplication and addition, then the low 63 bits under the marker bit. */
    function Value(counter: nat): (id: nat)
      ensures OPAQUE_BIT <= id < WORD
    {
      OPAQUE_BIT + (counter * multiplier % WORD + offset) % WORD % OPAQUE_BIT
    }
  }

  function Successor(counter: Counter): Counter
  {
    if counter == COUNTER_MASK then 0 else counter + 1
  }

  // ---------------------------------------------------------------------------
  // The permutation is injective
  // ---------------------------------------------------------------------------

  function Pow2(n: nat): nat { if n == 0 then 1 else 2 * Pow2(n - 1) }

  lemma OddTimesOdd(a: int, b: int)
    requires a % 2 == 1 && b % 2 == 1
    ensures a * b % 2 == 1
  {
    var x, y := a / 2, b / 2;
    assert a == 2 * x + 1 && b == 2 * y + 1;
    assert a * b == 2 * (2 * x * y + x + y) + 1;
  }

  /** An odd factor can be cancelled modulo a power of two. */
  lemma {:induction false} OddCancels(k: int, d: int, q: int, n: nat) returns (r: int)
    requires k % 2 == 1 && k * d == q * Pow2(n)
    ensures d == r * Pow2(n)
    decreases n
  {
    if n == 0 {
      r := d;
    } else {
      var half := Pow2(n - 1);
      assert k * d == 2 * (q * half);
      if d % 2 == 1 {
        OddTimesOdd(k, d);
      }
      var e := d / 2;
      assert k * (2 * e) == 2 * (k * e);
      r := OddCancels(k, e, q, n - 1);
      assert 2 * (r * half) == r * (2 * half);
    }
  }

  lemma SameRemainder(x: int, y: int, m: nat) returns (q: int)
    requires m > 0 && x % m == y % m
    ensures x - y == q * m
  {
    q := x / m - y / m;
    assert x == x / m * m + x % m && y == y / m * m + y % m;
    assert (x / m - y / m) * m == x / m * m - y / m * m;
  }

  lemma StrictlyBetween(m: int, d: int)
    requires m > 0 && -m < m * d < m
    ensures d == 0
  {
    assert d >= 1 ==> m * d >= m;
    assert d <= -1 ==> m * d <= -m;
  }

  lemma RemainderIs(x: int, q: int, r: int, m: int)
    requires m > 0 && x == m * q + r && 0 <= r < m
    ensures x % m == r
  {
    assert x == m * (x / m) + x % m;
    assert m * (x / m - q) == m * (x / m) - m * q;
    StrictlyBetween(m, x / m - q);
  }

  lemma AddMultiple(x: nat, q: nat, m: nat)
    requires m > 0
    ensures (x + m * q) % m == x % m
  {
    assert m * (x / m + q) == m * (x / m) + m * q;
    RemainderIs(x + m * q, x / m + q, x % m, m);
  }

  /** Wrapping at 64 bits on the way does not change the low 63 bits. */
  lemma ValueIsAffine(p: Permutation, counter: nat)
    ensures p.Value(counter) == OPAQUE_BIT + (counter * p.multiplier + p.offset) % OPAQUE_BIT
  {
    var product := counter * p.multiplier;
    var sum := product % WORD + p.offset;
    assert sum == sum % WORD + OPAQUE_BIT * (2 * (sum / WORD));
    AddMultiple(sum % WORD, 2 * (sum / WORD), OPAQUE_BIT);
    assert product + p.offset == sum + OPAQUE_BIT * (2 * (product / WORD));
    AddMultiple(sum, 2 * (product / WORD), OPAQUE_BIT);
  }

  /** Different counters give different identifiers, whatever the multiplier and offset. */
  lemma ValuesAreDistinct(p: Permutation, a: Counter, b: Counter)
    requires p.Valid() && p.Value(a) == p.Value(b)
    ensures a == b
  {
    ValueIsAffine(p, a);
    ValueIsAffine(p, b);
    CancelMultiplier(p.multiplier, p.offset, a, b);
  }

  lemma CancelMultiplier(k: nat, offset: nat, a: Counter, b: Counter)
    requires k % 2 == 1 && (a * k + offset) % OPAQUE_BIT == (b * k + offset) % OPAQUE_BIT
    ensures a == b
  {
    var q := SameRemainder(a * k + offset, b * k + offset, OPAQUE_BIT);
    Distributes(k, a, b);
    OpaqueBitIsPow2();
    var r := OddCancels(k, a - b, q, 63);
    StrictlyBetween(OPAQUE_BIT, r);
  }

  lemma Distributes(k: int, a: int, b: int)
    ensures a * k - b * k == k * (a - b)
  {
  }

  lemma {:induction false} Pow2Adds(a: nat, b: nat)
    ensures Pow2(a + b) == Pow2(a) * Pow2(b)
  {
    if a > 0 {
      Pow2Adds(a - 1, b);
      assert Pow2(a + b) == 2 * Pow2(a - 1 + b);
      DoubleProduct(Pow2(a - 1), Pow2(b));
    }
  }

  lemma DoubleProduct(x: nat, y: nat)
    ensures 2 * (x * y) == (2 * x) * y
  {
  }

  lemma OpaqueBitIsPow2()
    ensures Pow2(63) == OPAQUE_BIT
  {
    assert Pow2(7) == 128;
    Pow2Adds(7, 7);
    Pow2Adds(14, 7);
    Pow2Adds(21, 21);
    Pow2Adds(42, 21);
  }

  // ---------------------------------------------------------------------------
  // Threads allocating at the same time
  // ---------------------------------------------------------------------------

  /** What an allocation call that came back returned. */
  datatype Outcome = Issued(id: nat) | Exhausted

  /** The shared counter, the value each running call last saw, and what calls returned so far. */
  datatype Shared = Shared(next: Counter, seen: map<nat, Counter>, issued: seq<nat>, exhausted: nat)

  /** One atomic step of one thread. */
  datatype Step =
    | Load(thread: nat)
    | Attempt(thread: nat, spurious: bool)

  /** A call starts by loading the counter; each further round tests, exchanges, or takes the value it observed. */
  function Do(p: Permutation, s: Shared, step: Step): Shared {
    match step
    case Load(t) => if t in s.seen then s else s.(seen := s.seen[t := s.next])
    case Attempt(t, spurious) =>
      if t !in s.seen then s
      else if s.seen[t] == 0 then s.(seen := s.seen - {t}, exhausted := s.exhausted + 1)
      else if s.seen[t] == s.next && !spurious then
        s.(next := Successor(s.next), seen := s.seen - {t}, issued := s.issued + [p.Value(s.next)])
      else s.(seen := s.seen[t := s.next])
  }

  function Run(p: Permutation, steps: seq<Step>): Shared {
    if steps == [] then Shared(1, map[], [], 0)
    else Do(p, Run(p, steps[..|steps| - 1]), steps[|steps| - 1])
  }

  /** The counter counts what was issued, and only an exhausted counter was ever seen as 0. */
  predicate Counted(p: Permutation, s: Shared) {
    && |s.issued| <= COUNTER_MASK
    && s.next == (if |s.issued| == COUNTER_MASK then 0 else |s.issued| + 1)
    && (forall i | 0 <= i < |s.issued| :: s.issued[i] == p.Value(i + 1))
    && (forall t | t in s.seen :: s.seen[t] == 0 ==> s.next == 0)
    && (s.exhausted > 0 ==> s.next == 0)
  }

  lemma StepKeepsCounted(p: Permutation, s: Shared, step: Step)
    requires Counted(p, s)
    ensures Counted(p, Do(p, s, step))
    ensures s.next == 0 ==> Do(p, s, step).issued == s.issued && Do(p, s, step).next == 0
  {
  }

  lemma {:induction false} EveryRunIsCounted(p: Permutation, steps: seq<Step>)
    ensures Counted(p, Run(p, steps))
  {
    if steps != [] {
      EveryRunIsCounted(p, steps[..|steps| - 1]);
      StepKeepsCounted(p, Run(p, steps[..|steps| - 1]), steps[|steps| - 1]);
    }
  }

  /**
   * However the threads interleave, and however often an exchange fails for no
   * reason, no identifier is issued twice and none is zero.
   */
  lemma IdentifiersAreUnique(p: Permutation, steps: seq<Step>, i: nat, j: nat)
    requires p.Valid() && i < j < |Run(p, steps).issued|
    ensures 0 < Run(p, steps).issued[i] != Run(p, steps).issued[j]
  {
    EveryRunIsCounted(p, steps);
    if Run(p, steps).issued[i] == Run(p, steps).issued[j] {
      ValuesAreDistinct(p, i + 1, j + 1);
    }
  }

  /** Exhaustion is reported only after every counter was issued, and nothing is issued afterwards. */
  lemma {:induction false} ExhaustionIsPermanent(p: Permutation, steps: seq<Step>, more: seq<Step>)
    requires Run(p, steps).exhausted > 0 || Run(p, steps).next == 0
    ensures |Run(p, steps).issued| == COUNTER_MASK
    ensures Run(p, steps + more).issued == Run(p, steps).issued && Run(p, steps + more).next == 0
    decreases |more|
  {
    EveryRunIsCounted(p, steps);
    if more == [] {
      assert steps + more == steps;
    } else {
      var init, last := more[..|more| - 1], more[|more| - 1];
      ExhaustionIsPermanent(p, steps, init);
      assert (steps + more)[..|steps + more| - 1] == steps + init;
      EveryRunIsCounted(p, steps + init);
      StepKeepsCounted(p, Run(p, steps + init), last);
    }
  }

  /** A call that nobody disturbs returns the next identifier, or exhaustion if there is none. */
  lemma UndisturbedCallReturns(p: Permutation, s: Shared, t: nat)
    requires t !in s.seen
    ensures Do(p, Do(p, s, Load(t)), Attempt(t, false)) ==
            if s.next == 0 then s.(exhausted := s.exhausted + 1)
            else s.(next := Successor(s.next), issued := s.issued + [p.Value(s.next)])
  {
    var loaded := Do(p, s, Load(t));
    assert loaded.seen - {t} == s.seen;
  }

  /** Wherever a call stands, two rounds without interference or spurious failure are enough for it to return. */
  lemma TwoRoundsAreEnough(p: Permutation, s: Shared, t: nat)
    requires t in s.seen
    ensures var two := Do(p, Do(p, s, Attempt(t, false)), Attempt(t, false));
            t !in two.seen && |two.issued| + two.exhausted == |s.issued| + s.exhausted + 1
  {
  }

  /** A call that loses a race, or fails for no reason, only learns the current value. */
  lemma LostRaceOnlyTeaches(p: Permutation, s: Shared, t: nat, spurious: bool)
    requires t in s.seen && s.seen[t] != 0 && (s.seen[t] != s.next || spurious)
    ensures Do(p, s, Attempt(t, spurious)) == s.(seen := s.seen[t := s.next])
    ensures Do(p, s, Load(t)) == s
  {
  }

  // ---------------------------------------------------------------------------
  // One owner
  // ---------------------------------------------------------------------------

  /** The generator's value: what is left of it, and how its counters become identifiers. */
  datatype Generator = Generator(next: Counter, permutation: Permutation) {
    predicate Valid() { permutation.Valid() }

    function Outcome(): Outcome {
      if next == 0 then Exhausted else Issued(permutation.Value(next))
    }

    function Advanced(): Generator {
      if next == 0 then this else this.(next := Successor(next))
    }

    /** `id` came out of this generator. */
    predicate WasIssued(id: nat) {
      exists c: nat :: 1 <= c <= COUNTER_MASK && (next == 0 || c < next) && permutation.Value(c) == id
    }
  }

  lemma FreshIdentifier(g: Generator)
    requires g.Valid() && g.next != 0
    ensures !g.WasIssued(g.permutation.Value(g.next))
    ensures g.Advanced().WasIssued(g.permutation.Value(g.next))
    ensures forall id | g.WasIssued(id) :: g.Advanced().WasIssued(id)
  {
    forall c: nat | 1 <= c < g.next
      ensures g.permutation.Value(c) != g.permutation.Value(g.next)
    {
      if g.permutation.Value(c) == g.permutation.Value(g.next) {
        ValuesAreDistinct(g.permutation, c, g.next);
      }
    }
    forall id | g.WasIssued(id)
      ensures g.Advanced().WasIssued(id)
    {
      var c: nat :| 1 <= c <= COUNTER_MASK && (g.next == 0 || c < g.next) && g.permutation.Value(c) == id;
      assert c < g.next;
    }
  }

  /** What the generator gives out next: nothing exactly when it is used up, and never anything given out before. */
  lemma OutcomeIsFresh(g: Generator)
    requires g.Valid()
    ensures g.Outcome() == Exhausted <==> g.next == 0
    ensures g.Outcome().Issued? ==>
              !g.WasIssued(g.Outcome().id) && g.Advanced().WasIssued(g.Outcome().id) && g.Advanced() != g
    ensures g.Outcome() == Exhausted ==> g.Advanced() == g
  {
    if g.next != 0 {
      FreshIdentifier(g);
    }
  }

  class IdGenerator {
    var next: Counter
    const multiplier: nat
    const offset: nat

    function AsGenerator(): Generator
      reads this
    {
      Generator(next, Permutation(multiplier, offset))
    }

    /** Any two random words make a valid generator. */
    constructor (first: nat, second: nat)
      requires first < WORD && second < WORD
      ensures AsGenerator().Valid() && next == 1
    {
      next := 1;
      multiplier := if first % 2 == 1 then first else first + 1;
      offset := second % OPAQUE_BIT;
    }

    /** The compare-and-exchange loop, with `spurious` failures before the exchange that counts. */
    method Allocate(spurious: nat) returns (outcome: Outcome)
      modifies this
      ensures outcome == old(AsGenerator()).Outcome()
      ensures AsGenerator() == old(AsGenerator()).Advanced()
    {
      var current, failures := next, spurious;
      while true
        invariant current == next == old(next)
        decreases failures
      {
        if current == 0 {
          return Exhausted;
        }
        var successor := if current == COUNTER_MASK then 0 else current + 1;
        if failures == 0 {
          next := successor;
          return Issued(AsGenerator().permutation.Value(current));
        }
        failures, current := failures - 1, next;
      }
    }
  }
}
