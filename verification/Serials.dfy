/** Wrap-around serials and their lock-free counter: src/utils/serial.rs. */
module Serials {
  import opened Wrappers

  const U32: int := 0x1_0000_0000
  const U32_MAX: int := 0xFFFF_FFFF

  type Serial = v: int | 0 <= v < 0x1_0000_0000 witness 0

  function AbsDiff(a: int, b: int): int { if a < b then b - a else a - b }

  function PartialCmp(self: Serial, other: Serial): Ordering {
    if AbsDiff(self, other) < U32_MAX / 2 then Compare(self, other) else Compare(other, self)
  }

  predicate IsNoOlderThan(self: Serial, other: Serial) {
    PartialCmp(other, self) != Greater
  }

  // ---- the counter under any number of threads --------------------------------------------------

  type Thread = nat

  /** A `next_serial` call is two atomic steps: the exchange 0 -> 1, then the fetch-and-add. */
  datatype Step = Exchange(thread: Thread) | FetchAdd(thread: Thread)

  /** `mid` holds the threads between their two steps; `draws` is the history of serials drawn. */
  datatype Counter = Counter(serial: Serial, mid: set<Thread>, draws: seq<Serial>)

  function Apply(c: Counter, step: Step): Counter {
    match step
    case Exchange(t) =>
      if t in c.mid then c else c.(serial := if c.serial == 0 then 1 else c.serial, mid := c.mid + {t})
    case FetchAdd(t) =>
      if t !in c.mid then c
      else c.(serial := (c.serial + 1) % U32, mid := c.mid - {t}, draws := c.draws + [c.serial])
  }

  function Run(c: Counter, steps: seq<Step>): Counter {
    if steps == [] then c else Apply(Run(c, steps[..|steps| - 1]), steps[|steps| - 1])
  }

  function Start(initial: Serial): Counter { Counter(initial, {}, []) }

  // ---- the draws without wrap-around ------------------------------------------------------------

  /**
   * `ticks` are the draws before reduction modulo 2^32, and `next` the counter: each is the one
   * before plus 1, or plus 2 over a multiple of 2^32 that an exchange skipped.
   */
  ghost predicate Unwrapped(c: Counter, ticks: seq<nat>, next: nat) {
    && |ticks| == |c.draws|
    && next % U32 == c.serial
    && (forall k :: 0 <= k < |ticks| ==> ticks[k] % U32 == c.draws[k])
    && Ascends(ticks + [next])
  }

  ghost predicate Ascends(ticks: seq<nat>) {
    forall i, j :: 0 <= i && j == i + 1 && j < |ticks| ==> Follows(ticks[i], ticks[j])
  }

  predicate Follows(a: nat, b: nat) {
    b == a + 1 || (b == a + 2 && (a + 1) % U32 == 0)
  }

  /** An exchange takes effect only right after a draw that wrapped the counter to 0. */
  lemma ExchangeUnwraps(c: Counter, ticks: seq<nat>, next: nat, mid: set<Thread>)
    requires Unwrapped(c, ticks, next) && c.serial == 0
    ensures Unwrapped(c.(serial := 1, mid := mid), ticks, next + 1)
  {
    assert (next + 1) % U32 == 1;
    assert next >= 1 ==> (next - 1) % U32 != 0;
    var all, all' := ticks + [next], ticks + [next + 1];
    forall i, j | 0 <= i && j == i + 1 && j < |all'|
      ensures Follows(all'[i], all'[j])
    {
      assert Follows(all[i], all[j]);
    }
  }

  lemma FetchAddUnwraps(c: Counter, ticks: seq<nat>, next: nat, t: Thread)
    requires Unwrapped(c, ticks, next) && t in c.mid
    ensures Unwrapped(Apply(c, FetchAdd(t)), ticks + [next], next + 1)
  {
    var all, all' := ticks + [next], ticks + [next] + [next + 1];
    forall i, j | 0 <= i && j == i + 1 && j < |all'|
      ensures Follows(all'[i], all'[j])
    {
      if j < |all| {
        assert Follows(all[i], all[j]);
      }
    }
  }

  lemma {:induction false} RunUnwraps(initial: Serial, steps: seq<Step>) returns (ticks: seq<nat>, next: nat)
    ensures Unwrapped(Run(Start(initial), steps), ticks, next)
  {
    if steps == [] {
      return [], initial;
    }
    var n := |steps| - 1;
    var c := Run(Start(initial), steps[..n]);
    ticks, next := RunUnwraps(initial, steps[..n]);
    match steps[n]
    case Exchange(t) =>
      if t !in c.mid && c.serial == 0 {
        ExchangeUnwraps(c, ticks, next, c.mid + {t});
        next := next + 1;
      }
    case FetchAdd(t) =>
      if t in c.mid {
        FetchAddUnwraps(c, ticks, next, t);
        ticks, next := ticks + [next], next + 1;
      }
  }

  lemma TicksAscend(ticks: seq<nat>, next: nat)
    requires Ascends(ticks + [next])
    ensures Ascends(ticks)
  {
    var all := ticks + [next];
    forall i, j | 0 <= i && j == i + 1 && j < |ticks|
      ensures Follows(ticks[i], ticks[j])
    {
      assert Follows(all[i], all[j]);
    }
  }

  /** Over `j - i` draws the ticks advance by as much, plus one for every multiple of 2^32 passed. */
  lemma {:induction false} TicksBetween(ticks: seq<nat>, i: nat, j: nat)
    requires i <= j < |ticks|
    requires Ascends(ticks)
    ensures j - i <= ticks[j] - ticks[i] <= j - i + ticks[j] / U32 - ticks[i] / U32
    decreases j
  {
    if i < j {
      TicksBetween(ticks, i, j - 1);
      var a, b := ticks[j - 1], ticks[j];
      assert Follows(a, b);
      assert b / U32 >= a / U32 + (if b == a + 2 then 1 else 0);
    }
  }

  /** Across fewer than 2^32 - 1 draws at most one multiple is skipped. */
  lemma WindowSkipsOnce(a: nat, b: nat, k: nat)
    requires k <= b - a <= k + b / U32 - a / U32 && k <= U32 - 2
    ensures b - a <= k + 1
    ensures b - a == k + 1 ==> b / U32 == a / U32 + 1
  {
    var q := b / U32 - a / U32;
    assert b - a >= q * U32 - U32 + 1;
  }

  // ---- what the comparison says about draws -----------------------------------------------------

  /** Comparing the reductions of two ticks less than 2^31 apart finds the later one newer. */
  lemma NewerWhenClose(a: nat, b: nat)
    requires 0 < b - a <= 0x7FFF_FFFF
    requires b - a == 0x7FFF_FFFF ==> b / U32 != a / U32
    ensures PartialCmp(b % U32, a % U32) == Greater
  {
    var q := b / U32 - a / U32;
    assert b % U32 - a % U32 == b - a - q * U32;
    assert q == 0 || q == 1;
  }

  ghost predicate DrawnInOrder(initial: Serial, steps: seq<Step>, i: nat, j: nat) {
    i < j < |Run(Start(initial), steps).draws|
  }

  /**
   * Whatever the threads do, a serial compares newer than every serial drawn at most 2^31 - 2
   * draws before it, across wrap-around too.
   */
  lemma LaterDrawIsNewer(initial: Serial, steps: seq<Step>, i: nat, j: nat)
    requires DrawnInOrder(initial, steps, i, j) && j - i <= 0x7FFF_FFFE
    ensures var draws := Run(Start(initial), steps).draws;
            && PartialCmp(draws[j], draws[i]) == Greater && PartialCmp(draws[i], draws[j]) == Less
            && IsNoOlderThan(draws[j], draws[i]) && !IsNoOlderThan(draws[i], draws[j])
  {
    var draws := Run(Start(initial), steps).draws;
    var ticks, next := RunUnwraps(initial, steps);
    TicksAscend(ticks, next);
    TicksBetween(ticks, i, j);
    WindowSkipsOnce(ticks[i], ticks[j], j - i);
    NewerWhenClose(ticks[i], ticks[j]);
    assert draws[i] == ticks[i] % U32 && draws[j] == ticks[j] % U32;
  }

  /** A serial equals itself only, and of two different ones exactly one is newer. */
  lemma ComparesOneWay(a: Serial, b: Serial)
    ensures PartialCmp(a, b) == Equal <==> a == b
    ensures PartialCmp(a, b) == Less <==> PartialCmp(b, a) == Greater
  {
  }

  /** Within that distance serials compare as they were drawn, and "no older" includes the draw itself. */
  lemma ComparedAsDrawn(initial: Serial, steps: seq<Step>, i: nat, j: nat)
    requires var n := |Run(Start(initial), steps).draws|; i < n && j < n
    requires -0x7FFF_FFFE <= j - i <= 0x7FFF_FFFE
    ensures var draws := Run(Start(initial), steps).draws;
            && PartialCmp(draws[i], draws[j]) == Compare(i, j)
            && (IsNoOlderThan(draws[j], draws[i]) <==> i <= j)
  {
    var draws := Run(Start(initial), steps).draws;
    ComparesOneWay(draws[i], draws[j]);
    if i < j {
      LaterDrawIsNewer(initial, steps, i, j);
    } else if j < i {
      LaterDrawIsNewer(initial, steps, j, i);
    }
  }

  /** Any 2^32 - 1 consecutive draws are pairwise distinct. */
  lemma WindowDistinct(initial: Serial, steps: seq<Step>, i: nat, j: nat)
    requires DrawnInOrder(initial, steps, i, j) && j - i <= 0xFFFF_FFFE
    ensures var draws := Run(Start(initial), steps).draws; draws[i] != draws[j]
  {
    var draws := Run(Start(initial), steps).draws;
    var ticks, next := RunUnwraps(initial, steps);
    TicksAscend(ticks, next);
    TicksBetween(ticks, i, j);
    WindowSkipsOnce(ticks[i], ticks[j], j - i);
    assert draws[i] == ticks[i] % U32 && draws[j] == ticks[j] % U32;
    var q := ticks[j] / U32 - ticks[i] / U32;
    assert ticks[j] % U32 - ticks[i] % U32 == ticks[j] - ticks[i] - q * U32;
  }

  /** The bound is tight: one draw further the order is inverted, except across wrap-around. */
  lemma OneDrawFurther(initial: Serial, steps: seq<Step>, i: nat, j: nat)
    requires DrawnInOrder(initial, steps, i, j) && j - i == 0x7FFF_FFFF
    ensures var draws := Run(Start(initial), steps).draws;
            PartialCmp(draws[j], draws[i]) == if draws[j] < draws[i] then Greater else Less
  {
    var ticks, next := RunUnwraps(initial, steps);
    TicksAscend(ticks, next);
    TicksBetween(ticks, i, j);
    WindowSkipsOnce(ticks[i], ticks[j], j - i);
    var draws := Run(Start(initial), steps).draws;
    assert draws[i] == ticks[i] % U32 && draws[j] == ticks[j] % U32;
    var q := ticks[j] / U32 - ticks[i] / U32;
    assert ticks[j] % U32 - ticks[i] % U32 == ticks[j] - ticks[i] - q * U32;
  }

  // ---- when 0 is drawn ----------------------------------------------------------------------------

  /** The counter as step `i` finds it. */
  function At(initial: Serial, steps: seq<Step>, i: nat): Counter
    requires i <= |steps|
  {
    Run(Start(initial), steps[..i])
  }

  lemma AtNext(initial: Serial, steps: seq<Step>, i: nat)
    requires i < |steps|
    ensures At(initial, steps, i + 1) == Apply(At(initial, steps, i), steps[i])
  {
    assert steps[..i + 1][..i] == steps[..i];
  }

  /** The step is this thread's turn: an exchange begins a call, a fetch-and-add ends it. */
  predicate Effective(initial: Serial, steps: seq<Step>, i: nat)
    requires i < |steps|
  {
    steps[i].Exchange? <==> steps[i].thread !in At(initial, steps, i).mid
  }

  predicate Draws(initial: Serial, steps: seq<Step>, i: nat, serial: Serial)
    requires i < |steps|
  {
    steps[i].FetchAdd? && Effective(initial, steps, i) && At(initial, steps, i).serial == serial
  }

  /** Step `j` drew the last serial before 0, and no call has begun or ended since. */
  ghost predicate WrappedAt(initial: Serial, steps: seq<Step>, j: nat, n: nat) {
    && j < n <= |steps| && Draws(initial, steps, j, U32_MAX)
    && forall k :: j < k < n ==> !Effective(initial, steps, k)
  }

  ghost predicate Wrapped(initial: Serial, steps: seq<Step>, n: nat) {
    exists j: nat :: WrappedAt(initial, steps, j, n)
  }

  lemma WrappedNext(initial: Serial, steps: seq<Step>, n: nat)
    requires n < |steps|
    ensures Wrapped(initial, steps, n + 1)
       <==> Draws(initial, steps, n, U32_MAX) || (Wrapped(initial, steps, n) && !Effective(initial, steps, n))
  {
    var next := n + 1;
    if j: nat :| WrappedAt(initial, steps, j, next) {
      assert j < n ==> WrappedAt(initial, steps, j, n);
    }
    if Draws(initial, steps, n, U32_MAX) {
      assert WrappedAt(initial, steps, n, next);
    } else if j: nat :| WrappedAt(initial, steps, j, n) {
      assert !Effective(initial, steps, n) ==> WrappedAt(initial, steps, j, next);
    }
  }

  /** The counter of a started call is 0 exactly when it has just wrapped. */
  lemma {:induction false} ZeroIffWrapped(initial: Serial, steps: seq<Step>, n: nat)
    requires n <= |steps|
    ensures Wrapped(initial, steps, n) ==> At(initial, steps, n).serial == 0
    ensures At(initial, steps, n).serial == 0 && !Wrapped(initial, steps, n) ==> At(initial, steps, n).mid == {}
  {
    if n > 0 {
      ZeroIffWrapped(initial, steps, n - 1);
      WrappedNext(initial, steps, n - 1);
      AtNext(initial, steps, n - 1);
    }
  }

  lemma {:induction false} MidSince(initial: Serial, steps: seq<Step>, j: nat, n: nat)
    requires WrappedAt(initial, steps, j, n)
    ensures At(initial, steps, n).mid == At(initial, steps, j).mid - {steps[j].thread}
    decreases n
  {
    AtNext(initial, steps, n - 1);
    if j < n - 1 {
      MidSince(initial, steps, j, n - 1);
      assert !Effective(initial, steps, n - 1);
    }
  }

  /**
   * Whatever the threads do, a call of thread `t` draws 0 exactly when, while it stood between its two
   * steps, another thread drew the last serial before 0 and since then no call has begun or ended.
   */
  lemma ZeroDrawnIff(initial: Serial, steps: seq<Step>, n: nat)
    requires n < |steps| && steps[n].FetchAdd? && Effective(initial, steps, n)
    ensures Draws(initial, steps, n, 0)
       <==> exists j: nat :: WrappedAt(initial, steps, j, n) && steps[j].thread != steps[n].thread
                             && steps[n].thread in At(initial, steps, j).mid
  {
    ZeroIffWrapped(initial, steps, n);
    forall j: nat | WrappedAt(initial, steps, j, n)
      ensures steps[j].thread != steps[n].thread && steps[n].thread in At(initial, steps, j).mid
    {
      MidSince(initial, steps, j, n);
    }
  }

  /** No call of any thread begins while another is under way. */
  ghost predicate CallsApart(initial: Serial, steps: seq<Step>) {
    forall i, t, u :: 0 <= i <= |steps| && t in At(initial, steps, i).mid && u in At(initial, steps, i).mid ==> t == u
  }

  lemma {:induction false} NoZeroBefore(initial: Serial, steps: seq<Step>, n: nat)
    requires n <= |steps| && CallsApart(initial, steps)
    ensures 0 !in At(initial, steps, n).draws
  {
    if n > 0 {
      var c, step := At(initial, steps, n - 1), steps[n - 1];
      NoZeroBefore(initial, steps, n - 1);
      AtNext(initial, steps, n - 1);
      if step.FetchAdd? && step.thread in c.mid {
        ZeroDrawnIff(initial, steps, n - 1);
        assert !Draws(initial, steps, n - 1, 0);
      }
    }
  }

  /** When calls do not overlap, whichever threads make them, 0 is never drawn. */
  lemma ApartNeverZero(initial: Serial, steps: seq<Step>)
    requires CallsApart(initial, steps)
    ensures 0 !in Run(Start(initial), steps).draws
  {
    NoZeroBefore(initial, steps, |steps|);
    assert steps[..|steps|] == steps;
  }

  // ---- one thread at a time ---------------------------------------------------------------------

  function Calls(t: Thread, n: nat): seq<Step> {
    if n == 0 then [] else Calls(t, n - 1) + [Exchange(t)] + [FetchAdd(t)]
  }

  function NextDraw(serial: Serial): Serial { if serial == 0 then 1 else serial }

  lemma RunNext(c: Counter, steps: seq<Step>, step: Step)
    ensures Run(c, steps + [step]) == Apply(Run(c, steps), step)
  {
    assert (steps + [step])[..|steps|] == steps;
  }

  lemma BothSteps(c: Counter, t: Thread)
    requires t !in c.mid
    ensures Apply(Apply(c, Exchange(t)), FetchAdd(t))
         == Counter((NextDraw(c.serial) + 1) % U32, c.mid, c.draws + [NextDraw(c.serial)])
  {
  }

  lemma {:induction false} RunTwo(c: Counter, steps: seq<Step>, first: Step, second: Step)
    ensures Run(c, steps + [first] + [second]) == Apply(Apply(Run(c, steps), first), second)
  {
    RunNext(c, steps, first);
    RunNext(c, steps + [first], second);
  }

  lemma {:induction false} OneCall(c: Counter, steps: seq<Step>, t: Thread)
    requires t !in Run(c, steps).mid
    ensures var a, b := Run(c, steps), Run(c, steps + [Exchange(t)] + [FetchAdd(t)]);
            b == Counter((NextDraw(a.serial) + 1) % U32, a.mid, a.draws + [NextDraw(a.serial)])
  {
    RunTwo(c, steps, Exchange(t), FetchAdd(t));
    BothSteps(Run(c, steps), t);
  }

  /** Run one call after another, `next_serial` never draws 0. */
  lemma {:induction false} SequentialNeverZero(initial: Serial, t: Thread, n: nat)
    ensures var c := Run(Start(initial), Calls(t, n));
            c.mid == {} && |c.draws| == n && 0 !in c.draws
  {
    if n > 0 {
      SequentialNeverZero(initial, t, n - 1);
      OneCall(Start(initial), Calls(t, n - 1), t);
    }
  }

  function UpTo(n: nat): seq<Serial>
    requires n < U32
  {
    if n == 0 then [] else UpTo(n - 1) + [n]
  }

  lemma {:induction false} UpToAt(n: nat, k: nat)
    requires k < n < U32
    ensures |UpTo(n)| == n && UpTo(n)[k] == k + 1
    decreases n
  {
    if k < n - 1 {
      UpToAt(n - 1, k);
    } else if n > 1 {
      UpToAt(n - 1, 0);
    }
  }

  /** A new counter after its first `n` draws. */
  function Counted(n: nat): Counter
    requires n < U32
  {
    Counter(if n == U32_MAX then 0 else n + 1, {}, UpTo(n))
  }

  lemma CountedNext(t: Thread, n: nat)
    requires 0 < n < U32
    ensures Apply(Apply(Counted(n - 1), Exchange(t)), FetchAdd(t)) == Counted(n)
  {
    BothSteps(Counted(n - 1), t);
  }

  /** The first 2^32 - 1 sequential draws of a new counter are 1, 2, 3 and so on. */
  lemma {:induction false} SequentialDraws(t: Thread, n: nat)
    requires n < U32
    ensures Run(Start(1), Calls(t, n)) == Counted(n)
  {
    if n > 0 {
      var before := Calls(t, n - 1);
      SequentialDraws(t, n - 1);
      RunNext(Start(1), before, Exchange(t));
      RunNext(Start(1), before + [Exchange(t)], FetchAdd(t));
      CountedNext(t, n);
    }
  }

  /** So the bound is met: 2^31 - 1 draws after the first, a serial compares older than it. */
  lemma OrderBoundIsTight(t: Thread)
    ensures var draws := Run(Start(1), Calls(t, 0x8000_0000)).draws;
            |draws| == 0x8000_0000 && PartialCmp(draws[0x7FFF_FFFF], draws[0]) == Less
  {
    SequentialDraws(t, 0x8000_0000);
    UpToAt(0x8000_0000, 0);
    UpToAt(0x8000_0000, 0x7FFF_FFFF);
    OneDrawFurther(1, Calls(t, 0x8000_0000), 0, 0x7FFF_FFFF);
  }

  /** Interleaved, 0 can be drawn: both exchanges come before the draw that wraps the counter. */
  lemma InterleavedDrawsZero()
    ensures Run(Start(U32_MAX), [Exchange(0), Exchange(1), FetchAdd(0), FetchAdd(1)]).draws == [U32_MAX, 0]
  {
    var steps := [Exchange(0), Exchange(1), FetchAdd(0), FetchAdd(1)];
    assert steps[..3][..2][..1] == [Exchange(0)] && steps[..3][..2][..1][..0] == [];
    var c: Counter := Counter(U32_MAX, {0, 1}, []);
    assert Run(Start(U32_MAX), steps[..3][..2][..1]) == Counter(U32_MAX, {0}, []);
    assert Run(Start(U32_MAX), steps[..3][..2]).mid == c.mid;
  }

  class SerialCounter {
    var serial: Serial

    constructor ()
      ensures serial == 1
    {
      serial := 1;
    }

    method CompareExchange(current: Serial, replacement: Serial)
      modifies this
      ensures serial == if old(serial) == current then replacement else old(serial)
    {
      if serial == current {
        serial := replacement;
      }
    }

    method FetchAdd(n: Serial) returns (previous: Serial)
      modifies this
      ensures previous == old(serial) && serial == (old(serial) + n) % U32
    {
      previous := serial;
      serial := (serial + n) % U32;
    }

    /** Undisturbed between its two steps, a call draws what the machine draws, and never 0. */
    method NextSerial(ghost t: Thread) returns (drawn: Serial)
      modifies this
      ensures drawn != 0
      ensures Run(Start(old(serial)), [Exchange(t), Step.FetchAdd(t)]) == Counter(serial, {}, [drawn])
    {
      OneCall(Start(serial), [], t);
      assert [] + [Exchange(t)] + [Step.FetchAdd(t)] == [Exchange(t), Step.FetchAdd(t)];
      CompareExchange(0, 1);
      drawn := FetchAdd(1);
    }
  }
}
