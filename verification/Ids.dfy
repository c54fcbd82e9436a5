/** The identifier generator that `id_gen!` expands to: src/utils/ids.rs. */
module Ids {
  /** The number of usize values on a 64-bit target; usize::MAX is one less. */
  const USIZE: nat := 0x1_0000_0000_0000_0000
  const USIZE_MAX: nat := 0xFFFF_FFFF_FFFF_FFFF

  type Id = v: int | 0 <= v < 0x1_0000_0000_0000_0000 witness 0

  /** The id `k` places after `from`, cyclically. */
  function Ahead(from: Id, k: nat): Id { (from + k) % USIZE }

  ghost predicate FirstFree(ids: set<Id>, from: Id, k: nat) {
    && k < USIZE && Ahead(from, k) !in ids
    && forall j :: 0 <= j < k ==> Ahead(from, j) in ids
  }

  // ---- a free id exists whenever the full-set check passes ----------------------------------------

  function AllBelow(n: nat): (s: set<int>)
    ensures forall v :: v in s <==> 0 <= v < n
  {
    if n == 0 then {} else AllBelow(n - 1) + {n - 1}
  }

  lemma {:induction false} AllBelowSize(n: nat)
    ensures |AllBelow(n)| == n
  {
    if n > 0 {
      AllBelowSize(n - 1);
    }
  }

  lemma SubsetSize(a: set<int>, b: set<int>)
    requires a <= b
    ensures |a| <= |b|
  {
    assert b == a + (b - a);
  }

  lemma AheadNext(from: Id, k: nat)
    ensures (Ahead(from, k) + 1) % USIZE == Ahead(from, k + 1)
  {
  }

  lemma AheadOnto(from: Id, v: Id)
    ensures var k := if v >= from then v - from else v - from + USIZE;
            k < USIZE && Ahead(from, k) == v
  {
  }

  /** The run of occupied ids from the counter ends: it is the search's measure. */
  lemma FreeIdAhead(ids: set<Id>, from: Id) returns (k: nat)
    requires |ids| < USIZE
    ensures FirstFree(ids, from, k)
  {
    if forall v: Id :: v in ids {
      AllBelowSize(USIZE);
      assert AllBelow(USIZE) <= ids;
      SubsetSize(AllBelow(USIZE), ids);
      assert false;
    }
    var v: Id :| v !in ids;
    AheadOnto(from, v);
    k := if v >= from then v - from else v - from + USIZE;
    var free := k;
    k := 0;
    while Ahead(from, k) in ids
      invariant k <= free && forall j :: 0 <= j < k ==> Ahead(from, j) in ids
      decreases free - k
    {
      k := k + 1;
    }
  }

  // ---- whole runs ---------------------------------------------------------------------------------

  datatype Op = Next | Remove(id: Id)

  /** `live` is a history: the ids handed out and not removed since, in the order of being handed out. */
  datatype Generator = Generator(ids: set<Id>, counter: Id, live: seq<Id>)

  function Without(s: seq<Id>, id: Id): (r: seq<Id>) {
    if s == [] then [] else (if s[0] == id then [] else [s[0]]) + Without(s[1..], id)
  }

  /** One call, as the methods below specify it; `k` is where the search stopped. */
  ghost predicate StepTo(g: Generator, op: Op, g': Generator) {
    match op
    case Remove(id) => g' == Generator(g.ids - {id}, g.counter, Without(g.live, id))
    case Next =>
      if |g.ids| == USIZE_MAX then g' == g
      else exists k :: FirstFree(g.ids, g.counter, k) && g' == HandOut(g, Ahead(g.counter, k))
  }

  function HandOut(g: Generator, id: Id): Generator {
    Generator(g.ids + {id}, Ahead(id, 1), g.live + [id])
  }

  ghost predicate IsRun(states: seq<Generator>, ops: seq<Op>) {
    && |states| == |ops| + 1
    && states[0] == Generator({}, 0, [])
    && forall i, j :: 0 <= i < |ops| && j == i + 1 ==> StepTo(states[i], ops[i], states[j])
  }

  ghost predicate Good(g: Generator) {
    && (forall i, j :: 0 <= i < j < |g.live| ==> g.live[i] != g.live[j])
    && (forall id: Id :: id in g.ids <==> id in g.live)
    && |g.ids| <= USIZE_MAX
  }

  lemma {:induction false} WithoutKeeps(s: seq<Id>, id: Id)
    requires forall i, j :: 0 <= i < j < |s| ==> s[i] != s[j]
    ensures var r := Without(s, id);
            && (forall i, j :: 0 <= i < j < |r| ==> r[i] != r[j])
            && (forall x: Id :: x in r <==> x in s && x != id)
  {
    if s != [] {
      var rest := s[1..];
      WithoutKeeps(rest, id);
      assert s == [s[0]] + rest;
      assert s[0] !in rest;
      assert Without(s, id) == (if s[0] == id then [] else [s[0]]) + Without(rest, id);
    }
  }

  lemma StepGood(g: Generator, op: Op, g': Generator)
    requires Good(g) && StepTo(g, op, g')
    ensures Good(g')
  {
    if op.Remove? {
      WithoutKeeps(g.live, op.id);
    }
  }

  /** Over every run the live ids are pairwise distinct, and are exactly the occupied ones. */
  lemma {:induction false} LiveIdsDistinct(states: seq<Generator>, ops: seq<Op>, n: nat)
    requires IsRun(states, ops) && n < |states|
    ensures Good(states[n])
  {
    if n > 0 {
      LiveIdsDistinct(states, ops, n - 1);
      StepGood(states[n - 1], ops[n - 1], states[n]);
    }
  }

  /** Call `m` hands out an id. */
  predicate HandsOut(states: seq<Generator>, ops: seq<Op>, m: nat)
    requires m < |ops| < |states|
  {
    ops[m] == Next && |states[m].ids| != USIZE_MAX
  }

  function NewId(states: seq<Generator>, ops: seq<Op>, m: nat): Id
    requires m < |ops| < |states| && states[m + 1].live != []
  {
    states[m + 1].live[|states[m + 1].live| - 1]
  }

  ghost predicate NoneBetween(states: seq<Generator>, ops: seq<Op>, m: int, n: nat)
    requires n <= |ops| < |states|
  {
    forall k :: 0 <= k && m < k < n ==> !HandsOut(states, ops, k)
  }

  lemma {:induction false} CounterStays(states: seq<Generator>, ops: seq<Op>, i: nat, n: nat)
    requires IsRun(states, ops) && i <= n <= |ops| && NoneBetween(states, ops, i as int - 1, n)
    ensures states[n].counter == states[i].counter
  {
    if i < n {
      CounterStays(states, ops, i, n - 1);
      assert StepTo(states[n - 1], ops[n - 1], states[n]) && !HandsOut(states, ops, n - 1);
    }
  }

  lemma HandedOut(states: seq<Generator>, ops: seq<Op>, n: nat) returns (k: nat)
    requires IsRun(states, ops) && n < |ops| && HandsOut(states, ops, n)
    ensures FirstFree(states[n].ids, states[n].counter, k) && states[n + 1].live != []
    ensures NewId(states, ops, n) == Ahead(states[n].counter, k)
    ensures states[n + 1].counter == (NewId(states, ops, n) + 1) % USIZE
  {
    assert StepTo(states[n], ops[n], states[n + 1]);
    k :| FirstFree(states[n].ids, states[n].counter, k)
         && states[n + 1] == HandOut(states[n], Ahead(states[n].counter, k));
  }

  /**
   * Over every run the search goes on from where the last one ended: an id handed out is the first free
   * one cyclically behind the id handed out before it, removed or not.
   */
  lemma NextFollowsLast(states: seq<Generator>, ops: seq<Op>, m: nat, n: nat) returns (k: nat)
    requires IsRun(states, ops) && m < n < |ops|
    requires HandsOut(states, ops, m) && HandsOut(states, ops, n) && NoneBetween(states, ops, m, n)
    ensures states[m + 1].live != [] && states[n + 1].live != []
    ensures FirstFree(states[n].ids, (NewId(states, ops, m) + 1) % USIZE, k)
    ensures NewId(states, ops, n) == (NewId(states, ops, m) + 1 + k) % USIZE
  {
    var k0 := HandedOut(states, ops, m);
    CounterStays(states, ops, m + 1, n);
    k := HandedOut(states, ops, n);
    AheadAhead(NewId(states, ops, m), k);
  }

  lemma AheadAhead(id: Id, k: nat)
    ensures Ahead((id + 1) % USIZE, k) == (id + 1 + k) % USIZE
  {
  }

  /** So an id just removed comes back only when every other one is taken. */
  lemma NotReusedAtOnce(states: seq<Generator>, ops: seq<Op>, m: nat, n: nat, other: Id)
    requires IsRun(states, ops) && m < n < |ops|
    requires HandsOut(states, ops, m) && HandsOut(states, ops, n) && NoneBetween(states, ops, m, n)
    requires states[m + 1].live != [] && states[n + 1].live != []
    requires NewId(states, ops, n) == NewId(states, ops, m) != other
    ensures other in states[n].ids
  {
    var last := NewId(states, ops, m);
    var k := NextFollowsLast(states, ops, m, n);
    var j := OnTheWay(last, other, k);
    assert Ahead((last + 1) % USIZE, j) in states[n].ids;
  }

  /** Once around from `last` to itself comes past every other id. */
  lemma OnTheWay(last: Id, other: Id, k: nat) returns (j: nat)
    requires other != last && k < USIZE && (last + 1 + k) % USIZE == last
    ensures j < k && Ahead((last + 1) % USIZE, j) == other
  {
    j := if other > last then other - last - 1 else other - last - 1 + USIZE;
    AheadAhead(last, j);
  }

  lemma FreeAtOnce(ids: set<Id>, from: Id, k: nat)
    requires FirstFree(ids, from, k) && Ahead(from, 0) !in ids
    ensures k == 0 && Ahead(from, k) == from
  {
  }

  /** The first id of all is 0. */
  lemma FirstIdIsZero(states: seq<Generator>, ops: seq<Op>, n: nat)
    requires IsRun(states, ops) && n < |ops| && HandsOut(states, ops, n) && NoneBetween(states, ops, -1, n)
    ensures states[n + 1].live != [] && NewId(states, ops, n) == 0
  {
    CounterStays(states, ops, 0, n);
    NothingTaken(states, ops, n);
    var k := HandedOut(states, ops, n);
    FreeAtOnce(states[n].ids, 0, k);
  }

  lemma {:induction false} NothingTaken(states: seq<Generator>, ops: seq<Op>, n: nat)
    requires IsRun(states, ops) && n <= |ops| && NoneBetween(states, ops, -1, n)
    ensures states[n].ids == {}
  {
    if n > 0 {
      NothingTaken(states, ops, n - 1);
      assert StepTo(states[n - 1], ops[n - 1], states[n]) && !HandsOut(states, ops, n - 1);
    }
  }

  // ---- the generator ------------------------------------------------------------------------------

  datatype Generated = Fresh(id: Id) | OutOfIds

  class IdGenerator {
    var ids: set<Id>
    var counter: Id
    ghost var live: seq<Id>

    ghost function State(): Generator
      reads this
    {
      Generator(ids, counter, live)
    }

    /** The set never fills: `next` refuses to hand out the last free id. */
    ghost predicate Valid()
      reads this
    {
      Good(State())
    }

    constructor ()
      ensures Valid() && State() == Generator({}, 0, [])
    {
      ids, counter, live := {}, 0, [];
    }

    /** The search; it ends whenever the full-set check has passed. */
    method Advance() returns (ghost k: nat)
      requires |ids| < USIZE
      modifies this`counter
      ensures FirstFree(ids, old(counter), k) && counter == Ahead(old(counter), k)
    {
      ghost var run := FreeIdAhead(ids, counter);
      k := 0;
      while counter in ids
        invariant counter == Ahead(old(counter), k) && k <= run
        decreases run - k
      {
        AheadNext(old(counter), k);
        counter := (counter + 1) % USIZE;
        k := k + 1;
      }
    }

    /** The first free id cyclically from the counter, or none when only one is left. */
    method Next() returns (result: Generated)
      requires Valid()
      modifies this
      ensures Valid() && StepTo(old(State()), Op.Next, State())
      ensures result.OutOfIds? <==> |old(ids)| == USIZE_MAX
      ensures result.Fresh? ==>
                live == old(live) + [result.id] && result.id !in old(ids)
                && exists k :: FirstFree(old(ids), old(counter), k) && result.id == Ahead(old(counter), k)
    {
      if |ids| == USIZE_MAX {
        return OutOfIds;
      }
      ghost var k := Advance();
      ids := ids + {counter};
      var newId := counter;
      counter := (counter + 1) % USIZE;
      live := live + [newId];
      assert State() == HandOut(old(State()), Ahead(old(counter), k));
      StepGood(old(State()), Op.Next, State());
      return Fresh(newId);
    }

    method Remove(id: Id) returns (removed: bool)
      requires Valid()
      modifies this
      ensures Valid() && StepTo(old(State()), Op.Remove(id), State())
      ensures removed <==> id in old(live)
    {
      removed := id in ids;
      ids := ids - {id};
      live := Without(live, id);
      StepGood(old(State()), Op.Remove(id), State());
    }
  }
}
