/**
 * The loop shared by every round of rectangle subtraction, for any items: `todo` checks from the
 * front; an item that is hit is taken out with `swap_remove` and its pieces are pushed at the end.
 */
module Worklist {
  function SwapRemove<T>(s: seq<T>, i: nat): (r: seq<T>)
    requires i < |s|
    ensures |r| == |s| - 1
  {
    if i == |s| - 1 then s[..i] else s[..i] + [s[|s| - 1]] + s[i + 1..|s| - 1]
  }

  function Sweep<T>(items: seq<T>, index: nat, todo: nat, hit: T -> bool, cut: T -> seq<T>): (out: seq<T>)
    requires index + todo <= |items|
    decreases todo
  {
    if todo == 0 then items
    else if !hit(items[index]) then Sweep(items, index + 1, todo - 1, hit, cut)
    else Sweep(SwapRemove(items, index) + cut(items[index]), index, todo - 1, hit, cut)
  }

  lemma {:induction false} SweepGrowth<T(!new)>(items: seq<T>, index: nat, todo: nat, hit: T -> bool,
                                               cut: T -> seq<T>, k: nat)
    requires index + todo <= |items|
    requires forall t :: |cut(t)| <= k + 1
    ensures |Sweep(items, index, todo, hit, cut)| <= |items| + k * todo
    decreases todo
  {
    if todo > 0 {
      assert k * todo == k * (todo - 1) + k && k * (todo - 1) >= 0;
      if !hit(items[index]) {
        SweepGrowth(items, index + 1, todo - 1, hit, cut, k);
      } else {
        SweepGrowth(SwapRemove(items, index) + cut(items[index]), index, todo - 1, hit, cut, k);
      }
    }
  }

  ghost predicate All<T>(s: seq<T>, p: T -> bool) {
    forall k :: 0 <= k < |s| ==> p(s[k])
  }

  /** What every item has and cutting keeps, every item of the result has. */
  lemma {:induction false} SweepKeeps<T(!new)>(items: seq<T>, index: nat, todo: nat, hit: T -> bool, cut: T -> seq<T>,
                                              p: T -> bool)
    requires index + todo <= |items| && All(items, p)
    requires forall t :: p(t) && hit(t) ==> All(cut(t), p)
    ensures All(Sweep(items, index, todo, hit, cut), p)
    decreases todo
  {
    if todo > 0 {
      if !hit(items[index]) {
        SweepKeeps(items, index + 1, todo - 1, hit, cut, p);
      } else {
        SweepKeeps(SwapRemove(items, index) + cut(items[index]), index, todo - 1, hit, cut, p);
      }
    }
  }

  /**
   * The original items a sweep never checks. `queue` holds the originals still ahead, `tail`
   * counts the pieces behind them, and `todo` the checks left. A removal while pieces are at the
   * tail moves one of them to the front, where it uses up a check.
   */
  function Unchecked<T>(queue: seq<T>, tail: nat, todo: nat, hit: T -> bool, cut: T -> seq<T>): (left: seq<T>)
    requires todo <= |queue|
    decreases todo
  {
    if todo == 0 then queue
    else
      var item, rest := queue[0], queue[1..];
      if !hit(item) then Unchecked(rest, tail, todo - 1, hit, cut)
      else if tail == 0 then
        if rest == [] then [] else Unchecked(LastFirst(rest), |cut(item)|, todo - 1, hit, cut)
      else if todo == 1 then rest
      else Unchecked(rest, tail - 1 + |cut(item)|, todo - 2, hit, cut)
  }

  function LastFirst<T>(s: seq<T>): (r: seq<T>)
    requires s != []
    ensures |r| == |s|
  {
    [s[|s| - 1]] + s[..|s| - 1]
  }

  // ---- sums -------------------------------------------------------------------------------

  function Sum<T>(s: seq<T>, f: T -> int): int {
    if s == [] then 0 else f(s[0]) + Sum(s[1..], f)
  }

  lemma {:induction false} SumConcat<T>(a: seq<T>, b: seq<T>, f: T -> int)
    ensures Sum(a + b, f) == Sum(a, f) + Sum(b, f)
  {
    if a == [] {
      assert a + b == b;
    } else {
      assert (a + b)[1..] == a[1..] + b;
      SumConcat(a[1..], b, f);
    }
  }

  lemma SumThree<T>(a: seq<T>, b: seq<T>, c: seq<T>, f: T -> int)
    ensures Sum(a + b + c, f) == Sum(a, f) + Sum(b, f) + Sum(c, f)
  {
    SumConcat(a + b, c, f);
    SumConcat(a, b, f);
  }

  lemma SumSnoc<T>(a: seq<T>, t: T, f: T -> int)
    ensures Sum(a + [t], f) == Sum(a, f) + f(t)
  {
    SumConcat(a, [t], f);
  }

  lemma SumLast<T>(a: seq<T>, f: T -> int)
    requires a != []
    ensures Sum(a, f) == Sum(a[..|a| - 1], f) + f(a[|a| - 1])
  {
    SumSnoc(a[..|a| - 1], a[|a| - 1], f);
    assert a[..|a| - 1] + [a[|a| - 1]] == a;
  }

  lemma SumLastFirst<T>(s: seq<T>, f: T -> int)
    requires s != []
    ensures Sum(LastFirst(s), f) == Sum(s, f)
  {
    SumConcat([s[|s| - 1]], s[..|s| - 1], f);
    SumLast(s, f);
  }

  lemma {:induction false} SumAgree<T(!new)>(s: seq<T>, p: T -> bool, f: T -> int, g: T -> int)
    requires All(s, p) && forall t :: p(t) ==> f(t) == g(t)
    ensures Sum(s, f) == Sum(s, g)
  {
    if s != [] {
      assert p(s[0]);
      SumAgree(s[1..], p, f, g);
    }
  }

  // ---- the conservation law ---------------------------------------------------------------

  ghost predicate Misses<T>(s: seq<T>, hit: T -> bool) {
    forall k :: 0 <= k < |s| ==> !hit(s[k])
  }

  /** `g` is the part of the weight `f` that cutting a hit item removes, and no piece is hit again. */
  ghost predicate Cuts<T(!new)>(hit: T -> bool, cut: T -> seq<T>, f: T -> int, g: T -> int) {
    forall t :: if hit(t) then f(t) == g(t) + Sum(cut(t), f) && Misses(cut(t), hit) else g(t) == 0
  }

  /** The weight the checks remove: `g` of the queue, less `g` of what stays unchecked. */
  function Taken<T>(queue: seq<T>, tail: nat, todo: nat, hit: T -> bool, cut: T -> seq<T>, g: T -> int): int
    requires todo <= |queue|
  {
    Sum(queue, g) - Sum(Unchecked(queue, tail, todo, hit, cut), g)
  }

  ghost predicate Law<T>(done: seq<T>, queue: seq<T>, tail: seq<T>, todo: nat, hit: T -> bool, cut: T -> seq<T>,
                         f: T -> int, g: T -> int)
    requires todo <= |queue|
  {
    Sum(Sweep(done + queue + tail, |done|, todo, hit, cut), f)
    == Sum(done, f) + Sum(queue, f) + Sum(tail, f) - Taken(queue, |tail|, todo, hit, cut, g)
  }

  // One check, by what it meets: a miss, the only item left, a hit with nothing at the tail, a
  // hit with pieces at the tail.

  lemma MissConserves<T>(done: seq<T>, queue: seq<T>, tail: seq<T>, todo: nat, hit: T -> bool, cut: T -> seq<T>,
                         f: T -> int, g: T -> int)
    requires 0 < todo <= |queue| && !hit(queue[0]) && g(queue[0]) == 0
    requires Law(done + [queue[0]], queue[1..], tail, todo - 1, hit, cut, f, g)
    ensures Law(done, queue, tail, todo, hit, cut, f, g)
  {
    assert done + queue + tail == (done + [queue[0]]) + queue[1..] + tail;
    assert (done + queue + tail)[|done|] == queue[0];
    SumSnoc(done, queue[0], f);
  }

  lemma LastHitConserves<T>(done: seq<T>, item: T, hit: T -> bool, cut: T -> seq<T>, f: T -> int, g: T -> int)
    requires hit(item) && f(item) == g(item) + Sum(cut(item), f)
    ensures Law(done, [item], [], 1, hit, cut, f, g)
  {
    var items := done + [item];
    assert done + [item] + [] == items;
    assert SwapRemove(items, |done|) == done;
    assert Sweep(items, |done|, 1, hit, cut) == done + cut(item);
    SumConcat(done, cut(item), f);
  }

  lemma FirstHitConserves<T>(done: seq<T>, queue: seq<T>, todo: nat, hit: T -> bool, cut: T -> seq<T>,
                             f: T -> int, g: T -> int)
    requires 0 < todo <= |queue| && |queue| > 1 && hit(queue[0]) && f(queue[0]) == g(queue[0]) + Sum(cut(queue[0]), f)
    requires Law(done, LastFirst(queue[1..]), cut(queue[0]), todo - 1, hit, cut, f, g)
    ensures Law(done, queue, [], todo, hit, cut, f, g)
  {
    var rest := queue[1..];
    assert done + queue + [] == done + queue;
    assert (done + queue)[|done|] == queue[0];
    assert SwapRemove(done + queue, |done|) == done + LastFirst(rest);
    SumLastFirst(rest, f);
    SumLastFirst(rest, g);
  }

  /** A hit with pieces at the tail costs a second check, spent on the piece moved up. */
  lemma LaterHitTurns<T>(done: seq<T>, queue: seq<T>, tail: seq<T>, todo: nat, hit: T -> bool, cut: T -> seq<T>)
    requires 0 < todo <= |queue| && tail != [] && hit(queue[0])
    requires !hit(tail[|tail| - 1])
    ensures Sweep(done + queue + tail, |done|, todo, hit, cut)
         == var done', tail' := done + [tail[|tail| - 1]], tail[..|tail| - 1] + cut(queue[0]);
            if todo == 1 then done' + queue[1..] + tail'
            else Sweep(done' + queue[1..] + tail', |done'|, todo - 2, hit, cut)
  {
    var done', tail' := done + [tail[|tail| - 1]], tail[..|tail| - 1] + cut(queue[0]);
    var items := done + queue + tail;
    var items' := done' + queue[1..] + tail';
    assert items[|done|] == queue[0];
    assert SwapRemove(items, |done|) + cut(queue[0]) == items';
    assert Sweep(items, |done|, todo, hit, cut) == Sweep(items', |done|, todo - 1, hit, cut);
    assert items'[|done|] == tail[|tail| - 1];
  }

  lemma LaterHitSums<T>(done: seq<T>, tail: seq<T>, pieces: seq<T>, f: T -> int)
    requires tail != []
    ensures Sum(done + [tail[|tail| - 1]], f) + Sum(tail[..|tail| - 1] + pieces, f)
         == Sum(done, f) + Sum(tail, f) + Sum(pieces, f)
  {
    SumSnoc(done, tail[|tail| - 1], f);
    SumConcat(tail[..|tail| - 1], pieces, f);
    SumLast(tail, f);
  }

  lemma LaterHitConserves<T>(done: seq<T>, queue: seq<T>, tail: seq<T>, todo: nat, hit: T -> bool, cut: T -> seq<T>,
                             f: T -> int, g: T -> int)
    requires 0 < todo <= |queue| && tail != []
    requires hit(queue[0]) && f(queue[0]) == g(queue[0]) + Sum(cut(queue[0]), f) && !hit(tail[|tail| - 1])
    requires todo > 1 ==>
               Law(done + [tail[|tail| - 1]], queue[1..], tail[..|tail| - 1] + cut(queue[0]), todo - 2, hit, cut, f, g)
    ensures Law(done, queue, tail, todo, hit, cut, f, g)
  {
    LaterHitTurns(done, queue, tail, todo, hit, cut);
    LaterHitSums(done, tail, cut(queue[0]), f);
    SumThree(done + [tail[|tail| - 1]], queue[1..], tail[..|tail| - 1] + cut(queue[0]), f);
  }

  lemma NothingLeftConserves<T>(done: seq<T>, queue: seq<T>, tail: seq<T>, hit: T -> bool, cut: T -> seq<T>,
                                f: T -> int, g: T -> int)
    ensures Law(done, queue, tail, 0, hit, cut, f, g)
  {
    SumThree(done, queue, tail, f);
  }

  lemma MissesAfterHit<T>(tail: seq<T>, pieces: seq<T>, hit: T -> bool)
    requires tail != [] && Misses(tail, hit) && Misses(pieces, hit)
    ensures !hit(tail[|tail| - 1]) && Misses(tail[..|tail| - 1] + pieces, hit)
  {
  }

  lemma CutsAt<T(!new)>(t: T, hit: T -> bool, cut: T -> seq<T>, f: T -> int, g: T -> int)
    requires Cuts(hit, cut, f, g)
    ensures if hit(t) then f(t) == g(t) + Sum(cut(t), f) && Misses(cut(t), hit) else g(t) == 0
  {
  }

  lemma {:induction false} SweepFromConserves<T(!new)>(
    done: seq<T>, queue: seq<T>, tail: seq<T>, todo: nat, hit: T -> bool, cut: T -> seq<T>, f: T -> int, g: T -> int)
    requires todo <= |queue| && Misses(tail, hit) && Cuts(hit, cut, f, g)
    ensures Law(done, queue, tail, todo, hit, cut, f, g)
    decreases todo
  {
    if todo == 0 {
      NothingLeftConserves(done, queue, tail, hit, cut, f, g);
      return;
    }
    var item, rest := queue[0], queue[1..];
    CutsAt(item, hit, cut, f, g);
    if !hit(item) {
      SweepFromConserves(done + [item], rest, tail, todo - 1, hit, cut, f, g);
      MissConserves(done, queue, tail, todo, hit, cut, f, g);
    } else if tail != [] {
      MissesAfterHit(tail, cut(item), hit);
      if todo > 1 {
        var done', tail' := done + [tail[|tail| - 1]], tail[..|tail| - 1] + cut(item);
        SweepFromConserves(done', rest, tail', todo - 2, hit, cut, f, g);
      }
      LaterHitConserves(done, queue, tail, todo, hit, cut, f, g);
    } else if rest == [] {
      assert queue == [item];
      LastHitConserves(done, item, hit, cut, f, g);
    } else {
      SweepFromConserves(done, LastFirst(rest), cut(item), todo - 1, hit, cut, f, g);
      FirstHitConserves(done, queue, todo, hit, cut, f, g);
    }
  }

  /** A whole sweep removes exactly the weight `g` of the items it checks. */
  lemma SweepConserves<T(!new)>(items: seq<T>, hit: T -> bool, cut: T -> seq<T>, f: T -> int, g: T -> int)
    requires Cuts(hit, cut, f, g)
    ensures Sum(Sweep(items, 0, |items|, hit, cut), f)
         == Sum(items, f) - Sum(items, g) + Sum(Unchecked(items, 0, |items|, hit, cut), g)
  {
    assert [] + items + [] == items;
    SweepFromConserves([], items, [], |items|, hit, cut, f, g);
  }

  // ---- what stays unchecked ---------------------------------------------------------------

  lemma {:induction false} SumNonNegative<T(!new)>(s: seq<T>, f: T -> int)
    requires forall t :: f(t) >= 0
    ensures Sum(s, f) >= 0
  {
    if s != [] {
      SumNonNegative(s[1..], f);
    }
  }

  lemma {:induction false} UncheckedWithin<T(!new)>(queue: seq<T>, tail: nat, todo: nat, hit: T -> bool,
                                                   cut: T -> seq<T>, f: T -> int)
    requires todo <= |queue|
    requires forall t :: f(t) >= 0
    ensures 0 <= Sum(Unchecked(queue, tail, todo, hit, cut), f) <= Sum(queue, f)
    decreases todo
  {
    SumNonNegative(queue, f);
    if todo > 0 {
      var item, rest := queue[0], queue[1..];
      SumNonNegative(rest, f);
      if !hit(item) {
        UncheckedWithin(rest, tail, todo - 1, hit, cut, f);
      } else if tail > 0 {
        if todo > 1 { UncheckedWithin(rest, tail - 1 + |cut(item)|, todo - 2, hit, cut, f); }
      } else if rest != [] {
        SumLastFirst(rest, f);
        UncheckedWithin(LastFirst(rest), |cut(item)|, todo - 1, hit, cut, f);
      }
    }
  }

  lemma {:induction false} UncheckedAreOriginals<T>(queue: seq<T>, tail: nat, todo: nat, hit: T -> bool,
                                                   cut: T -> seq<T>)
    requires todo <= |queue|
    ensures forall t :: t in Unchecked(queue, tail, todo, hit, cut) ==> t in queue
    decreases todo
  {
    if todo > 0 {
      var item, rest := queue[0], queue[1..];
      if !hit(item) {
        UncheckedAreOriginals(rest, tail, todo - 1, hit, cut);
      } else if tail > 0 {
        if todo > 1 { UncheckedAreOriginals(rest, tail - 1 + |cut(item)|, todo - 2, hit, cut); }
      } else if rest != [] {
        UncheckedAreOriginals(LastFirst(rest), |cut(item)|, todo - 1, hit, cut);
      }
    }
  }

  function Hits<T>(s: seq<T>, hit: T -> bool): (n: nat)
    ensures n == 0 <==> Misses(s, hit)
  {
    if s == [] then 0 else (if hit(s[0]) then 1 else 0) + Hits(s[1..], hit)
  }

  lemma {:induction false} HitsConcat<T>(a: seq<T>, b: seq<T>, hit: T -> bool)
    ensures Hits(a + b, hit) == Hits(a, hit) + Hits(b, hit)
  {
    if a == [] {
      assert a + b == b;
    } else {
      assert (a + b)[1..] == a[1..] + b;
      HitsConcat(a[1..], b, hit);
    }
  }

  lemma HitsLastFirst<T>(s: seq<T>, hit: T -> bool)
    requires s != []
    ensures Hits(LastFirst(s), hit) == Hits(s, hit)
  {
    var n := |s| - 1;
    HitsConcat([s[n]], s[..n], hit);
    HitsConcat(s[..n], [s[n]], hit);
    assert s[..n] + [s[n]] == s;
  }

  lemma {:induction false} NoHitsLeft<T>(queue: seq<T>, tail: nat, todo: nat, hit: T -> bool, cut: T -> seq<T>)
    requires todo <= |queue| && Hits(queue, hit) == 0
    ensures Hits(Unchecked(queue, tail, todo, hit, cut), hit) == 0
    decreases todo
  {
    if todo > 0 {
      NoHitsLeft(queue[1..], tail, todo - 1, hit, cut);
    }
  }

  /** With at most two hits, every hit is checked. */
  lemma {:induction false} FewHitsAllChecked<T>(queue: seq<T>, tail: nat, hit: T -> bool, cut: T -> seq<T>)
    requires Hits(queue, hit) <= if tail == 0 then 2 else 1
    ensures Hits(Unchecked(queue, tail, |queue|, hit, cut), hit) == 0
    decreases |queue|
  {
    if queue != [] {
      var item, rest := queue[0], queue[1..];
      if !hit(item) {
        FewHitsAllChecked(rest, tail, hit, cut);
      } else if tail > 0 {
        if rest != [] { NoHitsLeft(rest, tail - 1 + |cut(item)|, |rest| - 1, hit, cut); }
      } else if rest != [] {
        HitsLastFirst(rest, hit);
        FewHitsAllChecked(LastFirst(rest), |cut(item)|, hit, cut);
      }
    }
  }

  // ---- the closed form when every hit item leaves a piece ------------------------------------

  /** The order in which the originals come up: the first hit brings the last one forward. */
  function CheckOrder<T>(s: seq<T>, hit: T -> bool): (order: seq<T>)
    ensures |order| == |s|
  {
    if s == [] then []
    else if !hit(s[0]) then [s[0]] + CheckOrder(s[1..], hit)
    else if |s| == 1 then s
    else [s[0]] + LastFirst(s[1..])
  }

  function TrailingMisses<T>(s: seq<T>, hit: T -> bool): (n: nat)
    ensures n <= |s|
    ensures n < |s| <==> Hits(s, hit) > 0
  {
    if s == [] then 0
    else
      var n := TrailingMisses(s[1..], hit);
      if n == |s| - 1 && !hit(s[0]) then n + 1 else n
  }

  ghost predicate EveryHitLeavesPieces<T>(s: seq<T>, hit: T -> bool, cut: T -> seq<T>) {
    forall k :: 0 <= k < |s| && hit(s[k]) ==> cut(s[k]) != []
  }

  lemma {:induction false} LaterHitsChecked<T>(queue: seq<T>, tail: nat, todo: nat, hit: T -> bool, cut: T -> seq<T>)
    requires todo <= |queue| && tail > 0 && EveryHitLeavesPieces(queue, hit, cut)
    ensures Hits(Unchecked(queue, tail, todo, hit, cut), hit) == 0
       <==> Hits(queue, hit) == 0 || Hits(queue, hit) - 1 + |queue| - todo <= TrailingMisses(queue, hit)
    decreases todo
  {
    if todo > 0 {
      var item, rest := queue[0], queue[1..];
      if !hit(item) {
        LaterHitsChecked(rest, tail, todo - 1, hit, cut);
      } else if todo > 1 {
        LaterHitsChecked(rest, tail - 1 + |cut(item)|, todo - 2, hit, cut);
      }
    }
  }

  lemma {:induction false} CheckOrderHits<T>(s: seq<T>, hit: T -> bool)
    ensures Hits(CheckOrder(s, hit), hit) == Hits(s, hit)
  {
    if s != [] {
      var item, rest := s[0], s[1..];
      if !hit(item) {
        CheckOrderHits(rest, hit);
        HitsConcat([item], CheckOrder(rest, hit), hit);
      } else if rest != [] {
        HitsLastFirst(rest, hit);
        HitsConcat([item], LastFirst(rest), hit);
      }
    }
  }

  /** An item in front changes nothing at the end, unless there are only misses. */
  lemma TrailingBehind<T>(item: T, rest: seq<T>, hit: T -> bool)
    ensures hit(item) || Hits(rest, hit) > 0 ==> TrailingMisses([item] + rest, hit) == TrailingMisses(rest, hit)
  {
    assert ([item] + rest)[1..] == rest;
  }

  /** All hits are checked exactly when the misses that come up last make up for all hits but two. */
  lemma {:induction false} AllHitsCheckedIff<T>(s: seq<T>, hit: T -> bool, cut: T -> seq<T>)
    requires EveryHitLeavesPieces(s, hit, cut)
    ensures Hits(Unchecked(s, 0, |s|, hit, cut), hit) == 0
       <==> Hits(s, hit) <= TrailingMisses(CheckOrder(s, hit), hit) + 2
  {
    if s == [] { return; }
    var item, rest := s[0], s[1..];
    if !hit(item) {
      AllHitsCheckedIff(rest, hit, cut);
      CheckOrderHits(rest, hit);
      TrailingBehind(item, CheckOrder(rest, hit), hit);
    } else if rest != [] {
      HitsLastFirst(rest, hit);
      LaterHitsChecked(LastFirst(rest), |cut(item)|, |rest|, hit, cut);
      TrailingBehind(item, LastFirst(rest), hit);
    }
  }
}
