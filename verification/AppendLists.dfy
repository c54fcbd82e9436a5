/** The lock-free append-only list: mod list of src/utils/user_data.rs. */
module AppendLists {
  import opened Wrappers

  /** An AtomicPtr: the list's own, or the `next` of a node. */
  datatype Slot = Root | NextOf(node: nat)

  datatype Node<T> = Node(value: T, next: Option<nat>)

  /** Every node ever boxed, by address; nothing is freed while the list is shared. */
  datatype Heap<T> = Heap(root: Option<nat>, nodes: seq<Node<T>>)

  predicate ValidSlot<T>(h: Heap<T>, slot: Slot) {
    slot.NextOf? ==> slot.node < |h.nodes|
  }

  function Load<T>(h: Heap<T>, slot: Slot): Option<nat>
    requires ValidSlot(h, slot)
  {
    if slot.Root? then h.root else h.nodes[slot.node].next
  }

  function Store<T>(h: Heap<T>, slot: Slot, p: nat): Heap<T>
    requires ValidSlot(h, slot)
  {
    if slot.Root? then h.(root := Some(p))
    else h.(nodes := h.nodes[slot.node := h.nodes[slot.node].(next := Some(p))])
  }

  function Alloc<T>(h: Heap<T>, value: T): Heap<T> {
    h.(nodes := h.nodes + [Node(value, None)])
  }

  // ---- the abstract list --------------------------------------------------------------------

  function At(list: seq<nat>, k: nat): Option<nat> {
    if k < |list| then Some(list[k]) else None
  }

  /** The pointer a walker holds after the nodes in `seen`. */
  function SlotAfter(seen: seq<nat>): Slot {
    if seen == [] then Root else NextOf(seen[|seen| - 1])
  }

  ghost predicate Distinct(list: seq<nat>) {
    forall i, j :: 0 <= i < j < |list| ==> list[i] != list[j]
  }

  /** `list` is the chain hanging off the root, and boxes outside it point nowhere. */
  ghost predicate Chain<T>(h: Heap<T>, list: seq<nat>) {
    && Distinct(list)
    && (forall k :: 0 <= k < |list| ==> list[k] < |h.nodes|)
    && h.root == At(list, 0)
    && (forall k {:trigger h.nodes[list[k]]} :: 0 <= k < |list| ==> h.nodes[list[k]].next == At(list, k + 1))
    && (forall n :: 0 <= n < |h.nodes| && n !in list ==> h.nodes[n].next == None)
  }

  lemma LoadAfterPrefix<T>(h: Heap<T>, list: seq<nat>, seen: seq<nat>)
    requires Chain(h, list) && seen <= list
    ensures ValidSlot(h, SlotAfter(seen))
    ensures Load(h, SlotAfter(seen)) == At(list, |seen|)
  {
    if seen != [] {
      assert seen[|seen| - 1] == list[|seen| - 1];
    }
  }

  /** The successful compare-exchange at the tail appends one node and unlinks none. */
  lemma PublishExtends<T>(h: Heap<T>, list: seq<nat>, node: nat)
    requires Chain(h, list) && node < |h.nodes| && node !in list
    ensures ValidSlot(h, SlotAfter(list)) && Chain(Store(h, SlotAfter(list), node), list + [node])
  {
  }

  lemma AllocKeeps<T>(h: Heap<T>, list: seq<nat>, value: T)
    requires Chain(h, list)
    ensures Chain(Alloc(h, value), list)
    ensures |h.nodes| !in list
  {
  }

  /** Following pointers from `slot`, for at most `fuel` nodes. */
  function Walk<T>(h: Heap<T>, slot: Slot, fuel: nat): seq<nat>
    requires ValidSlot(h, slot)
    decreases fuel
  {
    if fuel == 0 then []
    else match Load(h, slot)
      case None => []
      case Some(p) => if p < |h.nodes| then [p] + Walk(h, NextOf(p), fuel - 1) else []
  }

  lemma {:induction false} WalkFindsChain<T>(h: Heap<T>, list: seq<nat>, k: nat, fuel: nat)
    requires Chain(h, list) && k <= |list| && fuel >= |list| - k
    ensures ValidSlot(h, SlotAfter(list[..k])) && Walk(h, SlotAfter(list[..k]), fuel) == list[k..]
    decreases |list| - k
  {
    LoadAfterPrefix(h, list, list[..k]);
    if k < |list| {
      WalkFindsChain(h, list, k + 1, fuel - 1);
      assert SlotAfter(list[..k + 1]) == NextOf(list[k]);
    }
  }

  /** The heap determines the list. */
  lemma ChainUnique<T>(h: Heap<T>, a: seq<nat>, b: seq<nat>)
    requires Chain(h, a) && Chain(h, b)
    ensures a == b
  {
    WalkFindsChain(h, a, 0, |a| + |b|);
    WalkFindsChain(h, b, 0, |a| + |b|);
    assert a[..0] == b[..0] == [];
  }

  lemma {:induction false} DistinctBounded(list: seq<nat>, n: nat)
    requires Distinct(list) && forall k :: 0 <= k < |list| ==> list[k] < n
    ensures |list| <= n
    decreases n
  {
    assert list != [] ==> 0 <= list[0] < n;
    if n > 0 && list != [] {
      if n - 1 in list {
        var i :| 0 <= i < |list| && list[i] == n - 1;
        DistinctBounded(list[..i] + list[i + 1..], n - 1);
      } else {
        DistinctBounded(list, n - 1);
      }
    }
  }

  /** The chain is acyclic: pointers run out within as many steps as there are boxes. */
  lemma ChainAcyclic<T>(h: Heap<T>, list: seq<nat>)
    requires Chain(h, list)
    ensures Walk(h, Root, |h.nodes|) == list && |list| <= |h.nodes|
  {
    DistinctBounded(list, |h.nodes|);
    WalkFindsChain(h, list, 0, |h.nodes|);
    assert list[..0] == [];
  }

  // ---- the shared list as an object -----------------------------------------------------------

  /** What the other threads do before one of our attempts, and whether that attempt fails spuriously. */
  datatype Moment<T> = Moment(appends: seq<T>, spurious: bool)

  function RivalValues<T>(moments: seq<Moment<T>>): seq<T> {
    if moments == [] then [] else RivalValues(moments[..|moments| - 1]) + moments[|moments| - 1].appends
  }

  /** Boxes are only added, and keep their values. */
  ghost predicate Grows<T>(before: Heap<T>, after: Heap<T>) {
    && |before.nodes| <= |after.nodes|
    && forall n {:trigger after.nodes[n]} :: 0 <= n < |before.nodes| ==> after.nodes[n].value == before.nodes[n].value
  }

  /** The list grew at its tail only, by fresh boxes holding `values` in order. */
  ghost predicate Appended<T>(h0: Heap<T>, l0: seq<nat>, h1: Heap<T>, l1: seq<nat>, values: seq<T>) {
    && Chain(h1, l1) && Grows(h0, h1)
    && l0 <= l1 && |l1| == |l0| + |values|
    && forall k :: |l0| <= k < |l1| ==> |h0.nodes| <= l1[k] < |h1.nodes| && h1.nodes[l1[k]].value == values[k - |l0|]
  }

  lemma AppendedNothing<T>(h: Heap<T>, list: seq<nat>)
    requires Chain(h, list)
    ensures Appended(h, list, h, list, [])
  {
  }

  lemma GrowsTrans<T>(h0: Heap<T>, h1: Heap<T>, h2: Heap<T>)
    requires Grows(h0, h1) && Grows(h1, h2)
    ensures Grows(h0, h2)
  {
    forall n | 0 <= n < |h0.nodes| ensures h2.nodes[n].value == h0.nodes[n].value {
      assert h1.nodes[n].value == h0.nodes[n].value;
    }
  }

  lemma AppendedTrans<T>(h0: Heap<T>, l0: seq<nat>, h1: Heap<T>, l1: seq<nat>, h2: Heap<T>, l2: seq<nat>,
                         a: seq<T>, b: seq<T>)
    requires Appended(h0, l0, h1, l1, a) && Appended(h1, l1, h2, l2, b)
    ensures Appended(h0, l0, h2, l2, a + b)
  {
    GrowsTrans(h0, h1, h2);
    forall k | |l0| <= k < |l2|
      ensures |h0.nodes| <= l2[k] < |h2.nodes| && h2.nodes[l2[k]].value == (a + b)[k - |l0|]
    {
      if k < |l1| {
        var n := l1[k];
        assert l2[k] == n;
        assert h1.nodes[n].value == a[k - |l0|] == (a + b)[k - |l0|];
        assert h2.nodes[n].value == h1.nodes[n].value;
      } else {
        assert h2.nodes[l2[k]].value == b[k - |l1|] == (a + b)[k - |l0|];
      }
    }
  }

  lemma AppendedKeepsOut<T>(h0: Heap<T>, l0: seq<nat>, h1: Heap<T>, l1: seq<nat>, values: seq<T>, p: nat)
    requires Appended(h0, l0, h1, l1, values) && p < |h0.nodes| && p !in l0
    ensures p !in l1
  {
    forall k | 0 <= k < |l1| ensures l1[k] != p {
      if k < |l0| {
        assert l1[k] == l0[k];
      }
    }
  }

  lemma RivalsAppended<T>(h0: Heap<T>, l0: seq<nat>, h1: Heap<T>, l1: seq<nat>, h2: Heap<T>, l2: seq<nat>,
                          moments: seq<Moment<T>>, k: nat, p: nat)
    requires k < |moments| && p !in l1 && p < |h1.nodes|
    requires Appended(h0, l0, h1, l1, RivalValues(moments[..k])) && Appended(h1, l1, h2, l2, moments[k].appends)
    ensures Appended(h0, l0, h2, l2, RivalValues(moments[..k + 1])) && p !in l2
  {
    assert moments[..k + 1][..k] == moments[..k];
    AppendedTrans(h0, l0, h1, l1, h2, l2, RivalValues(moments[..k]), moments[k].appends);
    AppendedKeepsOut(h1, l1, h2, l2, moments[k].appends, p);
  }

  /** A fresh box published at the tail, after what the rivals appended meanwhile. */
  lemma AppendedOne<T>(h0: Heap<T>, l0: seq<nat>, value: T, h1: Heap<T>, l1: seq<nat>, rivals: seq<T>)
    requires Chain(h0, l0) && Appended(Alloc(h0, value), l0, h1, l1, rivals)
    ensures |h0.nodes| !in l1 && ValidSlot(h1, SlotAfter(l1))
    ensures Appended(h0, l0, Store(h1, SlotAfter(l1), |h0.nodes|), l1 + [|h0.nodes|], rivals + [value])
  {
    var p := |h0.nodes|;
    AllocKeeps(h0, l0, value);
    AppendedKeepsOut(Alloc(h0, value), l0, h1, l1, rivals, p);
    PublishExtends(h1, l1, p);
    var h2, l2, values := Store(h1, SlotAfter(l1), p), l1 + [p], rivals + [value];
    forall n | 0 <= n < |h1.nodes| ensures h2.nodes[n].value == h1.nodes[n].value { }
    assert h1.nodes[p].value == value;
    forall n | 0 <= n < |h0.nodes| ensures h2.nodes[n].value == h0.nodes[n].value {
      assert h1.nodes[n].value == Alloc(h0, value).nodes[n].value;
    }
    forall k | |l0| <= k < |l2|
      ensures |h0.nodes| <= l2[k] < |h2.nodes| && h2.nodes[l2[k]].value == values[k - |l0|]
    {
      if k < |l1| {
        assert l2[k] == l1[k];
      }
    }
  }

  class AppendList<T> {
    var heap: Heap<T>
    ghost var list: seq<nat>

    ghost predicate Valid()
      reads this
    {
      Chain(heap, list)
    }

    constructor ()
      ensures Valid() && list == []
    {
      heap := Heap(None, []);
      list := [];
    }

    /** `compare_exchange_weak(null, p)` at the slot after `seen`: it may fail although the slot is null. */
    method CompareExchangeWeak(slot: Slot, p: nat, spurious: bool, ghost seen: seq<nat>)
      returns (ok: bool, head: Option<nat>)
      requires Valid() && seen <= list && slot == SlotAfter(seen)
      requires p < |heap.nodes| && p !in list
      modifies this
      ensures Valid() && head == At(old(list), |seen|)
      ensures ok <==> head == None && !spurious
      ensures ok ==> ValidSlot(old(heap), slot) && heap == Store(old(heap), slot, p) && list == old(list) + [p]
      ensures !ok ==> heap == old(heap) && list == old(list)
    {
      LoadAfterPrefix(heap, list, seen);
      head := Load(heap, slot);
      ok := head == None && !spurious;
      if ok {
        assert seen == list;
        PublishExtends(heap, list, p);
        heap := Store(heap, slot, p);
        list := list + [p];
      }
    }

    /** Rivals' appends, each complete, between two of our attempts. */
    method Interfere(values: seq<T>, ghost budget: nat)
      requires Valid()
      modifies this
      ensures Appended(old(heap), old(list), heap, list, values)
      decreases budget, 2
    {
      AppendedNothing(heap, list);
      for i := 0 to |values|
        invariant Appended(old(heap), old(list), heap, list, values[..i])
      {
        label before:
        ghost var used := Append(values[i], []);
        AppendedTrans(old(heap), old(list), old@before(heap), old@before(list), heap, list, values[..i], [values[i]]);
        assert values[..i + 1] == values[..i] + [values[i]];
      }
      assert values[..|values|] == values;
    }

    /**
     * Walk to the tail and swing it to `p`. Whatever the rivals append on the way and however
     * often the exchange fails spuriously, `p` is published once, right after everything that
     * was in the list (`tail`) when the exchange succeeded.
     */
    method AppendPtr(p: nat, moments: seq<Moment<T>>)
      returns (ghost used: nat, ghost met: Heap<T>, ghost tail: seq<nat>)
      requires Valid() && p < |heap.nodes| && p !in list
      modifies this
      ensures used <= |moments|
      ensures Appended(old(heap), old(list), met, tail, RivalValues(moments[..used]))
      ensures ValidSlot(met, SlotAfter(tail)) && heap == Store(met, SlotAfter(tail), p)
      ensures Valid() && p !in tail && list == tail + [p]
      decreases |moments|, 0
    {
      var slot, k := Root, 0;
      ghost var seen: seq<nat> := [];
      AppendedNothing(heap, list);
      assert moments[..0] == [];
      while true
        invariant k <= |moments|
        invariant Appended(old(heap), old(list), heap, list, RivalValues(moments[..k])) && p !in list
        invariant seen <= list && slot == SlotAfter(seen)
        decreases |moments| - k, |list| - |seen|
      {
        var spurious := false;
        if k < |moments| {
          label before:
          Interfere(moments[k].appends, |moments| - 1);
          RivalsAppended(old(heap), old(list), old@before(heap), old@before(list), heap, list, moments, k, p);
          spurious := moments[k].spurious;
          k := k + 1;
        }
        met, tail, used := heap, list, k;
        var ok, head := CompareExchangeWeak(slot, p, spurious, seen);
        if ok {
          assert seen == tail;
          return;
        }
        if head.Some? {
          slot := NextOf(head.value);
          seen := seen + [head.value];
        }
      }
    }

    /** The value lands at the tail of the list exactly once; all else that changed is the rivals' doing. */
    method Append(value: T, moments: seq<Moment<T>>) returns (ghost used: nat)
      requires Valid()
      modifies this
      ensures used <= |moments|
      ensures Appended(old(heap), old(list), heap, list, RivalValues(moments[..used]) + [value])
      ensures moments == [] ==> Appended(old(heap), old(list), heap, list, [value])
      decreases |moments|, 1
    {
      AllocKeeps(heap, list, value);
      var p := |heap.nodes|;
      heap := Alloc(heap, value);
      ghost var met, tail;
      used, met, tail := AppendPtr(p, moments);
      AppendedOne(old(heap), old(list), value, met, tail, RivalValues(moments[..used]));
      if moments == [] {
        assert RivalValues(moments[..used]) + [value] == [value];
      }
    }

    /** One step of the iterator standing at `slot`. */
    method Next(slot: Slot, ghost seen: seq<nat>) returns (item: Option<nat>, slot': Slot)
      requires Valid() && seen <= list && slot == SlotAfter(seen)
      ensures item == At(list, |seen|)
      ensures item.Some? ==> seen + [item.value] <= list && slot' == SlotAfter(seen + [item.value])
      ensures item.None? ==> seen == list && slot' == slot
    {
      LoadAfterPrefix(heap, list, seen);
      item := Load(heap, slot);
      slot' := if item.None? then slot else NextOf(item.value);
    }
  }
}
