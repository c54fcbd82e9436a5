/** `UserDataMap`: any number of threads working on one append list, one atomic step at a time. */
module UserDataMaps {
  import opened Wrappers
  import opened AppendLists

  type Thread = nat
  type TypeId = nat

  datatype Inner =
    | ThreadSafe(ty: TypeId, val: int)
    | NonThreadSafe(ty: TypeId, val: int, owner: Thread)

  /** A write-once cell. */
  type UserData = Option<Inner>

  /** `set` and `set_threadsafe`: the first value stays. */
  function SetOnce(cell: UserData, inner: Inner): UserData {
    if cell.None? then Some(inner) else cell
  }

  lemma FirstValueStays(cell: UserData, first: Inner, second: Inner)
    ensures SetOnce(None, first) == Some(first)
    ensures cell.Some? ==> SetOnce(cell, first) == cell
    ensures SetOnce(SetOnce(cell, first), second) == SetOnce(cell, first)
  {
  }

  /** Whether `get::<T>` on `thread` gives access. */
  predicate Visible(cell: UserData, ty: TypeId, thread: Thread) {
    match cell
    case None => false
    case Some(ThreadSafe(ty', _)) => ty' == ty
    case Some(NonThreadSafe(ty', _, owner)) => owner == thread && ty' == ty
  }

  /** A value of the type that the thread may use: thread-safe, or stored by this very thread. */
  predicate Holds(cell: UserData, ty: TypeId, thread: Thread) {
    && cell.Some? && cell.value.ty == ty
    && (cell.value.NonThreadSafe? ==> cell.value.owner == thread)
  }

  lemma VisibleIffHolds(cell: UserData, ty: TypeId, thread: Thread)
    ensures Visible(cell, ty, thread) <==> Holds(cell, ty, thread)
  {
  }

  // ---- the threads ----------------------------------------------------------------------------

  datatype Op =
    | Get(ty: TypeId)
    | InsertIfMissing(ty: TypeId, val: int, safe: bool)
    | GetOrInsert(ty: TypeId, val: int, safe: bool)

  /** Where a thread stands: `at` is the pointer it looks at next, `seen` the nodes it passed. */
  datatype Pc =
    | Idle
    | Walking(op: Op, at: Slot, seen: seq<nat>)
    | Appending(op: Op, node: nat, at: Slot, seen: seq<nat>)
    | ReadingBack(op: Op, node: nat, at: Slot, seen: seq<nat>)

  datatype Event =
    | Found(thread: Thread, ty: TypeId, node: nat)
    | Missing(thread: Thread, ty: TypeId)
    | Inserted(thread: Thread, ty: TypeId, node: nat)
    | ReadBack(thread: Thread, ty: TypeId, own: nat, last: nat, unwrapped: bool)

  /** `appended` is a history: the nodes whose append has completed, in order of completion. */
  datatype World = World(heap: Heap<UserData>, pcs: map<Thread, Pc>, log: seq<Event>, appended: seq<nat>)

  datatype Step = Call(thread: Thread, op: Op) | Advance(thread: Thread, spurious: bool)

  const NEW_WORLD: World := World(Heap(None, []), map[], [], [])

  function PcOf(w: World, t: Thread): Pc { if t in w.pcs then w.pcs[t] else Idle }

  function GoTo(w: World, t: Thread, pc: Pc): World { w.(pcs := w.pcs[t := pc]) }

  function Log(w: World, e: Event): World { w.(log := w.log + [e]) }

  function NewData(op: Op, t: Thread): UserData
    requires !op.Get?
  {
    SetOnce(None, if op.safe then ThreadSafe(op.ty, op.val) else NonThreadSafe(op.ty, op.val, t))
  }

  function Ahead(pc: Pc, n: nat): Pc {
    match pc
    case Idle => Idle
    case Walking(op, _, seen) => Walking(op, NextOf(n), seen + [n])
    case Appending(op, node, _, seen) => Appending(op, node, NextOf(n), seen + [n])
    case ReadingBack(op, node, _, seen) => ReadingBack(op, node, NextOf(n), seen + [n])
  }

  /** `get` returned None: give up, or box the new value and head for the tail. */
  function AfterMissing(w: World, t: Thread, op: Op): World {
    var w' := Log(w, Missing(t, op.ty));
    if op.Get? then GoTo(w', t, Idle)
    else GoTo(w'.(heap := Alloc(w.heap, NewData(op, t))), t, Appending(op, |w.heap.nodes|, Root, []))
  }

  function WalkStep(w: World, t: Thread, pc: Pc): World
    requires pc.Walking? && ValidSlot(w.heap, pc.at)
  {
    match Load(w.heap, pc.at)
    case None => AfterMissing(w, t, pc.op)
    case Some(n) =>
      if n < |w.heap.nodes| && Visible(w.heap.nodes[n].value, pc.op.ty, t)
      then GoTo(Log(w, Found(t, pc.op.ty, n)), t, Idle)
      else GoTo(w, t, Ahead(pc, n))
  }

  function AppendStep(w: World, t: Thread, pc: Pc, spurious: bool): World
    requires pc.Appending? && ValidSlot(w.heap, pc.at)
  {
    match Load(w.heap, pc.at)
    case Some(n) => GoTo(w, t, Ahead(pc, n))
    case None =>
      if spurious then w
      else
        var w' := Log(w.(heap := Store(w.heap, pc.at, pc.node), appended := w.appended + [pc.node]),
                      Inserted(t, pc.op.ty, pc.node));
        GoTo(w', t, if pc.op.GetOrInsert? then ReadingBack(pc.op, pc.node, Root, []) else Idle)
  }

  /** `iter().last()` and the `unwrap` after it. */
  function ReadBackStep(w: World, t: Thread, pc: Pc): World
    requires pc.ReadingBack? && ValidSlot(w.heap, pc.at)
  {
    match Load(w.heap, pc.at)
    case Some(n) => GoTo(w, t, Ahead(pc, n))
    case None =>
      var last := if pc.seen == [] then pc.node else pc.seen[|pc.seen| - 1];
      var unwrapped := pc.seen != [] && last < |w.heap.nodes| && Visible(w.heap.nodes[last].value, pc.op.ty, t);
      GoTo(Log(w, ReadBack(t, pc.op.ty, pc.node, last, unwrapped)), t, Idle)
  }

  /** One atomic step; a call by a busy thread, or a step of an idle one, does nothing. */
  function Apply(w: World, step: Step): World {
    var t := step.thread;
    var pc := PcOf(w, t);
    if step.Call? then
      if pc.Idle? then GoTo(w, t, Walking(step.op, Root, [])) else w
    else if pc.Idle? || !ValidSlot(w.heap, pc.at) then w
    else
      match pc
      case Walking(_, _, _) => WalkStep(w, t, pc)
      case Appending(_, _, _, _) => AppendStep(w, t, pc, step.spurious)
      case ReadingBack(_, _, _, _) => ReadBackStep(w, t, pc)
  }

  function Run(w: World, steps: seq<Step>): World {
    if steps == [] then w else Apply(Run(w, steps[..|steps| - 1]), steps[|steps| - 1])
  }

  // ---- the invariant --------------------------------------------------------------------------

  predicate VisibleAt(h: Heap<UserData>, n: nat, ty: TypeId, t: Thread) {
    n < |h.nodes| && Visible(h.nodes[n].value, ty, t)
  }

  ghost predicate NoneVisible(h: Heap<UserData>, nodes: seq<nat>, ty: TypeId, t: Thread) {
    forall k :: 0 <= k < |nodes| ==> !VisibleAt(h, nodes[k], ty, t)
  }

  /** `n` is the first node of the list that `t` may see as a `ty`. */
  ghost predicate IsFirst(h: Heap<UserData>, list: seq<nat>, ty: TypeId, t: Thread, n: nat) {
    VisibleAt(h, n, ty, t) && exists k :: 0 <= k < |list| && list[k] == n && NoneVisible(h, list[..k], ty, t)
  }

  ghost predicate PcOk(h: Heap<UserData>, list: seq<nat>, t: Thread, pc: Pc) {
    match pc
    case Idle => true
    case Walking(op, at, seen) => seen <= list && at == SlotAfter(seen) && NoneVisible(h, seen, op.ty, t)
    case Appending(op, node, at, seen) =>
      seen <= list && at == SlotAfter(seen) && node !in list && VisibleAt(h, node, op.ty, t)
    case ReadingBack(op, node, at, seen) =>
      seen <= list && at == SlotAfter(seen) && node in list && VisibleAt(h, node, op.ty, t)
  }

  ghost predicate EventOk(h: Heap<UserData>, list: seq<nat>, e: Event) {
    match e
    case Found(t, ty, n) => n in list && IsFirst(h, list, ty, t, n)
    case Missing(_, _) => true
    case Inserted(t, ty, n) => n in list && VisibleAt(h, n, ty, t)
    case ReadBack(t, ty, own, last, unwrapped) =>
      own in list && last in list && VisibleAt(h, own, ty, t) && (unwrapped <==> VisibleAt(h, last, ty, t))
  }

  /** A `get` that came back empty passed no entry it may see that an earlier event already named. */
  ghost predicate MissOk(h: Heap<UserData>, log: seq<Event>, e: Event) {
    e.Missing? ==>
      forall k :: 0 <= k < |log| && (log[k].Found? || log[k].Inserted?) ==> !VisibleAt(h, log[k].node, e.ty, e.thread)
  }

  ghost predicate ThreadsOk(w: World) {
    && (forall t :: t in w.pcs ==> PcOk(w.heap, w.appended, t, w.pcs[t]))
    && (forall t, u :: t in w.pcs && u in w.pcs && t != u && w.pcs[t].Appending? && w.pcs[u].Appending? ==>
          w.pcs[t].node != w.pcs[u].node)
  }

  ghost predicate LogOk(w: World) {
    && (forall k :: 0 <= k < |w.log| ==> EventOk(w.heap, w.appended, w.log[k]))
    && (forall k :: 0 <= k < |w.log| ==> MissOk(w.heap, w.log[..k], w.log[k]))
  }

  ghost predicate Inv(w: World) {
    Chain(w.heap, w.appended) && ThreadsOk(w) && LogOk(w)
  }

  // ---- what one step keeps --------------------------------------------------------------------

  lemma VisibleKept(h: Heap<UserData>, h': Heap<UserData>, n: nat, ty: TypeId, t: Thread)
    requires Grows(h, h') && n < |h.nodes|
    ensures VisibleAt(h', n, ty, t) <==> VisibleAt(h, n, ty, t)
  {
  }

  lemma NoneVisibleKept(h: Heap<UserData>, h': Heap<UserData>, nodes: seq<nat>, ty: TypeId, t: Thread)
    requires Grows(h, h') && forall k :: 0 <= k < |nodes| ==> nodes[k] < |h.nodes|
    ensures NoneVisible(h', nodes, ty, t) <==> NoneVisible(h, nodes, ty, t)
  {
    forall k | 0 <= k < |nodes|
      ensures VisibleAt(h', nodes[k], ty, t) <==> VisibleAt(h, nodes[k], ty, t)
    {
      VisibleKept(h, h', nodes[k], ty, t);
    }
  }

  lemma EventKept(h: Heap<UserData>, list: seq<nat>, h': Heap<UserData>, list': seq<nat>, e: Event)
    requires Chain(h, list) && Grows(h, h') && list <= list' && EventOk(h, list, e)
    ensures EventOk(h', list', e)
  {
    match e
    case Found(t, ty, n) =>
      var k :| 0 <= k < |list| && list[k] == n && NoneVisible(h, list[..k], ty, t);
      assert list'[k] == n && list'[..k] == list[..k];
      NoneVisibleKept(h, h', list[..k], ty, t);
      VisibleKept(h, h', n, ty, t);
    case Missing(_, _) =>
    case Inserted(t, ty, n) => VisibleKept(h, h', n, ty, t);
    case ReadBack(t, ty, own, last, _) =>
      VisibleKept(h, h', own, ty, t);
      VisibleKept(h, h', last, ty, t);
  }

  lemma PcKept(h: Heap<UserData>, list: seq<nat>, h': Heap<UserData>, list': seq<nat>, t: Thread, pc: Pc)
    requires Chain(h, list) && Grows(h, h') && list <= list' && PcOk(h, list, t, pc)
    requires pc.Appending? ==> pc.node !in list'
    ensures PcOk(h', list', t, pc)
  {
    match pc
    case Idle =>
    case Walking(op, _, seen) =>
      forall k | 0 <= k < |seen| ensures seen[k] < |h.nodes| { assert seen[k] == list[k]; }
      NoneVisibleKept(h, h', seen, op.ty, t);
    case Appending(op, node, _, _) => VisibleKept(h, h', node, op.ty, t);
    case ReadingBack(op, node, _, _) => VisibleKept(h, h', node, op.ty, t);
  }

  lemma LogKept(w: World, w': World)
    requires Inv(w) && Grows(w.heap, w'.heap) && w.appended <= w'.appended && w'.log == w.log
    ensures LogOk(w')
  {
    forall k | 0 <= k < |w.log|
      ensures EventOk(w'.heap, w'.appended, w.log[k]) && MissOk(w'.heap, w.log[..k], w.log[k])
    {
      var e, log := w.log[k], w.log[..k];
      EventKept(w.heap, w.appended, w'.heap, w'.appended, e);
      assert MissOk(w.heap, log, e);
      if e.Missing? {
        forall j | 0 <= j < |log| && (log[j].Found? || log[j].Inserted?)
          ensures !VisibleAt(w'.heap, log[j].node, e.ty, e.thread)
        {
          assert EventOk(w.heap, w.appended, w.log[j]) && log[j] == w.log[j];
          VisibleKept(w.heap, w'.heap, log[j].node, e.ty, e.thread);
        }
      }
    }
  }

  lemma MoveKeeps(w: World, t: Thread, pc: Pc)
    requires Inv(w) && PcOk(w.heap, w.appended, t, pc)
    requires forall u :: u in w.pcs && u != t && w.pcs[u].Appending? && pc.Appending? ==> w.pcs[u].node != pc.node
    ensures Inv(GoTo(w, t, pc))
  {
    LogKept(w, GoTo(w, t, pc));
  }

  lemma RecordKeeps(w: World, e: Event)
    requires Inv(w) && EventOk(w.heap, w.appended, e) && MissOk(w.heap, w.log, e)
    ensures Inv(Log(w, e))
  {
    var w' := Log(w, e);
    forall k | 0 <= k < |w'.log|
      ensures EventOk(w.heap, w.appended, w'.log[k]) && MissOk(w.heap, w'.log[..k], w'.log[k])
    {
      if k < |w.log| {
        assert w'.log[..k] == w.log[..k];
      } else {
        assert w'.log[..k] == w.log;
      }
    }
  }

  lemma BoxKeeps(w: World, data: UserData)
    requires Inv(w)
    ensures Inv(w.(heap := Alloc(w.heap, data)))
  {
    var w' := w.(heap := Alloc(w.heap, data));
    AllocKeeps(w.heap, w.appended, data);
    LogKept(w, w');
    forall t | t in w.pcs ensures PcOk(w'.heap, w.appended, t, w.pcs[t]) {
      PcKept(w.heap, w.appended, w'.heap, w.appended, t, w.pcs[t]);
    }
  }

  /** A walker that meets null has seen the whole list. */
  lemma NullMeansAllSeen(h: Heap<UserData>, list: seq<nat>, seen: seq<nat>)
    requires Chain(h, list) && seen <= list
    ensures ValidSlot(h, SlotAfter(seen))
    ensures match Load(h, SlotAfter(seen))
            case None => seen == list
            case Some(n) => seen + [n] <= list && n < |h.nodes|
  {
    LoadAfterPrefix(h, list, seen);
  }

  lemma WalkKeeps(w: World, t: Thread)
    requires Inv(w) && t in w.pcs && w.pcs[t].Walking?
    ensures ValidSlot(w.heap, w.pcs[t].at) && Inv(WalkStep(w, t, w.pcs[t]))
  {
    var pc := w.pcs[t];
    var list, ty := w.appended, pc.op.ty;
    assert PcOk(w.heap, list, t, pc);
    NullMeansAllSeen(w.heap, list, pc.seen);
    match Load(w.heap, pc.at)
    case None => MissKeeps(w, t);
    case Some(n) =>
      if VisibleAt(w.heap, n, ty, t) {
        var k := |pc.seen|;
        assert list[k] == n && list[..k] == pc.seen;
        assert IsFirst(w.heap, list, ty, t, n);
        RecordKeeps(w, Found(t, ty, n));
        MoveKeeps(Log(w, Found(t, ty, n)), t, Idle);
      } else {
        MoveKeeps(w, t, Ahead(pc, n));
      }
  }

  lemma MissKeeps(w: World, t: Thread)
    requires Inv(w) && t in w.pcs && w.pcs[t].Walking? && w.pcs[t].seen == w.appended
    ensures Inv(AfterMissing(w, t, w.pcs[t].op))
  {
    var op := w.pcs[t].op;
    var e := Missing(t, op.ty);
    assert PcOk(w.heap, w.appended, t, w.pcs[t]);
    forall k | 0 <= k < |w.log| && (w.log[k].Found? || w.log[k].Inserted?)
      ensures !VisibleAt(w.heap, w.log[k].node, op.ty, t)
    {
      assert EventOk(w.heap, w.appended, w.log[k]);
      var j :| 0 <= j < |w.appended| && w.appended[j] == w.log[k].node;
    }
    RecordKeeps(w, e);
    if op.Get? {
      MoveKeeps(Log(w, e), t, Idle);
    } else {
      var n, boxed := |w.heap.nodes|, Log(w, e).(heap := Alloc(w.heap, NewData(op, t)));
      BoxKeeps(Log(w, e), NewData(op, t));
      forall u | u in w.pcs && w.pcs[u].Appending? ensures w.pcs[u].node != n {
        assert PcOk(w.heap, w.appended, u, w.pcs[u]);
      }
      MoveKeeps(boxed, t, Appending(op, n, Root, []));
    }
  }

  lemma PublishKeeps(w: World, t: Thread, pc: Pc)
    requires Inv(w) && t in w.pcs && w.pcs[t].Appending? && w.pcs[t].seen == w.appended
    requires pc == Idle || pc == ReadingBack(w.pcs[t].op, w.pcs[t].node, Root, [])
    ensures ValidSlot(w.heap, w.pcs[t].at)
    ensures var node := w.pcs[t].node;
            var w' := w.(heap := Store(w.heap, w.pcs[t].at, node), appended := w.appended + [node]);
            Inv(Log(GoTo(w', t, pc), Inserted(t, w.pcs[t].op.ty, node)))
  {
    var was := w.pcs[t];
    var node, list, list' := was.node, w.appended, w.appended + [was.node];
    assert PcOk(w.heap, list, t, was);
    PublishExtends(w.heap, list, node);
    var h' := Store(w.heap, was.at, node);
    assert Grows(w.heap, h');
    var w' := GoTo(w.(heap := h', appended := list'), t, pc);
    forall u | u in w'.pcs ensures PcOk(h', list', u, w'.pcs[u]) {
      if u != t {
        assert PcOk(w.heap, list, u, w.pcs[u]);
        PcKept(w.heap, list, h', list', u, w.pcs[u]);
      } else {
        VisibleKept(w.heap, h', node, was.op.ty, t);
      }
    }
    LogKept(w, w');
    VisibleKept(w.heap, h', node, was.op.ty, t);
    RecordKeeps(w', Inserted(t, was.op.ty, node));
  }

  lemma AppendKeeps(w: World, t: Thread, spurious: bool)
    requires Inv(w) && t in w.pcs && w.pcs[t].Appending?
    ensures ValidSlot(w.heap, w.pcs[t].at) && Inv(AppendStep(w, t, w.pcs[t], spurious))
  {
    var pc := w.pcs[t];
    assert PcOk(w.heap, w.appended, t, pc);
    NullMeansAllSeen(w.heap, w.appended, pc.seen);
    match Load(w.heap, pc.at)
    case Some(n) => MoveKeeps(w, t, Ahead(pc, n));
    case None =>
      if !spurious {
        PublishKeeps(w, t, if pc.op.GetOrInsert? then ReadingBack(pc.op, pc.node, Root, []) else Idle);
      }
  }

  lemma ReadBackKeeps(w: World, t: Thread)
    requires Inv(w) && t in w.pcs && w.pcs[t].ReadingBack?
    ensures ValidSlot(w.heap, w.pcs[t].at) && Inv(ReadBackStep(w, t, w.pcs[t]))
  {
    var pc := w.pcs[t];
    var list := w.appended;
    assert PcOk(w.heap, list, t, pc);
    NullMeansAllSeen(w.heap, list, pc.seen);
    match Load(w.heap, pc.at)
    case Some(n) => MoveKeeps(w, t, Ahead(pc, n));
    case None =>
      var last := pc.seen[|pc.seen| - 1];
      ReadBackEnds(w, t, pc, last);
  }

  lemma ReadBackEnds(w: World, t: Thread, pc: Pc, last: nat)
    requires Inv(w) && pc.ReadingBack? && PcOk(w.heap, w.appended, t, pc) && last in w.appended
    ensures Inv(GoTo(Log(w, ReadBack(t, pc.op.ty, pc.node, last, VisibleAt(w.heap, last, pc.op.ty, t))), t, Idle))
  {
    var e := ReadBack(t, pc.op.ty, pc.node, last, VisibleAt(w.heap, last, pc.op.ty, t));
    RecordKeeps(w, e);
    MoveKeeps(Log(w, e), t, Idle);
  }

  lemma StepKeeps(w: World, step: Step)
    requires Inv(w)
    ensures Inv(Apply(w, step))
  {
    var t := step.thread;
    var pc := PcOf(w, t);
    if step.Call? {
      if pc.Idle? { MoveKeeps(w, t, Walking(step.op, Root, [])); }
    } else if pc.Walking? {
      WalkKeeps(w, t);
    } else if pc.Appending? {
      AppendKeeps(w, t, step.spurious);
    } else if pc.ReadingBack? {
      ReadBackKeeps(w, t);
    }
  }

  /** Every interleaving of every program keeps the invariant. */
  lemma {:induction false} RunKeeps(steps: seq<Step>)
    ensures Inv(Run(NEW_WORLD, steps))
  {
    if steps != [] {
      RunKeeps(steps[..|steps| - 1]);
      StepKeeps(Run(NEW_WORLD, steps[..|steps| - 1]), steps[|steps| - 1]);
    }
  }

  // ---- the list over whole runs ---------------------------------------------------------------

  lemma StepGrows(w: World, step: Step)
    requires Inv(w)
    ensures var w' := Apply(w, step);
            Grows(w.heap, w'.heap) && w.appended <= w'.appended && w.log <= w'.log
  {
    var pc := PcOf(w, step.thread);
    if !pc.Idle? {
      assert PcOk(w.heap, w.appended, step.thread, pc);
      NullMeansAllSeen(w.heap, w.appended, pc.seen);
    }
  }

  lemma {:induction false} RunSplits(w: World, a: seq<Step>, b: seq<Step>)
    ensures Run(w, a + b) == Run(Run(w, a), b)
  {
    if b == [] {
      assert a + b == a;
    } else {
      var n := |b| - 1;
      assert (a + b)[..|a + b| - 1] == a + b[..n];
      RunSplits(w, a, b[..n]);
    }
  }

  /** Nothing is unlinked or overwritten: the list only grows at its tail, and the log with it. */
  lemma {:induction false} RunGrows(a: seq<Step>, b: seq<Step>)
    ensures var w, w' := Run(NEW_WORLD, a), Run(NEW_WORLD, a + b);
            Grows(w.heap, w'.heap) && w.appended <= w'.appended && w.log <= w'.log
  {
    RunSplits(NEW_WORLD, a, b);
    if b != [] {
      var n := |b| - 1;
      RunGrows(a, b[..n]);
      RunSplits(NEW_WORLD, a, b[..n]);
      RunKeeps(a + b[..n]);
      var mid := Run(NEW_WORLD, a + b[..n]);
      StepGrows(mid, b[n]);
      GrowsTrans(Run(NEW_WORLD, a).heap, mid.heap, Apply(mid, b[n]).heap);
    } else {
      assert a + b == a;
    }
  }

  function InsertedNodes(log: seq<Event>): seq<nat> {
    if log == [] then []
    else
      var e := log[|log| - 1];
      InsertedNodes(log[..|log| - 1]) + if e.Inserted? then [e.node] else []
  }

  lemma InsertedNodesSnoc(log: seq<Event>, e: Event)
    ensures InsertedNodes(log + [e]) == InsertedNodes(log) + if e.Inserted? then [e.node] else []
  {
    assert (log + [e])[..|log|] == log;
  }

  lemma {:induction false} InsertedAreAppended(steps: seq<Step>)
    ensures var w := Run(NEW_WORLD, steps); InsertedNodes(w.log) == w.appended
  {
    if steps != [] {
      var n := |steps| - 1;
      var w, step := Run(NEW_WORLD, steps[..n]), steps[n];
      InsertedAreAppended(steps[..n]);
      var t, pc := step.thread, PcOf(w, step.thread);
      if step.Advance? && !pc.Idle? && ValidSlot(w.heap, pc.at) {
        var w' := Apply(w, step);
        if |w'.log| > |w.log| {
          InsertedNodesSnoc(w.log, w'.log[|w.log|]);
        }
      }
    }
  }

  /**
   * In every interleaving the pointers form an acyclic chain that holds exactly the completed
   * appends, each once, in the order in which they completed.
   */
  lemma ListIsCompletedAppends(steps: seq<Step>)
    ensures var w := Run(NEW_WORLD, steps);
            && Walk(w.heap, Root, |w.heap.nodes|) == InsertedNodes(w.log)
            && Distinct(InsertedNodes(w.log))
  {
    var w := Run(NEW_WORLD, steps);
    RunKeeps(steps);
    InsertedAreAppended(steps);
    ChainAcyclic(w.heap, w.appended);
  }

  /** What a walker has passed so far is always a prefix of the list. */
  lemma WalkersSeePrefixes(steps: seq<Step>, t: Thread)
    ensures var w := Run(NEW_WORLD, steps);
            var pc := PcOf(w, t);
            !pc.Idle? ==> pc.seen <= Walk(w.heap, Root, |w.heap.nodes|)
  {
    var w := Run(NEW_WORLD, steps);
    RunKeeps(steps);
    ChainAcyclic(w.heap, w.appended);
    var pc := PcOf(w, t);
    if !pc.Idle? { assert PcOk(w.heap, w.appended, t, pc); }
  }

  // ---- what `get` promises --------------------------------------------------------------------

  lemma FirstUnique(h: Heap<UserData>, list: seq<nat>, ty: TypeId, t: Thread, n: nat, m: nat)
    requires IsFirst(h, list, ty, t, n) && IsFirst(h, list, ty, t, m)
    ensures n == m
  {
    var j :| 0 <= j < |list| && list[j] == n && NoneVisible(h, list[..j], ty, t);
    var k :| 0 <= k < |list| && list[k] == m && NoneVisible(h, list[..k], ty, t);
    forall x | 0 <= x < j ensures !VisibleAt(h, list[x], ty, t) { assert list[..j][x] == list[x]; }
    forall x | 0 <= x < k ensures !VisibleAt(h, list[x], ty, t) { assert list[..k][x] == list[x]; }
  }

  /** Once a thread has found a node, every later `get` of that type on it finds the same node. */
  lemma FoundForever(steps: seq<Step>, i: nat, j: nat)
    requires var log := Run(NEW_WORLD, steps).log;
             i < j < |log| && log[i].Found? && (log[j].Found? || log[j].Missing?)
             && log[j].thread == log[i].thread && log[j].ty == log[i].ty
    ensures var log := Run(NEW_WORLD, steps).log; log[j] == log[i]
  {
    var w := Run(NEW_WORLD, steps);
    RunKeeps(steps);
    var e, f := w.log[i], w.log[j];
    assert EventOk(w.heap, w.appended, e) && EventOk(w.heap, w.appended, f);
    assert MissOk(w.heap, w.log[..j], f) && w.log[..j][i] == e;
    if f.Found? {
      FirstUnique(w.heap, w.appended, e.ty, e.thread, e.node, f.node);
    }
  }

  /** Every entry of the type was stored with a thread-safe variant. */
  ghost predicate AllThreadSafe(w: World, ty: TypeId) {
    forall n :: n in w.appended && n < |w.heap.nodes| && w.heap.nodes[n].value.Some? ==>
      w.heap.nodes[n].value.value.ty == ty ==> w.heap.nodes[n].value.value.ThreadSafe?
  }

  /**
   * If all entries of a type are thread-safe, every thread that finds one finds the same one,
   * even when racing insertions both inserted; and after a first find no thread comes back empty.
   */
  lemma ThreadsAgree(steps: seq<Step>, i: nat, j: nat)
    requires var w := Run(NEW_WORLD, steps);
             && i < j < |w.log| && w.log[i].Found? && (w.log[j].Found? || w.log[j].Missing?)
             && w.log[j].ty == w.log[i].ty && AllThreadSafe(w, w.log[i].ty)
    ensures var log := Run(NEW_WORLD, steps).log; log[j] == Found(log[j].thread, log[i].ty, log[i].node)
  {
    var w := Run(NEW_WORLD, steps);
    RunKeeps(steps);
    var e, f := w.log[i], w.log[j];
    var ty, h, list := e.ty, w.heap, w.appended;
    assert EventOk(h, list, e) && EventOk(h, list, f);
    assert MissOk(h, w.log[..j], f) && w.log[..j][i] == e;
    forall n | n in list ensures VisibleAt(h, n, ty, e.thread) <==> VisibleAt(h, n, ty, f.thread) { }
    if f.Found? {
      var k :| 0 <= k < |list| && list[k] == e.node && NoneVisible(h, list[..k], ty, e.thread);
      assert NoneVisible(h, list[..k], ty, f.thread) by {
        forall x | 0 <= x < k ensures !VisibleAt(h, list[..k][x], ty, f.thread) {
          assert list[..k][x] == list[x] && list[x] in list;
        }
      }
      FirstUnique(h, list, ty, f.thread, e.node, f.node);
    }
  }

  // ---- reading back the last node ---------------------------------------------------------------

  lemma ReadBackAt(w: World, t: Thread)
    requires Inv(w) && t in w.pcs && w.pcs[t].ReadingBack? && w.pcs[t].seen == w.appended
    ensures w.appended != []
    ensures var pc, last := w.pcs[t], w.appended[|w.appended| - 1];
            && Apply(w, Advance(t, false)).log
            == w.log + [ReadBack(t, pc.op.ty, pc.node, last, VisibleAt(w.heap, last, pc.op.ty, t))]
            && VisibleAt(w.heap, pc.node, pc.op.ty, t)
  {
    assert PcOk(w.heap, w.appended, t, w.pcs[t]);
    LoadAfterPrefix(w.heap, w.appended, w.pcs[t].seen);
  }

  lemma RunOne(w: World, step: Step)
    ensures Run(w, [step]) == Apply(w, step)
  {
    assert [step][..0] == [];
  }

  /**
   * `get_or_insert` returns the last node of the list: its own exactly while nothing was appended
   * behind it, and the unwrap panics exactly when the thread may not see what was.
   */
  lemma ReadBackReturnsLast(steps: seq<Step>, t: Thread)
    requires var w := Run(NEW_WORLD, steps);
             PcOf(w, t).ReadingBack? && PcOf(w, t).seen == w.appended
    ensures var w, w' := Run(NEW_WORLD, steps), Run(NEW_WORLD, steps + [Advance(t, false)]);
            var pc := PcOf(w, t);
            && w.appended != []
            && var last := w.appended[|w.appended| - 1];
            && w'.log == w.log + [ReadBack(t, pc.op.ty, pc.node, last, VisibleAt(w.heap, last, pc.op.ty, t))]
            && (last == pc.node ==> VisibleAt(w.heap, last, pc.op.ty, t))
  {
    RunKeeps(steps);
    ReadBackAt(Run(NEW_WORLD, steps), t);
    RunSplits(NEW_WORLD, steps, [Advance(t, false)]);
    RunOne(Run(NEW_WORLD, steps), Advance(t, false));
  }

  // ---- every `get_or_insert` that read back ------------------------------------------------------

  ghost predicate NoInsertBetween(log: seq<Event>, i: nat, j: nat)
    requires j <= |log|
  {
    forall k :: i < k < j ==> !log[k].Inserted?
  }

  /** The nodes inserted before `j` extend those up to an insertion `i`, by none just if none came between. */
  lemma {:induction false} InsertedSince(log: seq<Event>, i: nat, j: nat)
    requires i < j <= |log| && log[i].Inserted?
    ensures var a, b := InsertedNodes(log[..i + 1]), InsertedNodes(log[..j]);
            a <= b && a != [] && a[|a| - 1] == log[i].node && (|a| == |b| <==> NoInsertBetween(log, i, j))
  {
    var e := log[j - 1];
    assert log[..j] == log[..j - 1] + [e];
    InsertedNodesSnoc(log[..j - 1], e);
    if i < j - 1 {
      InsertedSince(log, i, j - 1);
    }
  }

  lemma {:induction false} InsertedBefore(log: seq<Event>, j: nat)
    requires j <= |log|
    ensures InsertedNodes(log[..j]) <= InsertedNodes(log)
    decreases |log|
  {
    if j < |log| {
      var n := |log| - 1;
      InsertedBefore(log[..n], j);
      assert log[..n][..j] == log[..j];
    } else {
      assert log[..j] == log;
    }
  }

  lemma LastOfDistinct(a: seq<nat>, b: seq<nat>)
    requires a <= b && a != [] && Distinct(b)
    ensures b[|b| - 1] == a[|a| - 1] <==> |a| == |b|
  {
    assert a[|a| - 1] == b[|a| - 1];
  }

  lemma LastIsOwnIff(log: seq<Event>, i: nat, j: nat)
    requires i < j <= |log| && log[i].Inserted? && Distinct(InsertedNodes(log))
    ensures var inserted := InsertedNodes(log[..j]);
            inserted != [] && (inserted[|inserted| - 1] == log[i].node <==> NoInsertBetween(log, i, j))
  {
    InsertedSince(log, i, j);
    InsertedBefore(log, j);
    LastOfDistinct(InsertedNodes(log[..i + 1]), InsertedNodes(log[..j]));
  }

  /** What the log says of a finished call: it read the last node, having inserted its own. */
  ghost predicate ReadLast(log: seq<Event>, e: Event) {
    e.ReadBack? ==>
      && InsertedNodes(log) != [] && e.last == InsertedNodes(log)[|InsertedNodes(log)| - 1]
      && Inserted(e.thread, e.ty, e.own) in log
  }

  lemma {:induction false} ReadingBackInserted(steps: seq<Step>, t: Thread)
    ensures var w := Run(NEW_WORLD, steps);
            var pc := PcOf(w, t);
            pc.ReadingBack? ==> Inserted(t, pc.op.ty, pc.node) in w.log
  {
    if steps != [] {
      var n := |steps| - 1;
      var w := Run(NEW_WORLD, steps[..n]);
      ReadingBackInserted(steps[..n], t);
      RunKeeps(steps[..n]);
      StepGrows(w, steps[n]);
      StepInserts(w, steps[n], t);
    }
  }

  /** A thread turns to reading back in the step that logs its insertion. */
  lemma StepInserts(w: World, step: Step, t: Thread)
    requires w.log <= Apply(w, step).log
    ensures var pc, pc' := PcOf(w, t), PcOf(Apply(w, step), t);
            pc'.ReadingBack? ==>
              || Inserted(t, pc'.op.ty, pc'.node) in Apply(w, step).log
              || (pc.ReadingBack? && pc'.op == pc.op && pc'.node == pc.node)
  {
    var pc := PcOf(w, t);
    if step.Advance? && step.thread == t && pc.Appending? && ValidSlot(w.heap, pc.at) {
      var w' := AppendStep(w, t, pc, step.spurious);
      assert Load(w.heap, pc.at) == None && !step.spurious ==>
        w'.log[|w.log|] == Inserted(t, pc.op.ty, pc.node);
    }
  }

  ghost predicate AllReadLast(log: seq<Event>) {
    forall j :: 0 <= j < |log| ==> ReadLast(log[..j], log[j])
  }

  lemma ReadLastPush(log: seq<Event>, e: Event)
    requires AllReadLast(log) && ReadLast(log, e)
    ensures AllReadLast(log + [e])
  {
    forall j | 0 <= j < |log + [e]| ensures ReadLast((log + [e])[..j], (log + [e])[j]) {
      assert (log + [e])[..j] == log[..j];
    }
  }

  ghost predicate LogsReadLast(w: World, w': World) {
    w'.log == w.log || exists e :: w'.log == w.log + [e] && ReadLast(w.log, e)
  }

  lemma ReadBackStepLast(w: World, t: Thread)
    requires Inv(w) && InsertedNodes(w.log) == w.appended
    requires t in w.pcs && w.pcs[t].ReadingBack? && Inserted(t, w.pcs[t].op.ty, w.pcs[t].node) in w.log
    ensures ValidSlot(w.heap, w.pcs[t].at) && LogsReadLast(w, ReadBackStep(w, t, w.pcs[t]))
  {
    var pc := w.pcs[t];
    assert PcOk(w.heap, w.appended, t, pc);
    NullMeansAllSeen(w.heap, w.appended, pc.seen);
    if Load(w.heap, pc.at) == None {
      var last := pc.seen[|pc.seen| - 1];
      var e := ReadBack(t, pc.op.ty, pc.node, last, VisibleAt(w.heap, last, pc.op.ty, t));
      assert ReadBackStep(w, t, pc).log == w.log + [e] && ReadLast(w.log, e);
    }
  }

  lemma OtherStepLast(w: World, step: Step)
    requires !PcOf(w, step.thread).ReadingBack?
    ensures LogsReadLast(w, Apply(w, step))
  {
    var log, t, pc := Apply(w, step).log, step.thread, PcOf(w, step.thread);
    if log != w.log {
      var e := log[|w.log|];
      assert log == w.log + [e] && ReadLast(w.log, e);
    }
  }

  lemma StepReadsLast(w: World, step: Step)
    requires Inv(w) && InsertedNodes(w.log) == w.appended
    requires var pc := PcOf(w, step.thread); pc.ReadingBack? ==> Inserted(step.thread, pc.op.ty, pc.node) in w.log
    ensures LogsReadLast(w, Apply(w, step))
  {
    if !PcOf(w, step.thread).ReadingBack? {
      OtherStepLast(w, step);
    } else if step.Advance? {
      ReadBackStepLast(w, step.thread);
    }
  }

  lemma {:induction false} LoggedReadsLast(steps: seq<Step>)
    ensures AllReadLast(Run(NEW_WORLD, steps).log)
  {
    if steps != [] {
      var before, step := steps[..|steps| - 1], steps[|steps| - 1];
      var w := Run(NEW_WORLD, before);
      LoggedReadsLast(before);
      RunKeeps(before);
      InsertedAreAppended(before);
      ReadingBackInserted(before, step.thread);
      StepReadsLast(w, step);
      LogsKeepReadLast(w, Apply(w, step));
    }
  }

  lemma LogsKeepReadLast(w: World, w': World)
    requires AllReadLast(w.log) && LogsReadLast(w, w')
    ensures AllReadLast(w'.log)
  {
    if w'.log != w.log {
      var e :| w'.log == w.log + [e] && ReadLast(w.log, e);
      ReadLastPush(w.log, e);
    }
  }

  lemma LoggedOk(steps: seq<Step>, j: nat)
    requires j < |Run(NEW_WORLD, steps).log|
    ensures var w := Run(NEW_WORLD, steps); EventOk(w.heap, w.appended, w.log[j])
  {
    RunKeeps(steps);
  }

  lemma ReadLastOf(log: seq<Event>, j: nat) returns (i: nat)
    requires j < |log| && log[j].ReadBack? && ReadLast(log[..j], log[j]) && Distinct(InsertedNodes(log))
    ensures var e, inserted := log[j], InsertedNodes(log[..j]);
            && i < j && log[i] == Inserted(e.thread, e.ty, e.own)
            && inserted != [] && e.last == inserted[|inserted| - 1]
            && (e.last == e.own <==> NoInsertBetween(log, i, j))
  {
    i :| 0 <= i < j && log[..j][i] == Inserted(log[j].thread, log[j].ty, log[j].own);
    LastIsOwnIff(log, i, j);
  }

  /**
   * Over every run, a `get_or_insert` that inserted returned the last node inserted by then: its own
   * exactly if no insertion of any thread came between, and its unwrap succeeded exactly if that node
   * holds the type and is thread-safe or the thread's own.
   */
  lemma GetOrInsertReturns(steps: seq<Step>, j: nat) returns (i: nat)
    requires j < |Run(NEW_WORLD, steps).log| && Run(NEW_WORLD, steps).log[j].ReadBack?
    ensures var w := Run(NEW_WORLD, steps);
            var e, inserted := w.log[j], InsertedNodes(w.log[..j]);
            && i < j && w.log[i] == Inserted(e.thread, e.ty, e.own)
            && inserted != [] && e.last == inserted[|inserted| - 1]
            && (e.last == e.own <==> NoInsertBetween(w.log, i, j))
            && (e.unwrapped <==> VisibleAt(w.heap, e.last, e.ty, e.thread))
  {
    LoggedOk(steps, j);
    LoggedReadsLast(steps);
    ListIsCompletedAppends(steps);
    i := ReadLastOf(Run(NEW_WORLD, steps).log, j);
  }

  // ---- what each call does ------------------------------------------------------------------------

  predicate HoldsAt(h: Heap<UserData>, n: nat, ty: TypeId, t: Thread) {
    n < |h.nodes| && Holds(h.nodes[n].value, ty, t)
  }

  /**
   * Over every run, a node that `get` found holds the type, thread-safe or stored by this thread, and
   * no node before it in the list does.
   */
  lemma FoundHolds(steps: seq<Step>, j: nat) returns (k: nat)
    requires j < |Run(NEW_WORLD, steps).log| && Run(NEW_WORLD, steps).log[j].Found?
    ensures var w := Run(NEW_WORLD, steps);
            var e, list := w.log[j], InsertedNodes(w.log);
            && k < |list| && list[k] == e.node && HoldsAt(w.heap, e.node, e.ty, e.thread)
            && forall i :: 0 <= i < k ==> !HoldsAt(w.heap, list[i], e.ty, e.thread)
  {
    var w := Run(NEW_WORLD, steps);
    var e := w.log[j];
    LoggedOk(steps, j);
    InsertedAreAppended(steps);
    k :| 0 <= k < |w.appended| && w.appended[k] == e.node && NoneVisible(w.heap, w.appended[..k], e.ty, e.thread);
    forall i | 0 <= i < k ensures !HoldsAt(w.heap, w.appended[i], e.ty, e.thread) {
      assert w.appended[..k][i] == w.appended[i];
    }
  }

  lemma MissingOk(steps: seq<Step>, j: nat)
    requires j < |Run(NEW_WORLD, steps).log|
    ensures var w := Run(NEW_WORLD, steps); MissOk(w.heap, w.log[..j], w.log[j])
  {
    RunKeeps(steps);
  }

  lemma {:induction false} InsertedLogged(log: seq<Event>, n: nat) returns (i: nat)
    requires n in InsertedNodes(log)
    ensures i < |log| && log[i].Inserted? && log[i].node == n
  {
    i := |log| - 1;
    if !(log[i].Inserted? && log[i].node == n) {
      i := InsertedLogged(log[..i], n);
    }
  }

  /** Over every run, when `get` found nothing no node inserted by then held the type for this thread. */
  lemma MissingNoneHolds(steps: seq<Step>, j: nat)
    requires j < |Run(NEW_WORLD, steps).log| && Run(NEW_WORLD, steps).log[j].Missing?
    ensures var w := Run(NEW_WORLD, steps);
            forall n :: n in InsertedNodes(w.log[..j]) ==> !HoldsAt(w.heap, n, w.log[j].ty, w.log[j].thread)
  {
    var w := Run(NEW_WORLD, steps);
    var e, log := w.log[j], w.log[..j];
    MissingOk(steps, j);
    forall n | n in InsertedNodes(log) ensures !HoldsAt(w.heap, n, e.ty, e.thread) {
      var i := InsertedLogged(log, n);
      assert !VisibleAt(w.heap, log[i].node, e.ty, e.thread);
    }
  }

  /** Call `i` of the thread was accepted, and none since. */
  ghost predicate InCall(steps: seq<Step>, i: nat, n: nat, t: Thread, op: Op) {
    && i < n <= |steps| && Starts(steps, i, t) && steps[i].op == op
    && forall k :: i < k < n ==> !Starts(steps, k, t)
  }

  predicate Starts(steps: seq<Step>, k: nat, t: Thread)
    requires k < |steps|
  {
    steps[k].Call? && steps[k].thread == t && PcOf(Run(NEW_WORLD, steps[..k]), t).Idle?
  }

  /** The cell that an insertion stores. */
  function Stored(op: Op, t: Thread): UserData
    requires !op.Get?
  {
    Some(if op.safe then ThreadSafe(op.ty, op.val) else NonThreadSafe(op.ty, op.val, t))
  }

  predicate BoxedOk(w: World, t: Thread) {
    var pc := PcOf(w, t);
    && (pc.Appending? ==> !pc.op.Get? && pc.node < |w.heap.nodes| && w.heap.nodes[pc.node].value == Stored(pc.op, t))
    && (pc.ReadingBack? ==> pc.op.GetOrInsert?)
  }

  lemma OwnStepBoxed(w: World, step: Step)
    requires BoxedOk(w, step.thread) && Grows(w.heap, Apply(w, step).heap)
    ensures BoxedOk(Apply(w, step), step.thread)
  {
  }

  lemma OtherStepPc(w: World, step: Step, t: Thread)
    requires step.thread != t
    ensures PcOf(Apply(w, step), t) == PcOf(w, t)
  {
  }

  lemma {:induction false} RunBoxed(steps: seq<Step>, t: Thread)
    ensures BoxedOk(Run(NEW_WORLD, steps), t)
  {
    if steps != [] {
      var before, step := steps[..|steps| - 1], steps[|steps| - 1];
      var w := Run(NEW_WORLD, before);
      RunBoxed(before, t);
      RunKeeps(before);
      StepGrows(w, step);
      if step.thread == t {
        OwnStepBoxed(w, step);
      } else {
        OtherStepPc(w, step, t);
      }
    }
  }

  lemma StepOp(w: World, step: Step)
    requires step.Advance? || !PcOf(w, step.thread).Idle?
    ensures var pc, pc' := PcOf(w, step.thread), PcOf(Apply(w, step), step.thread);
            pc'.Idle? || (!pc.Idle? && pc'.op == pc.op)
  {
  }

  lemma {:induction false} BusySince(steps: seq<Step>, t: Thread) returns (i: nat)
    requires !PcOf(Run(NEW_WORLD, steps), t).Idle?
    ensures InCall(steps, i, |steps|, t, PcOf(Run(NEW_WORLD, steps), t).op)
    decreases |steps|
  {
    var n := |steps| - 1;
    var w, step := Run(NEW_WORLD, steps[..n]), steps[n];
    if Starts(steps, n, t) {
      i := n;
    } else {
      if step.thread == t {
        StepOp(w, step);
      } else {
        OtherStepPc(w, step, t);
      }
      i := BusySince(steps[..n], t);
      BusyLonger(steps, i, t, PcOf(w, t).op);
    }
  }

  lemma BusyLonger(steps: seq<Step>, i: nat, t: Thread, op: Op)
    requires steps != [] && InCall(steps[..|steps| - 1], i, |steps| - 1, t, op) && !Starts(steps, |steps| - 1, t)
    ensures InCall(steps, i, |steps|, t, op)
  {
    var before := steps[..|steps| - 1];
    forall k | 0 <= k < |before| ensures Starts(steps, k, t) <==> Starts(before, k, t) {
      assert steps[..k] == before[..k];
    }
  }

  /** What an event says of the call that logs it. */
  predicate EventOfOp(h: Heap<UserData>, e: Event, op: Op) {
    && e.ty == op.ty
    && (e.Inserted? ==> !op.Get? && e.node < |h.nodes| && h.nodes[e.node].value == Stored(op, e.thread))
    && (e.ReadBack? ==> op.GetOrInsert?)
  }

  lemma StepLogs(w: World, step: Step)
    requires BoxedOk(w, step.thread) && Grows(w.heap, Apply(w, step).heap)
    ensures var w', pc := Apply(w, step), PcOf(w, step.thread);
            w'.log == w.log
            || (!pc.Idle?
                && exists e :: w'.log == w.log + [e] && e.thread == step.thread && EventOfOp(w'.heap, e, pc.op))
  {
    var w' := Apply(w, step);
    if w'.log != w.log {
      var e := w'.log[|w.log|];
      assert w'.log == w.log + [e] && e.thread == step.thread;
    }
  }

  lemma EventOfOpKept(h: Heap<UserData>, h': Heap<UserData>, e: Event, op: Op)
    requires Grows(h, h') && EventOfOp(h, e, op)
    ensures EventOfOp(h', e, op)
  {
  }

  /** Step `n` logs event `j`, in call `i` of the thread. */
  ghost predicate LoggedBy(steps: seq<Step>, i: nat, n: nat, j: nat) {
    && i < n < |steps| && j < |Run(NEW_WORLD, steps).log|
    && |Run(NEW_WORLD, steps[..n]).log| == j && |Run(NEW_WORLD, steps[..n + 1]).log| == j + 1
    && var w := Run(NEW_WORLD, steps);
       && steps[i].Call? && InCall(steps, i, n, w.log[j].thread, steps[i].op)
       && EventOfOp(w.heap, w.log[j], steps[i].op)
  }

  lemma StaysLoggedBy(steps: seq<Step>, i: nat, n: nat, j: nat)
    requires steps != [] && LoggedBy(steps[..|steps| - 1], i, n, j)
    ensures LoggedBy(steps, i, n, j)
  {
    var before := steps[..|steps| - 1];
    var w, w' := Run(NEW_WORLD, before), Run(NEW_WORLD, steps);
    RunKeeps(before);
    StepGrows(w, steps[|steps| - 1]);
    CallBefore(steps, i, n, w.log[j].thread, steps[i].op);
    EventOfOpKept(w.heap, w'.heap, w.log[j], steps[i].op);
    assert before[..n] == steps[..n] && before[..n + 1] == steps[..n + 1];
  }

  lemma NewestLoggedBy(steps: seq<Step>) returns (i: nat)
    requires steps != [] && |Run(NEW_WORLD, steps[..|steps| - 1]).log| < |Run(NEW_WORLD, steps).log|
    ensures |Run(NEW_WORLD, steps).log| == |Run(NEW_WORLD, steps[..|steps| - 1]).log| + 1
    ensures LoggedBy(steps, i, |steps| - 1, |Run(NEW_WORLD, steps).log| - 1)
  {
    var n := |steps| - 1;
    var before, step := steps[..n], steps[n];
    var w := Run(NEW_WORLD, before);
    RunKeeps(before);
    StepGrows(w, step);
    RunBoxed(before, step.thread);
    StepLogs(w, step);
    i := BusySince(before, step.thread);
    CallBefore(steps, i, n, step.thread, steps[i].op);
    assert steps[..n + 1] == steps;
  }

  /**
   * Over every run, each event belongs to the call its thread was in: it names the type of the call,
   * and an insertion stored the value of the call, thread-safe or owned by the thread as the call asked.
   */
  lemma {:induction false} EventOfCall(steps: seq<Step>, j: nat) returns (i: nat, n: nat)
    requires j < |Run(NEW_WORLD, steps).log|
    ensures LoggedBy(steps, i, n, j)
    decreases |steps|
  {
    if j < |Run(NEW_WORLD, steps[..|steps| - 1]).log| {
      i, n := EventOfCall(steps[..|steps| - 1], j);
      StaysLoggedBy(steps, i, n, j);
    } else {
      i := NewestLoggedBy(steps);
      n := |steps| - 1;
    }
  }

  /** How a call ends: with the node found, or empty, or having inserted, or having read back. */
  predicate Ends(e: Event, op: Op) {
    match op
    case Get(_) => e.Found? || e.Missing?
    case InsertIfMissing(_, _, _) => e.Found? || e.Inserted?
    case GetOrInsert(_, _, _) => e.Found? || e.ReadBack?
  }

  lemma StepEnds(w: World, step: Step)
    requires BoxedOk(w, step.thread) && !PcOf(w, step.thread).Idle? && PcOf(Apply(w, step), step.thread).Idle?
    ensures var log := Apply(w, step).log;
            && |log| == |w.log| + 1 && log[|w.log|].thread == step.thread
            && Ends(log[|w.log|], PcOf(w, step.thread).op)
  {
  }

  /** Over every run a call that ends ends so: an insertion that found nothing has inserted. */
  lemma CallEnds(steps: seq<Step>, t: Thread) returns (i: nat)
    requires steps != [] && !PcOf(Run(NEW_WORLD, steps[..|steps| - 1]), t).Idle? && PcOf(Run(NEW_WORLD, steps), t).Idle?
    ensures i < |steps| - 1 && steps[i].Call? && InCall(steps, i, |steps| - 1, t, steps[i].op)
    ensures var before, log := Run(NEW_WORLD, steps[..|steps| - 1]).log, Run(NEW_WORLD, steps).log;
            |log| == |before| + 1 && log[|before|].thread == t && Ends(log[|before|], steps[i].op)
  {
    var before, step := steps[..|steps| - 1], steps[|steps| - 1];
    if step.thread != t {
      OtherStepPc(Run(NEW_WORLD, before), step, t);
    }
    RunBoxed(before, t);
    StepEnds(Run(NEW_WORLD, before), step);
    i := BusySince(before, t);
    CallBefore(steps, i, |before|, t, steps[i].op);
  }

  lemma CallBefore(steps: seq<Step>, i: nat, n: nat, t: Thread, op: Op)
    requires steps != [] && n < |steps| && InCall(steps[..|steps| - 1], i, n, t, op)
    ensures InCall(steps, i, n, t, op)
  {
    var before := steps[..|steps| - 1];
    forall k | 0 <= k < |before| ensures Starts(steps, k, t) <==> Starts(before, k, t) {
      assert steps[..k] == before[..k];
    }
  }

  // A run in which the unwrap panics: thread 1 appends between thread 0's append and its read.

  const OURS := GetOrInsert(7, 1, false)
  const THEIRS := InsertIfMissing(8, 2, false)
  const FIRST_CELL := Some(NonThreadSafe(7, 1, 0))
  const SECOND_CELL := Some(NonThreadSafe(8, 2, 1))

  function Go(w: World, t: Thread): World { Apply(w, Advance(t, false)) }

  function OurAppendDone(): World {
    World(Heap(Some(0), [Node(FIRST_CELL, None)]), map[0 := ReadingBack(OURS, 0, Root, [])],
          [Missing(0, 7), Inserted(0, 7, 0)], [0])
  }

  function TheirAppendDone(): World {
    World(Heap(Some(0), [Node(FIRST_CELL, Some(1)), Node(SECOND_CELL, None)]),
          map[0 := ReadingBack(OURS, 0, Root, []), 1 := Idle],
          [Missing(0, 7), Inserted(0, 7, 0), Missing(1, 8), Inserted(1, 8, 1)], [0, 1])
  }

  lemma OurAppend()
    ensures Go(Go(Apply(NEW_WORLD, Call(0, OURS)), 0), 0) == OurAppendDone()
  {
    var w := Go(Apply(NEW_WORLD, Call(0, OURS)), 0);
    assert w == World(Heap(None, [Node(FIRST_CELL, None)]), map[0 := Appending(OURS, 0, Root, [])],
                      [Missing(0, 7)], []);
  }

  lemma TheirAppend()
    ensures Go(Go(Go(Go(Apply(OurAppendDone(), Call(1, THEIRS)), 1), 1), 1), 1) == TheirAppendDone()
  {
    var w, back := OurAppendDone(), ReadingBack(OURS, 0, Root, []);
    var log, log' := w.log, w.log + [Missing(1, 8)];
    var w1 := Apply(w, Call(1, THEIRS));
    assert w1.pcs[1] == Walking(THEIRS, Root, []) && Load(w1.heap, Root) == Some(0);
    assert !Visible(FIRST_CELL, 8, 1);
    var w2 := Go(w1, 1);
    assert Ahead(w1.pcs[1], 0) == Walking(THEIRS, NextOf(0), [0]);
    assert w2 == GoTo(w1, 1, Ahead(w1.pcs[1], 0));
    assert w2 == World(w.heap, map[0 := back, 1 := Walking(THEIRS, NextOf(0), [0])], log, [0]);
    var w3 := Go(w2, 1);
    var boxed := Heap(Some(0), [Node(FIRST_CELL, None), Node(SECOND_CELL, None)]);
    assert w3 == World(boxed, map[0 := back, 1 := Appending(THEIRS, 1, Root, [])], log', [0]);
    var w4 := Go(w3, 1);
    assert w4 == World(boxed, map[0 := back, 1 := Appending(THEIRS, 1, NextOf(0), [0])], log', [0]);
  }

  lemma OurReadBack()
    ensures Go(Go(Go(TheirAppendDone(), 0), 0), 0).log == TheirAppendDone().log + [ReadBack(0, 7, 0, 1, false)]
  {
    var w := Go(TheirAppendDone(), 0);
    assert w.pcs[0] == ReadingBack(OURS, 0, NextOf(0), [0]);
    assert Go(w, 0).pcs[0] == ReadingBack(OURS, 0, NextOf(1), [0, 1]);
  }

  lemma RunThree(w: World, a: Step, b: Step, c: Step)
    ensures Run(w, [a, b, c]) == Apply(Apply(Apply(w, a), b), c)
  {
    RunOne(w, a);
    RunSplits(w, [a], [b]);
    RunOne(Apply(w, a), b);
    assert [a] + [b] == [a, b];
    RunSplits(w, [a, b], [c]);
    RunOne(Apply(Apply(w, a), b), c);
    assert [a, b] + [c] == [a, b, c];
  }

  /** A thread does not see the value another one stored, unless it is thread-safe. */
  lemma ForeignGetMisses() returns (steps: seq<Step>)
    ensures steps == [Call(0, InsertIfMissing(7, 1, false)), Advance(0, false), Advance(0, false),
                      Call(1, Get(7)), Advance(1, false), Advance(1, false)]
    ensures Run(NEW_WORLD, steps).log == [Missing(0, 7), Inserted(0, 7, 0), Missing(1, 7)]
  {
    var op := InsertIfMissing(7, 1, false);
    var a := [Call(0, op), Advance(0, false), Advance(0, false)];
    var b := [Call(1, Get(7)), Advance(1, false), Advance(1, false)];
    RunThree(NEW_WORLD, a[0], a[1], a[2]);
    var boxed := Go(Apply(NEW_WORLD, Call(0, op)), 0);
    assert boxed == World(Heap(None, [Node(FIRST_CELL, None)]), map[0 := Appending(op, 0, Root, [])],
                          [Missing(0, 7)], []);
    var stored := Go(boxed, 0);
    assert stored == World(Heap(Some(0), [Node(FIRST_CELL, None)]), map[0 := Idle],
                           [Missing(0, 7), Inserted(0, 7, 0)], [0]);
    RunThree(stored, b[0], b[1], b[2]);
    var walking := Apply(stored, Call(1, Get(7)));
    assert walking.pcs[1] == Walking(Get(7), Root, []);
    assert Go(walking, 1) == GoTo(walking, 1, Ahead(walking.pcs[1], 0));
    assert Go(walking, 1).pcs[1] == Walking(Get(7), NextOf(0), [0]);
    RunSplits(NEW_WORLD, a, b);
    steps := a + b;
  }

  /** Another thread's append in between makes the unwrap panic. */
  lemma ReadBackPanics() returns (steps: seq<Step>)
    ensures var log := Run(NEW_WORLD, steps).log;
            |log| > 0 && log[|log| - 1] == ReadBack(0, 7, 0, 1, false)
  {
    var go0, go1 := Advance(0, false), Advance(1, false);
    var a, b, c, d := [Call(0, OURS), go0, go0], [Call(1, THEIRS), go1, go1], [go1, go1, go0], [go0, go0];
    OurAppend();
    TheirAppend();
    OurReadBack();
    RunThree(NEW_WORLD, a[0], a[1], a[2]);
    RunThree(OurAppendDone(), b[0], b[1], b[2]);
    var w := Run(OurAppendDone(), b);
    RunThree(w, c[0], c[1], c[2]);
    RunOne(Run(w, c), go0);
    RunSplits(Run(w, c), [go0], [go0]);
    RunOne(Go(Run(w, c), 0), go0);
    assert [go0] + [go0] == d;
    RunSplits(NEW_WORLD, a, b);
    RunSplits(NEW_WORLD, a + b, c);
    RunSplits(NEW_WORLD, a + b + c, d);
    steps := a + b + c + d;
  }

  // ---- the map as an object, used by one thread at a time ---------------------------------------

  class UserDataMap {
    const list: AppendList<UserData>

    ghost predicate Valid()
      reads this, list
    {
      list.Valid()
    }

    constructor ()
      ensures Valid() && fresh(list) && list.list == []
    {
      list := new AppendList<UserData>();
    }

    method Get(ty: TypeId, thread: Thread) returns (found: Option<nat>)
      requires Valid()
      ensures match found
              case Some(n) => IsFirst(list.heap, list.list, ty, thread, n)
              case None => NoneVisible(list.heap, list.list, ty, thread)
      ensures found.Some? ==> HoldsAt(list.heap, found.value, ty, thread)
      ensures found.None? ==> forall k :: 0 <= k < |list.list| ==> !HoldsAt(list.heap, list.list[k], ty, thread)
    {
      var slot := Root;
      ghost var seen: seq<nat> := [];
      while true
        invariant seen <= list.list && slot == SlotAfter(seen)
        invariant NoneVisible(list.heap, seen, ty, thread)
        decreases |list.list| - |seen|
      {
        var item, slot' := list.Next(slot, seen);
        if item.None? {
          forall k | 0 <= k < |list.list| ensures !HoldsAt(list.heap, list.list[k], ty, thread) {
            assert !VisibleAt(list.heap, list.list[k], ty, thread);
          }
          return None;
        }
        if Visible(list.heap.nodes[item.value].value, ty, thread) {
          assert list.list[..|seen|] == seen;
          return item;
        }
        seen, slot := seen + [item.value], slot';
      }
    }

    method Insert(ty: TypeId, val: int, safe: bool, thread: Thread)
      requires Valid()
      modifies list
      ensures Appended(old(list.heap), old(list.list), list.heap, list.list,
                       [NewData(Op.InsertIfMissing(ty, val, safe), thread)])
    {
      ghost var used := list.Append(NewData(Op.InsertIfMissing(ty, val, safe), thread), []);
    }

    method InsertIfMissing(ty: TypeId, val: int, safe: bool, thread: Thread) returns (inserted: bool)
      requires Valid()
      modifies list
      ensures Valid()
      ensures inserted <==> old(NoneVisible(list.heap, list.list, ty, thread))
      ensures if inserted
              then Appended(old(list.heap), old(list.list), list.heap, list.list,
                            [NewData(Op.InsertIfMissing(ty, val, safe), thread)])
              else list.heap == old(list.heap) && list.list == old(list.list)
    {
      var found := Get(ty, thread);
      if found.Some? {
        return false;
      }
      Insert(ty, val, safe, thread);
      return true;
    }

    /** Nobody else appends: the last node is the new one, the unwrap succeeds, and `get` agrees from then on. */
    method GetOrInsert(ty: TypeId, val: int, safe: bool, thread: Thread) returns (node: nat)
      requires Valid()
      modifies list
      ensures Valid() && IsFirst(list.heap, list.list, ty, thread, node)
      ensures old(list.list) <= list.list
      ensures !old(NoneVisible(list.heap, list.list, ty, thread)) ==>
                list.heap == old(list.heap) && list.list == old(list.list)
    {
      var found := Get(ty, thread);
      if found.Some? {
        return found.value;
      }
      Insert(ty, val, safe, thread);
      NoneVisibleKept(old(list.heap), list.heap, old(list.list), ty, thread);
      var slot, last := Root, None;
      ghost var seen: seq<nat> := [];
      ghost var heap, nodes := list.heap, list.list;
      while true
        invariant list.heap == heap && list.list == nodes
        invariant seen <= list.list && slot == SlotAfter(seen)
        invariant last == if seen == [] then None else Some(seen[|seen| - 1])
        decreases |list.list| - |seen|
      {
        var item, slot' := list.Next(slot, seen);
        if item.None? {
          break;
        }
        last, slot, seen := item, slot', seen + [item.value];
      }
      assert seen == list.list;
      node := last.value;
      assert list.list[..|old(list.list)|] == old(list.list);
      assert Visible(list.heap.nodes[node].value, ty, thread);
    }
  }
}
