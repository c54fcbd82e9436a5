/** The re-entrant signaler as a state machine: src/utils/signaling.rs. */
module Signaling {
  import opened Wrappers

  type Event = int

  /** A callback, named by its place in the order of registration. */
  type Callback = nat

  /** The dispatch loop: between events, or part-way through the `retain` over the listeners. */
  datatype Frame =
    | LoopTop
    | Delivering(event: Event, kept: seq<Callback>, todo: seq<Callback>, running: Option<Callback>)

  /** One listener the `retain` has come to, and whether it could still be upgraded then. */
  datatype Reach = Reach(callback: Callback, alive: bool)

  /** History of one delivery: who was listed when it started, out of how many ever registered. */
  datatype Delivery = Delivery(event: Event, known: nat, listeners: seq<Callback>, reached: seq<Reach>)

  /** `registered`, `sent` and `deliveries` are histories; the rest is the signaler's own state. */
  datatype Signaler = Signaler(
    callbacks: seq<Callback>, pendingCallbacks: seq<Callback>, pendingEvents: seq<Event>,
    alive: set<Callback>, borrowed: bool, stack: seq<Frame>,
    registered: nat, sent: seq<Event>, deliveries: seq<Delivery>)

  const NEW_SIGNALER: Signaler := Signaler([], [], [], {}, false, [], 0, [], [])

  /** What user code may do, from outside or from within a callback, and the dispatcher's own work. */
  datatype Step = Send(event: Event) | Register | Drop(callback: Callback) | Work

  function Top(s: Signaler): Frame
    requires s.stack != []
  {
    s.stack[|s.stack| - 1]
  }

  function SetTop(s: Signaler, frame: Frame): Signaler
    requires s.stack != []
  {
    s.(stack := s.stack[..|s.stack| - 1] + [frame])
  }

  /** User code has control: nothing is being dispatched, or a callback runs. */
  predicate UserHasControl(s: Signaler) {
    s.stack == [] || (Top(s).Delivering? && Top(s).running.Some?)
  }

  /** `send`: queue, and start draining unless the callback list is already borrowed. */
  function SendStep(s: Signaler, event: Event): Signaler {
    var s' := s.(pendingEvents := s.pendingEvents + [event], sent := s.sent + [event]);
    if s.borrowed then s' else s'.(borrowed := true, stack := s.stack + [LoopTop])
  }

  /** `register` and `insert`. */
  function RegisterStep(s: Signaler): Signaler {
    var s' := s.(alive := s.alive + {s.registered}, registered := s.registered + 1);
    if s.borrowed then s'.(pendingCallbacks := s.pendingCallbacks + [s.registered])
    else s'.(callbacks := s.callbacks + [s.registered])
  }

  function NoteReach(s: Signaler, callback: Callback, alive: bool): Signaler
    requires s.deliveries != []
  {
    var n := |s.deliveries| - 1;
    var d := s.deliveries[n];
    s.(deliveries := s.deliveries[n := d.(reached := d.reached + [Reach(callback, alive)])])
  }

  /** The dispatcher's next action. */
  function WorkStep(s: Signaler): Signaler
    requires s.stack != []
  {
    match Top(s)
    case LoopTop =>
      if s.pendingEvents == [] then s.(borrowed := false, stack := s.stack[..|s.stack| - 1])
      else
        var event := s.pendingEvents[0];
        SetTop(s.(pendingEvents := s.pendingEvents[1..],
                  deliveries := s.deliveries + [Delivery(event, s.registered, s.callbacks, [])]),
               Delivering(event, [], s.callbacks, None))
    case Delivering(event, kept, todo, Some(callback)) =>
      SetTop(s, Delivering(event, kept + [callback], todo, None))
    case Delivering(event, kept, todo, None) =>
      if todo == [] then
        SetTop(s.(callbacks := kept + s.pendingCallbacks, pendingCallbacks := []), LoopTop)
      else if s.deliveries == [] then s
      else if todo[0] in s.alive then
        SetTop(NoteReach(s, todo[0], true), Delivering(event, kept, todo[1..], Some(todo[0])))
      else
        SetTop(NoteReach(s, todo[0], false), Delivering(event, kept, todo[1..], None))
  }

  /** A step whose turn it is not does nothing. */
  function Apply(s: Signaler, step: Step): Signaler {
    match step
    case Send(event) => if UserHasControl(s) then SendStep(s, event) else s
    case Register => if UserHasControl(s) then RegisterStep(s) else s
    case Drop(callback) => if UserHasControl(s) then s.(alive := s.alive - {callback}) else s
    case Work => if s.stack == [] then s else WorkStep(s)
  }

  function Run(s: Signaler, steps: seq<Step>): Signaler {
    if steps == [] then s else Apply(Run(s, steps[..|steps| - 1]), steps[|steps| - 1])
  }

  // ---- the invariant --------------------------------------------------------------------------

  ghost predicate Increasing(list: seq<nat>) {
    forall i, j :: 0 <= i < j < |list| ==> list[i] < list[j]
  }

  ghost predicate AllBelow(list: seq<nat>, n: nat) {
    forall k :: 0 <= k < |list| ==> list[k] < n
  }

  /** The callback list as the dispatcher holds it. */
  function Listed(s: Signaler): seq<Callback> {
    if s.stack != [] && Top(s).Delivering?
    then Top(s).kept + (if Top(s).running.Some? then [Top(s).running.value] else []) + Top(s).todo
    else s.callbacks
  }

  function Events(deliveries: seq<Delivery>): seq<Event> {
    if deliveries == [] then [] else Events(deliveries[..|deliveries| - 1]) + [deliveries[|deliveries| - 1].event]
  }

  function Callbacks(reached: seq<Reach>): (r: seq<Callback>)
    ensures |r| == |reached|
    ensures forall k :: 0 <= k < |reached| ==> r[k] == reached[k].callback
  {
    if reached == [] then []
    else Callbacks(reached[..|reached| - 1]) + [reached[|reached| - 1].callback]
  }

  /** All a delivery promises, given what is alive and how many have registered by now. */
  ghost predicate DeliveryOk(d: Delivery, alive: set<Callback>, registered: nat) {
    && d.known <= registered
    && Increasing(d.listeners) && AllBelow(d.listeners, d.known)
    && Callbacks(d.reached) <= d.listeners
    && (forall c: nat :: c in alive && c < d.known ==> c in d.listeners)
    && (forall k :: 0 <= k < |d.reached| && d.reached[k].callback in alive ==> d.reached[k].alive)
  }

  /** Only the delivery the dispatcher is in may be unfinished, and it is where the frame says. */
  ghost predicate Progress(s: Signaler) {
    && (forall k :: 0 <= k < |s.deliveries| - 1 ==> Callbacks(s.deliveries[k].reached) == s.deliveries[k].listeners)
    && (s.deliveries != [] ==>
          var d := s.deliveries[|s.deliveries| - 1];
          if s.stack != [] && Top(s).Delivering?
          then d.event == Top(s).event && d.listeners == Callbacks(d.reached) + Top(s).todo
          else Callbacks(d.reached) == d.listeners)
    && (s.stack != [] && Top(s).Delivering? ==> s.deliveries != [])
  }

  ghost predicate ListsOk(s: Signaler) {
    var listed := Listed(s) + s.pendingCallbacks;
    && Increasing(listed) && AllBelow(listed, s.registered)
    && (forall c :: c in s.alive ==> c in listed)
  }

  ghost predicate StackOk(s: Signaler) {
    && |s.stack| <= 1
    && (s.borrowed <==> s.stack != [])
    && (s.stack == [] ==> s.pendingEvents == [])
    && (s.stack == [] || Top(s).LoopTop? ==> s.pendingCallbacks == [])
  }

  ghost predicate Inv(s: Signaler) {
    && StackOk(s) && ListsOk(s) && Progress(s)
    && Events(s.deliveries) + s.pendingEvents == s.sent
    && (forall k :: 0 <= k < |s.deliveries| ==> DeliveryOk(s.deliveries[k], s.alive, s.registered))
  }

  // ---- what each step keeps -------------------------------------------------------------------

  lemma EventsSnoc(deliveries: seq<Delivery>, d: Delivery)
    ensures Events(deliveries + [d]) == Events(deliveries) + [d.event]
  {
    assert (deliveries + [d])[..|deliveries|] == deliveries;
  }

  lemma CallbacksSnoc(reached: seq<Reach>, r: Reach)
    ensures Callbacks(reached + [r]) == Callbacks(reached) + [r.callback]
  {
    assert (reached + [r])[..|reached|] == reached;
  }

  lemma DeliveryStays(d: Delivery, alive: set<Callback>, registered: nat, alive': set<Callback>, registered': nat)
    requires DeliveryOk(d, alive, registered) && registered <= registered'
    requires forall c :: c in alive' ==> c in alive || c >= registered
    ensures DeliveryOk(d, alive', registered')
  {
    forall k | 0 <= k < |d.reached| && d.reached[k].callback in alive'
      ensures d.reached[k].alive
    {
      assert d.listeners[k] < d.known && d.reached[k].callback == d.listeners[k];
    }
  }

  lemma DeliveriesStay(s: Signaler, s': Signaler)
    requires Inv(s) && s'.deliveries == s.deliveries && s.registered <= s'.registered
    requires forall c :: c in s'.alive ==> c in s.alive || c >= s.registered
    ensures forall k :: 0 <= k < |s'.deliveries| ==> DeliveryOk(s'.deliveries[k], s'.alive, s'.registered)
  {
    forall k | 0 <= k < |s.deliveries| ensures DeliveryOk(s.deliveries[k], s'.alive, s'.registered) {
      DeliveryStays(s.deliveries[k], s.alive, s.registered, s'.alive, s'.registered);
    }
  }

  lemma SendListsKeep(s: Signaler, event: Event)
    requires Inv(s) && UserHasControl(s)
    ensures ListsOk(SendStep(s, event))
  {
    assert Listed(SendStep(s, event)) == Listed(s);
  }

  lemma SendFrameKeeps(s: Signaler, event: Event)
    requires StackOk(s) && Progress(s) && UserHasControl(s)
    ensures StackOk(SendStep(s, event)) && Progress(SendStep(s, event))
  {
  }

  lemma SendKeeps(s: Signaler, event: Event)
    requires Inv(s) && UserHasControl(s)
    ensures Inv(SendStep(s, event))
  {
    var s' := SendStep(s, event);
    SendFrameKeeps(s, event);
    SendListsKeep(s, event);
    DeliveriesStay(s, s');
    assert Events(s'.deliveries) + s'.pendingEvents == s'.sent by {
      assert Events(s.deliveries) + (s.pendingEvents + [event]) == (Events(s.deliveries) + s.pendingEvents) + [event];
    }
  }

  lemma NewestFits(list: seq<nat>, n: nat, alive: set<nat>)
    requires Increasing(list) && AllBelow(list, n) && forall c :: c in alive ==> c in list
    ensures Increasing(list + [n]) && AllBelow(list + [n], n + 1)
    ensures forall c :: c in alive + {n} ==> c in list + [n]
  {
  }

  lemma RegisterListsKeep(s: Signaler)
    requires Inv(s) && UserHasControl(s)
    ensures ListsOk(RegisterStep(s))
  {
    var s' := RegisterStep(s);
    var listed := Listed(s) + s.pendingCallbacks;
    NewestFits(listed, s.registered, s.alive);
    assert Listed(s') + s'.pendingCallbacks == listed + [s.registered];
  }

  lemma RegisterKeeps(s: Signaler)
    requires Inv(s) && UserHasControl(s)
    ensures Inv(RegisterStep(s))
  {
    RegisterListsKeep(s);
    DeliveriesStay(s, RegisterStep(s));
  }

  lemma DropKeeps(s: Signaler, callback: Callback)
    requires Inv(s)
    ensures Inv(s.(alive := s.alive - {callback}))
  {
    var s' := s.(alive := s.alive - {callback});
    assert Listed(s') == Listed(s);
    DeliveriesStay(s, s');
  }

  lemma StartsOk(event: Event, listeners: seq<Callback>, alive: set<Callback>, registered: nat)
    requires Increasing(listeners) && AllBelow(listeners, registered) && forall c :: c in alive ==> c in listeners
    ensures DeliveryOk(Delivery(event, registered, listeners, []), alive, registered)
  {
  }

  lemma PopProgress(s: Signaler)
    requires Inv(s) && s.stack != [] && Top(s).LoopTop? && s.pendingEvents != []
    ensures Progress(WorkStep(s))
  {
    var s' := WorkStep(s);
    assert Callbacks([]) + s.callbacks == s.callbacks;
    forall k | 0 <= k < |s'.deliveries| - 1
      ensures Callbacks(s'.deliveries[k].reached) == s'.deliveries[k].listeners
    {
      assert s'.deliveries[k] == s.deliveries[k];
    }
  }

  lemma PopListsKeep(s: Signaler)
    requires Inv(s) && s.stack != [] && Top(s).LoopTop? && s.pendingEvents != []
    ensures ListsOk(WorkStep(s)) && StackOk(WorkStep(s))
  {
    var s' := WorkStep(s);
    assert Listed(s) + s.pendingCallbacks == s.callbacks;
    assert Listed(s') + s'.pendingCallbacks == s.callbacks;
  }

  lemma PopEvents(deliveries: seq<Delivery>, d: Delivery, pending: seq<Event>)
    requires pending != [] && d.event == pending[0]
    ensures Events(deliveries + [d]) + pending[1..] == Events(deliveries) + pending
  {
    EventsSnoc(deliveries, d);
    assert pending == [pending[0]] + pending[1..];
  }

  lemma PopDeliveries(s: Signaler)
    requires Inv(s) && s.stack != [] && Top(s).LoopTop? && s.pendingEvents != []
    ensures var d := Delivery(s.pendingEvents[0], s.registered, s.callbacks, []);
            WorkStep(s).deliveries == s.deliveries + [d] && DeliveryOk(d, s.alive, s.registered)
  {
    assert Listed(s) + s.pendingCallbacks == s.callbacks;
    StartsOk(s.pendingEvents[0], s.callbacks, s.alive, s.registered);
  }

  lemma PopKeeps(s: Signaler)
    requires Inv(s) && s.stack != [] && Top(s).LoopTop? && s.pendingEvents != []
    ensures Inv(WorkStep(s))
  {
    PopListsKeep(s);
    PopProgress(s);
    PopDeliveries(s);
    PopEvents(s.deliveries, Delivery(s.pendingEvents[0], s.registered, s.callbacks, []), s.pendingEvents);
  }

  lemma FinishKeeps(s: Signaler)
    requires Inv(s) && s.stack != [] && Top(s).Delivering? && Top(s).running.None? && Top(s).todo == []
    ensures Inv(WorkStep(s))
  {
    var s' := WorkStep(s);
    assert Listed(s') + s'.pendingCallbacks == Listed(s) + s.pendingCallbacks;
    DeliveriesStay(s, s');
  }

  lemma ReturnKeeps(s: Signaler)
    requires Inv(s) && s.stack != [] && Top(s).Delivering? && Top(s).running.Some?
    ensures Inv(WorkStep(s))
  {
    var s' := WorkStep(s);
    assert Listed(s') == Listed(s);
    DeliveriesStay(s, s');
  }

  lemma NoteReachEvents(s: Signaler, callback: Callback, alive: bool)
    requires s.deliveries != []
    ensures Events(NoteReach(s, callback, alive).deliveries) == Events(s.deliveries)
  {
    var n := |s.deliveries| - 1;
    assert NoteReach(s, callback, alive).deliveries[..n] == s.deliveries[..n];
  }

  lemma ReachedOk(d: Delivery, todo: seq<Callback>, alive: set<Callback>, registered: nat)
    requires DeliveryOk(d, alive, registered)
    requires d.listeners == Callbacks(d.reached) + todo && todo != []
    ensures var d' := d.(reached := d.reached + [Reach(todo[0], todo[0] in alive)]);
            DeliveryOk(d', alive, registered) && d'.listeners == Callbacks(d'.reached) + todo[1..]
  {
    CallbacksSnoc(d.reached, Reach(todo[0], todo[0] in alive));
    assert todo == [todo[0]] + todo[1..];
  }

  /** Noting what the `retain` came to keeps every delivery record, and brings the last one forward. */
  lemma NoteReachOk(s: Signaler, todo: seq<Callback>)
    requires s.deliveries != [] && todo != []
    requires forall k :: 0 <= k < |s.deliveries| ==> DeliveryOk(s.deliveries[k], s.alive, s.registered)
    requires var d := s.deliveries[|s.deliveries| - 1]; d.listeners == Callbacks(d.reached) + todo
    ensures var after := NoteReach(s, todo[0], todo[0] in s.alive).deliveries;
            && |after| == |s.deliveries| && (forall k :: 0 <= k < |after| - 1 ==> after[k] == s.deliveries[k])
            && (forall k :: 0 <= k < |after| ==> DeliveryOk(after[k], s.alive, s.registered))
            && var d := after[|after| - 1];
               d.event == s.deliveries[|after| - 1].event && d.listeners == Callbacks(d.reached) + todo[1..]
  {
    ReachedOk(s.deliveries[|s.deliveries| - 1], todo, s.alive, s.registered);
  }

  /** The delivery record follows the `retain`, whichever way the frame moves. */
  lemma ReachRecordKeeps(s: Signaler, s': Signaler)
    requires Inv(s) && s.stack != [] && Top(s).Delivering? && Top(s).running.None? && Top(s).todo != []
    requires s'.deliveries == NoteReach(s, Top(s).todo[0], Top(s).todo[0] in s.alive).deliveries
    requires |s'.stack| == 1 && Top(s').Delivering?
    requires Top(s').event == Top(s).event && Top(s').todo == Top(s).todo[1..]
    requires s'.alive == s.alive && s'.registered == s.registered
    ensures Progress(s') && Events(s'.deliveries) == Events(s.deliveries)
    ensures forall k :: 0 <= k < |s'.deliveries| ==> DeliveryOk(s'.deliveries[k], s'.alive, s'.registered)
  {
    NoteReachEvents(s, Top(s).todo[0], Top(s).todo[0] in s.alive);
    NoteReachOk(s, Top(s).todo);
  }

  lemma ReachAliveKeeps(s: Signaler)
    requires Inv(s) && s.stack != [] && Top(s).Delivering? && Top(s).running.None? && Top(s).todo != []
    requires Top(s).todo[0] in s.alive
    ensures Inv(WorkStep(s))
  {
    var s', top := WorkStep(s), Top(s);
    assert Top(s') == Delivering(top.event, top.kept, top.todo[1..], Some(top.todo[0]));
    assert top.todo == [top.todo[0]] + top.todo[1..];
    assert Listed(s') == Listed(s);
    ReachRecordKeeps(s, s');
  }

  lemma FirstOut(kept: seq<Callback>, todo: seq<Callback>, pending: seq<Callback>)
    requires todo != []
    ensures kept + [] + todo + pending == kept + [todo[0]] + (todo[1..] + pending)
    ensures kept + [] + todo[1..] + pending == kept + (todo[1..] + pending)
  {
  }

  lemma ReachDeadLists(s: Signaler)
    requires Inv(s) && s.stack != [] && Top(s).Delivering? && Top(s).running.None? && Top(s).todo != []
    requires Top(s).todo[0] !in s.alive
    ensures StackOk(WorkStep(s)) && ListsOk(WorkStep(s))
  {
    var s', top := WorkStep(s), Top(s);
    var callback, rest := top.todo[0], top.todo[1..] + s.pendingCallbacks;
    FirstOut(top.kept, top.todo, s.pendingCallbacks);
    assert Top(s') == Delivering(top.event, top.kept, top.todo[1..], None);
    assert Listed(s') == top.kept + [] + top.todo[1..];
    RemoveKeeps(top.kept, callback, rest, s.registered, s.alive);
  }

  lemma ReachDeadKeeps(s: Signaler)
    requires Inv(s) && s.stack != [] && Top(s).Delivering? && Top(s).running.None? && Top(s).todo != []
    requires Top(s).todo[0] !in s.alive
    ensures Inv(WorkStep(s))
  {
    var s', top := WorkStep(s), Top(s);
    ReachDeadLists(s);
    assert Top(s') == Delivering(top.event, top.kept, top.todo[1..], None);
    ReachRecordKeeps(s, s');
  }

  lemma RemoveKeeps(a: seq<nat>, c: nat, b: seq<nat>, n: nat, alive: set<nat>)
    requires Increasing(a + [c] + b) && AllBelow(a + [c] + b, n)
    requires c !in alive && forall x :: x in alive ==> x in a + [c] + b
    ensures Increasing(a + b) && AllBelow(a + b, n) && forall x :: x in alive ==> x in a + b
  {
    var long := a + [c] + b;
    forall i, j | 0 <= i < j < |a + b| ensures (a + b)[i] < (a + b)[j] {
      var i', j' := if i < |a| then i else i + 1, if j < |a| then j else j + 1;
      assert (a + b)[i] == long[i'] && (a + b)[j] == long[j'];
    }
    forall k | 0 <= k < |a + b| ensures (a + b)[k] < n {
      var k' := if k < |a| then k else k + 1;
      assert (a + b)[k] == long[k'];
    }
  }

  lemma WorkKeeps(s: Signaler)
    requires Inv(s) && s.stack != []
    ensures Inv(WorkStep(s))
  {
    var top := Top(s);
    if top.LoopTop? {
      if s.pendingEvents == [] {
        assert Listed(WorkStep(s)) == Listed(s);
        DeliveriesStay(s, WorkStep(s));
      } else {
        PopKeeps(s);
      }
    } else if top.running.Some? {
      ReturnKeeps(s);
    } else if top.todo == [] {
      FinishKeeps(s);
    } else if top.todo[0] in s.alive {
      ReachAliveKeeps(s);
    } else {
      ReachDeadKeeps(s);
    }
  }

  lemma StepKeeps(s: Signaler, step: Step)
    requires Inv(s)
    ensures Inv(Apply(s, step))
  {
    match step
    case Send(event) => if UserHasControl(s) { SendKeeps(s, event); }
    case Register => if UserHasControl(s) { RegisterKeeps(s); }
    case Drop(callback) => if UserHasControl(s) { DropKeeps(s, callback); }
    case Work => if s.stack != [] { WorkKeeps(s); }
  }

  /** Every run, with whatever callbacks do while they run, keeps the invariant. */
  lemma {:induction false} RunKeeps(steps: seq<Step>)
    ensures Inv(Run(NEW_SIGNALER, steps))
  {
    if steps != [] {
      RunKeeps(steps[..|steps| - 1]);
      StepKeeps(Run(NEW_SIGNALER, steps[..|steps| - 1]), steps[|steps| - 1]);
    }
  }

  // ---- what runs promise ----------------------------------------------------------------------

  ghost predicate Reachable(s: Signaler) {
    exists steps :: s == Run(NEW_SIGNALER, steps)
  }

  lemma ReachableInv(s: Signaler)
    requires Reachable(s)
    ensures Inv(s)
  {
    var steps :| s == Run(NEW_SIGNALER, steps);
    RunKeeps(steps);
  }

  /** Events are delivered in the order in which they were sent, and none is left over. */
  lemma DeliveredInSendOrder(s: Signaler)
    requires Reachable(s)
    ensures Events(s.deliveries) + s.pendingEvents == s.sent
    ensures s.stack == [] ==> Events(s.deliveries) == s.sent
  {
    ReachableInv(s);
  }

  /** Outside a dispatch both queues are empty, and the callback list is free. */
  lemma QueuesEmptyWhenIdle(s: Signaler)
    requires Reachable(s) && s.stack == []
    ensures s.pendingEvents == [] && s.pendingCallbacks == [] && !s.borrowed
  {
    ReachableInv(s);
  }

  /** Dispatches never nest, so a callback is only ever entered while no callback runs. */
  lemma NeverReentered(s: Signaler)
    requires Reachable(s)
    ensures |s.stack| <= 1
  {
    ReachableInv(s);
  }

  predicate Complete(s: Signaler, k: nat)
    requires k < |s.deliveries|
  {
    k < |s.deliveries| - 1 || s.stack == [] || Top(s).LoopTop?
  }

  lemma CompleteReachedAll(s: Signaler, k: nat)
    requires Inv(s) && k < |s.deliveries| && Complete(s, k)
    ensures Callbacks(s.deliveries[k].reached) == s.deliveries[k].listeners
  {
  }

  /**
   * A delivery comes to every callback listed when it started, each exactly once and in the order
   * of registration, and nothing registered since was listed.
   */
  lemma ReachesEachListenerOnce(s: Signaler, k: nat)
    requires Reachable(s) && k < |s.deliveries|
    ensures var d := s.deliveries[k];
            && Increasing(d.listeners) && AllBelow(d.listeners, d.known)
            && Callbacks(d.reached) <= d.listeners
            && (Complete(s, k) ==> Callbacks(d.reached) == d.listeners)
  {
    ReachableInv(s);
    assert DeliveryOk(s.deliveries[k], s.alive, s.registered);
    if Complete(s, k) { CompleteReachedAll(s, k); }
  }

  ghost predicate Ran(d: Delivery, c: Callback) {
    exists k :: 0 <= k < |d.reached| && d.reached[k] == Reach(c, true)
  }

  lemma RanOnlyListeners(d: Delivery, c: Callback)
    requires Callbacks(d.reached) <= d.listeners && Ran(d, c)
    ensures c in d.listeners
  {
    var i :| 0 <= i < |d.reached| && d.reached[i] == Reach(c, true);
    assert d.listeners[i] == Callbacks(d.reached)[i] == c;
  }

  /**
   * A callback that is still alive has run in a finished delivery exactly if it had registered
   * when that delivery started: it misses the event during which it registers and gets all later ones.
   */
  lemma LiveCallbackRanIff(s: Signaler, k: nat, c: Callback)
    requires Reachable(s) && k < |s.deliveries| && Complete(s, k) && c in s.alive
    ensures Ran(s.deliveries[k], c) <==> c < s.deliveries[k].known
  {
    var d := s.deliveries[k];
    ReachableInv(s);
    assert DeliveryOk(d, s.alive, s.registered);
    CompleteReachedAll(s, k);
    if Ran(d, c) {
      RanOnlyListeners(d, c);
    }
    if c < d.known {
      assert c in d.listeners;
      var i :| 0 <= i < |d.listeners| && d.listeners[i] == c;
      assert d.reached[i].callback == Callbacks(d.reached)[i] == c;
      assert d.reached[i] == Reach(c, true);
    }
  }

  // ---- what counts as sent, and who is alive --------------------------------------------------

  /** The events of the sends that user code had control to make. */
  function Sends(steps: seq<Step>): seq<Event> {
    if steps == [] then []
    else
      var before, step := steps[..|steps| - 1], steps[|steps| - 1];
      Sends(before) + if step.Send? && UserHasControl(Run(NEW_SIGNALER, before)) then [step.event] else []
  }

  lemma {:induction false} SentAreSends(steps: seq<Step>)
    ensures Run(NEW_SIGNALER, steps).sent == Sends(steps)
  {
    if steps != [] {
      SentAreSends(steps[..|steps| - 1]);
      StepSent(Run(NEW_SIGNALER, steps[..|steps| - 1]), steps[|steps| - 1]);
    }
  }

  lemma StepSent(s: Signaler, step: Step)
    ensures Apply(s, step).sent == s.sent + if step.Send? && UserHasControl(s) then [step.event] else []
  {
  }

  /** Over every run, once no dispatch is in progress exactly the events sent have been delivered, in order. */
  lemma SendsDelivered(steps: seq<Step>)
    ensures var s := Run(NEW_SIGNALER, steps);
            Events(s.deliveries) <= Sends(steps) && (s.stack == [] ==> Events(s.deliveries) == Sends(steps))
  {
    RunKeeps(steps);
    SentAreSends(steps);
  }

  /** Step `i` registers the callback. */
  predicate RegistersAt(steps: seq<Step>, i: nat, c: Callback)
    requires i < |steps|
  {
    var s := Run(NEW_SIGNALER, steps[..i]);
    steps[i].Register? && UserHasControl(s) && s.registered == c
  }

  predicate DropsAt(steps: seq<Step>, k: nat, c: Callback)
    requires k < |steps|
  {
    steps[k] == Drop(c) && UserHasControl(Run(NEW_SIGNALER, steps[..k]))
  }

  ghost predicate AliveSince(steps: seq<Step>, i: nat, c: Callback) {
    i < |steps| && RegistersAt(steps, i, c) && forall k :: i < k < |steps| ==> !DropsAt(steps, k, c)
  }

  ghost predicate IsAlive(steps: seq<Step>, c: Callback) { exists i: nat :: AliveSince(steps, i, c) }

  lemma PrefixAgrees(steps: seq<Step>, k: nat, c: Callback)
    requires k < |steps| - 1
    ensures RegistersAt(steps, k, c) == RegistersAt(steps[..|steps| - 1], k, c)
    ensures DropsAt(steps, k, c) == DropsAt(steps[..|steps| - 1], k, c)
  {
    assert steps[..|steps| - 1][..k] == steps[..k];
  }

  lemma AliveSinceNext(steps: seq<Step>, i: nat, c: Callback)
    requires i < |steps| - 1
    ensures var n := |steps| - 1;
            AliveSince(steps, i, c) <==> AliveSince(steps[..n], i, c) && !DropsAt(steps, n, c)
  {
    var n := |steps| - 1;
    forall k | 0 <= k < n
      ensures RegistersAt(steps, k, c) == RegistersAt(steps[..n], k, c)
      ensures DropsAt(steps, k, c) == DropsAt(steps[..n], k, c)
    {
      PrefixAgrees(steps, k, c);
    }
  }

  lemma IsAliveNext(steps: seq<Step>, c: Callback)
    requires steps != []
    ensures var n := |steps| - 1;
            IsAlive(steps, c) <==> RegistersAt(steps, n, c) || (IsAlive(steps[..n], c) && !DropsAt(steps, n, c))
  {
    var n := |steps| - 1;
    if i: nat :| AliveSince(steps, i, c) {
      if i < n { AliveSinceNext(steps, i, c); }
    }
    if RegistersAt(steps, n, c) {
      assert AliveSince(steps, n, c);
    } else if i: nat :| AliveSince(steps[..n], i, c) {
      AliveSinceNext(steps, i, c);
    }
  }

  lemma StepAlive(s: Signaler, step: Step, c: Callback)
    ensures c in Apply(s, step).alive
       <==> (step.Register? && UserHasControl(s) && s.registered == c)
            || (c in s.alive && !(step == Drop(c) && UserHasControl(s)))
  {
  }

  /** Over every run a callback is alive exactly from its registration to the drop of its token. */
  lemma {:induction false} AliveIff(steps: seq<Step>, c: Callback)
    ensures c in Run(NEW_SIGNALER, steps).alive <==> IsAlive(steps, c)
  {
    if steps != [] {
      AliveIff(steps[..|steps| - 1], c);
      IsAliveNext(steps, c);
      StepAlive(Run(NEW_SIGNALER, steps[..|steps| - 1]), steps[|steps| - 1], c);
    }
  }

  /** How many registrations user code had control to make. */
  function Registrations(steps: seq<Step>): nat {
    if steps == [] then 0
    else
      var before, step := steps[..|steps| - 1], steps[|steps| - 1];
      Registrations(before) + if step.Register? && UserHasControl(Run(NEW_SIGNALER, before)) then 1 else 0
  }

  /** Callbacks are numbered as they register. */
  lemma {:induction false} RegisteredCounts(steps: seq<Step>)
    ensures Run(NEW_SIGNALER, steps).registered == Registrations(steps)
  {
    if steps != [] {
      RegisteredCounts(steps[..|steps| - 1]);
      StepRegistered(Run(NEW_SIGNALER, steps[..|steps| - 1]), steps[|steps| - 1]);
    }
  }

  lemma StepRegistered(s: Signaler, step: Step)
    ensures Apply(s, step).registered == s.registered + if step.Register? && UserHasControl(s) then 1 else 0
  {
  }

  // ---- alive when reached -----------------------------------------------------------------

  /** Delivery `k` has come to its `m`-th listener. */
  predicate Noted(s: Signaler, k: nat, m: nat) { k < |s.deliveries| && m < |s.deliveries[k].reached| }

  /** A listener noted stays noted as it was, and one noted now is noted alive just if it is. */
  ghost predicate NotesAlive(s: Signaler, s': Signaler) {
    forall k: nat, m: nat :: Noted(s', k, m) ==>
      var reach := s'.deliveries[k].reached[m];
      if Noted(s, k, m) then reach == s.deliveries[k].reached[m]
      else reach.alive <==> reach.callback in s.alive
  }

  lemma SameNotes(s: Signaler, s': Signaler)
    requires s'.deliveries == s.deliveries
    ensures NotesAlive(s, s')
  {
  }

  lemma NoteReachNotes(s: Signaler, callback: Callback)
    requires s.deliveries != []
    ensures NotesAlive(s, NoteReach(s, callback, callback in s.alive))
  {
  }

  lemma PopNotes(s: Signaler)
    requires s.stack != [] && Top(s).LoopTop? && s.pendingEvents != []
    ensures NotesAlive(s, WorkStep(s))
  {
  }

  lemma StepNotes(s: Signaler, step: Step)
    ensures NotesAlive(s, Apply(s, step))
  {
    if !step.Work? || s.stack == [] {
      SameNotes(s, Apply(s, step));
    } else if Top(s).LoopTop? && s.pendingEvents != [] {
      PopNotes(s);
    } else if Top(s).Delivering? && Top(s).running.None? && Top(s).todo != [] && s.deliveries != [] {
      NoteReachNotes(s, Top(s).todo[0]);
      assert WorkStep(s).deliveries == NoteReach(s, Top(s).todo[0], Top(s).todo[0] in s.alive).deliveries;
    } else {
      SameNotes(s, WorkStep(s));
    }
  }

  /** Step `i` is the one in which delivery `k` comes to its `m`-th listener. */
  ghost predicate ReachesAt(steps: seq<Step>, i: nat, k: nat, m: nat) {
    && i < |steps|
    && !Noted(Run(NEW_SIGNALER, steps[..i]), k, m) && Noted(Run(NEW_SIGNALER, steps[..i + 1]), k, m)
  }

  lemma {:induction false} NotedAliveThen(steps: seq<Step>, k: nat, m: nat) returns (i: nat)
    requires Noted(Run(NEW_SIGNALER, steps), k, m)
    ensures ReachesAt(steps, i, k, m)
    ensures var reach := Run(NEW_SIGNALER, steps).deliveries[k].reached[m];
            reach.alive <==> reach.callback in Run(NEW_SIGNALER, steps[..i]).alive
    decreases |steps|
  {
    var n := |steps| - 1;
    var s := Run(NEW_SIGNALER, steps[..n]);
    StepNotes(s, steps[n]);
    if Noted(s, k, m) {
      i := NotedAliveThen(steps[..n], k, m);
      assert steps[..n][..i] == steps[..i] && steps[..n][..i + 1] == steps[..i + 1];
    } else {
      i := n;
      assert steps[..n + 1] == steps;
    }
  }

  lemma RanIffReachedAlive(d: Delivery, m: nat)
    requires Increasing(d.listeners) && Callbacks(d.reached) <= d.listeners && m < |d.reached|
    ensures Ran(d, d.reached[m].callback) <==> d.reached[m].alive
  {
    var c := d.reached[m].callback;
    assert d.listeners[m] == Callbacks(d.reached)[m] == c;
    if Ran(d, c) {
      var j :| 0 <= j < |d.reached| && d.reached[j] == Reach(c, true);
      assert d.listeners[j] == Callbacks(d.reached)[j] == c;
    }
  }

  /**
   * Over every run a listener that a delivery has come to ran for it just if it was alive at that
   * moment, whatever became of its token before or since.
   */
  lemma ReachedRanIffAliveThen(steps: seq<Step>, k: nat, m: nat) returns (i: nat)
    requires Noted(Run(NEW_SIGNALER, steps), k, m)
    ensures ReachesAt(steps, i, k, m)
    ensures var d := Run(NEW_SIGNALER, steps).deliveries[k];
            Ran(d, d.reached[m].callback) <==> d.reached[m].callback in Run(NEW_SIGNALER, steps[..i]).alive
  {
    var s := Run(NEW_SIGNALER, steps);
    i := NotedAliveThen(steps, k, m);
    ReachesEachListenerOnce(s, k);
    RanIffReachedAlive(s.deliveries[k], m);
  }

  // ---- dropped tokens -------------------------------------------------------------------------

  /** The `m`-th listener that delivery `k` came to was the callback, and it ran. */
  ghost predicate RanAt(s: Signaler, k: nat, m: nat, c: Callback) {
    k < |s.deliveries| && m < |s.deliveries[k].reached| && s.deliveries[k].reached[m] == Reach(c, true)
  }

  /** Registered once, and its token dropped since. */
  predicate Dropped(s: Signaler, c: Callback) { c < s.registered && c !in s.alive }

  ghost predicate NoNewRuns(s: Signaler, s': Signaler, c: Callback) {
    forall k: nat, m: nat :: RanAt(s', k, m, c) ==> RanAt(s, k, m, c)
  }

  lemma NoteReachRuns(s: Signaler, callback: Callback, alive: bool, c: Callback)
    requires s.deliveries != [] && (callback == c ==> !alive)
    ensures NoNewRuns(s, NoteReach(s, callback, alive), c)
  {
  }

  lemma PopRuns(s: Signaler, c: Callback)
    requires s.stack != [] && Top(s).LoopTop? && s.pendingEvents != []
    ensures NoNewRuns(s, WorkStep(s), c)
  {
  }

  lemma SameRuns(s: Signaler, s': Signaler, c: Callback)
    requires s'.deliveries == s.deliveries
    ensures NoNewRuns(s, s', c)
  {
  }

  lemma WorkRuns(s: Signaler, c: Callback)
    requires s.stack != [] && c !in s.alive
    ensures NoNewRuns(s, WorkStep(s), c)
  {
    var top := Top(s);
    if top.LoopTop? && s.pendingEvents != [] {
      PopRuns(s, c);
    } else if top.Delivering? && top.running.None? && top.todo != [] && s.deliveries != [] {
      var noted := NoteReach(s, top.todo[0], top.todo[0] in s.alive);
      NoteReachRuns(s, top.todo[0], top.todo[0] in s.alive, c);
      SameRuns(noted, WorkStep(s), c);
    } else {
      SameRuns(s, WorkStep(s), c);
    }
  }

  lemma StepStaysDropped(s: Signaler, step: Step, c: Callback)
    requires Dropped(s, c)
    ensures Dropped(Apply(s, step), c) && NoNewRuns(s, Apply(s, step), c)
  {
    if step.Work? && s.stack != [] {
      WorkRuns(s, c);
    } else {
      SameRuns(s, Apply(s, step), c);
    }
  }

  lemma RunAppend(a: seq<Step>, b: seq<Step>)
    requires b != []
    ensures Run(NEW_SIGNALER, a + b) == Apply(Run(NEW_SIGNALER, a + b[..|b| - 1]), b[|b| - 1])
  {
    assert (a + b)[..|a + b| - 1] == a + b[..|b| - 1];
  }

  lemma {:induction false} RunStaysDropped(a: seq<Step>, b: seq<Step>, c: Callback)
    requires Dropped(Run(NEW_SIGNALER, a), c)
    ensures var s, s' := Run(NEW_SIGNALER, a), Run(NEW_SIGNALER, a + b);
            Dropped(s', c) && NoNewRuns(s, s', c)
  {
    if b == [] {
      assert a + b == a;
    } else {
      var n := |b| - 1;
      RunStaysDropped(a, b[..n], c);
      StepStaysDropped(Run(NEW_SIGNALER, a + b[..n]), b[n], c);
      RunAppend(a, b);
    }
  }

  /**
   * Dropping the token disables the callback: every run of it there will ever be is one from before,
   * so it runs in no delivery that starts later, whatever else happens.
   */
  lemma DroppedNeverRuns(a: seq<Step>, b: seq<Step>, c: Callback, k: nat)
    requires Dropped(Run(NEW_SIGNALER, a), c)
    requires k < |Run(NEW_SIGNALER, a + b).deliveries|
    ensures var s, s' := Run(NEW_SIGNALER, a), Run(NEW_SIGNALER, a + b);
            && (forall m: nat :: RanAt(s', k, m, c) ==> RanAt(s, k, m, c))
            && (k >= |s.deliveries| ==> !Ran(s'.deliveries[k], c))
  {
    RunStaysDropped(a, b, c);
    var s, s' := Run(NEW_SIGNALER, a), Run(NEW_SIGNALER, a + b);
    if Ran(s'.deliveries[k], c) {
      var m: nat :| m < |s'.deliveries[k].reached| && s'.deliveries[k].reached[m] == Reach(c, true);
      assert RanAt(s', k, m, c);
    }
  }

  // ---- termination ----------------------------------------------------------------------------

  function Count(steps: seq<Step>, which: Step -> bool): nat {
    if steps == [] then 0
    else (if which(steps[0]) then 1 else 0) + Count(steps[1..], which)
  }

  function IsSend(): Step -> bool { (step: Step) => step.Send? }

  function IsRegister(): Step -> bool { (step: Step) => step.Register? }

  function IsWork(): Step -> bool { (step: Step) => step.Work? }

  /** More actions than one delivery can take, if `registers` callbacks may still be added. */
  function PerEvent(s: Signaler, registers: nat): nat {
    2 * (|Listed(s)| + |s.pendingCallbacks| + registers) + 3
  }

  function InFrame(s: Signaler): nat {
    if s.stack == [] then 0
    else
      match Top(s)
      case LoopTop => 1
      case Delivering(_, _, todo, running) => 2 * |todo| + (if running.Some? then 1 else 0) + 2
  }

  /** An upper bound on the dispatcher's remaining actions when nothing more is sent. */
  function Rank(s: Signaler, registers: nat): nat {
    |s.pendingEvents| * PerEvent(s, registers) + InFrame(s)
  }

  lemma TimesFewer(n: nat, a: nat, b: nat)
    requires a <= b
    ensures n * a <= n * b
  {
  }

  function One(b: bool): nat { if b then 1 else 0 }

  // Each action of the dispatcher: an event less, a frame less, or the frame one further.

  lemma PopFrames(s: Signaler, registers: nat)
    requires s.stack != [] && Top(s).LoopTop? && s.pendingEvents != []
    ensures PerEvent(WorkStep(s), registers) == PerEvent(s, registers)
    ensures |WorkStep(s).pendingEvents| == |s.pendingEvents| - 1
    ensures InFrame(WorkStep(s)) < PerEvent(s, registers) + InFrame(s)
  {
    var s' := WorkStep(s);
    assert Top(s') == Delivering(s.pendingEvents[0], [], s.callbacks, None);
    assert |Listed(s')| == |s.callbacks|;
  }

  lemma OneTimeFewer(n: nat, per: nat, frame: nat, frame': nat)
    requires n > 0 && frame' < per + frame
    ensures (n - 1) * per + frame' < n * per + frame
  {
    assert n * per == (n - 1) * per + per;
  }

  lemma PopRank(s: Signaler, registers: nat)
    requires s.stack != [] && Top(s).LoopTop? && s.pendingEvents != []
    ensures PerEvent(WorkStep(s), registers) == PerEvent(s, registers)
    ensures Rank(WorkStep(s), registers) < Rank(s, registers)
  {
    PopFrames(s, registers);
    OneTimeFewer(|s.pendingEvents|, PerEvent(s, registers), InFrame(s), InFrame(WorkStep(s)));
  }

  lemma LeaveRank(s: Signaler, registers: nat)
    requires Inv(s) && s.stack != [] && Top(s).LoopTop? && s.pendingEvents == []
    ensures PerEvent(WorkStep(s), registers) == PerEvent(s, registers)
    ensures InFrame(WorkStep(s)) < InFrame(s)
  {
  }

  lemma DeliverRank(s: Signaler, registers: nat)
    requires Inv(s) && s.stack != [] && Top(s).Delivering?
    ensures PerEvent(WorkStep(s), registers) <= PerEvent(s, registers)
    ensures InFrame(WorkStep(s)) < InFrame(s) && WorkStep(s).pendingEvents == s.pendingEvents
  {
  }

  /** With the same events pending, the frame decides. */
  lemma FrameRank(s: Signaler, s': Signaler, registers: nat)
    requires s'.pendingEvents == s.pendingEvents && PerEvent(s', registers) <= PerEvent(s, registers)
    requires InFrame(s') < InFrame(s)
    ensures Rank(s', registers) < Rank(s, registers)
  {
    TimesFewer(|s.pendingEvents|, PerEvent(s', registers), PerEvent(s, registers));
  }

  /** Every action of the dispatcher lowers the rank. */
  lemma WorkLowersRank(s: Signaler, registers: nat)
    requires Inv(s) && s.stack != []
    ensures PerEvent(WorkStep(s), registers) <= PerEvent(s, registers)
    ensures Rank(WorkStep(s), registers) < Rank(s, registers)
  {
    if Top(s).LoopTop? && s.pendingEvents != [] {
      PopRank(s, registers);
    } else {
      if Top(s).LoopTop? {
        LeaveRank(s, registers);
      } else {
        DeliverRank(s, registers);
      }
      FrameRank(s, WorkStep(s), registers);
    }
  }

  ghost predicate Bound(works: nat, rank: nat, sends: nat, per: nat) {
    works <= rank + sends * (per + 1)
  }

  ghost predicate RankMoves(s: Signaler, registers: nat, s': Signaler, left: nat, work: nat, send: nat) {
    && PerEvent(s', left) <= PerEvent(s, registers)
    && Bound(Rank(s', left) + work, Rank(s, registers), send, PerEvent(s, registers))
  }

  lemma SendRank(s: Signaler, event: Event, registers: nat)
    requires Inv(s) && UserHasControl(s)
    ensures RankMoves(s, registers, SendStep(s, event), registers, 0, 1)
  {
    var s', n, per := SendStep(s, event), |s.pendingEvents|, PerEvent(s, registers);
    assert Listed(s') == Listed(s);
    assert (n + 1) * per == n * per + per;
  }

  lemma RegisterRank(s: Signaler, registers: nat)
    requires UserHasControl(s) && registers > 0
    ensures RankMoves(s, registers, RegisterStep(s), registers - 1, 0, 0)
  {
    TimesFewer(|s.pendingEvents|, PerEvent(RegisterStep(s), registers - 1), PerEvent(s, registers));
  }

  lemma IdleRank(s: Signaler, registers: nat, fewer: nat, send: nat)
    requires fewer <= registers
    ensures RankMoves(s, registers, s, fewer, 0, send)
  {
    TimesFewer(|s.pendingEvents|, PerEvent(s, fewer), PerEvent(s, registers));
    TimesFewer(PerEvent(s, registers) + 1, 0, send);
  }

  lemma DropRank(s: Signaler, callback: Callback, registers: nat)
    ensures RankMoves(s, registers, s.(alive := s.alive - {callback}), registers, 0, 0)
  {
    assert Listed(s.(alive := s.alive - {callback})) == Listed(s);
  }

  /** An action lowers the rank, an event sent raises it by one event's worth, nothing else raises it. */
  lemma StepRank(s: Signaler, step: Step, registers: nat)
    requires Inv(s) && (step.Work? ==> s.stack != []) && One(step.Register?) <= registers
    ensures RankMoves(s, registers, Apply(s, step), registers - One(step.Register?), One(step.Work?), One(step.Send?))
  {
    IdleRank(s, registers, registers - One(step.Register?), One(step.Send?));
    match step
    case Send(event) => if UserHasControl(s) { SendRank(s, event, registers); }
    case Register => if UserHasControl(s) { RegisterRank(s, registers); }
    case Drop(callback) => DropRank(s, callback, registers);
    case Work => WorkLowersRank(s, registers);
  }

  lemma AddUp(works: nat, work: nat, rank': nat, rank: nat, sends: nat, send: nat, per': nat, per: nat)
    requires Bound(works, rank', sends, per') && per' <= per && Bound(rank' + work, rank, send, per)
    ensures Bound(works + work, rank, sends + send, per)
  {
    TimesFewer(sends, per' + 1, per + 1);
    assert (sends + send) * (per + 1) == sends * (per + 1) + send * (per + 1);
  }

  /** The dispatcher only acts while there is a dispatch. */
  ghost predicate WorksWhenBusy(s: Signaler, steps: seq<Step>)
    decreases |steps|
  {
    steps != [] ==> (steps[0].Work? ==> s.stack != []) && WorksWhenBusy(Apply(s, steps[0]), steps[1..])
  }

  ghost predicate WorkBounded(s: Signaler, steps: seq<Step>) {
    var registers := Count(steps, IsRegister());
    Bound(Count(steps, IsWork()), Rank(s, registers), Count(steps, IsSend()), PerEvent(s, registers))
  }

  lemma CountFirst(step: Step, rest: seq<Step>, which: Step -> bool)
    ensures Count([step] + rest, which) == One(which(step)) + Count(rest, which)
  {
    assert ([step] + rest)[1..] == rest;
  }

  lemma NothingBounded(s: Signaler)
    ensures WorkBounded(s, [])
  {
  }

  lemma WorkBoundedStep(s: Signaler, step: Step, rest: seq<Step>, steps: seq<Step>)
    requires Inv(s) && (step.Work? ==> s.stack != []) && WorkBounded(Apply(s, step), rest)
    requires steps == [step] + rest
    ensures WorkBounded(s, steps)
  {
    var s', left := Apply(s, step), Count(rest, IsRegister());
    var registers := left + One(step.Register?);
    CountFirst(step, rest, IsRegister());
    CountFirst(step, rest, IsWork());
    CountFirst(step, rest, IsSend());
    StepRank(s, step, registers);
    AddUp(Count(rest, IsWork()), One(step.Work?), Rank(s', left), Rank(s, registers),
          Count(rest, IsSend()), One(step.Send?), PerEvent(s', left), PerEvent(s, registers));
  }

  /**
   * Dispatch terminates when only finitely many events are sent: the dispatcher's actions are
   * bounded by the rank, plus one event's worth for every event sent meanwhile.
   */
  lemma {:induction false} DispatchTerminates(s: Signaler, steps: seq<Step>)
    requires Inv(s) && WorksWhenBusy(s, steps)
    ensures WorkBounded(s, steps)
    decreases |steps|
  {
    if steps != [] {
      var step, rest := steps[0], steps[1..];
      StepKeeps(s, step);
      DispatchTerminates(Apply(s, step), rest);
      assert steps == [step] + rest;
      WorkBoundedStep(s, step, rest, steps);
    } else {
      NothingBounded(s);
    }
  }
}
