/** The signaler as an object: its loops and re-entrant calls, tied step by step to the machine. */
module SignalInners {
  import opened Wrappers
  import opened Signaling

  /** What a callback does while it runs. */
  datatype Action = Signal(event: Event) | AddCallback | DropToken(callback: Callback)

  lemma RunSnoc(steps: seq<Step>, step: Step)
    ensures Run(NEW_SIGNALER, steps + [step]) == Apply(Run(NEW_SIGNALER, steps), step)
  {
    assert (steps + [step])[..|steps|] == steps;
  }

  function StepOf(action: Action): Step {
    match action
    case Signal(event) => Step.Send(event)
    case AddCallback => Step.Register
    case DropToken(callback) => Step.Drop(callback)
  }

  function StepsOf(actions: seq<Action>): seq<Step> {
    if actions == [] then [] else StepsOf(actions[..|actions| - 1]) + [StepOf(actions[|actions| - 1])]
  }

  /** The signaler's own fields; the frames and histories aside. */
  ghost predicate SameFields(s: Signaler, s': Signaler) {
    && s'.callbacks == s.callbacks && s'.pendingCallbacks == s.pendingCallbacks
    && s'.pendingEvents == s.pendingEvents && s'.borrowed == s.borrowed
    && s'.alive == s.alive && s'.registered == s.registered
  }

  // The dispatcher's actions, from the frames the loops below stand for.

  lemma PopFrame(steps: seq<Step>)
    requires var s := Run(NEW_SIGNALER, steps); s.stack == [LoopTop] && s.pendingEvents != []
    ensures var s, s' := Run(NEW_SIGNALER, steps), Run(NEW_SIGNALER, steps + [Work]);
            && s'.stack == [Delivering(s.pendingEvents[0], [], s.callbacks, None)]
            && SameFields(s.(pendingEvents := s.pendingEvents[1..]), s')
  {
    RunSnoc(steps, Work);
  }

  lemma LeaveFrame(steps: seq<Step>)
    requires var s := Run(NEW_SIGNALER, steps); s.stack == [LoopTop] && s.pendingEvents == []
    ensures var s, s' := Run(NEW_SIGNALER, steps), Run(NEW_SIGNALER, steps + [Work]);
            s'.stack == [] && SameFields(s.(borrowed := false), s')
  {
    RunSnoc(steps, Work);
  }

  lemma FinishFrame(steps: seq<Step>, event: Event, kept: seq<Callback>)
    requires Run(NEW_SIGNALER, steps).stack == [Delivering(event, kept, [], None)]
    ensures var s, s' := Run(NEW_SIGNALER, steps), Run(NEW_SIGNALER, steps + [Work]);
            && s'.stack == [LoopTop]
            && SameFields(s.(callbacks := kept + s.pendingCallbacks, pendingCallbacks := []), s')
  {
    RunSnoc(steps, Work);
  }

  lemma ReachFrame(steps: seq<Step>, event: Event, kept: seq<Callback>, todo: seq<Callback>)
    requires Run(NEW_SIGNALER, steps).stack == [Delivering(event, kept, todo, None)] && todo != []
    ensures var s, s' := Run(NEW_SIGNALER, steps), Run(NEW_SIGNALER, steps + [Work]);
            && s'.stack == [Delivering(event, kept, todo[1..], if todo[0] in s.alive then Some(todo[0]) else None)]
            && SameFields(s, s')
  {
    RunSnoc(steps, Work);
    RunKeeps(steps);
  }

  lemma ReturnFrame(steps: seq<Step>, event: Event, kept: seq<Callback>, todo: seq<Callback>, callback: Callback)
    requires Run(NEW_SIGNALER, steps).stack == [Delivering(event, kept, todo, Some(callback))]
    ensures var s, s' := Run(NEW_SIGNALER, steps), Run(NEW_SIGNALER, steps + [Work]);
            s'.stack == [Delivering(event, kept + [callback], todo, None)] && SameFields(s, s')
  {
    RunSnoc(steps, Work);
  }

  lemma SendFrame(steps: seq<Step>, event: Event)
    requires UserHasControl(Run(NEW_SIGNALER, steps))
    ensures var s, s' := Run(NEW_SIGNALER, steps), Run(NEW_SIGNALER, steps + [Step.Send(event)]);
            && s'.stack == (if s.borrowed then s.stack else [LoopTop])
            && SameFields(s.(pendingEvents := s.pendingEvents + [event], borrowed := true), s')
  {
    RunSnoc(steps, Step.Send(event));
    RunKeeps(steps);
  }

  lemma RegisterFrame(steps: seq<Step>)
    requires UserHasControl(Run(NEW_SIGNALER, steps))
    ensures var s, s' := Run(NEW_SIGNALER, steps), Run(NEW_SIGNALER, steps + [Step.Register]);
            && s'.stack == s.stack
            && SameFields(s.(registered := s.registered + 1, alive := s.alive + {s.registered},
                             callbacks := if s.borrowed then s.callbacks else s.callbacks + [s.registered],
                             pendingCallbacks := if s.borrowed then s.pendingCallbacks + [s.registered]
                                                 else s.pendingCallbacks), s')
  {
    RunSnoc(steps, Step.Register);
  }

  lemma DropFrame(steps: seq<Step>, callback: Callback)
    requires UserHasControl(Run(NEW_SIGNALER, steps))
    ensures var s, s' := Run(NEW_SIGNALER, steps), Run(NEW_SIGNALER, steps + [Step.Drop(callback)]);
            s'.stack == s.stack && SameFields(s.(alive := s.alive - {callback}), s')
  {
    RunSnoc(steps, Step.Drop(callback));
  }

  class SignalInner {
    var callbacks: seq<Callback>
    var pendingCallbacks: seq<Callback>
    var pendingEvents: seq<Event>
    /** The callback list is mutably borrowed. */
    var borrowed: bool
    /** The callbacks whose tokens are still held. */
    var alive: set<Callback>
    /** The callbacks mutably borrowed because they run; entering one of them again would panic. */
    var running: set<Callback>
    var registered: nat
    /** What the callbacks will do, one entry for each time one of them is called. */
    var script: seq<seq<Action>>
    ghost var history: seq<Step>

    ghost function Model(): Signaler
      reads this
    {
      Run(NEW_SIGNALER, history)
    }

    ghost predicate Tied()
      reads this
    {
      var m := Model();
      && m.callbacks == callbacks && m.pendingCallbacks == pendingCallbacks && m.pendingEvents == pendingEvents
      && m.borrowed == borrowed && m.alive == alive && m.registered == registered
    }

    /** User code may call in. */
    ghost predicate Ready()
      reads this
    {
      Tied() && UserHasControl(Model()) && (!borrowed ==> running == {})
    }

    constructor (script: seq<seq<Action>>)
      ensures Ready() && history == [] && this.script == script
    {
      callbacks, pendingCallbacks, pendingEvents := [], [], [];
      borrowed, alive, running, registered := false, {}, {}, 0;
      this.script := script;
      history := [];
    }

    method Register() returns (callback: Callback)
      requires Ready()
      modifies this
      ensures Ready() && history == old(history) + [Step.Register]
      ensures callback == old(registered)
      ensures script == old(script) && running == old(running) && borrowed == old(borrowed)
    {
      ghost var steps := history;
      RegisterFrame(steps);
      callback := registered;
      registered := registered + 1;
      alive := alive + {callback};
      if !borrowed {
        callbacks := callbacks + [callback];
      } else {
        pendingCallbacks := pendingCallbacks + [callback];
      }
      history := steps + [Step.Register];
    }

    method Drop(callback: Callback)
      requires Ready()
      modifies this
      ensures Ready() && history == old(history) + [Step.Drop(callback)]
      ensures script == old(script) && running == old(running) && borrowed == old(borrowed)
    {
      DropFrame(history, callback);
      alive := alive - {callback};
      history := history + [Step.Drop(callback)];
    }

    /**
     * `send`. From within a callback it only queues; otherwise it drains the queue, however many
     * events the callbacks send meanwhile, and returns with nothing in progress.
     */
    method Send(event: Event)
      requires Ready()
      modifies this
      ensures Ready() && old(history) + [Step.Send(event)] <= history
      ensures borrowed == old(borrowed) && running == old(running)
      ensures old(borrowed) ==>
                history == old(history) + [Step.Send(event)] && script == old(script)
                && Model().stack == old(Model().stack) && callbacks == old(callbacks)
      ensures !old(borrowed) ==> Model().stack == []
      decreases |script|, 4
    {
      var idle := Enqueue(event);
      if idle {
        Drain();
      }
    }

    /** Queue the event, and borrow the callback list unless a dispatch already has. */
    method Enqueue(event: Event) returns (idle: bool)
      requires Ready()
      modifies this`pendingEvents, this`borrowed, this`history
      ensures Tied() && history == old(history) + [Step.Send(event)]
      ensures idle == !old(borrowed) && borrowed
      ensures Model().stack == if idle then [LoopTop] else old(Model().stack)
      ensures !idle ==> UserHasControl(Model())
    {
      SendFrame(history, event);
      pendingEvents := pendingEvents + [event];
      history := history + [Step.Send(event)];
      idle := !borrowed;
      borrowed := true;
    }

    /** The loop of `send`. */
    method Drain()
      requires Tied() && Model().stack == [LoopTop] && borrowed && running == {}
      modifies this
      ensures Tied() && Model().stack == [] && !borrowed && running == {}
      ensures old(history) <= history
      decreases |script|, 3
    {
      while true
        invariant Tied() && Model().stack == [LoopTop] && borrowed && running == {}
        invariant old(history) <= history && |script| <= |old(script)|
        decreases |script|, |pendingEvents|
      {
        if pendingEvents == [] {
          break;
        }
        var next := PopFront();
        DeliverNext(next);
      }
      LeaveFrame(history);
      borrowed := false;
      history := history + [Work];
    }

    /** The next event leaves the queue. */
    method PopFront() returns (next: Event)
      requires Tied() && Model().stack == [LoopTop] && pendingEvents != []
      modifies this`pendingEvents, this`history
      ensures next == old(pendingEvents)[0] && pendingEvents == old(pendingEvents)[1..]
      ensures Tied() && Model().stack == [Delivering(next, [], callbacks, None)]
      ensures old(history) <= history
    {
      PopFrame(history);
      next := pendingEvents[0];
      pendingEvents := pendingEvents[1..];
      history := history + [Work];
    }

    /** One event, and then the callbacks that registered meanwhile. */
    method DeliverNext(event: Event)
      requires Tied() && Model().stack == [Delivering(event, [], callbacks, None)]
      requires borrowed && running == {}
      modifies this
      ensures Tied() && Model().stack == [LoopTop] && borrowed && running == {}
      ensures old(history) <= history
      ensures |script| <= |old(script)| && (|script| == |old(script)| ==> pendingEvents == old(pendingEvents))
      decreases |script|, 2
    {
      var kept := Deliver(event);
      FinishFrame(history, event, kept);
      callbacks := kept + pendingCallbacks;
      pendingCallbacks := [];
      history := history + [Work];
    }

    /** The `retain`: run the listeners that can still be upgraded, keep exactly those. */
    method Deliver(event: Event) returns (kept: seq<Callback>)
      requires Tied() && Model().stack == [Delivering(event, [], callbacks, None)]
      requires borrowed && running == {}
      modifies this
      ensures Tied() && Model().stack == [Delivering(event, kept, [], None)]
      ensures borrowed && running == {} && callbacks == old(callbacks)
      ensures old(history) <= history
      ensures |script| <= |old(script)| && (|script| == |old(script)| ==> pendingEvents == old(pendingEvents))
      decreases |script|, 1
    {
      kept := [];
      var list := callbacks;
      assert list[0..] == list;
      for i := 0 to |list|
        invariant Tied() && Model().stack == [Delivering(event, kept, list[i..], None)]
        invariant borrowed && running == {} && callbacks == list
        invariant old(history) <= history
        invariant |script| <= |old(script)| && (|script| == |old(script)| ==> pendingEvents == old(pendingEvents))
      {
        ReachFrame(history, event, kept, list[i..]);
        var callback := list[i];
        assert list[i..][1..] == list[i + 1..];
        history := history + [Work];
        if callback in alive {
          Invoke(callback, event, kept, list[i + 1..]);
          kept := kept + [callback];
        }
      }
    }

    /** Run one callback, which is not running already: it does what the script says next. */
    method Invoke(callback: Callback, ghost event: Event, ghost kept: seq<Callback>, ghost todo: seq<Callback>)
      requires Tied() && Model().stack == [Delivering(event, kept, todo, Some(callback))]
      requires borrowed && callback !in running
      modifies this
      ensures Tied() && Model().stack == [Delivering(event, kept + [callback], todo, None)]
      ensures borrowed && running == old(running) && callbacks == old(callbacks)
      ensures script == if old(script) == [] then [] else old(script)[1..]
      ensures history == old(history) + (if old(script) == [] then [] else StepsOf(old(script)[0])) + [Work]
      ensures old(script) == [] ==> pendingEvents == old(pendingEvents)
      decreases |script|, 0
    {
      running := running + {callback};
      if script != [] {
        var actions := script[0];
        script := script[1..];
        Perform(actions);
      }
      ReturnFrame(history, event, kept, todo, callback);
      running := running - {callback};
      history := history + [Work];
    }

    method Perform(actions: seq<Action>)
      requires Ready() && borrowed
      modifies this
      ensures Ready() && Model().stack == old(Model().stack)
      ensures borrowed && running == old(running) && callbacks == old(callbacks)
      ensures history == old(history) + StepsOf(actions) && script == old(script)
      decreases |script|, 5
    {
      for i := 0 to |actions|
        invariant Ready() && Model().stack == old(Model().stack)
        invariant borrowed && running == old(running) && callbacks == old(callbacks)
        invariant history == old(history) + StepsOf(actions[..i]) && script == old(script)
      {
        assert actions[..i + 1][..i] == actions[..i];
        match actions[i]
        case Signal(event) => Send(event);
        case AddCallback =>
          RegisterFrame(history);
          var token := Register();
        case DropToken(callback) =>
          DropFrame(history, callback);
          Drop(callback);
      }
      assert actions[..|actions|] == actions;
    }
  }
}
