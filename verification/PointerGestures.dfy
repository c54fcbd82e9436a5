/** Swipe, pinch and hold gestures: src/wayland/pointer_gestures.rs. */
module PointerGestures {
  import opened Wrappers

  type Client = nat
  type Object = nat

  datatype Surface = Surface(client: Client, id: nat)

  datatype Kind = Swipe | Pinch | Hold

  /** The surface of an update or an end is the one the event was for; only a begin tells the client. */
  datatype Event =
    | Begin(surface: Surface)
    | Update(surface: Surface)
    | End(surface: Surface, cancelled: bool)

  /** One gesture object with the events sent to it. */
  datatype Gesture = Gesture(kind: Kind, client: Client, inProgressOn: Option<Surface>, trace: seq<Event>)

  /** What happens to the pointer on a surface. */
  datatype Op =
    | BeginOn(surface: Surface)
    | UpdateOn(surface: Surface)
    | EndOn(surface: Surface, cancelled: bool)
    | LeaveFrom(surface: Surface)

  /** The objects known to the pointer, by kind; `gestures` also remembers the destroyed ones. */
  datatype State = State(swipe: seq<Object>, pinch: seq<Object>, hold: seq<Object>, gestures: map<Object, Gesture>)

  datatype Command =
    | New(kind: Kind, obj: Object, client: Client)
    | Destroy(obj: Object)
    | Do(kind: Kind, op: Op)
    | Leave(surface: Surface)

  // ---- the specification ----------------------------------------------------------------------

  function Ended(g: Gesture, surface: Surface, cancelled: bool): Gesture {
    if g.inProgressOn == None then g
    else g.(inProgressOn := None, trace := g.trace + [End(surface, cancelled)])
  }

  function Apply(g: Gesture, op: Op): Gesture {
    match op
    case BeginOn(s) =>
      var g := Ended(g, s, true);
      g.(inProgressOn := Some(s), trace := g.trace + [Begin(s)])
    case UpdateOn(s) =>
      if g.inProgressOn == Some(s) then g.(trace := g.trace + [Update(s)]) else Ended(g, s, true)
    case EndOn(s, cancelled) => Ended(g, s, if g.inProgressOn == Some(s) then cancelled else true)
    case LeaveFrom(s) => Ended(g, s, true)
  }

  function Known(s: State, kind: Kind): seq<Object> {
    match kind
    case Swipe => s.swipe
    case Pinch => s.pinch
    case Hold => s.hold
  }

  function WithKnown(s: State, kind: Kind, known: seq<Object>): State {
    match kind
    case Swipe => s.(swipe := known)
    case Pinch => s.(pinch := known)
    case Hold => s.(hold := known)
  }

  function Without(known: seq<Object>, obj: Object): seq<Object> {
    if known == [] then []
    else (if known[0] == obj then [] else [known[0]]) + Without(known[1..], obj)
  }

  /** The op reaches the listed objects of the surface's client. */
  function Focused(gestures: map<Object, Gesture>, known: seq<Object>, op: Op): map<Object, Gesture> {
    map obj | obj in gestures ::
      if obj in known && gestures[obj].client == op.surface.client then Apply(gestures[obj], op) else gestures[obj]
  }

  function Step(s: State, c: Command): State {
    match c
    case New(kind, obj, client) =>
      if obj in s.gestures then s
      else
        WithKnown(s, kind, Known(s, kind) + [obj]).(gestures := s.gestures[obj := Gesture(kind, client, None, [])])
    case Destroy(obj) =>
      if obj !in s.gestures then s
      else
        var kind := s.gestures[obj].kind;
        WithKnown(s, kind, Without(Known(s, kind), obj))
    case Do(kind, op) =>
      if (kind == Hold && op.UpdateOn?) || op.LeaveFrom? then s
      else s.(gestures := Focused(s.gestures, Known(s, kind), op))
    case Leave(surface) =>
      var op := LeaveFrom(surface);
      s.(gestures := Focused(Focused(Focused(s.gestures, s.swipe, op), s.pinch, op), s.hold, op))
  }

  // ---- invariants -------------------------------------------------------------------------------

  ghost predicate Distinct(known: seq<Object>) {
    forall i, j :: 0 <= i < j < |known| ==> known[i] != known[j]
  }

  ghost predicate ListOk(known: seq<Object>, kind: Kind, gestures: map<Object, Gesture>) {
    Distinct(known) && forall obj :: obj in known ==> obj in gestures && gestures[obj].kind == kind
  }

  ghost predicate Listed(s: State) {
    forall kind :: ListOk(Known(s, kind), kind, s.gestures)
  }

  lemma {:induction false} WithoutOk(known: seq<Object>, obj: Object)
    requires Distinct(known)
    ensures Distinct(Without(known, obj))
    ensures forall other :: other in Without(known, obj) <==> other in known && other != obj
  {
    if known != [] {
      var head, rest := known[0], known[1..];
      assert forall other :: other in known <==> other == head || other in rest;
      WithoutOk(rest, obj);
      assert head !in rest;
      DistinctCons(head, Without(rest, obj));
    }
  }

  lemma DistinctCons(head: Object, rest: seq<Object>)
    requires Distinct(rest) && head !in rest
    ensures Distinct([head] + rest)
  {
  }

  /**
   * A prefix of (begin update* end)*: a begin comes first and after every end, and nothing else does;
   * an update, or an end that is not cancelled, is for the surface of the event before it, and so for
   * the surface of the open begin.
   */
  ghost predicate Protocol(trace: seq<Event>) {
    forall k :: 0 <= k < |trace| ==> EventOk(trace, k)
  }

  ghost predicate EventOk(trace: seq<Event>, k: nat)
    requires k < |trace|
  {
    && (trace[k].Begin? <==> k == 0 || trace[k - 1].End?)
    && (trace[k].Update? || (trace[k].End? && !trace[k].cancelled) ==>
          k > 0 && trace[k].surface == trace[k - 1].surface)
  }

  lemma ProtocolPush(trace: seq<Event>, e: Event)
    requires Protocol(trace)
    requires e.Begin? <==> Open(trace) == None
    requires e.Update? || (e.End? && !e.cancelled) ==> Open(trace) == Some(e.surface)
    ensures Protocol(trace + [e]) && Open(trace + [e]) == if e.End? then None else Some(e.surface)
  {
    var longer := trace + [e];
    forall k | 0 <= k < |longer| ensures EventOk(longer, k) {
      if k < |trace| {
        assert EventOk(trace, k);
      }
    }
  }

  /** The surface of the open begin, if one is open. */
  function Open(trace: seq<Event>): Option<Surface> {
    if trace == [] || trace[|trace| - 1].End? then None else Some(trace[|trace| - 1].surface)
  }

  ghost predicate GestureOk(g: Gesture) {
    && Protocol(g.trace)
    && g.inProgressOn == Open(g.trace)
    && forall k :: 0 <= k < |g.trace| ==> g.trace[k].surface.client == g.client
  }

  lemma ApplyKeeps(g: Gesture, op: Op)
    requires GestureOk(g) && op.surface.client == g.client
    ensures GestureOk(Apply(g, op))
  {
    var s := op.surface;
    if g.inProgressOn.Some? {
      ProtocolPush(g.trace, End(s, true));
      if g.inProgressOn == Some(s) {
        ProtocolPush(g.trace, Update(s));
        ProtocolPush(g.trace, End(s, false));
      }
    }
    if op.BeginOn? {
      ProtocolPush(Ended(g, s, true).trace, Begin(s));
    }
  }

  // ---- the object -----------------------------------------------------------------------------

  lemma FocusedNext(gestures: map<Object, Gesture>, known: seq<Object>, k: nat, op: Op)
    requires k < |known| && Distinct(known) && known[k] in gestures
    ensures var done, obj := Focused(gestures, known[..k], op), known[k];
            && obj in done && done[obj] == gestures[obj]
            && Focused(gestures, known[..k + 1], op)
            == if gestures[obj].client == op.surface.client then done[obj := Apply(gestures[obj], op)] else done
  {
    assert known[..k + 1] == known[..k] + [known[k]];
  }

  class PointerHandle {
    var knownSwipe: seq<Object>
    var knownPinch: seq<Object>
    var knownHold: seq<Object>
    var gestures: map<Object, Gesture>

    ghost function View(): State
      reads this
    {
      State(knownSwipe, knownPinch, knownHold, gestures)
    }

    constructor ()
      ensures View() == State([], [], [], map[])
    {
      knownSwipe, knownPinch, knownHold, gestures := [], [], [], map[];
    }

    method NewGesture(kind: Kind, obj: Object, client: Client)
      requires obj !in gestures
      modifies this
      ensures View() == Step(old(View()), New(kind, obj, client))
    {
      gestures := gestures[obj := Gesture(kind, client, None, [])];
      match kind
      case Swipe => knownSwipe := knownSwipe + [obj];
      case Pinch => knownPinch := knownPinch + [obj];
      case Hold => knownHold := knownHold + [obj];
    }

    method Destroyed(obj: Object)
      requires obj in gestures
      modifies this
      ensures View() == Step(old(View()), Destroy(obj))
    {
      match gestures[obj].kind
      case Swipe => knownSwipe := Retain(knownSwipe, obj);
      case Pinch => knownPinch := Retain(knownPinch, obj);
      case Hold => knownHold := Retain(knownHold, obj);
    }

    static method Retain(known: seq<Object>, obj: Object) returns (kept: seq<Object>)
      ensures kept == Without(known, obj)
    {
      kept := [];
      var k: nat := |known|;
      while k > 0
        invariant k <= |known| && kept == Without(known[k..], obj)
      {
        k := k - 1;
        assert known[k..][1..] == known[k + 1..];
        if known[k] != obj {
          kept := [known[k]] + kept;
        }
      }
    }

    /** Stores or takes what is in progress, and sends what that calls for. */
    static method Notified(gesture: Gesture, op: Op) returns (g: Gesture)
      ensures g == Apply(gesture, op)
    {
      g := gesture;
      var ongoing := g.inProgressOn;
      match op
      case BeginOn(surface) =>
        g := g.(inProgressOn := Some(surface));
        if ongoing.Some? {
          g := g.(trace := g.trace + [End(surface, true)]);
        }
        g := g.(trace := g.trace + [Begin(surface)]);
      case UpdateOn(surface) =>
        if ongoing == Some(surface) {
          g := g.(trace := g.trace + [Update(surface)]);
        } else {
          g := g.(inProgressOn := None);
          if ongoing.Some? {
            g := g.(trace := g.trace + [End(surface, true)]);
          }
        }
      case EndOn(surface, cancelled) =>
        g := g.(inProgressOn := None);
        if ongoing.Some? {
          var isCancelled := if ongoing == Some(surface) then cancelled else true;
          g := g.(trace := g.trace + [End(surface, isCancelled)]);
        }
      case LeaveFrom(surface) =>
        g := g.(inProgressOn := None);
        if ongoing.Some? {
          g := g.(trace := g.trace + [End(surface, true)]);
        }
    }

    method ForEachFocused(known: seq<Object>, op: Op)
      requires Distinct(known) && forall obj :: obj in known ==> obj in gestures
      modifies this`gestures
      ensures gestures == Focused(old(gestures), known, op)
    {
      assert Focused(gestures, known[..0], op) == gestures;
      for k := 0 to |known|
        invariant gestures == Focused(old(gestures), known[..k], op)
      {
        FocusedNext(old(gestures), known, k, op);
        if gestures[known[k]].client == op.surface.client {
          var g := Notified(gestures[known[k]], op);
          gestures := gestures[known[k] := g];
        }
      }
      assert known[..|known|] == known;
    }

    /** The begin, update and end of a swipe, pinch or hold; a hold has no updates. */
    method GestureEvent(kind: Kind, op: Op)
      requires Listed(View()) && !op.LeaveFrom? && !(kind == Hold && op.UpdateOn?)
      modifies this
      ensures View() == Step(old(View()), Do(kind, op))
    {
      assert ListOk(Known(View(), kind), kind, gestures);
      match kind
      case Swipe => ForEachFocused(knownSwipe, op);
      case Pinch => ForEachFocused(knownPinch, op);
      case Hold => ForEachFocused(knownHold, op);
    }

    method PointerLeave(surface: Surface)
      requires Listed(View())
      modifies this
      ensures View() == Step(old(View()), Leave(surface))
    {
      assert ListOk(Known(View(), Swipe), Swipe, gestures);
      assert ListOk(Known(View(), Pinch), Pinch, gestures);
      assert ListOk(Known(View(), Hold), Hold, gestures);
      ForEachFocused(knownSwipe, LeaveFrom(surface));
      ForEachFocused(knownPinch, LeaveFrom(surface));
      ForEachFocused(knownHold, LeaveFrom(surface));
    }
  }

  // ---- whole runs -------------------------------------------------------------------------------

  function Run(cmds: seq<Command>): State {
    if cmds == [] then State([], [], [], map[]) else Step(Run(cmds[..|cmds| - 1]), cmds[|cmds| - 1])
  }

  /** What the command does to one object: at most one op. */
  function OpFor(s: State, c: Command, obj: Object): Option<Op>
    requires obj in s.gestures
  {
    var g := s.gestures[obj];
    if obj !in Known(s, g.kind) then None
    else match c
      case Do(kind, op) =>
        if kind == g.kind && op.surface.client == g.client && !op.LeaveFrom? && !(kind == Hold && op.UpdateOn?)
        then Some(op) else None
      case Leave(surface) => if surface.client == g.client then Some(LeaveFrom(surface)) else None
      case _ => None
  }

  lemma FocusedKeepsLists(s: State, known: seq<Object>, op: Op)
    requires Listed(s)
    ensures Listed(s.(gestures := Focused(s.gestures, known, op)))
  {
    var s' := s.(gestures := Focused(s.gestures, known, op));
    forall kind ensures ListOk(Known(s', kind), kind, s'.gestures) {
      assert ListOk(Known(s, kind), kind, s.gestures);
    }
  }

  lemma NewKeepsLists(s: State, c: Command)
    requires Listed(s) && c.New? && c.obj !in s.gestures
    ensures Listed(Step(s, c))
  {
    var s' := Step(s, c);
    forall kind ensures ListOk(Known(s', kind), kind, s'.gestures) {
      assert ListOk(Known(s, kind), kind, s.gestures);
      assert Known(s', kind) == Known(s, kind) + if kind == c.kind then [c.obj] else [];
    }
  }

  lemma DestroyKeepsLists(s: State, obj: Object)
    requires Listed(s) && obj in s.gestures
    ensures Listed(Step(s, Destroy(obj)))
  {
    var s' := Step(s, Destroy(obj));
    forall kind ensures ListOk(Known(s', kind), kind, s'.gestures) {
      assert ListOk(Known(s, kind), kind, s.gestures);
      WithoutOk(Known(s, kind), obj);
      assert s'.gestures == s.gestures;
    }
  }

  lemma StepKeepsLists(s: State, c: Command)
    requires Listed(s)
    ensures Listed(Step(s, c))
  {
    match c
    case New(_, obj, _) =>
      if obj !in s.gestures {
        NewKeepsLists(s, c);
      }
    case Destroy(obj) =>
      if obj in s.gestures {
        DestroyKeepsLists(s, obj);
      }
    case Do(kind, op) =>
      FocusedKeepsLists(s, Known(s, kind), op);
    case Leave(surface) =>
      var op := LeaveFrom(surface);
      FocusedKeepsLists(s, s.swipe, op);
      var s1 := s.(gestures := Focused(s.gestures, s.swipe, op));
      FocusedKeepsLists(s1, s1.pinch, op);
      var s2 := s1.(gestures := Focused(s1.gestures, s1.pinch, op));
      FocusedKeepsLists(s2, s2.hold, op);
  }

  lemma StepOnObject(s: State, c: Command, obj: Object)
    requires Listed(s) && obj in s.gestures
    ensures obj in Step(s, c).gestures
    ensures var op := OpFor(s, c, obj);
            Step(s, c).gestures[obj] == if op.Some? then Apply(s.gestures[obj], op.value) else s.gestures[obj]
  {
    assert ListOk(s.swipe, Swipe, s.gestures) by { assert ListOk(Known(s, Swipe), Swipe, s.gestures); }
    assert ListOk(s.pinch, Pinch, s.gestures) by { assert ListOk(Known(s, Pinch), Pinch, s.gestures); }
    assert ListOk(s.hold, Hold, s.gestures) by { assert ListOk(Known(s, Hold), Hold, s.gestures); }
  }

  ghost predicate AllOk(s: State) {
    Listed(s) && forall obj :: obj in s.gestures ==> GestureOk(s.gestures[obj])
  }

  lemma {:induction false} RunKeeps(cmds: seq<Command>)
    ensures AllOk(Run(cmds))
  {
    if cmds == [] {
      forall kind ensures ListOk(Known(Run([]), kind), kind, map[]) {}
    } else {
      var s, c := Run(cmds[..|cmds| - 1]), cmds[|cmds| - 1];
      RunKeeps(cmds[..|cmds| - 1]);
      StepKeepsLists(s, c);
      forall obj | obj in Step(s, c).gestures ensures GestureOk(Step(s, c).gestures[obj]) {
        if obj in s.gestures {
          StepOnObject(s, c, obj);
          if OpFor(s, c, obj).Some? {
            ApplyKeeps(s.gestures[obj], OpFor(s, c, obj).value);
          }
        }
      }
    }
  }

  /** Every object sees a prefix of (begin update* end)*, on surfaces of its own client only. */
  lemma EventsFollowProtocol(cmds: seq<Command>, obj: Object)
    requires obj in Run(cmds).gestures
    ensures var g := Run(cmds).gestures[obj];
            Protocol(g.trace) && forall k :: 0 <= k < |g.trace| ==> g.trace[k].surface.client == g.client
  {
    RunKeeps(cmds);
  }

  // ---- one object among the others ----------------------------------------------------------------

  /** The ops of the run that concern the object while it is known. */
  function Seen(cmds: seq<Command>, obj: Object): seq<Op> {
    if cmds == [] then []
    else
      var before, s, c := cmds[..|cmds| - 1], Run(cmds[..|cmds| - 1]), cmds[|cmds| - 1];
      if obj in s.gestures && OpFor(s, c, obj).Some? then Seen(before, obj) + [OpFor(s, c, obj).value]
      else Seen(before, obj)
  }

  function Play(g: Gesture, ops: seq<Op>): Gesture {
    if ops == [] then g else Apply(Play(g, ops[..|ops| - 1]), ops[|ops| - 1])
  }

  ghost predicate PlaysIts(cmds: seq<Command>, obj: Object) {
    if obj in Run(cmds).gestures then
      var g := Run(cmds).gestures[obj];
      g == Play(Gesture(g.kind, g.client, None, []), Seen(cmds, obj))
    else Seen(cmds, obj) == []
  }

  lemma SeenNext(cmds: seq<Command>, c: Command, obj: Object)
    ensures var s := Run(cmds);
            Seen(cmds + [c], obj) == Seen(cmds, obj)
              + if obj in s.gestures && OpFor(s, c, obj).Some? then [OpFor(s, c, obj).value] else []
    ensures Run(cmds + [c]) == Step(Run(cmds), c)
  {
    assert (cmds + [c])[..|cmds|] == cmds;
  }

  lemma NewObject(s: State, c: Command, obj: Object)
    requires obj !in s.gestures && obj in Step(s, c).gestures
    ensures var g := Step(s, c).gestures[obj]; g == Gesture(g.kind, g.client, None, [])
  {
  }

  lemma ApplyIdentity(g: Gesture, op: Op)
    ensures Apply(g, op).kind == g.kind && Apply(g, op).client == g.client
  {
  }

  lemma PlaysNext(cmds: seq<Command>, c: Command, obj: Object)
    requires PlaysIts(cmds, obj)
    ensures PlaysIts(cmds + [c], obj)
  {
    var s := Run(cmds);
    SeenNext(cmds, c, obj);
    if obj in s.gestures {
      var g, op := s.gestures[obj], OpFor(s, c, obj);
      RunKeeps(cmds);
      StepOnObject(s, c, obj);
      if op == None {
        assert Seen(cmds + [c], obj) == Seen(cmds, obj);
      } else {
        PlayPush(Gesture(g.kind, g.client, None, []), Seen(cmds, obj), op.value);
        ApplyIdentity(g, op.value);
      }
    } else if obj in Step(s, c).gestures {
      NewObject(s, c, obj);
    }
  }

  /** Nothing but its own ops reaches an object. */
  lemma {:induction false} ObjectPlaysItsOps(cmds: seq<Command>, obj: Object)
    ensures PlaysIts(cmds, obj)
  {
    if cmds != [] {
      var n := |cmds| - 1;
      ObjectPlaysItsOps(cmds[..n], obj);
      PlaysNext(cmds[..n], cmds[n], obj);
      assert cmds[..n] + [cmds[n]] == cmds;
    }
  }

  /** Op `i` began on the surface, and only updates on it came since. */
  ghost predicate BegunAt(ops: seq<Op>, i: nat, surface: Surface) {
    i < |ops| && ops[i] == BeginOn(surface) && forall k :: i < k < |ops| ==> ops[k] == UpdateOn(surface)
  }

  ghost predicate Begun(ops: seq<Op>, surface: Surface) { exists i: nat :: BegunAt(ops, i, surface) }

  lemma {:induction false} InProgressIff(g: Gesture, ops: seq<Op>, surface: Surface)
    requires g.inProgressOn == None
    ensures Play(g, ops).inProgressOn == Some(surface) <==> Begun(ops, surface)
  {
    if ops != [] {
      var before, n := ops[..|ops| - 1], |ops| - 1;
      InProgressIff(g, before, surface);
      if ops[n] == BeginOn(surface) {
        assert BegunAt(ops, n, surface);
      } else if ops[n] == UpdateOn(surface) {
        forall i: nat ensures BegunAt(ops, i, surface) <==> BegunAt(before, i, surface) {}
      } else {
        forall i: nat ensures !BegunAt(ops, i, surface) {}
      }
    }
  }

  lemma PushedDiffer(trace: seq<Event>, a: Event, b: Event)
    ensures trace + [a] != trace
    ensures trace + [a] == trace + [b] <==> a == b
  {
    assert (trace + [a])[|trace|] == a && (trace + [b])[|trace|] == b;
  }

  lemma UpdateSent(g: Gesture, surface: Surface)
    ensures Apply(g, UpdateOn(surface)).trace == g.trace + [Update(surface)] <==> g.inProgressOn == Some(surface)
  {
    PushedDiffer(g.trace, Update(surface), End(surface, true));
  }

  lemma EndSent(g: Gesture, surface: Surface, cancelled: bool)
    ensures Apply(g, EndOn(surface, cancelled)).trace == g.trace + [End(surface, cancelled)]
       <==> g.inProgressOn == Some(surface) || (cancelled && g.inProgressOn.Some?)
  {
    PushedDiffer(g.trace, End(surface, cancelled), End(surface, true));
  }

  /**
   * An update is delivered, and an end delivered as the compositor meant it, just when the object saw
   * a begin on that surface and then only updates on it; no other update gets through, and any other
   * end that does is cancelled.
   */
  lemma DeliveredIff(cmds: seq<Command>, obj: Object, surface: Surface, cancelled: bool)
    requires obj in Run(cmds).gestures
    ensures var g, begun := Run(cmds).gestures[obj], Begun(Seen(cmds, obj), surface);
            && (Apply(g, UpdateOn(surface)).trace == g.trace + [Update(surface)] <==> begun)
            && (Apply(g, EndOn(surface, cancelled)).trace == g.trace + [End(surface, cancelled)]
                <==> begun || (cancelled && g.inProgressOn.Some?))
  {
    var g := Run(cmds).gestures[obj];
    UpdateSent(g, surface);
    EndSent(g, surface, cancelled);
    ObjectPlaysItsOps(cmds, obj);
    assert PlaysIts(cmds, obj);
    InProgressIff(Gesture(g.kind, g.client, None, []), Seen(cmds, obj), surface);
  }

  function Updates(surface: Surface, n: nat): seq<Event> {
    if n == 0 then [] else Updates(surface, n - 1) + [Update(surface)]
  }

  function UpdateOps(surface: Surface, n: nat): seq<Op> {
    if n == 0 then [] else UpdateOps(surface, n - 1) + [UpdateOn(surface)]
  }

  /** The gesture with its trace so extended. */
  function Extended(g: Gesture, events: seq<Event>): Gesture { g.(trace := g.trace + events) }

  lemma OneMoreUpdate(g: Gesture, surface: Surface, n: nat)
    requires g.inProgressOn == Some(surface) && n > 0
    ensures Apply(Extended(g, Updates(surface, n - 1)), UpdateOn(surface)) == Extended(g, Updates(surface, n))
  {
    assert g.trace + Updates(surface, n - 1) + [Update(surface)]
        == g.trace + (Updates(surface, n - 1) + [Update(surface)]);
  }

  lemma {:induction false} PlayUpdates(g: Gesture, surface: Surface, n: nat)
    requires g.inProgressOn == Some(surface)
    ensures Play(g, UpdateOps(surface, n)) == Extended(g, Updates(surface, n))
  {
    if n > 0 {
      PlayUpdates(g, surface, n - 1);
      PlayPush(g, UpdateOps(surface, n - 1), UpdateOn(surface));
      OneMoreUpdate(g, surface, n);
    } else {
      assert g.trace + [] == g.trace;
    }
  }

  lemma PlayPush(g: Gesture, ops: seq<Op>, op: Op)
    ensures Play(g, ops + [op]) == Apply(Play(g, ops), op)
  {
    assert (ops + [op])[..|ops|] == ops;
  }

  lemma {:induction false} PlayFirst(g: Gesture, op: Op, ops: seq<Op>)
    ensures Play(g, [op] + ops) == Play(Apply(g, op), ops)
  {
    if ops == [] {
      PlayPush(g, [], op);
      assert [op] + ops == [] + [op];
    } else {
      var n := |ops| - 1;
      PlayFirst(g, op, ops[..n]);
      PlayPush(g, [op] + ops[..n], ops[n]);
      assert [op] + ops == [op] + ops[..n] + [ops[n]];
    }
  }

  /** The cancelled end of a gesture that was open, then the whole new one. */
  function WholeGesture(open: Option<Surface>, surface: Surface, n: nat, cancelled: bool): seq<Event> {
    (if open.Some? then [End(surface, true)] else []) + [Begin(surface)] + Updates(surface, n)
    + [End(surface, cancelled)]
  }

  /** A gesture that nothing interrupts arrives whole, with as many updates as were sent. */
  lemma WholeGestureArrives(g: Gesture, surface: Surface, n: nat, cancelled: bool)
    ensures Play(g, [BeginOn(surface)] + UpdateOps(surface, n) + [EndOn(surface, cancelled)])
         == g.(inProgressOn := None, trace := g.trace + WholeGesture(g.inProgressOn, surface, n, cancelled))
  {
    var begun := Apply(g, BeginOn(surface));
    PlayFirst(g, BeginOn(surface), UpdateOps(surface, n));
    PlayUpdates(begun, surface, n);
    PlayPush(g, [BeginOn(surface)] + UpdateOps(surface, n), EndOn(surface, cancelled));
    WholeTrace(g.trace, if g.inProgressOn.Some? then [End(surface, true)] else [], [Begin(surface)],
               Updates(surface, n), [End(surface, cancelled)]);
  }

  lemma WholeTrace(t: seq<Event>, a: seq<Event>, b: seq<Event>, c: seq<Event>, d: seq<Event>)
    ensures t + a + b + c + d == t + (a + b + c + d)
    ensures a == [] ==> t + b + c + d == t + (a + b + c + d)
  {
  }

  // ---- what an object sees, told by the commands alone ----------------------------------------------

  /** What the command means for any object of the kind and client. */
  function OpOf(c: Command, kind: Kind, client: Client): Option<Op> {
    match c
    case Do(other, op) =>
      if other == kind && op.surface.client == client && !op.LeaveFrom? && (op.UpdateOn? ==> kind != Hold)
      then Some(op) else None
    case Leave(surface) => if surface.client == client then Some(LeaveFrom(surface)) else None
    case _ => None
  }

  /** Command `i` creates the object, being the first to name it so. */
  ghost predicate CreatedAt(cmds: seq<Command>, i: nat, kind: Kind, obj: Object, client: Client) {
    && i < |cmds| && cmds[i] == New(kind, obj, client)
    && forall k :: 0 <= k < i ==> !(cmds[k].New? && cmds[k].obj == obj)
  }

  ghost predicate Alive(cmds: seq<Command>, i: nat, obj: Object) {
    forall k :: i < k < |cmds| ==> cmds[k] != Destroy(obj)
  }

  /** The ops of the commands after `i`, up to the one that destroys the object. */
  function OpsAfter(cmds: seq<Command>, i: nat, kind: Kind, obj: Object, client: Client): seq<Op>
    requires i < |cmds|
  {
    var n := |cmds| - 1;
    if i == n then []
    else
      var before := OpsAfter(cmds[..n], i, kind, obj, client);
      if Destroy(obj) in cmds[i + 1..n] || OpOf(cmds[n], kind, client) == None then before
      else before + [OpOf(cmds[n], kind, client).value]
  }

  lemma {:induction false} NotCreatedBefore(cmds: seq<Command>, obj: Object)
    requires forall k :: 0 <= k < |cmds| ==> !(cmds[k].New? && cmds[k].obj == obj)
    ensures obj !in Run(cmds).gestures
  {
    if cmds != [] {
      NotCreatedBefore(cmds[..|cmds| - 1], obj);
    }
  }

  lemma StepNew(s: State, kind: Kind, obj: Object, client: Client)
    requires obj !in s.gestures
    ensures var s' := Step(s, New(kind, obj, client));
            && obj in s'.gestures && s'.gestures[obj] == Gesture(kind, client, None, [])
            && obj in Known(s', kind)
  {
  }

  /** An object stays known until it is destroyed, and is not known again. */
  lemma StepKnown(s: State, c: Command, obj: Object)
    requires Listed(s) && obj in s.gestures
    ensures obj in Step(s, c).gestures && Step(s, c).gestures[obj].kind == s.gestures[obj].kind
    ensures var kind := s.gestures[obj].kind;
            obj in Known(Step(s, c), kind) <==> obj in Known(s, kind) && c != Destroy(obj)
  {
    var kind := s.gestures[obj].kind;
    StepOnObject(s, c, obj);
    if OpFor(s, c, obj).Some? {
      ApplyIdentity(s.gestures[obj], OpFor(s, c, obj).value);
    }
    if c.Destroy? && c.obj in s.gestures {
      assert ListOk(Known(s, s.gestures[c.obj].kind), s.gestures[c.obj].kind, s.gestures);
      WithoutOk(Known(s, s.gestures[c.obj].kind), c.obj);
    }
  }

  /** The object as the commands alone tell it. */
  ghost predicate AsCommanded(cmds: seq<Command>, i: nat, kind: Kind, obj: Object, client: Client)
    requires i < |cmds|
  {
    var s := Run(cmds);
    && obj in s.gestures
    && s.gestures[obj] == Play(Gesture(kind, client, None, []), OpsAfter(cmds, i, kind, obj, client))
    && s.gestures[obj].kind == kind && s.gestures[obj].client == client
    && (obj in Known(s, kind) <==> Alive(cmds, i, obj))
  }

  lemma AliveNext(cmds: seq<Command>, i: nat, obj: Object)
    requires i < |cmds| - 1
    ensures var n := |cmds| - 1;
            && (Alive(cmds, i, obj) <==> Alive(cmds[..n], i, obj) && cmds[n] != Destroy(obj))
            && (Alive(cmds[..n], i, obj) <==> Destroy(obj) !in cmds[i + 1..n])
  {
    var n := |cmds| - 1;
    forall k | i < k < n ensures cmds[i + 1..n][k - i - 1] == cmds[k] {}
  }

  lemma OpsAfterNext(cmds: seq<Command>, i: nat, kind: Kind, obj: Object, client: Client)
    requires i < |cmds| - 1
    ensures var n := |cmds| - 1;
            var before, op := OpsAfter(cmds[..n], i, kind, obj, client), OpOf(cmds[n], kind, client);
            OpsAfter(cmds, i, kind, obj, client)
            == if Alive(cmds[..n], i, obj) && op.Some? then before + [op.value] else before
  {
    AliveNext(cmds, i, obj);
  }

  /** For a known object the state and the command alone agree on what it means. */
  lemma OpForIs(s: State, c: Command, obj: Object)
    requires obj in s.gestures
    ensures var g := s.gestures[obj];
            OpFor(s, c, obj) == if obj in Known(s, g.kind) then OpOf(c, g.kind, g.client) else None
  {
  }

  lemma NextAsCommanded(cmds: seq<Command>, i: nat, kind: Kind, obj: Object, client: Client)
    requires i < |cmds| - 1 && AsCommanded(cmds[..|cmds| - 1], i, kind, obj, client)
    ensures AsCommanded(cmds, i, kind, obj, client)
  {
    var n := |cmds| - 1;
    var s, c, op := Run(cmds[..n]), cmds[n], OpOf(cmds[n], kind, client);
    RunKeeps(cmds[..n]);
    StepKnown(s, c, obj);
    StepOnObject(s, c, obj);
    AliveNext(cmds, i, obj);
    OpForIs(s, c, obj);
    OpsAfterNext(cmds, i, kind, obj, client);
    if Alive(cmds[..n], i, obj) && op.Some? {
      PlayPush(Gesture(kind, client, None, []), OpsAfter(cmds[..n], i, kind, obj, client), op.value);
      ApplyIdentity(s.gestures[obj], op.value);
    }
  }

  /**
   * Over every run an object has played exactly the ops of the commands after the one that created it
   * and before the one that destroyed it, those for its kind and for its client's surfaces.
   */
  lemma {:induction false} ObjectPlaysItsCommands(cmds: seq<Command>, i: nat, kind: Kind, obj: Object, client: Client)
    requires CreatedAt(cmds, i, kind, obj, client)
    ensures AsCommanded(cmds, i, kind, obj, client)
  {
    var n := |cmds| - 1;
    if i < n {
      ObjectPlaysItsCommands(cmds[..n], i, kind, obj, client);
      NextAsCommanded(cmds, i, kind, obj, client);
    } else {
      NotCreatedBefore(cmds[..n], obj);
      StepNew(Run(cmds[..n]), kind, obj, client);
    }
  }

  /** Command `b` began a gesture on the surface, and for such an object only updates on it came since. */
  ghost predicate BegunBy(cmds: seq<Command>, b: nat, kind: Kind, client: Client, surface: Surface) {
    && b < |cmds| && cmds[b] == Do(kind, BeginOn(surface)) && surface.client == client
    && forall k :: b < k < |cmds| ==> OpOf(cmds[k], kind, client) in {None, Some(UpdateOn(surface))}
  }

  ghost predicate BegunAfter(cmds: seq<Command>, i: nat, kind: Kind, client: Client, surface: Surface) {
    exists b: nat :: i < b && BegunBy(cmds, b, kind, client, surface)
  }

  lemma BegunAfterNext(cmds: seq<Command>, i: nat, kind: Kind, client: Client, surface: Surface)
    requires i < |cmds| - 1
    ensures var n := |cmds| - 1;
            BegunAfter(cmds, i, kind, client, surface)
            <==> || (cmds[n] == Do(kind, BeginOn(surface)) && surface.client == client)
                 || (BegunAfter(cmds[..n], i, kind, client, surface)
                     && OpOf(cmds[n], kind, client) in {None, Some(UpdateOn(surface))})
  {
    var n := |cmds| - 1;
    if b: nat :| i < b && BegunBy(cmds, b, kind, client, surface) {
      assert b < n ==> BegunBy(cmds[..n], b, kind, client, surface);
    }
    if cmds[n] == Do(kind, BeginOn(surface)) && surface.client == client {
      assert BegunBy(cmds, n, kind, client, surface);
    } else if b: nat :| i < b && BegunBy(cmds[..n], b, kind, client, surface) {
      assert OpOf(cmds[n], kind, client) in {None, Some(UpdateOn(surface))} ==> BegunBy(cmds, b, kind, client, surface);
    }
  }

  lemma ApplyProgress(g: Gesture, op: Op, surface: Surface)
    ensures Apply(g, op).inProgressOn == Some(surface)
       <==> op == BeginOn(surface) || (g.inProgressOn == Some(surface) && op == UpdateOn(surface))
  {
  }

  lemma PlayProgress(g: Gesture, ops: seq<Op>, op: Op, surface: Surface)
    ensures Play(g, ops + [op]).inProgressOn == Some(surface)
       <==> op == BeginOn(surface) || (Play(g, ops).inProgressOn == Some(surface) && op == UpdateOn(surface))
  {
    PlayPush(g, ops, op);
    ApplyProgress(Play(g, ops), op, surface);
  }

  lemma BeginOpIff(c: Command, kind: Kind, client: Client, surface: Surface)
    ensures OpOf(c, kind, client) == Some(BeginOn(surface))
       <==> c == Do(kind, BeginOn(surface)) && surface.client == client
  {
  }

  lemma {:induction false} ProgressAsCommanded(cmds: seq<Command>, i: nat, kind: Kind, obj: Object, client: Client,
                                               surface: Surface)
    requires i < |cmds| && Alive(cmds, i, obj)
    ensures Play(Gesture(kind, client, None, []), OpsAfter(cmds, i, kind, obj, client)).inProgressOn == Some(surface)
       <==> BegunAfter(cmds, i, kind, client, surface)
  {
    var n := |cmds| - 1;
    if i < n {
      var op := OpOf(cmds[n], kind, client);
      AliveNext(cmds, i, obj);
      OpsAfterNext(cmds, i, kind, obj, client);
      ProgressAsCommanded(cmds[..n], i, kind, obj, client, surface);
      BegunAfterNext(cmds, i, kind, client, surface);
      BeginOpIff(cmds[n], kind, client, surface);
      if op.Some? {
        PlayProgress(Gesture(kind, client, None, []), OpsAfter(cmds[..n], i, kind, obj, client), op.value, surface);
      }
    }
  }

  /** The trace of the object after one more command. */
  function TraceAfter(cmds: seq<Command>, c: Command, obj: Object): seq<Event>
    requires obj in Run(cmds + [c]).gestures
  {
    Run(cmds + [c]).gestures[obj].trace
  }

  /**
   * Over every run, an update issued as a command reaches a living object, and an end as it was meant,
   * exactly if a begin command on that surface came since the object was created, for its kind and
   * client, and then only updates on it.
   */
  lemma CommandDeliveredIff(cmds: seq<Command>, i: nat, kind: Kind, obj: Object, client: Client,
                            surface: Surface, cancelled: bool)
    requires CreatedAt(cmds, i, kind, obj, client) && Alive(cmds, i, obj) && surface.client == client
    ensures var update, end := Do(kind, UpdateOn(surface)), Do(kind, EndOn(surface, cancelled));
            && obj in Run(cmds).gestures && obj in Run(cmds + [update]).gestures && obj in Run(cmds + [end]).gestures
            && var g, begun := Run(cmds).gestures[obj], BegunAfter(cmds, i, kind, client, surface);
               && (TraceAfter(cmds, update, obj) == g.trace + [Update(surface)] <==> kind != Hold && begun)
               && (TraceAfter(cmds, end, obj) == g.trace + [End(surface, cancelled)]
                   <==> begun || (cancelled && g.inProgressOn.Some?))
  {
    ObjectPlaysItsCommands(cmds, i, kind, obj, client);
    ProgressAsCommanded(cmds, i, kind, obj, client, surface);
    var g := Run(cmds).gestures[obj];
    UpdateSent(g, surface);
    EndSent(g, surface, cancelled);
    PushedDiffer(g.trace, Update(surface), Update(surface));
    CommandPlayed(cmds, i, kind, obj, client, Do(kind, UpdateOn(surface)));
    CommandPlayed(cmds, i, kind, obj, client, Do(kind, EndOn(surface, cancelled)));
  }

  lemma CommandPlayed(cmds: seq<Command>, i: nat, kind: Kind, obj: Object, client: Client, c: Command)
    requires CreatedAt(cmds, i, kind, obj, client) && Alive(cmds, i, obj) && c != Destroy(obj)
    ensures obj in Run(cmds).gestures && obj in Run(cmds + [c]).gestures
    ensures var g, op := Run(cmds).gestures[obj], OpOf(c, kind, client);
            Run(cmds + [c]).gestures[obj] == if op.Some? then Apply(g, op.value) else g
  {
    ObjectPlaysItsCommands(cmds, i, kind, obj, client);
    RunKeeps(cmds);
    SeenNext(cmds, c, obj);
    StepOnObject(Run(cmds), c, obj);
  }

  /** A begin command opens the gesture on every living object of the kind and client, closing another. */
  lemma BeginDelivered(cmds: seq<Command>, i: nat, kind: Kind, obj: Object, client: Client, surface: Surface)
    requires CreatedAt(cmds, i, kind, obj, client) && Alive(cmds, i, obj) && surface.client == client
    ensures obj in Run(cmds).gestures && obj in Run(cmds + [Do(kind, BeginOn(surface))]).gestures
    ensures var g := Run(cmds).gestures[obj];
            TraceAfter(cmds, Do(kind, BeginOn(surface)), obj)
            == g.trace + (if g.inProgressOn.Some? then [End(surface, true)] else []) + [Begin(surface)]
  {
    CommandPlayed(cmds, i, kind, obj, client, Do(kind, BeginOn(surface)));
    var g := Run(cmds).gestures[obj];
    assert g.trace + [] == g.trace;
  }

  lemma {:induction false} NoOpsAfterDestroy(cmds: seq<Command>, i: nat, d: nat, kind: Kind, obj: Object,
                                             client: Client)
    requires i < d < |cmds| && cmds[d] == Destroy(obj)
    ensures OpsAfter(cmds, i, kind, obj, client) == OpsAfter(cmds[..d], i, kind, obj, client)
    decreases |cmds|
  {
    var n := |cmds| - 1;
    OpsAfterNext(cmds, i, kind, obj, client);
    if d < n {
      NoOpsAfterDestroy(cmds[..n], i, d, kind, obj, client);
      assert cmds[..n][..d] == cmds[..d] && cmds[..n][d] == Destroy(obj);
    }
  }

  /** A destroyed object is sent nothing more. */
  lemma DestroyedSeesNothing(cmds: seq<Command>, i: nat, d: nat, kind: Kind, obj: Object, client: Client)
    requires CreatedAt(cmds, i, kind, obj, client) && i < d < |cmds| && cmds[d] == Destroy(obj)
    ensures obj in Run(cmds[..d]).gestures && obj in Run(cmds).gestures
    ensures Run(cmds).gestures[obj] == Run(cmds[..d]).gestures[obj]
  {
    ObjectPlaysItsCommands(cmds, i, kind, obj, client);
    ObjectPlaysItsCommands(cmds[..d], i, kind, obj, client);
    NoOpsAfterDestroy(cmds, i, d, kind, obj, client);
  }

  /** When the pointer leaves, every gesture of that client is cancelled, of any kind, and no other. */
  lemma LeaveEndsAll(cmds: seq<Command>, surface: Surface, obj: Object)
    requires var s := Run(cmds); obj in s.gestures && obj in Known(s, s.gestures[obj].kind)
    ensures var g, after := Run(cmds).gestures[obj], Run(cmds + [Leave(surface)]).gestures;
            && obj in after
            && after[obj] == if g.client == surface.client && g.inProgressOn.Some?
                             then g.(inProgressOn := None, trace := g.trace + [End(surface, true)]) else g
  {
    var s, c := Run(cmds), Leave(surface);
    SeenNext(cmds, c, obj);
    RunKeeps(cmds);
    StepOnObject(s, c, obj);
    var g, g' := s.gestures[obj], Run(cmds + [c]).gestures[obj];
    if g.client == surface.client {
      assert OpFor(s, c, obj) == Some(LeaveFrom(surface));
      assert g' == Apply(g, LeaveFrom(surface));
    }
  }
}
