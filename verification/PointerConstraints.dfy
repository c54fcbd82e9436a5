/** Pointer locks and confinements: src/wayland/pointer_constraints.rs. */
module PointerConstraints {
  import opened Wrappers

  type Surface = nat
  type Pointer = nat
  type Object = nat
  type Region = nat

  datatype Hint = Hint(x: real, y: real)

  datatype Kind = Locked | Confined

  datatype Lifetime = Oneshot | Persistent | UnknownLifetime

  datatype Place = Place(surface: Surface, pointer: Pointer)

  /** Only a lock ever has hints. */
  datatype Constraint = Constraint(
    kind: Kind, handle: Object, region: Option<Region>, pendingRegion: Option<Region>,
    lifetime: Lifetime, hint: Option<Hint>, pendingHint: Option<Hint>, active: bool)

  /** What a constraint object knows about itself: the requests on it carry no more. */
  datatype Resource = Resource(kind: Kind, place: Place, lifetime: Lifetime)

  /** On is locked or confined, Off is unlocked or unconfined; Hints are the handler calls of one commit. */
  datatype Event =
    | On(obj: Object)
    | Off(obj: Object)
    | AlreadyConstrained(obj: Object)
    | Hints(surface: Surface, hints: map<Place, Hint>)
    | Removed(place: Place, constraint: Constraint)

  /** `objects` also remembers the destroyed ones; `gone` are the pointers that no longer exist. */
  datatype State = State(
    constraints: map<Place, Constraint>, objects: map<Object, Resource>, live: set<Object>,
    hooked: set<Surface>, gone: set<Pointer>, trace: seq<Event>)

  datatype Command =
    | Create(obj: Object, resource: Resource, region: Option<Region>)
    | Activate(place: Place)
    | Deactivate(place: Place)
    | SetRegion(obj: Object, region: Option<Region>)
    | SetHint(obj: Object, hint: Hint)
    | Commit(surface: Surface)
    | Destroy(obj: Object)
    | PointerGone(pointer: Pointer)

  // ---- the specification ----------------------------------------------------------------------

  /** Objects are created once and used while alive; a constraint keeps its pointer in existence. */
  predicate Possible(s: State, c: Command) {
    match c
    case Create(obj, _, _) => obj !in s.objects
    case SetRegion(obj, _) => obj in s.live && obj in s.objects
    case SetHint(obj, _) => obj in s.live && obj in s.objects && s.objects[obj].kind == Locked
    case Destroy(obj) => obj in s.live && obj in s.objects
    case PointerGone(pointer) => forall place :: place in s.constraints ==> place.pointer != pointer
    case _ => true
  }

  function Fresh(obj: Object, resource: Resource, region: Option<Region>): Constraint {
    Constraint(resource.kind, obj, region, region, resource.lifetime, None, None, false)
  }

  function Created(s: State, obj: Object, resource: Resource, region: Option<Region>): State {
    var s := s.(objects := s.objects[obj := resource], live := s.live + {obj});
    if resource.place.pointer in s.gone then s
    else
      var s := s.(hooked := s.hooked + {resource.place.surface});
      if resource.place in s.constraints then s.(trace := s.trace + [AlreadyConstrained(obj)])
      else s.(constraints := s.constraints[resource.place := Fresh(obj, resource, region)])
  }

  function Activated(s: State, place: Place): State {
    if place !in s.constraints || s.constraints[place].active then s
    else
      var constraint := s.constraints[place];
      s.(constraints := s.constraints[place := constraint.(active := true)],
         trace := s.trace + [On(constraint.handle)])
  }

  function Deactivated(s: State, place: Place): State {
    if place !in s.constraints || !s.constraints[place].active then s
    else
      var constraint := s.constraints[place];
      var off := s.(trace := s.trace + [Off(constraint.handle)]);
      if constraint.lifetime == Oneshot then off.(constraints := s.constraints - {place})
      else off.(constraints := s.constraints[place := constraint.(active := false)])
  }

  /** The constraint a request on the object reaches: the one in its place, if of the same kind. */
  predicate Reaches(s: State, obj: Object, place: Place) {
    && obj in s.objects && s.objects[obj].place == place
    && place in s.constraints && s.constraints[place].kind == s.objects[obj].kind
  }

  function Committed(c: Constraint): Constraint {
    match c.kind
    case Confined => c.(region := c.pendingRegion)
    case Locked =>
      c.(region := c.pendingRegion, pendingHint := None,
         hint := if c.pendingHint.Some? then c.pendingHint else c.hint)
  }

  predicate Hinted(c: Constraint) { c.kind == Locked && c.pendingHint.Some? }

  function CommittedAll(s: State, surface: Surface): map<Place, Constraint> {
    map place | place in s.constraints ::
      if place.surface == surface then Committed(s.constraints[place]) else s.constraints[place]
  }

  function HintsOf(s: State, surface: Surface): map<Place, Hint> {
    map place | place in s.constraints && place.surface == surface && Hinted(s.constraints[place]) ::
      s.constraints[place].pendingHint.value
  }

  /** Without a hook the surface has never had a constraint. */
  function CommitHook(s: State, surface: Surface): State {
    if surface !in s.hooked then s
    else s.(constraints := CommittedAll(s, surface), trace := s.trace + [Hints(surface, HintsOf(s, surface))])
  }

  /** The constraint is removed by its place, whichever object it belongs to. */
  function Destroyed(s: State, obj: Object): State
    requires obj in s.objects
  {
    var place := s.objects[obj].place;
    var s := s.(live := s.live - {obj});
    if place !in s.constraints then s
    else s.(constraints := s.constraints - {place}, trace := s.trace + [Removed(place, s.constraints[place])])
  }

  function Step(s: State, c: Command): State {
    if !Possible(s, c) then s
    else match c
      case Create(obj, resource, region) => Created(s, obj, resource, region)
      case Activate(place) => Activated(s, place)
      case Deactivate(place) => Deactivated(s, place)
      case SetRegion(obj, region) =>
        var place := s.objects[obj].place;
        if !Reaches(s, obj, place) then s
        else s.(constraints := s.constraints[place := s.constraints[place].(pendingRegion := region)])
      case SetHint(obj, hint) =>
        var place := s.objects[obj].place;
        if !Reaches(s, obj, place) then s
        else s.(constraints := s.constraints[place := s.constraints[place].(pendingHint := Some(hint))])
      case Commit(surface) => CommitHook(s, surface)
      case Destroy(obj) => Destroyed(s, obj)
      case PointerGone(pointer) => s.(gone := s.gone + {pointer})
  }

  /** A commit in the middle of its visits: the places in `todo` are still as they `were`. */
  ghost predicate Visiting(were: map<Place, Constraint>, are: map<Place, Constraint>, hints: map<Place, Hint>,
                           surface: Surface, todo: set<Place>) {
    && are.Keys == were.Keys
    && (forall place :: place in todo ==> place in were && place.surface == surface)
    && (forall place :: place in were ==>
          are[place] == if place.surface == surface && place !in todo then Committed(were[place]) else were[place])
    && (forall place :: place in hints <==>
          place in were && place.surface == surface && place !in todo && Hinted(were[place]))
    && (forall place :: place in hints ==> hints[place] == were[place].pendingHint.value)
  }

  lemma VisitOne(were: map<Place, Constraint>, are: map<Place, Constraint>, hints: map<Place, Hint>,
                 surface: Surface, todo: set<Place>, place: Place)
    requires Visiting(were, are, hints, surface, todo) && place in todo
    ensures place in are && are[place] == were[place]
    ensures Visiting(were, are[place := Committed(are[place])],
                     if Hinted(are[place]) then hints[place := are[place].pendingHint.value] else hints,
                     surface, todo - {place})
  {
  }

  lemma VisitedAll(s: State, are: map<Place, Constraint>, hints: map<Place, Hint>, surface: Surface)
    requires Visiting(s.constraints, are, hints, surface, {})
    ensures are == CommittedAll(s, surface) && hints == HintsOf(s, surface)
  {
  }

  // ---- the object -----------------------------------------------------------------------------

  class ConstraintsState {
    var constraints: map<Place, Constraint>
    var objects: map<Object, Resource>
    var live: set<Object>
    var hooked: set<Surface>
    var gone: set<Pointer>
    ghost var trace: seq<Event>

    ghost function Abstract(): State
      reads this
    {
      State(constraints, objects, live, hooked, gone, trace)
    }

    constructor ()
      ensures Abstract() == State(map[], map[], {}, {}, {}, [])
    {
      constraints, objects, live, hooked, gone, trace := map[], map[], {}, {}, {}, [];
    }

    /** The lock_pointer and confine_pointer requests. */
    method CreateConstraint(obj: Object, resource: Resource, region: Option<Region>)
      requires obj !in objects
      modifies this
      ensures Abstract() == Step(old(Abstract()), Create(obj, resource, region))
    {
      objects := objects[obj := resource];
      live := live + {obj};
      if resource.place.pointer !in gone {
        AddConstraint(resource.place, Fresh(obj, resource, region));
      }
    }

    method AddConstraint(place: Place, constraint: Constraint)
      modifies this
      ensures Abstract() == old(Abstract()).(
          hooked := old(hooked) + {place.surface},
          constraints := if place in old(constraints) then old(constraints)
                         else old(constraints)[place := constraint],
          trace := if place in old(constraints) then old(trace) + [AlreadyConstrained(constraint.handle)]
                   else old(trace))
    {
      if place in constraints {
        trace := trace + [AlreadyConstrained(constraint.handle)];
      } else {
        constraints := constraints[place := constraint];
      }
      hooked := hooked + {place.surface};
    }

    method ActivateConstraint(place: Place)
      modifies this
      ensures Abstract() == Step(old(Abstract()), Activate(place))
    {
      if place in constraints {
        var constraint := constraints[place];
        if !constraint.active {
          trace := trace + [On(constraint.handle)];
        }
        constraints := constraints[place := constraint.(active := true)];
      }
    }

    method DeactivateConstraint(place: Place)
      modifies this
      ensures Abstract() == Step(old(Abstract()), Deactivate(place))
    {
      if place in constraints {
        var constraint := constraints[place];
        var deactivated := constraint.active;
        constraints := constraints[place := constraint.(active := false)];
        if deactivated {
          trace := trace + [Off(constraint.handle)];
          if constraint.lifetime == Oneshot {
            constraints := constraints - {place};
          }
        }
      }
    }

    method SetPendingRegion(obj: Object, region: Option<Region>)
      requires obj in live && obj in objects
      modifies this
      ensures Abstract() == Step(old(Abstract()), SetRegion(obj, region))
    {
      var place := objects[obj].place;
      if place in constraints {
        var constraint := constraints[place];
        if constraint.kind == objects[obj].kind {
          constraints := constraints[place := constraint.(pendingRegion := region)];
        }
      }
    }

    method SetCursorPositionHint(obj: Object, hint: Hint)
      requires obj in live && obj in objects && objects[obj].kind == Locked
      modifies this
      ensures Abstract() == Step(old(Abstract()), SetHint(obj, hint))
    {
      var place := objects[obj].place;
      if place in constraints {
        var constraint := constraints[place];
        if constraint.kind == Locked {
          constraints := constraints[place := constraint.(pendingHint := Some(hint))];
        }
      }
    }

    /** One constraint commits its pending state; a new cursor position hint is returned. */
    method CommitConstraint(place: Place) returns (hint: Option<Hint>)
      requires place in constraints
      modifies this`constraints
      ensures constraints == old(constraints)[place := Committed(old(constraints)[place])]
      ensures hint == if Hinted(old(constraints)[place]) then old(constraints)[place].pendingHint else None
    {
      var constraint := constraints[place];
      hint := None;
      match constraint.kind
      case Confined =>
        constraints := constraints[place := constraint.(region := constraint.pendingRegion)];
      case Locked =>
        constraint := constraint.(region := constraint.pendingRegion);
        hint := constraint.pendingHint;
        constraint := constraint.(pendingHint := None);
        if hint.Some? {
          constraint := constraint.(hint := hint);
        }
        constraints := constraints[place := constraint];
    }

    /** The commit hook of the surface; the order in which it visits the pointers is not fixed. */
    method CommitSurface(surface: Surface) returns (hints: map<Place, Hint>)
      modifies this
      ensures Abstract() == Step(old(Abstract()), Commit(surface))
      ensures surface in old(hooked) ==> trace == old(trace) + [Hints(surface, hints)]
    {
      hints := map[];
      if surface !in hooked {
        return;
      }
      var todo := set place | place in constraints && place.surface == surface;
      while todo != {}
        invariant Abstract() == old(Abstract()).(constraints := constraints)
        invariant Visiting(old(constraints), constraints, hints, surface, todo)
        decreases todo
      {
        var place :| place in todo;
        VisitOne(old(constraints), constraints, hints, surface, todo, place);
        var hint := CommitConstraint(place);
        if hint.Some? {
          hints := hints[place := hint.value];
        }
        todo := todo - {place};
      }
      VisitedAll(old(Abstract()), constraints, hints, surface);
      trace := trace + [Hints(surface, hints)];
    }

    method RemoveConstraint(place: Place)
      modifies this`constraints, this`trace
      ensures constraints == old(constraints) - {place}
      ensures trace == old(trace) + if place in old(constraints) then [Removed(place, old(constraints)[place])] else []
    {
      if place in constraints {
        var constraint := constraints[place];
        constraints := constraints - {place};
        trace := trace + [Removed(place, constraint)];
      }
    }

    method DestroyObject(obj: Object)
      requires obj in live && obj in objects
      modifies this
      ensures Abstract() == Step(old(Abstract()), Destroy(obj))
    {
      live := live - {obj};
      RemoveConstraint(objects[obj].place);
    }
  }

  // ---- invariants -------------------------------------------------------------------------------

  /** The activations and deactivations the client has seen on the object. */
  function Toggles(trace: seq<Event>, obj: Object): seq<bool> {
    if trace == [] then []
    else
      var n := |trace| - 1;
      var before := Toggles(trace[..n], obj);
      if trace[n] == On(obj) then before + [true]
      else if trace[n] == Off(obj) then before + [false]
      else before
  }

  lemma TogglesPush(trace: seq<Event>, e: Event, obj: Object)
    ensures Toggles(trace + [e], obj)
         == Toggles(trace, obj) + if e == On(obj) then [true] else if e == Off(obj) then [false] else []
  {
    assert (trace + [e])[..|trace|] == trace;
  }

  predicate Listed(s: State, obj: Object) {
    && obj in s.objects && s.objects[obj].place in s.constraints
    && s.constraints[s.objects[obj].place].handle == obj
  }

  function Own(s: State, obj: Object): Constraint
    requires Listed(s, obj)
  {
    s.constraints[s.objects[obj].place]
  }

  /** A constraint stands in the place of its own live object, on a hooked surface. */
  ghost predicate Placed(s: State) {
    && (forall obj :: obj in s.live ==> obj in s.objects)
    && forall place :: place in s.constraints ==>
         var c := s.constraints[place];
         && Listed(s, c.handle) && s.objects[c.handle] == Resource(c.kind, place, c.lifetime)
         && c.handle in s.live && place.surface in s.hooked && place.pointer !in s.gone
         && (c.kind == Confined ==> c.pendingHint == None)
  }

  lemma CommitKeepsPlaced(s: State, surface: Surface)
    requires Placed(s)
    ensures Placed(CommitHook(s, surface))
  {
  }

  lemma CreatedKeepsPlaced(s: State, c: Command)
    requires Placed(s) && c.Create? && Possible(s, c)
    ensures Placed(Step(s, c))
  {
  }

  lemma StepKeepsPlaced(s: State, c: Command)
    requires Placed(s)
    ensures Placed(Step(s, c))
  {
    match c
    case Create(_, _, _) => if Possible(s, c) { CreatedKeepsPlaced(s, c); }
    case Commit(surface) => CommitKeepsPlaced(s, surface);
    case _ =>
  }

  ghost predicate Alternating(toggles: seq<bool>) {
    forall k :: 0 <= k < |toggles| ==> toggles[k] == (k % 2 == 0)
  }

  /** One object as the protocol sees it. */
  datatype View = View(known: bool, oneshot: bool, listed: bool, active: bool)

  function ViewOf(s: State, obj: Object): View {
    View(obj in s.objects, obj in s.objects && s.objects[obj].lifetime == Oneshot,
         Listed(s, obj), Listed(s, obj) && Own(s, obj).active)
  }

  ghost predicate Fits(toggles: seq<bool>, v: View) {
    && Alternating(toggles)
    && (!v.known ==> toggles == [])
    && (v.listed ==> |toggles| % 2 == if v.active then 1 else 0)
    && (v.oneshot ==> |toggles| <= if v.listed then 1 else 2)
  }

  ghost predicate TogglesOk(s: State, obj: Object) { Fits(Toggles(s.trace, obj), ViewOf(s, obj)) }

  lemma CreatedView(s: State, c: Command, obj: Object)
    requires Placed(s) && c.Create? && Possible(s, c)
    ensures var v, v' := ViewOf(s, obj), ViewOf(Step(s, c), obj);
            if obj == c.obj then !v.known && !v'.active else v' == v
  {
  }

  lemma ActivatedView(s: State, place: Place, obj: Object)
    requires Placed(s) && place in s.constraints && !s.constraints[place].active
    ensures var v, v' := ViewOf(s, obj), ViewOf(Activated(s, place), obj);
            if obj == s.constraints[place].handle then v.known && v.listed && !v.active && v' == v.(active := true)
            else v' == v
  {
  }

  lemma DeactivatedView(s: State, place: Place, obj: Object)
    requires Placed(s) && place in s.constraints && s.constraints[place].active
    ensures var v, v' := ViewOf(s, obj), ViewOf(Deactivated(s, place), obj);
            if obj == s.constraints[place].handle then
              v.known && v.listed && v.active && v' == v.(active := false, listed := !v.oneshot)
            else v' == v
  {
  }

  lemma CommitView(s: State, surface: Surface, obj: Object)
    requires Placed(s)
    ensures ViewOf(CommitHook(s, surface), obj) == ViewOf(s, obj)
  {
  }

  lemma DestroyedView(s: State, gone: Object, obj: Object)
    requires Placed(s) && gone in s.objects
    ensures var v, v' := ViewOf(s, obj), ViewOf(Destroyed(s, gone), obj);
            v' == v || v' == v.(listed := false, active := false)
  {
  }

  lemma FitsPush(toggles: seq<bool>, v: View, on: bool)
    requires Fits(toggles, v) && v.known && v.listed && v.active != on
    ensures Fits(toggles + [on], v.(active := on, listed := on || !v.oneshot))
  {
  }

  lemma ActivatedToggles(s: State, place: Place, obj: Object)
    requires Placed(s) && TogglesOk(s, obj)
    ensures TogglesOk(Activated(s, place), obj)
  {
    if place in s.constraints && !s.constraints[place].active {
      var handle := s.constraints[place].handle;
      ActivatedView(s, place, obj);
      TogglesPush(s.trace, On(handle), obj);
      if handle == obj {
        FitsPush(Toggles(s.trace, obj), ViewOf(s, obj), true);
      }
    }
  }

  lemma DeactivatedToggles(s: State, place: Place, obj: Object)
    requires Placed(s) && TogglesOk(s, obj)
    ensures TogglesOk(Deactivated(s, place), obj)
  {
    if place in s.constraints && s.constraints[place].active {
      var handle := s.constraints[place].handle;
      DeactivatedView(s, place, obj);
      TogglesPush(s.trace, Off(handle), obj);
      if handle == obj {
        FitsPush(Toggles(s.trace, obj), ViewOf(s, obj), false);
      }
    }
  }

  lemma DestroyedToggles(s: State, gone: Object, obj: Object)
    requires Placed(s) && TogglesOk(s, obj) && gone in s.objects
    ensures TogglesOk(Destroyed(s, gone), obj)
  {
    DestroyedView(s, gone, obj);
    var place := s.objects[gone].place;
    if place in s.constraints {
      TogglesPush(s.trace, Removed(place, s.constraints[place]), obj);
    }
  }

  lemma StepKeepsToggles(s: State, c: Command, obj: Object)
    requires Placed(s) && TogglesOk(s, obj)
    ensures TogglesOk(Step(s, c), obj)
  {
    if Possible(s, c) {
      match c
      case Create(other, _, _) =>
        CreatedView(s, c, obj);
        TogglesPush(s.trace, AlreadyConstrained(other), obj);
      case Activate(place) => ActivatedToggles(s, place, obj);
      case Deactivate(place) => DeactivatedToggles(s, place, obj);
      case Commit(surface) =>
        CommitView(s, surface, obj);
        TogglesPush(s.trace, Hints(surface, HintsOf(s, surface)), obj);
      case Destroy(gone) => DestroyedToggles(s, gone, obj);
      case _ =>
        assert ViewOf(Step(s, c), obj) == ViewOf(s, obj);
    }
  }

  // ---- whole runs -------------------------------------------------------------------------------

  const EMPTY := State(map[], map[], {}, {}, {}, [])

  function Run(cmds: seq<Command>): State {
    if cmds == [] then EMPTY else Step(Run(cmds[..|cmds| - 1]), cmds[|cmds| - 1])
  }

  /** The state in which command `i` finds the run. */
  function At(cmds: seq<Command>, i: nat): State
    requires i <= |cmds|
  {
    Run(cmds[..i])
  }

  lemma AtNext(cmds: seq<Command>, i: nat)
    requires i < |cmds|
    ensures At(cmds, i + 1) == Step(At(cmds, i), cmds[i])
  {
    assert cmds[..i + 1][..i] == cmds[..i];
  }

  lemma {:induction false} RunKeeps(cmds: seq<Command>)
    ensures Placed(Run(cmds)) && forall obj :: TogglesOk(Run(cmds), obj)
  {
    if cmds != [] {
      var s, c := Run(cmds[..|cmds| - 1]), cmds[|cmds| - 1];
      RunKeeps(cmds[..|cmds| - 1]);
      StepKeepsPlaced(s, c);
      forall obj ensures TogglesOk(Step(s, c), obj) { StepKeepsToggles(s, c, obj); }
    }
  }

  /** Locked and unlocked, or confined and unconfined, alternate and begin with the activation. */
  lemma EventsAlternate(cmds: seq<Command>, obj: Object)
    ensures Alternating(Toggles(Run(cmds).trace, obj))
  {
    RunKeeps(cmds);
    assert TogglesOk(Run(cmds), obj);
  }

  lemma OneshotActiveOnce(cmds: seq<Command>, obj: Object)
    requires var s := Run(cmds); obj in s.objects && s.objects[obj].lifetime == Oneshot
    ensures Toggles(Run(cmds).trace, obj) in {[], [true], [true, false]}
  {
    RunKeeps(cmds);
    assert TogglesOk(Run(cmds), obj);
    AtMostTwo(Toggles(Run(cmds).trace, obj), ViewOf(Run(cmds), obj));
  }

  lemma AtMostTwo(toggles: seq<bool>, v: View)
    requires Fits(toggles, v) && v.oneshot
    ensures toggles in {[], [true], [true, false]}
  {
    assert toggles == [] || toggles == [true] || toggles == [true, false];
  }

  // ---- objects keep their resources, and lose their place once ------------------------------------

  lemma {:induction false} ObjectsKept(cmds: seq<Command>, i: nat, j: nat, obj: Object)
    requires i <= j <= |cmds| && obj in At(cmds, i).objects
    ensures obj in At(cmds, j).objects && At(cmds, j).objects[obj] == At(cmds, i).objects[obj]
  {
    if i < j {
      ObjectsKept(cmds, i, j - 1, obj);
      AtNext(cmds, j - 1);
    }
  }

  /** Only its creation puts an object in its place. */
  lemma StepListed(s: State, c: Command, obj: Object)
    requires Placed(s) && Listed(Step(s, c), obj)
    ensures Listed(s, obj) || (c.Create? && c.obj == obj && obj !in s.objects)
  {
  }

  lemma ListedBefore(cmds: seq<Command>, n: nat, obj: Object)
    requires n < |cmds| && Listed(At(cmds, n + 1), obj)
    ensures Listed(At(cmds, n), obj) || (cmds[n].Create? && cmds[n].obj == obj && obj !in At(cmds, n).objects)
  {
    RunKeeps(cmds[..n]);
    AtNext(cmds, n);
    StepListed(At(cmds, n), cmds[n], obj);
  }

  // ---- regions ------------------------------------------------------------------------------------

  /** The region that the command requests for the constraint of the object. */
  function RequestedRegion(s: State, c: Command, obj: Object): Option<Option<Region>> {
    match c
    case Create(other, _, region) =>
      if other == obj && Possible(s, c) && Listed(Step(s, c), obj) then Some(region) else None
    case SetRegion(other, region) =>
      if Possible(s, c) && Listed(s, obj) && Reaches(s, other, s.objects[obj].place) then Some(region) else None
    case _ => None
  }

  /** Command `i` is the last before `n` to request a region, and it requested this one. */
  ghost predicate LastRequest(cmds: seq<Command>, i: nat, n: nat, obj: Object, region: Option<Region>) {
    && i < n <= |cmds| && RequestedRegion(At(cmds, i), cmds[i], obj) == Some(region)
    && forall k :: i < k < n ==> RequestedRegion(At(cmds, k), cmds[k], obj) == None
  }

  lemma StepPending(s: State, c: Command, obj: Object)
    requires Placed(s) && Listed(Step(s, c), obj)
    ensures var requested := RequestedRegion(s, c, obj);
            if requested.Some? then Own(Step(s, c), obj).pendingRegion == requested.value
            else Listed(s, obj) && Own(Step(s, c), obj).pendingRegion == Own(s, obj).pendingRegion
  {
  }

  lemma PendingStep(cmds: seq<Command>, n: nat, obj: Object)
    requires n < |cmds| && Listed(At(cmds, n + 1), obj)
    ensures var s, s', requested := At(cmds, n), At(cmds, n + 1), RequestedRegion(At(cmds, n), cmds[n], obj);
            if requested.Some? then Own(s', obj).pendingRegion == requested.value
            else Listed(s, obj) && Own(s', obj).pendingRegion == Own(s, obj).pendingRegion
  {
    RunKeeps(cmds[..n]);
    AtNext(cmds, n);
    StepPending(At(cmds, n), cmds[n], obj);
  }

  lemma LastRequestStays(cmds: seq<Command>, i: nat, n: nat, obj: Object, region: Option<Region>)
    requires n < |cmds| && LastRequest(cmds, i, n, obj, region)
    requires RequestedRegion(At(cmds, n), cmds[n], obj) == None
    ensures LastRequest(cmds, i, n + 1, obj, region)
  {
  }

  lemma {:induction false} PendingIsLastRequest(cmds: seq<Command>, n: nat, obj: Object) returns (i: nat)
    requires n <= |cmds| && Listed(At(cmds, n), obj)
    ensures LastRequest(cmds, i, n, obj, Own(At(cmds, n), obj).pendingRegion)
  {
    i := 0;
    if n > 0 {
      var m, requested := n - 1, RequestedRegion(At(cmds, n - 1), cmds[n - 1], obj);
      PendingStep(cmds, m, obj);
      if requested == None {
        i := PendingIsLastRequest(cmds, m, obj);
        LastRequestStays(cmds, i, m, obj, Own(At(cmds, n), obj).pendingRegion);
      } else {
        i := m;
      }
    }
  }

  lemma StepRegion(s: State, c: Command, obj: Object)
    requires Placed(s) && Listed(s, obj) && Listed(Step(s, c), obj)
    ensures Own(Step(s, c), obj).region
         == if c == Commit(s.objects[obj].place.surface) then Own(s, obj).pendingRegion else Own(s, obj).region
  {
  }

  /** Between two commits of its surface a constraint keeps its region. */
  lemma {:induction false} RegionHeld(cmds: seq<Command>, i: nat, j: nat, obj: Object)
    requires i <= j <= |cmds| && Listed(At(cmds, i), obj) && Listed(At(cmds, j), obj)
    requires forall k :: i <= k < j ==> cmds[k] != Commit(At(cmds, i).objects[obj].place.surface)
    ensures Own(At(cmds, j), obj).region == Own(At(cmds, i), obj).region
  {
    if i < j {
      ObjectsKept(cmds, i, j - 1, obj);
      ListedBefore(cmds, j - 1, obj);
      RegionHeld(cmds, i, j - 1, obj);
      RunKeeps(cmds[..j - 1]);
      AtNext(cmds, j - 1);
      StepRegion(At(cmds, j - 1), cmds[j - 1], obj);
    }
  }

  /** A commit applies the region last requested: by a request, or when the constraint was created. */
  lemma CommitAppliesLastRequest(cmds: seq<Command>, n: nat, obj: Object) returns (i: nat)
    requires n < |cmds| && Listed(At(cmds, n), obj)
    requires cmds[n] == Commit(At(cmds, n).objects[obj].place.surface)
    ensures Listed(At(cmds, n + 1), obj)
    ensures LastRequest(cmds, i, n, obj, Own(At(cmds, n + 1), obj).region)
  {
    var s := At(cmds, n);
    RunKeeps(cmds[..n]);
    AtNext(cmds, n);
    CommitView(s, cmds[n].surface, obj);
    assert ViewOf(s, obj).listed && ViewOf(At(cmds, n + 1), obj).listed;
    StepRegion(s, cmds[n], obj);
    i := PendingIsLastRequest(cmds, n, obj);
  }

  // ---- hints --------------------------------------------------------------------------------------

  function RequestedHint(s: State, c: Command, obj: Object): Option<Hint> {
    if c.SetHint? && Possible(s, c) && Listed(s, obj) && Reaches(s, c.obj, s.objects[obj].place)
    then Some(c.hint) else None
  }

  /** Command `i` set the hint, and from there to `n` none was set and the surface not committed. */
  ghost predicate LatestHint(cmds: seq<Command>, i: nat, n: nat, obj: Object, hint: Hint) {
    && i < n <= |cmds| && RequestedHint(At(cmds, i), cmds[i], obj) == Some(hint)
    && forall k :: i < k < n ==>
         && RequestedHint(At(cmds, k), cmds[k], obj) == None
         && cmds[k] != Commit(At(cmds, i).objects[obj].place.surface)
  }

  lemma CommitHint(s: State, surface: Surface, obj: Object)
    requires Placed(s) && Listed(s, obj)
    ensures Listed(CommitHook(s, surface), obj)
    ensures Own(CommitHook(s, surface), obj).pendingHint
         == if surface == s.objects[obj].place.surface then None else Own(s, obj).pendingHint
  {
  }

  lemma StepHint(s: State, c: Command, obj: Object)
    requires Placed(s) && Listed(Step(s, c), obj)
    ensures Own(Step(s, c), obj).pendingHint
         == if RequestedHint(s, c, obj).Some? then RequestedHint(s, c, obj)
            else if Listed(s, obj) && c != Commit(s.objects[obj].place.surface) then Own(s, obj).pendingHint
            else None
  {
    match c
    case Commit(surface) =>
      CommitView(s, surface, obj);
      assert ViewOf(CommitHook(s, surface), obj).listed;
      CommitHint(s, surface, obj);
    case _ =>
  }

  /** The latest hint is the one just set, or the latest before a command that touches none. */
  lemma LatestHintStep(cmds: seq<Command>, i: nat, n: nat, obj: Object, hint: Hint)
    requires n < |cmds|
    ensures LatestHint(cmds, i, n + 1, obj, hint)
       <==> if i == n then RequestedHint(At(cmds, n), cmds[n], obj) == Some(hint)
            else && LatestHint(cmds, i, n, obj, hint) && RequestedHint(At(cmds, n), cmds[n], obj) == None
                 && obj in At(cmds, n).objects && cmds[n] != Commit(At(cmds, n).objects[obj].place.surface)
  {
    if i < n && RequestedHint(At(cmds, i), cmds[i], obj) == Some(hint) {
      ObjectsKept(cmds, i, n, obj);
    }
  }

  ghost predicate HasLatest(cmds: seq<Command>, n: nat, obj: Object, hint: Hint) {
    exists i: nat :: LatestHint(cmds, i, n, obj, hint)
  }

  lemma HasLatestStep(cmds: seq<Command>, n: nat, obj: Object, hint: Hint)
    requires n < |cmds|
    ensures var s, c := At(cmds, n), cmds[n];
            HasLatest(cmds, n + 1, obj, hint)
            <==> if RequestedHint(s, c, obj).Some? then RequestedHint(s, c, obj) == Some(hint)
                 else HasLatest(cmds, n, obj, hint) && obj in s.objects && c != Commit(s.objects[obj].place.surface)
  {
    var next := n + 1;
    LatestHintStep(cmds, n, n, obj, hint);
    if i: nat :| LatestHint(cmds, i, next, obj, hint) {
      LatestHintStep(cmds, i, n, obj, hint);
    }
    if i: nat :| LatestHint(cmds, i, n, obj, hint) {
      LatestHintStep(cmds, i, n, obj, hint);
    }
  }

  /** What is pending is the latest hint set since the last commit. */
  lemma {:induction false} PendingHintIff(cmds: seq<Command>, n: nat, obj: Object, hint: Hint)
    requires n <= |cmds| && Listed(At(cmds, n), obj)
    ensures Own(At(cmds, n), obj).pendingHint == Some(hint) <==> HasLatest(cmds, n, obj, hint)
  {
    if n > 0 {
      HasLatestStep(cmds, n - 1, obj, hint);
      PendingHintStep(cmds, n - 1, obj);
      if Listed(At(cmds, n - 1), obj) {
        PendingHintIff(cmds, n - 1, obj, hint);
      }
    }
  }

  lemma PendingHintStep(cmds: seq<Command>, n: nat, obj: Object)
    requires n < |cmds| && Listed(At(cmds, n + 1), obj)
    ensures var s, c := At(cmds, n), cmds[n];
            && Own(At(cmds, n + 1), obj).pendingHint
            == (if RequestedHint(s, c, obj).Some? then RequestedHint(s, c, obj)
                else if Listed(s, obj) && c != Commit(s.objects[obj].place.surface) then Own(s, obj).pendingHint
                else None)
            && (obj in s.objects ==> Listed(s, obj))
  {
    RunKeeps(cmds[..n]);
    AtNext(cmds, n);
    StepHint(At(cmds, n), cmds[n], obj);
    ListedBefore(cmds, n, obj);
  }

  /** The hints that the commit command `n` reports. */
  function Reported(cmds: seq<Command>, n: nat): map<Place, Hint>
    requires n < |cmds| && cmds[n].Commit?
  {
    HintsOf(At(cmds, n), cmds[n].surface)
  }

  /** A commit reports for a lock exactly the latest hint set since the commit before it. */
  lemma CommitReportsLatestHint(cmds: seq<Command>, n: nat, obj: Object, hint: Hint)
    requires n < |cmds| && Listed(At(cmds, n), obj)
    requires cmds[n] == Commit(At(cmds, n).objects[obj].place.surface)
    ensures var reported, place := Reported(cmds, n), At(cmds, n).objects[obj].place;
            && At(cmds, n + 1).trace == At(cmds, n).trace + [Hints(place.surface, reported)]
            && (place in reported && reported[place] == hint
                <==> HasLatest(cmds, n, obj, hint))
  {
    RunKeeps(cmds[..n]);
    AtNext(cmds, n);
    PendingHintIff(cmds, n, obj, hint);
  }

  /** Two commits never report one hint: the later report has a request of its own between them. */
  lemma HintReportedOnce(cmds: seq<Command>, first: nat, second: nat, obj: Object)
    requires first < second < |cmds| && Listed(At(cmds, second), obj)
    requires var surface := At(cmds, second).objects[obj].place.surface;
             cmds[first] == Commit(surface) && cmds[second] == Commit(surface)
    requires At(cmds, second).objects[obj].place in Reported(cmds, second)
    ensures exists i: nat :: first < i < second
              && RequestedHint(At(cmds, i), cmds[i], obj)
              == Some(Reported(cmds, second)[At(cmds, second).objects[obj].place])
  {
    var hint := Reported(cmds, second)[At(cmds, second).objects[obj].place];
    CommitReportsLatestHint(cmds, second, obj, hint);
    var i: nat :| LatestHint(cmds, i, second, obj, hint);
    ObjectsKept(cmds, i, second, obj);
  }

  // ---- the hint applied -----------------------------------------------------------------------------

  ghost predicate Reports(cmds: seq<Command>, n: nat, place: Place)
    requires n < |cmds|
  {
    cmds[n] == Commit(place.surface) && place in Reported(cmds, n)
  }

  /** Commit `c` was the last to report a hint for the place, and it was this one, for this object. */
  ghost predicate LastReport(cmds: seq<Command>, c: nat, n: nat, obj: Object, place: Place, hint: Hint) {
    && c < n <= |cmds| && Listed(At(cmds, c), obj) && Reports(cmds, c, place) && Reported(cmds, c)[place] == hint
    && forall k :: c < k < n ==> !Reports(cmds, k, place)
  }

  ghost predicate HasReport(cmds: seq<Command>, n: nat, obj: Object, place: Place, hint: Hint) {
    exists c: nat :: LastReport(cmds, c, n, obj, place, hint)
  }

  lemma HasReportNext(cmds: seq<Command>, n: nat, obj: Object, place: Place, hint: Hint)
    requires n < |cmds|
    ensures HasReport(cmds, n + 1, obj, place, hint)
       <==> if Reports(cmds, n, place) then Listed(At(cmds, n), obj) && Reported(cmds, n)[place] == hint
            else HasReport(cmds, n, obj, place, hint)
  {
    var next := n + 1;
    if c: nat :| LastReport(cmds, c, next, obj, place, hint) {
      assert c < n ==> LastReport(cmds, c, n, obj, place, hint) && !Reports(cmds, n, place);
    }
    if Reports(cmds, n, place) {
      assert Listed(At(cmds, n), obj) && Reported(cmds, n)[place] == hint
        ==> LastReport(cmds, n, next, obj, place, hint);
    } else if c: nat :| LastReport(cmds, c, n, obj, place, hint) {
      assert LastReport(cmds, c, next, obj, place, hint);
    }
  }

  lemma CommitAppliesHint(s: State, surface: Surface, obj: Object)
    requires Placed(s) && Listed(s, obj)
    ensures var place, hints := s.objects[obj].place, HintsOf(s, surface);
            && Listed(CommitHook(s, surface), obj)
            && Own(CommitHook(s, surface), obj).hint
            == if surface == place.surface && place in hints then Some(hints[place]) else Own(s, obj).hint
  {
  }

  lemma StepAppliedHint(s: State, c: Command, obj: Object)
    requires Placed(s) && Listed(Step(s, c), obj)
    ensures Own(Step(s, c), obj).hint
         == if !Listed(s, obj) then None
            else if c.Commit? && c.surface == s.objects[obj].place.surface
                    && s.objects[obj].place in HintsOf(s, c.surface)
            then Some(HintsOf(s, c.surface)[s.objects[obj].place]) else Own(s, obj).hint
  {
    match c
    case Commit(surface) =>
      CommitView(s, surface, obj);
      assert ViewOf(CommitHook(s, surface), obj).listed;
      CommitAppliesHint(s, surface, obj);
    case _ =>
  }

  lemma AppliedHintStep(cmds: seq<Command>, n: nat, obj: Object)
    requires n < |cmds| && Listed(At(cmds, n + 1), obj)
    ensures var s, place := At(cmds, n), At(cmds, n + 1).objects[obj].place;
            && (obj in s.objects ==> Listed(s, obj) && s.objects[obj].place == place)
            && Own(At(cmds, n + 1), obj).hint
               == if !Listed(s, obj) then None
                  else if Reports(cmds, n, place) then Some(Reported(cmds, n)[place]) else Own(s, obj).hint
  {
    RunKeeps(cmds[..n]);
    AtNext(cmds, n);
    StepAppliedHint(At(cmds, n), cmds[n], obj);
    ListedBefore(cmds, n, obj);
    if obj in At(cmds, n).objects {
      ObjectsKept(cmds, n, n + 1, obj);
    }
  }

  lemma NoReportBeforeCreation(cmds: seq<Command>, n: nat, obj: Object, place: Place, hint: Hint)
    requires n <= |cmds| && obj !in At(cmds, n).objects
    ensures !HasReport(cmds, n, obj, place, hint)
  {
    forall c: nat ensures !LastReport(cmds, c, n, obj, place, hint) {
      if c < n && Listed(At(cmds, c), obj) {
        ObjectsKept(cmds, c, n, obj);
      }
    }
  }

  /** Over every run the hint a lock shows as applied is the last one a commit reported for it. */
  lemma {:induction false} AppliedHintIff(cmds: seq<Command>, n: nat, obj: Object, hint: Hint)
    requires n <= |cmds| && Listed(At(cmds, n), obj)
    ensures Own(At(cmds, n), obj).hint == Some(hint)
       <==> HasReport(cmds, n, obj, At(cmds, n).objects[obj].place, hint)
  {
    if n > 0 {
      var place := At(cmds, n).objects[obj].place;
      AppliedHintStep(cmds, n - 1, obj);
      HasReportNext(cmds, n - 1, obj, place, hint);
      if obj in At(cmds, n - 1).objects {
        AppliedHintIff(cmds, n - 1, obj, hint);
      } else {
        NoReportBeforeCreation(cmds, n - 1, obj, place, hint);
      }
    }
  }

  // ---- creation and activation ------------------------------------------------------------------------

  /** Some object's constraint stands in the place. */
  ghost predicate Taken(s: State, place: Place) {
    exists other :: Listed(s, other) && s.objects[other].place == place
  }

  /**
   * Over every run a new object gets its constraint, inactive and with its region applied, unless its
   * pointer is gone or another object's constraint is in the place: then nothing changes but the error.
   */
  lemma CreateOutcome(cmds: seq<Command>, obj: Object, resource: Resource, region: Option<Region>)
    requires obj !in Run(cmds).objects
    ensures var s, s' := Run(cmds), Run(cmds + [Create(obj, resource, region)]);
            var free := resource.place.pointer !in s.gone && !Taken(s, resource.place);
            && (Listed(s', obj) <==> free)
            && (free ==> Own(s', obj)
                         == Constraint(resource.kind, obj, region, region, resource.lifetime, None, None, false))
            && (!free ==> s'.constraints == s.constraints)
            && s'.trace == s.trace + if resource.place.pointer !in s.gone && Taken(s, resource.place)
                                     then [AlreadyConstrained(obj)] else []
  {
    var s := Run(cmds);
    RunKeeps(cmds);
    RunNext(cmds, Create(obj, resource, region));
    if resource.place in s.constraints {
      assert Listed(s, s.constraints[resource.place].handle);
    }
  }

  /** A pointer goes just if no constraint keeps it, and does not come back; nothing else changes. */
  lemma PointerGoneOutcome(cmds: seq<Command>, pointer: Pointer)
    ensures var s, s' := Run(cmds), Run(cmds + [PointerGone(pointer)]);
            var kept := exists obj :: Listed(s, obj) && s.objects[obj].place.pointer == pointer;
            s' == s.(gone := if kept then s.gone else s.gone + {pointer})
  {
    var s := Run(cmds);
    RunKeeps(cmds);
    RunNext(cmds, PointerGone(pointer));
    if place :| place in s.constraints && place.pointer == pointer {
      assert Listed(s, s.constraints[place].handle);
    }
  }

  /** Activating sends its event just if the constraint is inactive, and makes it active. */
  lemma ActivateOutcome(cmds: seq<Command>, obj: Object)
    requires Listed(Run(cmds), obj)
    ensures var s := Run(cmds);
            var s' := Run(cmds + [Activate(s.objects[obj].place)]);
            && Listed(s', obj) && Own(s', obj) == Own(s, obj).(active := true)
            && Toggles(s'.trace, obj) == Toggles(s.trace, obj) + if Own(s, obj).active then [] else [true]
  {
    var s := Run(cmds);
    RunKeeps(cmds);
    RunNext(cmds, Activate(s.objects[obj].place));
    TogglesPush(s.trace, On(obj), obj);
  }

  /** Deactivating sends its event just if the constraint is active, and only a oneshot then goes. */
  lemma DeactivateOutcome(cmds: seq<Command>, obj: Object)
    requires Listed(Run(cmds), obj)
    ensures var s := Run(cmds);
            var s' := Run(cmds + [Deactivate(s.objects[obj].place)]);
            && (Listed(s', obj) <==> !(Own(s, obj).active && s.objects[obj].lifetime == Oneshot))
            && (Listed(s', obj) ==> Own(s', obj) == Own(s, obj).(active := false))
            && Toggles(s'.trace, obj) == Toggles(s.trace, obj) + if Own(s, obj).active then [false] else []
  {
    var s := Run(cmds);
    RunKeeps(cmds);
    RunNext(cmds, Deactivate(s.objects[obj].place));
    TogglesPush(s.trace, Off(obj), obj);
  }

  /** Nothing else activates, deactivates or sends either event. */
  lemma OthersDoNotToggle(cmds: seq<Command>, c: Command, obj: Object)
    requires Listed(Run(cmds), obj)
    requires var place := Run(cmds).objects[obj].place; c != Activate(place) && c != Deactivate(place)
    ensures var s, s' := Run(cmds), Run(cmds + [c]);
            && Toggles(s'.trace, obj) == Toggles(s.trace, obj)
            && (Listed(s', obj) ==> Own(s', obj).active == Own(s, obj).active)
  {
    var s, s' := Run(cmds), Run(cmds + [c]);
    RunKeeps(cmds);
    RunNext(cmds, c);
    OthersView(s, c, obj);
    if |s'.trace| > |s.trace| {
      var e := s'.trace[|s.trace|];
      assert s'.trace == s.trace + [e];
      TogglesPush(s.trace, e, obj);
    }
  }

  lemma OthersView(s: State, c: Command, obj: Object)
    requires Placed(s) && Listed(s, obj)
    requires c != Activate(s.objects[obj].place) && c != Deactivate(s.objects[obj].place)
    ensures var v, v' := ViewOf(s, obj), ViewOf(Step(s, c), obj); v' == v || v' == v.(listed := false, active := false)
    ensures var trace := Step(s, c).trace;
            trace == s.trace || exists e :: trace == s.trace + [e] && e != On(obj) && e != Off(obj)
  {
    if Possible(s, c) {
      match c
      case Create(_, _, _) => CreatedView(s, c, obj);
      case Activate(place) =>
        if place in s.constraints && !s.constraints[place].active {
          ActivatedView(s, place, obj);
        }
      case Deactivate(place) =>
        if place in s.constraints && s.constraints[place].active {
          DeactivatedView(s, place, obj);
        }
      case Commit(surface) => CommitView(s, surface, obj);
      case Destroy(gone) => DestroyedView(s, gone, obj);
      case _ =>
    }
    var trace := Step(s, c).trace;
    if trace != s.trace {
      var e := trace[|s.trace|];
      assert trace == s.trace + [e] && e != On(obj) && e != Off(obj);
    }
  }

  // ---- destruction --------------------------------------------------------------------------------

  /** In this place an object was refused, or a oneshot has been deactivated. */
  ghost predicate Disturbed(s: State, place: Place) {
    exists obj :: && obj in s.objects && s.objects[obj].place == place
                  && (AlreadyConstrained(obj) in s.trace || (Off(obj) in s.trace && s.objects[obj].lifetime == Oneshot))
  }

  ghost predicate LiveOk(s: State, obj: Object) {
    obj in s.live && obj in s.objects ==>
      || Listed(s, obj) || s.objects[obj].place.pointer in s.gone || Disturbed(s, s.objects[obj].place)
  }

  lemma DisturbedKept(s: State, c: Command, place: Place)
    requires Disturbed(s, place)
    ensures Disturbed(Step(s, c), place)
  {
    var obj :| && obj in s.objects && s.objects[obj].place == place
               && (AlreadyConstrained(obj) in s.trace || (Off(obj) in s.trace && s.objects[obj].lifetime == Oneshot));
    var s' := Step(s, c);
    assert s.trace <= s'.trace;
    assert obj in s'.objects && s'.objects[obj] == s.objects[obj];
  }

  lemma CreatedKeepsLive(s: State, c: Command, obj: Object)
    requires Placed(s) && LiveOk(s, obj) && c.Create? && Possible(s, c)
    requires obj !in s.objects || !Disturbed(s, s.objects[obj].place)
    ensures LiveOk(Step(s, c), obj)
  {
    var s' := Step(s, c);
    if obj == c.obj && !Listed(s', obj) && c.resource.place.pointer !in s.gone {
      assert s'.trace[|s.trace|] == AlreadyConstrained(obj);
    }
  }

  lemma DeactivatedKeepsLive(s: State, place: Place, obj: Object)
    requires Placed(s) && LiveOk(s, obj)
    requires obj !in s.objects || !Disturbed(s, s.objects[obj].place)
    ensures LiveOk(Deactivated(s, place), obj)
  {
    var s' := Deactivated(s, place);
    if Listed(s, obj) && !Listed(s', obj) {
      assert s'.trace[|s.trace|] == Off(obj);
    }
  }

  lemma StepKeepsLive(s: State, c: Command, obj: Object)
    requires Placed(s) && LiveOk(s, obj)
    requires c.Destroy? ==> LiveOk(s, c.obj)
    ensures LiveOk(Step(s, c), obj)
  {
    if obj in s.objects && Disturbed(s, s.objects[obj].place) {
      DisturbedKept(s, c, s.objects[obj].place);
    } else if Possible(s, c) {
      match c
      case Create(_, _, _) => CreatedKeepsLive(s, c, obj);
      case Deactivate(place) => DeactivatedKeepsLive(s, place, obj);
      case Commit(surface) =>
        CommitView(s, surface, obj);
        assert ViewOf(Step(s, c), obj).listed == ViewOf(s, obj).listed;
      case _ =>
    }
  }

  lemma {:induction false} RunKeepsLive(cmds: seq<Command>, obj: Object)
    ensures LiveOk(Run(cmds), obj)
  {
    if cmds != [] {
      var before, c := cmds[..|cmds| - 1], cmds[|cmds| - 1];
      RunKeeps(before);
      RunKeepsLive(before, obj);
      if c.Destroy? {
        RunKeepsLive(before, c.obj);
      }
      StepKeepsLive(Run(before), c, obj);
    }
  }

  lemma RunNext(cmds: seq<Command>, c: Command)
    ensures Run(cmds + [c]) == Step(Run(cmds), c)
  {
    assert (cmds + [c])[..|cmds|] == cmds;
  }

  /** Destroying one object takes the constraint of another away iff that stands in the same place. */
  lemma DestroyTakesIff(cmds: seq<Command>, obj: Object, other: Object)
    requires var s := Run(cmds); obj in s.live && Listed(s, other) && obj != other
    ensures var s := Run(cmds);
            Listed(Run(cmds + [Destroy(obj)]), other)
            <==> !(obj in s.objects && s.objects[obj].place == s.objects[other].place)
  {
    RunKeeps(cmds);
    RunNext(cmds, Destroy(obj));
  }

  /** That takes an earlier refused object or spent oneshot in the place; without, only its own goes. */
  lemma UndisturbedDestroyTakesOwn(cmds: seq<Command>, obj: Object, other: Object)
    requires var s := Run(cmds); obj in s.live && Listed(s, other) && !Disturbed(s, s.objects[other].place)
    ensures Listed(Run(cmds + [Destroy(obj)]), other) <==> obj != other
  {
    RunKeeps(cmds);
    RunKeepsLive(cmds, obj);
    RunNext(cmds, Destroy(obj));
  }

  predicate SamePlaceAndKind(s: State, obj: Object, other: Object)
    requires obj in s.objects && other in s.objects
  {
    s.objects[obj].place == s.objects[other].place && s.objects[obj].kind == s.objects[other].kind
  }

  /** A set_region sets the pending region of the constraint in its place just if of the same kind. */
  lemma SetRegionReachesIff(cmds: seq<Command>, obj: Object, other: Object, region: Option<Region>)
    requires var s := Run(cmds); obj in s.live && obj in s.objects && Listed(s, other)
    ensures var s, s' := Run(cmds), Run(cmds + [SetRegion(obj, region)]);
            && Listed(s', other)
            && Own(s', other) == if SamePlaceAndKind(s, obj, other)
                                 then Own(s, other).(pendingRegion := region) else Own(s, other)
  {
    RunKeeps(cmds);
    RunNext(cmds, SetRegion(obj, region));
  }

  /** So does a cursor position hint, which only a lock has. */
  lemma SetHintReachesIff(cmds: seq<Command>, obj: Object, other: Object, hint: Hint)
    requires var s := Run(cmds); obj in s.live && obj in s.objects && Listed(s, other)
    requires Run(cmds).objects[obj].kind == Locked
    ensures var s, s' := Run(cmds), Run(cmds + [SetHint(obj, hint)]);
            && Listed(s', other)
            && Own(s', other) == if SamePlaceAndKind(s, obj, other)
                                 then Own(s, other).(pendingHint := Some(hint)) else Own(s, other)
  {
    RunKeeps(cmds);
    RunNext(cmds, SetHint(obj, hint));
  }

  /** In an undisturbed place no other object's request reaches a constraint. */
  lemma UndisturbedRequestsReachOwn(cmds: seq<Command>, obj: Object, other: Object)
    requires var s := Run(cmds); obj in s.live && Listed(s, other) && !Disturbed(s, s.objects[other].place)
    ensures var s := Run(cmds); obj in s.objects && (SamePlaceAndKind(s, obj, other) <==> obj == other)
  {
    RunKeeps(cmds);
    RunKeepsLive(cmds, obj);
  }

  const PLACE := Place(0, 0)
  const SPENT := Resource(Locked, PLACE, Oneshot)
  const SUCCESSOR := Resource(Locked, PLACE, Persistent)

  /** A lock is created, activated and deactivated. */
  lemma SpentOneshot() returns (cmds: seq<Command>)
    ensures Run(cmds) == State(map[], map[0 := SPENT], {0}, {0}, {}, [On(0), Off(0)])
  {
    RunNext([], Create(0, SPENT, None));
    var lock := Fresh(0, SPENT, None);
    cmds := [] + [Create(0, SPENT, None)];
    assert Run(cmds) == State(map[PLACE := lock], map[0 := SPENT], {0}, {0}, {}, []);
    RunNext(cmds, Activate(PLACE));
    cmds := cmds + [Activate(PLACE)];
    assert Run(cmds) == State(map[PLACE := lock.(active := true)], map[0 := SPENT], {0}, {0}, {}, [On(0)]);
    RunNext(cmds, Deactivate(PLACE));
    cmds := cmds + [Deactivate(PLACE)];
  }

  /** A spent oneshot lock, once destroyed, takes its successor's active lock with it. */
  lemma SpentOneshotTakesSuccessor() returns (cmds: seq<Command>)
    ensures var s := Run(cmds); Off(0) in s.trace && Listed(s, 1) && Own(s, 1).active
    ensures var s := Run(cmds + [Destroy(0)]); !Listed(s, 1) && 1 in s.live && Off(1) !in s.trace
  {
    cmds := SpentOneshot();
    RunNext(cmds, Create(1, SUCCESSOR, None));
    cmds := cmds + [Create(1, SUCCESSOR, None)];
    RunNext(cmds, Activate(PLACE));
    cmds := cmds + [Activate(PLACE)];
    RunNext(cmds, Destroy(0));
  }
}
