/** Interactive resize of a window: smallvil/src/grabs/resize_grab.rs. */
module ResizeGrab {
  import opened Wrappers
  import opened Rectangles

  /** An i32 result that does not fit wraps around. */
  function Wrap(v: int): int { (v + 0x8000_0000) % 0x1_0000_0000 - 0x8000_0000 }

  datatype Location = Location(x: real, y: real)

  datatype Edges = Edges(top: bool, bottom: bool, left: bool, right: bool)

  /** A maximum of zero is no maximum. */
  datatype Hints = Hints(min: Size, max: Size)

  datatype ResizeState =
    | Idle
    | Resizing(edges: Edges, initial: Rectangle)
    | WaitingForLastCommit(edges: Edges, initial: Rectangle)

  /** A size put to the client. */
  datatype Configure = Configure(resizing: bool, size: Size)

  /** `configures` is a history. A window without a location is not in the space. */
  datatype Window = Window(
    location: Option<Point>, geometry: Size, hints: Hints, resize: ResizeState, configures: seq<Configure>)

  datatype Grab = Grab(start: Location, edges: Edges, initial: Rectangle, last: Size)

  // ---- the specification ----------------------------------------------------------------------

  /** The cast rounds toward zero and saturates. */
  function ToI32(v: real): int {
    var whole := if v >= 0.0 then v.Floor else -((-v).Floor);
    if whole > I32_MAX then I32_MAX else if whole < I32_MIN then I32_MIN else whole
  }

  lemma ToI32Nearest(v: real)
    requires -2147483649.0 < v < 2147483648.0
    ensures var r := ToI32(v);
            if v >= 0.0 then r as real <= v < r as real + 1.0 else r as real - 1.0 < v <= r as real
  {
  }

  function Least(min: int): int { Max(min, 1) }

  function Most(max: int): int { if max == 0 then I32_MAX else max }

  /** One axis: dragging the low edge forward makes the window smaller. */
  function NewExtent(initial: int, low: bool, high: bool, delta: real): int {
    if low then ToI32(initial as real + -delta)
    else if high then ToI32(initial as real + delta)
    else initial
  }

  function Fitted(extent: int, min: int, max: int): int { Min(Max(extent, Least(min)), Most(max)) }

  function FittedSize(size: Size, hints: Hints): Size {
    Size(Fitted(size.w, hints.min.w, hints.max.w), Fitted(size.h, hints.min.h, hints.max.h))
  }

  /** The size dragged to, before it is fitted. */
  function Asked(edges: Edges, initial: Size, start: Location, pointer: Location): Size {
    Size(NewExtent(initial.w, edges.left, edges.right, pointer.x - start.x),
         NewExtent(initial.h, edges.top, edges.bottom, pointer.y - start.y))
  }

  function Started(edges: Edges, start: Location, initial: Rectangle): Grab {
    Grab(start, edges, initial, initial.size)
  }

  function Moved(g: Grab, w: Window, pointer: Location): Grab {
    g.(last := FittedSize(Asked(g.edges, g.initial.size, g.start, pointer), w.hints))
  }

  function Configured(w: Window, g: Grab, resizing: bool): Window {
    w.(configures := w.configures + [Configure(resizing, g.last)])
  }

  function Released(w: Window, g: Grab): Window {
    Configured(w, g, false).(resize := WaitingForLastCommit(g.edges, g.initial))
  }

  /** The low edge moves to keep the far one where it was. */
  function Anchored(start: int, extent: int, now: int): int { Wrap(start + Wrap(extent - now)) }

  function Relocated(edges: Edges, initial: Rectangle, geometry: Size, location: Point): Point {
    Point(if edges.left then Anchored(initial.loc.x, initial.size.w, geometry.w) else location.x,
          if edges.top then Anchored(initial.loc.y, initial.size.h, geometry.h) else location.y)
  }

  function HandleCommit(w: Window): Window {
    if w.location == None then w
    else match w.resize
      case Idle => w
      case Resizing(edges, initial) =>
        w.(location := Some(Relocated(edges, initial, w.geometry, w.location.value)))
      case WaitingForLastCommit(edges, initial) =>
        w.(location := Some(Relocated(edges, initial, w.geometry, w.location.value)), resize := Idle)
  }

  // ---- the objects ----------------------------------------------------------------------------

  class Toplevel {
    var location: Option<Point>
    var geometry: Size
    var hints: Hints
    var resize: ResizeState
    ghost var configures: seq<Configure>

    ghost function View(): Window
      reads this
    {
      Window(location, geometry, hints, resize, configures)
    }

    constructor (location: Option<Point>, geometry: Size, hints: Hints)
      ensures View() == Window(location, geometry, hints, Idle, [])
    {
      this.location, this.geometry, this.hints := location, geometry, hints;
      resize, configures := Idle, [];
    }

    method CommitResize() returns (r: Option<(Edges, Rectangle)>)
      modifies this`resize
      ensures resize == if old(resize).WaitingForLastCommit? then Idle else old(resize)
      ensures r == if old(resize).Idle? then None else Some((old(resize).edges, old(resize).initial))
    {
      match resize
      case Resizing(edges, initial) => r := Some((edges, initial));
      case WaitingForLastCommit(edges, initial) =>
        resize := Idle;
        r := Some((edges, initial));
      case Idle => r := None;
    }

    method Commit()
      modifies this
      ensures View() == HandleCommit(old(View()))
    {
      if location == None {
        return;
      }
      var windowLoc := location.value;
      var newX, newY: Option<int> := None, None;
      var committed := CommitResize();
      if committed.Some? {
        var (edges, initial) := committed.value;
        if edges.top || edges.left {
          if edges.left {
            newX := Some(Wrap(initial.loc.x + Wrap(initial.size.w - geometry.w)));
          }
          if edges.top {
            newY := Some(Wrap(initial.loc.y + Wrap(initial.size.h - geometry.h)));
          }
        }
      }
      if newX.Some? {
        windowLoc := windowLoc.(x := newX.value);
      }
      if newY.Some? {
        windowLoc := windowLoc.(y := newY.value);
      }
      if newX.Some? || newY.Some? {
        location := Some(windowLoc);
      }
    }
  }

  class ResizeSurfaceGrab {
    const window: Toplevel
    const start: Location
    const edges: Edges
    const initialRect: Rectangle
    var lastWindowSize: Size

    ghost function View(): Grab
      reads this
    {
      Grab(start, edges, initialRect, lastWindowSize)
    }

    constructor (start: Location, window: Toplevel, edges: Edges, initialWindowRect: Rectangle)
      modifies window
      ensures this.window == window && View() == Started(edges, start, initialWindowRect)
      ensures window.View() == old(window.View()).(resize := Resizing(edges, initialWindowRect))
    {
      this.start, this.window, this.edges, this.initialRect := start, window, edges, initialWindowRect;
      lastWindowSize := initialWindowRect.size;
      new;
      window.resize := Resizing(edges, initialWindowRect);
    }

    static method Drag(extent: int, low: bool, high: bool, delta: real) returns (r: int)
      ensures r == NewExtent(extent, low, high, delta)
    {
      var signed := delta;
      r := extent;
      if low || high {
        if low {
          signed := -signed;
        }
        r := ToI32(extent as real + signed);
      }
    }

    method Motion(pointer: Location)
      modifies this, window
      ensures View() == Moved(old(View()), old(window.View()), pointer)
      ensures window.View() == Configured(old(window.View()), View(), true)
    {
      var hints := window.hints;
      var width := Drag(initialRect.size.w, edges.left, edges.right, pointer.x - start.x);
      var height := Drag(initialRect.size.h, edges.top, edges.bottom, pointer.y - start.y);
      assert Size(width, height) == Asked(edges, initialRect.size, start, pointer);
      lastWindowSize := FittedSize(Size(width, height), hints);
      window.configures := window.configures + [Configure(true, lastWindowSize)];
    }

    /** The grab is over when the left button is no longer among the pressed ones. */
    method Button(leftPressed: bool) returns (released: bool)
      modifies window
      ensures released == !leftPressed
      ensures window.View() == if released then Released(old(window.View()), View()) else old(window.View())
    {
      released := !leftPressed;
      if released {
        window.configures := window.configures + [Configure(false, lastWindowSize)];
        window.resize := WaitingForLastCommit(edges, initialRect);
      }
    }
  }

  // ---- whole runs -------------------------------------------------------------------------------

  datatype State = State(grab: Option<Grab>, window: Window)

  /** Unset is another grab taking over; Place is anyone else moving, mapping or unmapping the window. */
  datatype Command =
    | Start(edges: Edges, pointer: Location)
    | Motion(pointer: Location)
    | Button(leftPressed: bool)
    | Commit(geometry: Size, hints: Hints)
    | Unset
    | Place(location: Option<Point>)

  function Step(s: State, c: Command): State {
    match c
    case Start(edges, pointer) =>
      if s.window.location == None then s
      else
        var initial := Rectangle(s.window.location.value, s.window.geometry);
        State(Some(Started(edges, pointer, initial)), s.window.(resize := Resizing(edges, initial)))
    case Motion(pointer) =>
      if s.grab == None then s
      else
        var g := Moved(s.grab.value, s.window, pointer);
        State(Some(g), Configured(s.window, g, true))
    case Button(leftPressed) =>
      if s.grab == None || leftPressed then s else State(None, Released(s.window, s.grab.value))
    case Commit(geometry, hints) => s.(window := HandleCommit(s.window.(geometry := geometry, hints := hints)))
    case Unset => s.(grab := None)
    case Place(location) => s.(window := s.window.(location := location))
  }

  function Run(s: State, cmds: seq<Command>): State {
    if cmds == [] then s else Step(Run(s, cmds[..|cmds| - 1]), cmds[|cmds| - 1])
  }

  /** The state in which command `i` finds the run. */
  function At(s: State, cmds: seq<Command>, i: nat): State
    requires i <= |cmds|
  {
    Run(s, cmds[..i])
  }

  lemma AtNext(s: State, cmds: seq<Command>, i: nat)
    requires i < |cmds|
    ensures At(s, cmds, i + 1) == Step(At(s, cmds, i), cmds[i])
  {
    assert cmds[..i + 1][..i] == cmds[..i];
  }

  // ---- the opposite edge --------------------------------------------------------------------------

  /** A resize starts; a window that is not in the space cannot be resized. */
  predicate Starts(s: State, cmds: seq<Command>, k: nat)
    requires k < |cmds|
  {
    cmds[k].Start? && At(s, cmds, k).window.location.Some?
  }

  ghost predicate NoStart(s: State, cmds: seq<Command>, i: nat, j: nat)
    requires j <= |cmds|
  {
    forall k :: i < k < j ==> !Starts(s, cmds, k)
  }

  /** Command `i` is the last before `n` to start a resize. */
  ghost predicate LastStart(s: State, cmds: seq<Command>, i: nat, n: nat) {
    i < n <= |cmds| && Starts(s, cmds, i) && NoStart(s, cmds, i, n)
  }

  /** Where and how large the window is at command `i`. */
  function Origin(s: State, cmds: seq<Command>, i: nat): Rectangle
    requires i < |cmds| && Starts(s, cmds, i)
  {
    Rectangle(At(s, cmds, i).window.location.value, At(s, cmds, i).window.geometry)
  }

  /** The grab and the window agree on the resize. */
  ghost predicate Of(s: State, edges: Edges, start: Location, initial: Rectangle) {
    && (s.grab.Some? ==> s.grab.value == Grab(start, edges, initial, s.grab.value.last)
                         && s.window.resize == Resizing(edges, initial))
    && s.window.resize in {Idle, Resizing(edges, initial), WaitingForLastCommit(edges, initial)}
  }

  lemma {:induction false} SinceStart(s: State, cmds: seq<Command>, i: nat, j: nat)
    requires LastStart(s, cmds, i, j)
    ensures Of(At(s, cmds, j), cmds[i].edges, cmds[i].pointer, Origin(s, cmds, i))
  {
    AtNext(s, cmds, j - 1);
    if i < j - 1 {
      assert !Starts(s, cmds, j - 1);
      SinceStart(s, cmds, i, j - 1);
    }
  }

  /** In i32 arithmetic the far edge of an anchored axis is where it was. */
  lemma FarEdgeStays(start: int, extent: int, now: int)
    ensures Wrap(Anchored(start, extent, now) + now) == Wrap(start + extent)
  {
    WrapAdd(start, extent - now);
    WrapAddLeft(start + (extent - now), now);
  }

  /** Wrapping lands in the i32 range, a whole number of turns away, and leaves what is in range. */
  lemma WrapsIntoRange(v: int)
    ensures InI32(Wrap(v)) && (v - Wrap(v)) % 0x1_0000_0000 == 0 && (InI32(v) ==> Wrap(v) == v)
  {
    assert v - Wrap(v) == (v + 0x8000_0000) / 0x1_0000_0000 * 0x1_0000_0000;
  }

  lemma WrapAdd(a: int, b: int)
    ensures Wrap(a + Wrap(b)) == Wrap(a + b)
  {
    var k := (b + 0x8000_0000) / 0x1_0000_0000;
    assert Wrap(b) == b - k * 0x1_0000_0000;
    WrapTurns(a + b, -k);
  }

  lemma WrapAddLeft(a: int, b: int)
    ensures Wrap(Wrap(a) + b) == Wrap(a + b)
  {
    WrapAdd(b, a);
  }

  lemma OneTurn(v: int)
    ensures Wrap(v + 0x1_0000_0000) == Wrap(v)
  {
  }

  lemma {:induction false} WrapTurns(v: int, k: int)
    ensures Wrap(v + k * 0x1_0000_0000) == Wrap(v)
    decreases if k < 0 then -k else k
  {
    if k < 0 {
      OneTurn(v + k * 0x1_0000_0000);
      assert v + k * 0x1_0000_0000 + 0x1_0000_0000 == v + (k + 1) * 0x1_0000_0000;
      WrapTurns(v, k + 1);
    } else if k > 0 {
      OneTurn(v + (k - 1) * 0x1_0000_0000);
      assert v + (k - 1) * 0x1_0000_0000 + 0x1_0000_0000 == v + k * 0x1_0000_0000;
      WrapTurns(v, k - 1);
    }
  }

  /**
   * Each commit of a resize, up to the one that ends it, leaves the edge opposite to a dragged left or
   * top edge where it was when the resize started, and does not move the window along any other axis.
   */
  lemma OppositeEdgeStays(s: State, cmds: seq<Command>, i: nat, n: nat)
    requires n < |cmds| && LastStart(s, cmds, i, n) && cmds[n].Commit?
    requires At(s, cmds, n).window.location.Some? && At(s, cmds, n).window.resize != Idle
    ensures At(s, cmds, n + 1).window.location.Some?
    ensures var origin, edges := Origin(s, cmds, i), cmds[i].edges;
            var before, after := At(s, cmds, n).window.location.value, At(s, cmds, n + 1).window;
            && (if edges.left
                then Wrap(after.location.value.x + after.geometry.w) == Wrap(origin.loc.x + origin.size.w)
                else after.location.value.x == before.x)
            && (if edges.top
                then Wrap(after.location.value.y + after.geometry.h) == Wrap(origin.loc.y + origin.size.h)
                else after.location.value.y == before.y)
  {
    SinceStart(s, cmds, i, n);
    AtNext(s, cmds, n);
    var origin := Origin(s, cmds, i);
    FarEdgeStays(origin.loc.x, origin.size.w, cmds[n].geometry.w);
    FarEdgeStays(origin.loc.y, origin.size.h, cmds[n].geometry.h);
  }

  /** Without a resize a commit moves nothing. */
  lemma IdleCommitStays(s: State, cmds: seq<Command>, n: nat)
    requires n < |cmds| && cmds[n].Commit? && At(s, cmds, n).window.resize == Idle
    ensures At(s, cmds, n + 1).window.location == At(s, cmds, n).window.location
  {
    AtNext(s, cmds, n);
  }

  // ---- the last commit ----------------------------------------------------------------------------

  ghost predicate MappedCommit(s: State, cmds: seq<Command>, k: nat)
    requires k < |cmds|
  {
    cmds[k].Commit? && At(s, cmds, k).window.location.Some?
  }

  predicate Releases(s: State, cmds: seq<Command>, k: nat)
    requires k < |cmds|
  {
    cmds[k] == Button(false) && At(s, cmds, k).grab.Some?
  }

  /** A finished resize waits until the first commit of the mapped window, and is over after it. */
  lemma {:induction false} FinishedResizeConsumedOnce(s: State, cmds: seq<Command>, r: nat, n: nat)
    requires r < n <= |cmds| && Releases(s, cmds, r) && NoStart(s, cmds, r, n)
    ensures var g := At(s, cmds, r).grab.value;
            && At(s, cmds, n).grab == None
            && At(s, cmds, n).window.resize
            == if exists k :: r < k < n && MappedCommit(s, cmds, k) then Idle
               else WaitingForLastCommit(g.edges, g.initial)
  {
    AtNext(s, cmds, n - 1);
    if r < n - 1 {
      FinishedResizeConsumedOnce(s, cmds, r, n - 1);
      assert !Starts(s, cmds, n - 1);
      assert MappedCommit(s, cmds, n - 1) || !MappedCommit(s, cmds, n - 1);
    }
  }

  ghost predicate NoMappedCommit(s: State, cmds: seq<Command>, r: nat, c: nat)
    requires c <= |cmds|
  {
    forall k :: r < k < c ==> !MappedCommit(s, cmds, k)
  }

  ghost predicate NoRelease(s: State, cmds: seq<Command>, r: nat, c: nat)
    requires c <= |cmds|
  {
    forall k :: r < k < c ==> !Releases(s, cmds, k)
  }

  /** Commit `c` ends a resize that waits for it, and none was released since `r`. */
  ghost predicate Finishes(s: State, cmds: seq<Command>, r: nat, c: nat)
    requires c < |cmds|
  {
    MappedCommit(s, cmds, c) && At(s, cmds, c).window.resize.WaitingForLastCommit? && NoRelease(s, cmds, r, c)
  }

  lemma {:induction false} LastStartIn(s: State, cmds: seq<Command>, r: nat, c: nat) returns (i: nat)
    requires c <= |cmds| && !NoStart(s, cmds, r, c)
    ensures r < i && LastStart(s, cmds, i, c)
    decreases c
  {
    if Starts(s, cmds, c - 1) {
      i := c - 1;
    } else {
      i := LastStartIn(s, cmds, r, c - 1);
    }
  }

  /** A resize that has started and was not released does not wait. */
  lemma {:induction false} UnreleasedDoesNotWait(s: State, cmds: seq<Command>, i: nat, c: nat)
    requires LastStart(s, cmds, i, c) && NoRelease(s, cmds, i, c)
    ensures !At(s, cmds, c).window.resize.WaitingForLastCommit?
  {
    AtNext(s, cmds, c - 1);
    if i < c - 1 {
      UnreleasedDoesNotWait(s, cmds, i, c - 1);
      assert !Starts(s, cmds, c - 1) && !Releases(s, cmds, c - 1);
    }
  }

  lemma ReleasedLeavesNoGrab(s: State, cmds: seq<Command>, r: nat, c: nat)
    requires r < c <= |cmds| && Releases(s, cmds, r) && NoStart(s, cmds, r, c)
    ensures NoRelease(s, cmds, r, c)
  {
    forall k | r < k < c ensures !Releases(s, cmds, k) {
      FinishedResizeConsumedOnce(s, cmds, r, k);
    }
  }

  /**
   * A commit of the mapped window finishes the resize released at `r` just when no resize started in
   * between and no such commit came before it; and it is that resize, with its edges and rectangle.
   */
  lemma FinishesIff(s: State, cmds: seq<Command>, r: nat, c: nat)
    requires r < c < |cmds| && Releases(s, cmds, r) && MappedCommit(s, cmds, c)
    ensures Finishes(s, cmds, r, c) <==> NoStart(s, cmds, r, c) && NoMappedCommit(s, cmds, r, c)
    ensures Finishes(s, cmds, r, c) ==>
              var g := At(s, cmds, r).grab.value;
              At(s, cmds, c).window.resize == WaitingForLastCommit(g.edges, g.initial)
  {
    if NoStart(s, cmds, r, c) {
      FinishedResizeConsumedOnce(s, cmds, r, c);
      ReleasedLeavesNoGrab(s, cmds, r, c);
    } else {
      var i := LastStartIn(s, cmds, r, c);
      if NoRelease(s, cmds, r, c) {
        UnreleasedDoesNotWait(s, cmds, i, c);
      }
    }
  }

  /** So a resize that is restarted before its last commit is never finished, by whatever commit. */
  lemma RestartDropsFinished(s: State, cmds: seq<Command>, r: nat, i: nat, c: nat)
    requires r < i < c < |cmds| && Releases(s, cmds, r) && Starts(s, cmds, i) && MappedCommit(s, cmds, c)
    ensures !Finishes(s, cmds, r, c)
  {
    FinishesIff(s, cmds, r, c);
  }

  // ---- the configured sizes -----------------------------------------------------------------------

  predicate InHints(extent: int, min: int, max: int) { min <= extent <= Most(max) }

  predicate Fits(size: Size, hints: Hints) {
    InHints(size.w, hints.min.w, hints.max.w) && InHints(size.h, hints.min.h, hints.max.h)
  }

  predicate Satisfiable(hints: Hints) {
    hints.min.w <= Most(hints.max.w) && hints.min.h <= Most(hints.max.h)
  }

  predicate Moves(s: State, cmds: seq<Command>, k: nat)
    requires k < |cmds|
  {
    cmds[k].Motion? && At(s, cmds, k).grab.Some?
  }

  ghost predicate NoMove(s: State, cmds: seq<Command>, i: nat, n: nat)
    requires n <= |cmds|
  {
    forall k :: i < k < n ==> !Moves(s, cmds, k)
  }

  /** The size that motion `m` asked for, in the resize that started at `i`. */
  function AskedAt(s: State, cmds: seq<Command>, i: nat, m: nat): Size
    requires i < m < |cmds| && Starts(s, cmds, i) && cmds[m].Motion?
  {
    Asked(cmds[i].edges, Origin(s, cmds, i).size, cmds[i].pointer, cmds[m].pointer)
  }

  /** The last motion of the resize that started at `i`, if there was one. */
  ghost predicate LastMove(s: State, cmds: seq<Command>, i: nat, m: Option<nat>, n: nat)
    requires n <= |cmds|
  {
    match m
    case None => NoMove(s, cmds, i, n)
    case Some(k) => i < k < n && Moves(s, cmds, k) && NoMove(s, cmds, k, n)
  }

  /** The size a grab holds: what its last motion asked for, fitted then, or the initial size. */
  function LastSize(s: State, cmds: seq<Command>, i: nat, m: Option<nat>): Size
    requires i < |cmds| && Starts(s, cmds, i)
    requires m.Some? ==> i < m.value < |cmds| && cmds[m.value].Motion?
  {
    match m
    case None => Origin(s, cmds, i).size
    case Some(k) => FittedSize(AskedAt(s, cmds, i, k), At(s, cmds, k).window.hints)
  }

  lemma {:induction false} GrabSince(s: State, cmds: seq<Command>, n: nat) returns (i: nat, m: Option<nat>)
    requires n <= |cmds| && s.grab == None && At(s, cmds, n).grab.Some?
    ensures LastStart(s, cmds, i, n) && LastMove(s, cmds, i, m, n)
    ensures At(s, cmds, n).grab.value.last == LastSize(s, cmds, i, m)
  {
    var k := n - 1;
    AtNext(s, cmds, k);
    if Starts(s, cmds, k) {
      i, m := k, None;
    } else {
      i, m := GrabSince(s, cmds, k);
      SinceStart(s, cmds, i, k);
      if Moves(s, cmds, k) {
        m := Some(k);
      }
    }
  }

  lemma FittedInHints(extent: int, min: int, max: int)
    ensures InHints(Fitted(extent, min, max), min, max) <==> min <= Most(max)
  {
  }

  lemma FittedFits(size: Size, hints: Hints)
    ensures Fits(FittedSize(size, hints), hints) <==> Satisfiable(hints)
  {
    FittedInHints(size.w, hints.min.w, hints.max.w);
    FittedInHints(size.h, hints.min.h, hints.max.h);
  }

  /** One axis: when what was fitted to the hints `was` lies within the hints `now`. */
  predicate StillInHints(asked: int, wasMin: int, wasMax: int, nowMin: int, nowMax: int) {
    && (asked >= nowMin || Least(wasMin) >= nowMin) && Most(wasMax) >= nowMin
    && ((asked <= Most(nowMax) && Least(wasMin) <= Most(nowMax)) || Most(wasMax) <= Most(nowMax))
  }

  predicate StillFits(asked: Size, was: Hints, now: Hints) {
    && StillInHints(asked.w, was.min.w, was.max.w, now.min.w, now.max.w)
    && StillInHints(asked.h, was.min.h, was.max.h, now.min.h, now.max.h)
  }

  lemma StillInHintsIff(asked: int, wasMin: int, wasMax: int, nowMin: int, nowMax: int)
    ensures InHints(Fitted(asked, wasMin, wasMax), nowMin, nowMax)
       <==> StillInHints(asked, wasMin, wasMax, nowMin, nowMax)
  {
  }

  /** Under unchanged hints that is no more than that they can be satisfied. */
  lemma StillFitsUnchanged(asked: Size, hints: Hints)
    ensures StillFits(asked, hints, hints) <==> Satisfiable(hints)
  {
  }

  /** The size that a motion or a release configures. */
  ghost predicate Configures(s: State, cmds: seq<Command>, n: nat, size: Size)
    requires n < |cmds|
  {
    At(s, cmds, n + 1).window.configures
    == At(s, cmds, n).window.configures + [Configure(cmds[n].Motion?, size)]
  }

  /**
   * Over every run a motion configures the size dragged to, fitted; that size respects the hints
   * in force just when they leave room for any size.
   */
  lemma MotionWithinHints(s: State, cmds: seq<Command>, n: nat) returns (i: nat)
    requires n < |cmds| && s.grab == None && Moves(s, cmds, n)
    ensures LastStart(s, cmds, i, n)
    ensures var hints := At(s, cmds, n).window.hints;
            var size := FittedSize(AskedAt(s, cmds, i, n), hints);
            Configures(s, cmds, n, size) && (Fits(size, hints) <==> Satisfiable(hints))
  {
    var m;
    i, m := GrabSince(s, cmds, n);
    SinceStart(s, cmds, i, n);
    AtNext(s, cmds, n);
    FittedFits(AskedAt(s, cmds, i, n), At(s, cmds, n).window.hints);
  }

  /**
   * Over every run a release configures the size of the last motion again, or the initial size if there
   * was none. That size respects the hints in force at the release just when, after a motion, what was
   * fitted to the hints of then still fits those of now; and without one, the initial size does.
   */
  lemma ReleaseWithinHints(s: State, cmds: seq<Command>, n: nat) returns (i: nat, m: Option<nat>)
    requires n < |cmds| && s.grab == None && Releases(s, cmds, n)
    ensures LastStart(s, cmds, i, n) && LastMove(s, cmds, i, m, n)
    ensures Configures(s, cmds, n, LastSize(s, cmds, i, m))
    ensures var now := At(s, cmds, n).window.hints;
            Fits(LastSize(s, cmds, i, m), now)
            <==> match m
                 case None => Fits(Origin(s, cmds, i).size, now)
                 case Some(k) => StillFits(AskedAt(s, cmds, i, k), At(s, cmds, k).window.hints, now)
    ensures var now := At(s, cmds, n).window.hints;
            m.Some? && At(s, cmds, m.value).window.hints == now ==>
              (Fits(LastSize(s, cmds, i, m), now) <==> Satisfiable(now))
  {
    i, m := GrabSince(s, cmds, n);
    AtNext(s, cmds, n);
    if m.Some? {
      var was, now := At(s, cmds, m.value).window.hints, At(s, cmds, n).window.hints;
      var asked := AskedAt(s, cmds, i, m.value);
      StillInHintsIff(asked.w, was.min.w, was.max.w, now.min.w, now.max.w);
      StillInHintsIff(asked.h, was.min.h, was.max.h, now.min.h, now.max.h);
      StillFitsUnchanged(asked, now);
    }
  }

  /** Nothing else configures a size. */
  lemma OthersConfigureNothing(s: State, cmds: seq<Command>, n: nat)
    requires n < |cmds| && !Moves(s, cmds, n) && !Releases(s, cmds, n)
    ensures At(s, cmds, n + 1).window.configures == At(s, cmds, n).window.configures
  {
    AtNext(s, cmds, n);
  }

  // ---- the sizes, without the functions above -------------------------------------------------------

  /** `r` is `v` rounded toward zero, or the end of the i32 range that `v` is beyond. */
  predicate Truncates(r: int, v: real) {
    && (v >= 2147483647.0 ==> r == 0x7fff_ffff)
    && (v <= -2147483648.0 ==> r == -0x8000_0000)
    && (0.0 <= v < 2147483647.0 ==> r as real <= v < r as real + 1.0)
    && (-2147483648.0 < v < 0.0 ==> r as real - 1.0 < v <= r as real)
  }

  /** One axis: an edge dragged by `delta` asks for so much less or more; without one nothing changes. */
  predicate Asks(asked: int, low: bool, high: bool, origin: int, delta: real) {
    if low then Truncates(asked, origin as real - delta)
    else if high then Truncates(asked, origin as real + delta)
    else asked == origin
  }

  /** At least 1 and the minimum, and then at most the maximum, unless that is 0: then i32::MAX. */
  predicate Clamped(now: int, asked: int, min: int, max: int) {
    var least := if asked >= min && asked >= 1 then asked else if min >= 1 then min else 1;
    var most := if max == 0 then 0x7fff_ffff else max;
    now == if least > most then most else least
  }

  lemma NewExtentAsks(origin: int, low: bool, high: bool, delta: real)
    ensures Asks(NewExtent(origin, low, high, delta), low, high, origin, delta)
  {
    assert origin as real + -delta == origin as real - delta;
    CastTruncates(if low then origin as real - delta else origin as real + delta);
  }

  lemma CastTruncates(v: real)
    ensures Truncates(ToI32(v), v)
  {
  }

  lemma FittedClamped(asked: int, min: int, max: int)
    ensures Clamped(Fitted(asked, min, max), asked, min, max)
  {
  }

  /**
   * Over every run a motion configures on each axis what the dragged edge asks for, clamped to the hints
   * in force; an axis with no dragged edge keeps the extent the window had at the start, clamped likewise.
   */
  lemma MotionConfiguresAxes(s: State, cmds: seq<Command>, n: nat) returns (i: nat, asked: Size, size: Size)
    requires n < |cmds| && s.grab == None && Moves(s, cmds, n)
    ensures LastStart(s, cmds, i, n) && Configures(s, cmds, n, size)
    ensures var origin, edges, hints := Origin(s, cmds, i).size, cmds[i].edges, At(s, cmds, n).window.hints;
            && Asks(asked.w, edges.left, edges.right, origin.w, cmds[n].pointer.x - cmds[i].pointer.x)
            && Asks(asked.h, edges.top, edges.bottom, origin.h, cmds[n].pointer.y - cmds[i].pointer.y)
            && Clamped(size.w, asked.w, hints.min.w, hints.max.w) && Clamped(size.h, asked.h, hints.min.h, hints.max.h)
  {
    i := MotionWithinHints(s, cmds, n);
    var origin, edges, hints := Origin(s, cmds, i).size, cmds[i].edges, At(s, cmds, n).window.hints;
    asked := AskedAt(s, cmds, i, n);
    size := FittedSize(asked, hints);
    NewExtentAsks(origin.w, edges.left, edges.right, cmds[n].pointer.x - cmds[i].pointer.x);
    NewExtentAsks(origin.h, edges.top, edges.bottom, cmds[n].pointer.y - cmds[i].pointer.y);
    FittedClamped(asked.w, hints.min.w, hints.max.w);
    FittedClamped(asked.h, hints.min.h, hints.max.h);
  }

  /** A release configures again what the last motion did, or without one the size at the start. */
  lemma ReleaseRepeats(s: State, cmds: seq<Command>, n: nat) returns (i: nat, m: Option<nat>, size: Size)
    requires n < |cmds| && s.grab == None && Releases(s, cmds, n)
    ensures LastStart(s, cmds, i, n) && LastMove(s, cmds, i, m, n) && Configures(s, cmds, n, size)
    ensures match m
            case None => size == Origin(s, cmds, i).size
            case Some(k) => Configures(s, cmds, k, size)
  {
    i, m := ReleaseWithinHints(s, cmds, n);
    size := LastSize(s, cmds, i, m);
    if m.Some? {
      var i' := MotionWithinHints(s, cmds, m.value);
      SameLastStart(s, cmds, i, i', m.value, n);
    }
  }

  lemma SameLastStart(s: State, cmds: seq<Command>, i: nat, j: nat, m: nat, n: nat)
    requires LastStart(s, cmds, i, n) && i < m < n && LastStart(s, cmds, j, m)
    ensures i == j
  {
    assert Starts(s, cmds, i) && Starts(s, cmds, j);
  }

  /** Neither a release nor another grab has come since the last start. */
  ghost predicate HeldSince(s: State, cmds: seq<Command>, i: nat, n: nat) {
    LastStart(s, cmds, i, n) && forall k :: i < k < n ==> cmds[k] != Button(false) && cmds[k] != Unset
  }

  ghost predicate Held(s: State, cmds: seq<Command>, n: nat) { exists i: nat :: HeldSince(s, cmds, i, n) }

  lemma HeldNext(s: State, cmds: seq<Command>, n: nat)
    requires n < |cmds|
    ensures Held(s, cmds, n + 1)
       <==> Starts(s, cmds, n) || (Held(s, cmds, n) && cmds[n] != Button(false) && cmds[n] != Unset)
  {
    var next := n + 1;
    if i: nat :| HeldSince(s, cmds, i, next) {
      assert i < n ==> HeldSince(s, cmds, i, n);
    }
    if Starts(s, cmds, n) {
      assert HeldSince(s, cmds, n, next);
    } else if i: nat :| HeldSince(s, cmds, i, n) {
      assert cmds[n] != Button(false) && cmds[n] != Unset ==> HeldSince(s, cmds, i, next);
    }
  }

  /** The grab is held from a start to the release of the button or another grab, whatever else comes. */
  lemma {:induction false} GrabIffHeld(s: State, cmds: seq<Command>, n: nat)
    requires n <= |cmds| && s.grab == None
    ensures At(s, cmds, n).grab.Some? <==> Held(s, cmds, n)
  {
    if n > 0 {
      GrabIffHeld(s, cmds, n - 1);
      HeldNext(s, cmds, n - 1);
      AtNext(s, cmds, n - 1);
    }
  }

  // Two runs in which the hints can be satisfied throughout and a release configures a size outside them.

  const RIGHT := Edges(false, false, false, true)
  const AT_LEAST_20 := Hints(Size(20, 20), Size(0, 0))
  const AT_MOST_50 := Hints(Size(0, 0), Size(50, 50))
  const ANY := Hints(Size(0, 0), Size(0, 0))

  function Small(hints: Hints): State {
    State(None, Window(Some(Point(0, 0)), Size(10, 10), hints, Idle, []))
  }

  lemma RunNext(s: State, cmds: seq<Command>, c: Command)
    ensures Run(s, cmds + [c]) == Step(Run(s, cmds), c)
  {
    assert (cmds + [c])[..|cmds|] == cmds;
  }

  const LEFT := Edges(false, false, true, false)
  const LEFT_DRAG: seq<Command> := [] + [Start(LEFT, Location(0.0, 0.0))] + [Button(false)]

  lemma LeftDragWaits()
    ensures Run(Small(ANY), LEFT_DRAG)
         == State(None, Window(Some(Point(0, 0)), Size(10, 10), ANY,
                               WaitingForLastCommit(LEFT, Rectangle(Point(0, 0), Size(10, 10))),
                               [Configure(false, Size(10, 10))]))
  {
    var start := Start(LEFT, Location(0.0, 0.0));
    RunNext(Small(ANY), [], start);
    RunNext(Small(ANY), [] + [start], Button(false));
  }

  /**
   * A left resize is released and a right one started before the client commits the new width: the
   * window stays where it is and its right edge moves, which that commit would have kept at 10.
   */
  lemma RestartedResizeMovesFarEdge()
    ensures var again, commit := Start(RIGHT, Location(0.0, 0.0)), Commit(Size(20, 10), ANY);
            var finished := Run(Small(ANY), LEFT_DRAG + [commit]).window;
            var restarted := Run(Small(ANY), LEFT_DRAG + [again] + [commit]).window;
            && finished.location == Some(Point(-10, 0)) && restarted.location == Some(Point(0, 0))
            && finished.geometry == restarted.geometry == Size(20, 10)
  {
    var again, commit := Start(RIGHT, Location(0.0, 0.0)), Commit(Size(20, 10), ANY);
    LeftDragWaits();
    RunNext(Small(ANY), LEFT_DRAG, commit);
    RunNext(Small(ANY), LEFT_DRAG, again);
    RunNext(Small(ANY), LEFT_DRAG + [again], commit);
  }

  /** Released without a motion, a window smaller than its minimum is configured as small as it is. */
  lemma ReleasedWithoutMotionOutside()
    ensures var w := Run(Small(AT_LEAST_20), [Start(RIGHT, Location(0.0, 0.0)), Button(false)]).window;
            && w.configures == [Configure(false, Size(10, 10))]
            && !Fits(Size(10, 10), w.hints) && Satisfiable(w.hints)
  {
    var start := Start(RIGHT, Location(0.0, 0.0));
    RunNext(Small(AT_LEAST_20), [], start);
    RunNext(Small(AT_LEAST_20), [start], Button(false));
    assert [] + [start] == [start] && [start] + [Button(false)] == [start, Button(false)];
  }

  /** A maximum that comes after the last motion is not respected by the release. */
  lemma ReleasedAfterNewMaximumOutside() returns (cmds: seq<Command>)
    ensures cmds == [Start(RIGHT, Location(0.0, 0.0)), Motion(Location(90.0, 0.0)),
                     Commit(Size(100, 10), AT_MOST_50), Button(false)]
    ensures var w := Run(Small(ANY), cmds).window;
            && w.configures == [Configure(true, Size(100, 10)), Configure(false, Size(100, 10))]
            && !Fits(Size(100, 10), w.hints) && Satisfiable(ANY) && Satisfiable(w.hints)
  {
    var start, motion := Start(RIGHT, Location(0.0, 0.0)), Motion(Location(90.0, 0.0));
    var initial := Rectangle(Point(0, 0), Size(10, 10));
    RunNext(Small(ANY), [], start);
    cmds := [] + [start];
    RunNext(Small(ANY), cmds, motion);
    ToI32Whole(100);
    cmds := cmds + [motion];
    assert Asked(RIGHT, Size(10, 10), Location(0.0, 0.0), Location(90.0, 0.0)) == Size(100, 10);
    assert Run(Small(ANY), cmds).window.configures == [Configure(true, Size(100, 10))];
    RunNext(Small(ANY), cmds, Commit(Size(100, 10), AT_MOST_50));
    cmds := cmds + [Commit(Size(100, 10), AT_MOST_50)];
    RunNext(Small(ANY), cmds, Button(false));
    cmds := cmds + [Button(false)];
  }

  // ---- pointer, client and window together ----------------------------------------------------------

  /** One axis, dragged by `d` whole units: the hints admit what is asked for, and nothing overflows. */
  predicate WholeDrag(low: bool, high: bool, start: int, extent: int, d: int, min: int, max: int) {
    low || high ==>
      var asked := if low then extent - d else extent + d;
      Least(min) <= asked <= Most(max) && InI32(asked) && InI32(start + d)
  }

  /** One axis: the dragged edge went by `d` and the other one stayed; without one neither moves. */
  predicate Follows(low: bool, high: bool, start: int, extent: int, d: int, min: int, max: int,
                    before: int, now: int, nowExtent: int)
  {
    if low then now == start + d && now + nowExtent == start + extent
    else now == before && if high then nowExtent == extent + d else Clamped(nowExtent, extent, min, max)
  }

  predicate WholeDrags(edges: Edges, origin: Rectangle, dx: int, dy: int, hints: Hints) {
    && WholeDrag(edges.left, edges.right, origin.loc.x, origin.size.w, dx, hints.min.w, hints.max.w)
    && WholeDrag(edges.top, edges.bottom, origin.loc.y, origin.size.h, dy, hints.min.h, hints.max.h)
  }

  predicate BothFollow(edges: Edges, origin: Rectangle, dx: int, dy: int, hints: Hints,
                       before: Point, now: Point, size: Size)
  {
    && Follows(edges.left, edges.right, origin.loc.x, origin.size.w, dx, hints.min.w, hints.max.w,
               before.x, now.x, size.w)
    && Follows(edges.top, edges.bottom, origin.loc.y, origin.size.h, dy, hints.min.h, hints.max.h,
               before.y, now.y, size.h)
  }

  /**
   * A client that commits what a motion by whole units configured has its dragged edges displaced
   * exactly as the pointer is.
   */
  lemma DraggedEdgeFollowsPointer(s: State, cmds: seq<Command>, i: nat, n: nat, dx: int, dy: int)
    requires 0 < n < |cmds| && LastStart(s, cmds, i, n - 1) && Moves(s, cmds, n - 1) && cmds[n].Commit?
    requires cmds[n - 1].pointer == Location(cmds[i].pointer.x + dx as real, cmds[i].pointer.y + dy as real)
    requires At(s, cmds, n).window.location.Some? && Configures(s, cmds, n - 1, cmds[n].geometry)
    requires WholeDrags(cmds[i].edges, Origin(s, cmds, i), dx, dy, At(s, cmds, n - 1).window.hints)
    ensures At(s, cmds, n + 1).window.location.Some?
    ensures var before, after := At(s, cmds, n).window, At(s, cmds, n + 1).window;
            BothFollow(cmds[i].edges, Origin(s, cmds, i), dx, dy, At(s, cmds, n - 1).window.hints,
                       before.location.value, after.location.value, after.geometry)
  {
    ConfiguredSize(s, cmds, i, n - 1, cmds[n].geometry);
    CommitRelocates(s, cmds, i, n);
    AxesFollow(cmds[i].edges, Origin(s, cmds, i), cmds[i].pointer, dx, dy, At(s, cmds, n - 1).window.hints,
               At(s, cmds, n).window.location.value);
  }

  lemma AxesFollow(edges: Edges, origin: Rectangle, start: Location, dx: int, dy: int, hints: Hints, before: Point)
    requires WholeDrags(edges, origin, dx, dy, hints)
    ensures var pointer := Location(start.x + dx as real, start.y + dy as real);
            var size := FittedSize(Asked(edges, origin.size, start, pointer), hints);
            BothFollow(edges, origin, dx, dy, hints, before, Relocated(edges, origin, size, before), size)
  {
    var pointer := Location(start.x + dx as real, start.y + dy as real);
    assert pointer.x - start.x == dx as real && pointer.y - start.y == dy as real;
    var size := FittedSize(Asked(edges, origin.size, start, pointer), hints);
    var now := Relocated(edges, origin, size, before);
    AxisFollows(edges.left, edges.right, origin.loc.x, origin.size.w, dx, hints.min.w, hints.max.w,
                before.x, now.x, size.w);
    AxisFollows(edges.top, edges.bottom, origin.loc.y, origin.size.h, dy, hints.min.h, hints.max.h,
                before.y, now.y, size.h);
  }

  lemma ConfiguredSize(s: State, cmds: seq<Command>, i: nat, n: nat, size: Size)
    requires n < |cmds| && LastStart(s, cmds, i, n) && Moves(s, cmds, n) && Configures(s, cmds, n, size)
    ensures size == FittedSize(AskedAt(s, cmds, i, n), At(s, cmds, n).window.hints)
  {
    SinceStart(s, cmds, i, n);
    AtNext(s, cmds, n);
    var before := At(s, cmds, n).window.configures;
    assert (before + [Configure(true, size)])[|before|] == Configure(true, size);
  }

  lemma CommitRelocates(s: State, cmds: seq<Command>, i: nat, n: nat)
    requires 0 < n < |cmds| && LastStart(s, cmds, i, n - 1) && Moves(s, cmds, n - 1) && cmds[n].Commit?
    requires At(s, cmds, n).window.location.Some?
    ensures var w, w' := At(s, cmds, n).window, At(s, cmds, n + 1).window;
            && w'.geometry == cmds[n].geometry
            && w'.location == Some(Relocated(cmds[i].edges, Origin(s, cmds, i), cmds[n].geometry, w.location.value))
  {
    SinceStart(s, cmds, i, n - 1);
    AtNext(s, cmds, n - 1);
    AtNext(s, cmds, n);
  }

  lemma AxisFollows(low: bool, high: bool, start: int, extent: int, d: int, min: int, max: int,
                    before: int, now: int, nowExtent: int)
    requires WholeDrag(low, high, start, extent, d, min, max)
    requires nowExtent == Fitted(NewExtent(extent, low, high, d as real), min, max)
    requires now == if low then Anchored(start, extent, nowExtent) else before
    ensures Follows(low, high, start, extent, d, min, max, before, now, nowExtent)
  {
    FittedClamped(extent, min, max);
    if low || high {
      var asked := if low then extent - d else extent + d;
      ToI32Whole(asked);
      assert asked as real == if low then extent as real + -(d as real) else extent as real + d as real;
      WrapAdd(start, d);
    }
  }

  lemma ToI32Whole(v: int)
    requires InI32(v)
    ensures ToI32(v as real) == v
  {
  }
}
