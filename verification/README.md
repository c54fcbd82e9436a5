# Proofs about Smithay

Smithay is a library for building Wayland compositors. This project models the parts of it that
compute or coordinate something subtle, and proves what those parts promise. To verify all of it:

    dafny verify dfyconfig.toml

Where the source changes an object step by step, a class does the same, and each of its methods is
proved equal to one step of a specification function; the theorems are about all runs of those steps.
Where the source computes a value, a function does. Histories (sent events, accepted requests, drawn
serials) are part of the specification state, so that a theorem can speak about a whole run.

| module | models |
|---|---|
| `Rectangles`, `Worklist`, `Subtraction`, `SubtractionLaws`, `SubtractionTheorems` | rectangles in saturating i32 arithmetic, and `subtract_rects_many_in_place` with its `swap_remove` |
| `Transforms` | the eight output transforms and integer logical/buffer conversion |
| `AppendLists`, `UserDataMaps` | the lock-free append list, and any number of threads working on a `UserDataMap` |
| `Signaling`, `SignalInners` | the re-entrant signaler as a machine, and its loops tied to that machine |
| `Serials` | wrap-around serials drawn by any number of threads |
| `Ids` | the identifier generator with its cyclic search |
| `Clocks`, `VblankThrottle` | normalised timespecs, and the vblank throttle that rests on them |
| `ToplevelIcons` | icon buffers and their destruction hooks |
| `PointerConstraints` | pointer locks and confinements |
| `ResizeGrab` | interactive resize |
| `PointerGestures` | swipe, pinch and hold gestures |

## What turned out false

The proofs follow the code. Where a plausible promise does not hold, there is a counterexample and the
exact condition under which it does.

- **Subtraction is not always exact.** A removal while pieces are at the tail moves one of them to the
  front, where it uses up a check, so an original may never be checked (`ThreeHitsCounterexample`; two
  cuts from one rectangle suffice, `TwoCutsCounterexample`). The whole operation is exact if and only if
  no cell of a subtrahend survives: each cell it has in a rectangle its round leaves unchecked is covered
  by a later subtrahend (`SubtractManyExactIff`). One round is exact if and only if no rectangle it
  leaves unchecked shares a cell with the subtrahend (`RoundExactIff`), which for non-empty rectangles
  that are not swallowed whole is a condition on counts alone (`RoundExactClosedForm`). Exact rounds
  suffice (`SubtractManyExact`) and are not needed (`RepeatedStripExact`).
- **A mirrored rectangle with a saturating end gains cells** (`SaturatedMirrorGains`). A transform keeps
  the cells if and only if nothing saturates on an axis that it mirrors, or there are none
  (`TransformedCells`). So subtraction need not commute with it (`SaturatedMirrorDoesNotCommute`); it does
  if and only if every cell of the minuend outside the subtrahend saturates away on both sides of the
  transform or on neither (`CommutesIff`), whatever the subtrahend if the minuend keeps its cells.
- **`invert` is not always the inverse.** It swaps `Flipped90` and `Flipped270`, each of which undoes
  itself on rectangles (`InvertUndoesIff`); for the same two, points and rectangles are transformed
  differently (`PointsAgreeWithRectsIff`), and the logical/buffer round trip turns a rectangle upside down
  (`LogicalRoundTrip`). Composition by `+` is half a turn off for a flip
  after a quarter turn (`ComposesIff`, `ComposesUpToHalfTurn`).
- **`overlaps` does not mean a shared cell** when a rectangle is empty (`OverlapWithoutCell`); it does if
  and only if both have cells (`SharedCellIffOverlap`).
- **`get_or_insert` may return or panic on another thread's node** (`ReadBackPanics`): it reads the last
  node. That is its own if and only if no insertion of any thread came between, and the unwrap succeeds if
  and only if the thread may see that node as the type (`GetOrInsertReturns`).
- **0 can be drawn as a serial** when threads interleave at wrap-around (`InterleavedDrawsZero`). A call
  draws 0 if and only if, while it stood between its two steps, another thread drew the last serial before
  0 and since then no call has begun or ended (`ZeroDrawnIff`); so never while calls do not overlap
  (`ApartNeverZero`).
- **Destroying a constraint object can remove another object's constraint**, because it is looked up by
  pointer only (`SpentOneshotTakesSuccessor`). It does if and only if the two are in the same place
  (`DestroyTakesIff`), and never before an object was refused or a oneshot spent there
  (`UndisturbedDestroyTakesOwn`). A region or hint set through such an object reaches the other's constraint
  if and only if that is also of the same kind (`SetRegionReachesIff`, `SetHintReachesIff`).
- **A release can configure a size outside the hints in force**: released without a motion, a window is
  configured as large as it was (`ReleasedWithoutMotionOutside`), and hints that changed after the last
  motion are not looked at again (`ReleasedAfterNewMaximumOutside`). A motion's size respects the hints if
  and only if they leave room for any size (`MotionWithinHints`). A release's size does if and only if,
  after a motion, what was asked for and fitted then still fits, and without one the initial size does
  (`ReleaseWithinHints`).
- **A resize restarted before its last commit is never finished** (`RestartDropsFinished`), and its far
  edge may move (`RestartedResizeMovesFarEdge`). A commit of the mapped window finishes a released resize
  if and only if no resize started in between and no such commit came before it (`FinishesIff`).

## Model

The theorems over whole runs and all inputs come first, then the lemmas and counterexamples beside them,
then the operations, each proved equal to its step.

| member | source | states |
|---|---|---|
| `SubtractionTheorems.SubtractManyExactIff` | src/utils/geometry.rs:1436-1518 | The whole operation, for all lists, holds exactly the cells of rects outside all others if and only if every cell of a subtrahend that its round leaves in an unchecked rectangle is covered by a later subtrahend |
| `SubtractionTheorems.SubtractManyCoverage` | src/utils/geometry.rs:1436-1518 | For all lists the result covers at least rects minus others and at most rects |
| `SubtractionTheorems.SubtractManyCount` | src/utils/geometry.rs:1436-1518 | The same with multiplicities: no cell is covered more often than before, and outside the others exactly as often |
| `SubtractionTheorems.SubtractManyDisjoint` | src/utils/geometry.rs:1436-1518 | Pairwise disjoint rectangles stay pairwise disjoint |
| `SubtractionTheorems.RoundExactIff` | src/utils/geometry.rs:1440-1515 | A round equals the reference if and only if no rectangle it left unchecked shares a cell with other |
| `SubtractionTheorems.RoundExactClosedForm` | src/utils/geometry.rs:1440-1515 | The exact condition on counts alone, when all rectangles and other have cells and other swallows none whole |
| `SubtractionTheorems.AtMostTwoHitsExact` | src/utils/geometry.rs:1440-1515 | A round in which at most two rectangles overlap other is exact |
| `SubtractionTheorems.SubtractRectExact` | src/utils/geometry.rs:1413-1415 | `subtract_rect` is exact for every pair of rectangles |
| `SubtractionTheorems.RoundCoversReference` | src/utils/geometry.rs:1440-1515 | For lists of any length a round covers the reference |
| `SubtractionTheorems.RoundCount` | src/utils/geometry.rs:1440-1515 | In a round every cell outside the subtrahend keeps its multiplicity, and inside only unchecked rectangles remain |
| `SubtractionTheorems.RoundArea` | src/utils/geometry.rs:1451-1514 | When no end saturates, total width times height falls by exactly the summed areas of the intersections removed |
| `Worklist.SweepConserves` | src/utils/geometry.rs:1451-1514 | For every weight that a cut splits, the loop removes exactly the weight inside of what it checked: the law behind coverage, disjointness and area |
| `Transforms.CommutesIff` | src/utils/geometry.rs:1413-1415 | Subtraction commutes with a transform, at every cell, if and only if each cell that lies in the minuend and not in the subtrahend, were nothing to saturate, saturates away on both sides or on neither |
| `Transforms.SubtractionCommutes` | src/utils/geometry.rs:1413-1415 | So it commutes, cell by cell and onto, with every transform that keeps the cells of the minuend, whatever the subtrahend |
| `Transforms.TransformedCells` | src/utils/geometry.rs:1940-1967 | A transformed rectangle accepts exactly the images of the cells if and only if nothing saturates on a mirrored axis, or neither has any cells |
| `Transforms.CellBijection` | src/utils/geometry.rs:1940-1967 | `transform_rect_in` is a bijection on unit cells, for all eight transforms |
| `Transforms.ComposesIff` | src/utils/geometry.rs:1989-2008 | Applying a then b is applying a + b, for every rectangle and area, if and only if b is unflipped or a turns by 0 or 180 degrees |
| `Transforms.InvertUndoesIff` | src/utils/geometry.rs:1895-1906 | `invert` undoes a transform of rectangles if and only if it is neither Flipped90 nor Flipped270 |
| `Transforms.ComposesUpToHalfTurn` | src/utils/geometry.rs:1989-2008 | For every a, b, rectangle and area, a then b is a + b exactly, and half a turn off it when b is flipped and a turns by 90 or 270 degrees |
| `Transforms.LogicalRoundTrip` | src/utils/geometry.rs:1592-1665 | Logical to buffer to logical at scale s >= 1 without overflow is the identity for six transforms and a half turn in the area for the other two |
| `UserDataMaps.ListIsCompletedAppends` | src/utils/user_data.rs:267-288 | The acyclic chain holds exactly the completed appends, each once, in order of completion |
| `UserDataMaps.RunGrows` | src/utils/user_data.rs:274-288 | The abstract list only grows at its tail and no stored value changes |
| `UserDataMaps.WalkersSeePrefixes` | src/utils/user_data.rs:338-352 | What a reader has passed is always a prefix of the list |
| `UserDataMaps.FoundForever` | src/utils/user_data.rs:126-133 | Once `get::<T>` returned a node on a thread it returns that node there forever |
| `UserDataMaps.ThreadsAgree` | src/utils/user_data.rs:78-91 | If all T entries are thread-safe, every later `get::<T>` on every thread returns the node found first, even when racing inserts both inserted |
| `UserDataMaps.FoundHolds` | src/utils/user_data.rs:78-133 | Over every run a node that `get::<T>` found holds a T, thread-safe or stored by this very thread, and is the first in the list that does |
| `UserDataMaps.MissingNoneHolds` | src/utils/user_data.rs:78-133 | Over every run, when `get::<T>` found nothing, no node inserted by then holds a T that is thread-safe or stored by this thread |
| `UserDataMaps.EventOfCall` | src/utils/user_data.rs:172-212 | Over every run each event belongs to the call its thread was in: it names that call's type, and an insertion stored that call's value, thread-safe if so asked and else owned by the thread |
| `UserDataMaps.CallEnds` | src/utils/user_data.rs:126-212 | Over every run the step that ends a call logs one event, of the call's kind: `get` found a node or nothing, `insert_if_missing` found one or inserted, `get_or_insert` found one or read back |
| `UserDataMaps.GetOrInsertReturns` | src/utils/user_data.rs:136-147 | Over every run, a `get_or_insert` that inserted returned the last node inserted by then: its own if and only if no insertion came between; its unwrap succeeded if and only if that node holds the type and is thread-safe or the thread's own |
| `UserDataMaps.RunKeeps` | src/utils/user_data.rs:267-294 | In every interleaving of any number of threads, walkers, appenders and completed events stay consistent with the chain |
| `Signaling.DeliveredInSendOrder` | src/utils/signaling.rs:149-183 | Events are delivered in the order sent, and when no dispatch is in progress all have been |
| `Signaling.SendsDelivered` | src/utils/signaling.rs:149-183 | The delivered events are a prefix of the `send` steps of the run that user code could make, and all of them when no dispatch is in progress |
| `Signaling.AliveIff` | src/utils/signaling.rs:62-96 | Over every run a callback is alive if and only if it was registered and its token not dropped since |
| `Signaling.ReachesEachListenerOnce` | src/utils/signaling.rs:167-174 | A delivery comes to every callback listed at its start, exactly once and in registration order |
| `Signaling.LiveCallbackRanIff` | src/utils/signaling.rs:134-147 | A callback still alive ran for an event if and only if it had registered before its delivery: it misses the event it registers in and gets all later ones |
| `Signaling.ReachedRanIffAliveThen` | src/utils/signaling.rs:167-174 | Over every run a listener that a delivery came to ran for it if and only if it was alive at that step, whatever became of its token since |
| `Signaling.DroppedNeverRuns` | src/utils/signaling.rs:88-96 | Once its token is dropped a callback never runs again, in no delivery under way and none that starts later |
| `Signaling.QueuesEmptyWhenIdle` | src/utils/signaling.rs:149-183 | Both pending queues are empty whenever no dispatch is in progress |
| `Signaling.NeverReentered` | src/utils/signaling.rs:159-169 | Dispatches never nest, so no callback is entered while one runs |
| `Signaling.DispatchTerminates` | src/utils/signaling.rs:149-183 | The dispatcher's actions are bounded by the rank plus one event's worth for each event sent meanwhile |
| `Signaling.RunKeeps` | src/utils/signaling.rs:134-183 | Every run of nested signal, register and drop keeps the invariant the theorems below rest on |
| `Serials.LaterDrawIsNewer` | src/utils/serial.rs:13-24 | For any number of threads a draw compares newer than any draw at most 2^31-2 before it, across wrap-around |
| `Serials.ComparedAsDrawn` | src/utils/serial.rs:13-45 | Any two draws at most 2^31-2 apart compare as they were drawn, in either order; a serial is no older than another if and only if it was drawn at the same time or later |
| `Serials.WindowDistinct` | src/utils/serial.rs:77-82 | Any 2^32-1 consecutive draws are distinct |
| `Serials.OneDrawFurther` | src/utils/serial.rs:13-24 | At 2^31-1 draws apart the later draw compares newer if and only if it is the smaller number, that is across wrap-around, and older otherwise |
| `Serials.OrderBoundIsTight` | src/utils/serial.rs:13-24 | A new counter reaches that case, so the bound is tight |
| `Serials.ZeroDrawnIff` | src/utils/serial.rs:77-82 | Over every run a call draws 0 if and only if, while it stood between its two steps, another thread drew 2^32-1 and no call has begun or ended since |
| `Serials.ApartNeverZero` | src/utils/serial.rs:77-82 | When calls of any threads do not overlap, 0 is never drawn |
| `Ids.LiveIdsDistinct` | src/utils/ids.rs:12-31 | Over every run of next and remove the live ids are pairwise distinct and are exactly the occupied ones |
| `Ids.NextFollowsLast` | src/utils/ids.rs:12-27 | Over every run an id handed out is the first free one cyclically behind the id handed out before it, whatever was removed in between |
| `Ids.NotReusedAtOnce` | src/utils/ids.rs:12-27 | So the last id handed out comes back at the next call only when every other id is taken |
| `Ids.FreeIdAhead` | src/utils/ids.rs:12-27 | If the id set is not full, the run of occupied ids from the counter ends at a first free one |
| `VblankThrottle.AcceptedSpacing` | anvil/src/udev.rs:1262-1290 | At a fixed frame duration d, accepted times strictly increase and are at least d - d/2 apart, over every run |
| `VblankThrottle.VblankOutcome` | anvil/src/udev.rs:1220-1290 | Over every run a vblank adds exactly its clock (the hardware time unless zero, else now) to the accepted times if nothing was accepted yet or at most half a frame is still to come since the last; otherwise nothing is accepted and one timer is left |
| `VblankThrottle.FireOutcome` | anvil/src/udev.rs:1262-1290 | When the timer of a throttled vblank fires, that is judged as a vblank at the hardware time put off by what was to come of the frame, or at the time of firing without a hardware time |
| `VblankThrottle.ThrottledAcceptedOneFrameLater` | anvil/src/udev.rs:1262-1290 | A throttled hardware vblank not before the last accepted time is accepted, when its timer fires, at exactly last + d |
| `VblankThrottle.OneTimerPending` | anvil/src/udev.rs:1220-1286 | At most one throttle timer is pending, the one the surface remembers |
| `VblankThrottle.ThrottlesIff` | anvil/src/udev.rs:1262-1267 | A vblank is throttled if and only if more than half a frame is still to come since the last accepted one |
| `ToplevelIcons.ListsAreLastAdded` | src/wayland/xdg_toplevel_icon.rs:137-215 | Over every run the first set_icon splits the accepted requests; each list holds no key twice and under every key the last buffer added |
| `ToplevelIcons.HookedAsOftenAsStored` | src/wayland/xdg_toplevel_icon.rs:153-215 | Over every run each buffer is hooked exactly as often as it is stored, even when one wl_buffer is added repeatedly |
| `ToplevelIcons.DestroyLeavesOthers` | src/wayland/xdg_toplevel_icon.rs:405-407 | Destroying the icon leaves exactly the hooks of others registered |
| `ToplevelIcons.ErrorsPosted` | src/wayland/xdg_toplevel_icon.rs:362-399 | Over every run a request posts Immutable if and only if it adds a buffer after a set_icon, InvalidBuffer if and only if it adds one not of wl_shm or not square, and nothing else |
| `PointerConstraints.EventsAlternate` | src/wayland/pointer_constraints.rs:148-192 | For every object in every run its on and off events alternate, starting with activation |
| `PointerConstraints.CreateOutcome` | src/wayland/pointer_constraints.rs:340-475 | Over every run a new object gets its own inactive constraint, its region applied and pending, if and only if its pointer exists and its place is free; otherwise only the error is posted |
| `PointerConstraints.ActivateOutcome` | src/wayland/pointer_constraints.rs:148-161 | Over every run activating sends the event if and only if the constraint was inactive, and changes nothing else of it |
| `PointerConstraints.DeactivateOutcome` | src/wayland/pointer_constraints.rs:169-192 | Over every run deactivating sends the event if and only if the constraint was active, and removes it if and only if it was an active oneshot |
| `PointerConstraints.OthersDoNotToggle` | src/wayland/pointer_constraints.rs:148-192 | No other command sends on or off to an object or changes whether its constraint is active |
| `PointerConstraints.OneshotActiveOnce` | src/wayland/pointer_constraints.rs:189-191 | A oneshot object has at most one active period |
| `PointerConstraints.RunKeeps` | src/wayland/pointer_constraints.rs:340-388 | In every run a place holds at most one constraint, that of a live object created for this place, on a hooked surface |
| `PointerConstraints.RegionHeld` | src/wayland/pointer_constraints.rs:221-234 | Between two commits of its surface a constraint keeps its applied region |
| `PointerConstraints.CommitAppliesLastRequest` | src/wayland/pointer_constraints.rs:221-234 | A commit applies the region last requested, by set_region or at creation |
| `PointerConstraints.CommitReportsLatestHint` | src/wayland/pointer_constraints.rs:296-318 | Each commit reports for a lock exactly the latest hint set since the commit before, and none if none was set |
| `PointerConstraints.AppliedHintIff` | src/wayland/pointer_constraints.rs:221-234 | Over every run a lock shows a hint as applied if and only if that is the last one a commit reported for it |
| `PointerConstraints.HintReportedOnce` | src/wayland/pointer_constraints.rs:229-231 | Of two commits that report a hint, the later one has a request of its own after the earlier |
| `PointerConstraints.DestroyTakesIff` | src/wayland/pointer_constraints.rs:371-388 | Destroying one object removes another's constraint if and only if that is in the same place |
| `PointerConstraints.UndisturbedDestroyTakesOwn` | src/wayland/pointer_constraints.rs:371-388 | In a place where no object was refused and no oneshot spent, destruction removes only the object's own constraint |
| `ResizeGrab.OppositeEdgeStays` | smallvil/src/grabs/resize_grab.rs:322-365 | Over every run each commit during or ending a resize leaves the edge opposite a dragged left or top edge where it was at the start, and moves nothing along other axes |
| `ResizeGrab.MotionConfiguresAxes` | smallvil/src/grabs/resize_grab.rs:80-135 | Over every run a motion configures on each axis the original extent plus or minus the pointer's displacement, cast, when a high or low edge is dragged, and the original extent when neither is, clamped to the hints in force |
| `ResizeGrab.ReleaseRepeats` | smallvil/src/grabs/resize_grab.rs:148-179 | Over every run a release configures on both axes what the last motion did, or without one the original size |
| `ResizeGrab.GrabIffHeld` | smallvil/src/grabs/resize_grab.rs:57-179 | Over every run the grab is in force if and only if it started and neither a release nor another grab came since |
| `ResizeGrab.MotionWithinHints` | smallvil/src/grabs/resize_grab.rs:111-135 | Over every run a motion configures the size dragged to, fitted; it respects the hints in force if and only if they leave room for any size (each maximum, 0 meaning none, at least the minimum) |
| `ResizeGrab.ReleaseWithinHints` | smallvil/src/grabs/resize_grab.rs:148-179 | Over every run a release configures the size of the last motion, or the initial size if there was none; it respects the hints in force at the release if and only if what was fitted to the hints of then still fits those of now, or the initial size does; under unchanged hints, if and only if they leave room |
| `ResizeGrab.FinishedResizeConsumedOnce` | smallvil/src/grabs/resize_grab.rs:307-318 | A finished resize waits through everything but a new start up to the first commit of the mapped window, and is over after it |
| `ResizeGrab.FinishesIff` | smallvil/src/grabs/resize_grab.rs:307-318 | Over every run a commit of the mapped window finishes a released resize, with its edges and rectangle, if and only if no resize started in between and no such commit came before |
| `ResizeGrab.DraggedEdgeFollowsPointer` | smallvil/src/grabs/resize_grab.rs:80-136 | On both axes, a client that commits the configured size has the dragged edge displaced by exactly the pointer's whole-unit displacement, and the other edge where it was; an axis along which nothing is dragged keeps its clamped extent |
| `PointerGestures.EventsFollowProtocol` | src/wayland/pointer_gestures.rs:152-333 | For every object in every run the trace is a prefix of (begin update* end)*, updates and ends not cancelled are for the surface of the open begin, and all surfaces are its client's |
| `PointerGestures.ObjectPlaysItsCommands` | src/wayland/pointer_gestures.rs:140-368 | Over every run an object has played exactly the operations of the commands between its creation and its destruction that are for its kind, or a leave, and for its client's surfaces |
| `PointerGestures.CommandDeliveredIff` | src/wayland/pointer_gestures.rs:200-239 | Over every run an update issued as a command reaches a living object, and an end as it was meant, if and only if a begin command on that surface came since its creation and then only updates on it; a cancelled end also when any gesture is open |
| `PointerGestures.BeginDelivered` | src/wayland/pointer_gestures.rs:184-198 | Over every run a begin command reaches every living object of the kind and client, after a cancelled end of what was open |
| `PointerGestures.DestroyedSeesNothing` | src/wayland/pointer_gestures.rs:567-575 | Over every run a destroyed object is sent nothing more |
| `PointerGestures.DeliveredIff` | src/wayland/pointer_gestures.rs:200-239 | An update is delivered, and an end delivered as sent, if and only if the object saw a begin on that surface and then only updates on it |
| `PointerGestures.ObjectPlaysItsOps` | src/wayland/pointer_gestures.rs:335-368 | An object's state and trace depend on nothing but the operations on its client's surfaces and of its kind while it is known |
| `PointerGestures.InProgressIff` | src/wayland/pointer_gestures.rs:371-378 | A gesture is in progress on a surface if and only if it began there and only updates on it came since |
| `PointerGestures.WholeGestureArrives` | src/wayland/pointer_gestures.rs:184-239 | An uninterrupted gesture arrives whole, after the cancelled end of one that was open |
| `PointerGestures.LeaveEndsAll` | src/wayland/pointer_gestures.rs:152-182 | Over every run, when the pointer leaves, every open gesture of a known object of that client gets a cancelled end, and every other object stays as it was |
| `Rectangles.IntersectionCells` | src/utils/geometry.rs:1369-1381 | The intersection holds exactly the cells both rectangles accept, over the whole i32 range with saturating ends |
| `Rectangles.IntersectionEnds` | src/utils/geometry.rs:1374-1380 | No size computed by an intersection saturates; it lies inside both rectangles |
| `Rectangles.SharedCellIffOverlap` | src/utils/geometry.rs:1341-1348 | Two rectangles share a cell if and only if they overlap and both have cells |
| `Rectangles.OverlapWithoutCell` | src/utils/geometry.rs:1341-1348 | An empty rectangle inside another overlaps it without sharing a cell |
| `Worklist.FewHitsAllChecked` | src/utils/geometry.rs:1451-1461 | With at most two hits the loop checks every hit, wherever `swap_remove` moves it |
| `Worklist.AllHitsCheckedIff` | src/utils/geometry.rs:1451-1461 | If every hit leaves pieces, all hits are checked if and only if the misses at the end of the check order make up for all hits but two |
| `Worklist.UncheckedAreOriginals` | src/utils/geometry.rs:1451-1461 | What a round leaves unchecked are original rectangles |
| `SubtractionLaws.CountSplits` | src/utils/geometry.rs:1468-1513 | The pieces of a rectangle hold each of its cells outside the subtrahend exactly once, and none inside |
| `SubtractionLaws.AreaSplits` | src/utils/geometry.rs:1468-1513 | The areas of the pieces and of the intersection add up to the area of the rectangle |
| `SubtractionLaws.PiecesMiss` | src/utils/geometry.rs:1468-1513 | No piece overlaps the subtrahend again |
| `Subtraction.RoundGrowth` | src/utils/geometry.rs:1451-1514 | A round grows n rectangles to at most 4n |
| `SubtractionTheorems.RoundCellArea` | src/utils/geometry.rs:1451-1514 | The number of cells falls by exactly the cells of the intersections of the rectangles checked |
| `SubtractionTheorems.ReferenceExact` | src/utils/geometry.rs:1454-1513 | The pure recursive reference subtraction holds exactly the cells of rects outside other |
| `SubtractionTheorems.SubtractManyExact` | src/utils/geometry.rs:1436-1518 | So it is exact when every round is |
| `SubtractionTheorems.ThreeHitsCounterexample` | src/utils/geometry.rs:1451-1461 | Three rectangles in a row and a strip across them: the middle one stays whole |
| `SubtractionTheorems.TwoCutsCounterexample` | src/utils/geometry.rs:1419-1423 | `subtract_rects` from a single rectangle with two others leaves a cell of the second covered |
| `SubtractionTheorems.RepeatedStripExact` | src/utils/geometry.rs:1451-1461 | Exact rounds are not necessary: the strip of the counterexample, taken out twice, leaves exactly the difference |
| `SubtractionTheorems.SecondRoundRepairs` | src/utils/geometry.rs:1440-1515 | A second round with the same subtrahend, if exact itself, makes good what the first one left |
| `Transforms.UndoRect` | src/utils/geometry.rs:1940-1967 | Every transform of rectangles has an inverse among the eight |
| `Transforms.InvertIsAdditiveInverse` | src/utils/geometry.rs:1895-1906 | `invert` is the inverse with respect to `+` |
| `Transforms.PointsAgreeWithRectsIff` | src/utils/geometry.rs:1909-1924 | Points and rectangles are transformed alike if and only if it is neither Flipped90 nor Flipped270 |
| `Transforms.PointsTransform` | src/utils/geometry.rs:1909-1924 | A point goes where an empty rectangle there does, except that Flipped90 and Flipped270 change places |
| `Transforms.FlipThenTurns` | src/utils/geometry.rs:1940-1967 | Every transform of rectangles is the mirror, if its name says flipped, followed by its quarter turns one by one |
| `Transforms.TruncDivTowardZero` | src/utils/geometry.rs:1645-1665 | The integer division of coordinates rounds toward zero, for every coordinate and scale |
| `Transforms.SaturatedMirrorGains` | src/utils/geometry.rs:1940-1967 | A rectangle with a saturating end that, mirrored, accepts a cell no cell of it goes to |
| `Transforms.SaturatedMirrorDoesNotCommute` | src/utils/geometry.rs:1413-1415 | With that rectangle as minuend subtraction does not commute, even with nothing subtracted |
| `AppendLists.PublishExtends` | src/utils/user_data.rs:274-288 | The successful exchange at the tail appends one node and unlinks none |
| `AppendLists.ChainAcyclic` | src/utils/user_data.rs:274-288 | The chain ends within as many steps as there are nodes |
| `AppendLists.ChainUnique` | src/utils/user_data.rs:335-352 | The pointers determine the abstract list |
| `UserDataMaps.ReadBackReturnsLast` | src/utils/user_data.rs:144 | The last step of the call: at the end of the list it returns the node passed last, and succeeds if that is its own |
| `UserDataMaps.ReadBackPanics` | src/utils/user_data.rs:144 | A run in which another thread's append makes the unwrap panic |
| `UserDataMaps.ForeignGetMisses` | src/utils/user_data.rs:78-91 | A run in which thread 1 asks for a type of which thread 0 stored a non-thread-safe value, and finds nothing |
| `UserDataMaps.FirstValueStays` | src/utils/user_data.rs:56-69 | A second `set` of a cell does nothing |
| `Signaling.WorkLowersRank` | src/utils/signaling.rs:163-181 | Every action of the dispatcher lowers a rank |
| `Signaling.RegisteredCounts` | src/utils/signaling.rs:62-67 | Callbacks are numbered by the registrations user code could make |
| `Serials.SequentialNeverZero` | src/utils/serial.rs:77-82 | In particular, repeated calls of one thread never draw 0 |
| `Serials.ComparesOneWay` | src/utils/serial.rs:13-24 | A serial compares equal to itself only, and older in one direction exactly when newer in the other |
| `Serials.SequentialDraws` | src/utils/serial.rs:77-82 | The first 2^32-1 sequential draws of a new counter are 1, 2, 3 and so on |
| `Serials.InterleavedDrawsZero` | src/utils/serial.rs:77-82 | Two interleaved calls at wrap-around draw 0 |
| `Clocks.CmpRefines` | src/utils/clock.rs:137-147 | Comparing normalised times is comparing nanoseconds |
| `Ids.FirstIdIsZero` | src/utils/ids.rs:12-27 | In every run the first id handed out is 0 |
| `VblankThrottle.NoModeOutcome` | anvil/src/udev.rs:1220-1241 | Over every run a vblank without a mode accepts nothing and leaves no timer |
| `Clocks.SubRefines` | src/utils/clock.rs:182-208 | The borrowing subtraction is exact, and None if and only if the difference is negative |
| `Clocks.ElapsedRefines` | src/utils/clock.rs:63-65 | The elapsed time is max(0, difference) in nanoseconds |
| `Clocks.AddRefines` | src/utils/clock.rs:216-224 | The carrying addition is exact |
| `Clocks.AddElapsed` | src/utils/clock.rs:63-65 | Adding the elapsed time to the earlier time gives the later one back |
| `ToplevelIcons.PlaceLookup` | src/wayland/xdg_toplevel_icon.rs:190-215 | As a map, the list is updated at the new key and nowhere else |
| `ToplevelIcons.PlaceAt` | src/wayland/xdg_toplevel_icon.rs:190-215 | The first entry of the same key has its buffer exchanged where it stands, or else the new entry goes last |
| `ToplevelIcons.UnregisterTimes` | src/wayland/xdg_toplevel_icon.rs:166-178 | Unhooking a hooked buffer takes one of its hooks and none of another's |
| `PointerConstraints.PendingHintIff` | src/wayland/pointer_constraints.rs:566-572 | What is pending is exactly the latest hint set since the last commit |
| `PointerConstraints.PointerGoneOutcome` | src/wayland/pointer_constraints.rs:408-475 | Over every run a pointer goes just when no constraint is in force for it, and nothing else changes |
| `PointerConstraints.SpentOneshotTakesSuccessor` | src/wayland/pointer_constraints.rs:371-388 | Destroying a spent oneshot removes its active successor |
| `PointerConstraints.SetRegionReachesIff` | src/wayland/pointer_constraints.rs:518-526 | A set_region sets the pending region of a constraint if and only if that is in the same place and of the same kind, and changes nothing else of it |
| `PointerConstraints.SetHintReachesIff` | src/wayland/pointer_constraints.rs:566-572 | The same for a cursor position hint |
| `PointerConstraints.UndisturbedRequestsReachOwn` | src/wayland/pointer_constraints.rs:518-582 | In a place where no object was refused and no oneshot spent, an object's requests reach only its own constraint |
| `ResizeGrab.ToI32Nearest` | smallvil/src/grabs/resize_grab.rs:100 | The cast rounds toward zero |
| `ResizeGrab.CastTruncates` | smallvil/src/grabs/resize_grab.rs:100 | The cast saturates at the ends of i32 and drops the fraction in between |
| `ResizeGrab.WrapsIntoRange` | smallvil/src/grabs/resize_grab.rs:337-347 | Wrapping lands in i32, a multiple of 2^32 away, and leaves what is there already |
| `ResizeGrab.RestartDropsFinished` | smallvil/src/grabs/resize_grab.rs:57-76 | No commit finishes a released resize once another has started |
| `ResizeGrab.RestartedResizeMovesFarEdge` | smallvil/src/grabs/resize_grab.rs:57-76 | A run in which a restart lets the commit of the first resize move the edge it would have kept |
| `ResizeGrab.OthersConfigureNothing` | smallvil/src/grabs/resize_grab.rs:80-179 | Nothing but a motion or a release of a grab configures a size |
| `ResizeGrab.ReleasedWithoutMotionOutside` | smallvil/src/grabs/resize_grab.rs:148-179 | A run in which a release without a motion configures a size below the minimum |
| `ResizeGrab.ReleasedAfterNewMaximumOutside` | smallvil/src/grabs/resize_grab.rs:148-179 | A run in which a release after a motion configures a size above a maximum set since |
| `Subtraction.Pieces` | src/utils/geometry.rs:1454-1513 | One rectangle is replaced by at most four valid rectangles |
| `Subtraction.PushPieces` | src/utils/geometry.rs:1468-1513 | The four conditional pushes append exactly the non-empty parts, in order |
| `Subtraction.SubtractInPlace` | src/utils/geometry.rs:1441-1514 | The loop with `checked`, `index` and `swap_remove` never leaves the vector and computes the round that the theorems are about |
| `Subtraction.SubtractRectsManyInPlace` | src/utils/geometry.rs:1436-1518 | The whole operation is the rounds one after another, stopping on an empty list |
| `AppendLists.AppendList.CompareExchangeWeak` | src/utils/user_data.rs:276-286 | Succeeds only on null, may fail spuriously, and otherwise yields the node found there |
| `AppendLists.AppendList.AppendPtr` | src/utils/user_data.rs:274-288 | Whatever rivals append on the way and however often the exchange fails, the node is published once, right after all that was in the list at that moment |
| `AppendLists.AppendList.Append` | src/utils/user_data.rs:267-294 | The value lands at the tail exactly once; all else that changed is the rivals' appends, in order |
| `AppendLists.AppendList.Next` | src/utils/user_data.rs:338-352 | The iterator yields the next node of the list, or has yielded all of it |
| `UserDataMaps.UserDataMap.Get` | src/utils/user_data.rs:126-133 | Returns the first node this thread may see as a T, and None if and only if there is none |
| `UserDataMaps.UserDataMap.Insert` | src/utils/user_data.rs:201-212 | Appends one cell with the value, thread-safe or owned by this thread |
| `UserDataMaps.UserDataMap.InsertIfMissing` | src/utils/user_data.rs:172-198 | Inserts if and only if the thread could see no T, and otherwise changes nothing |
| `UserDataMaps.UserDataMap.GetOrInsert` | src/utils/user_data.rs:136-147 | With no concurrent append the unwrap succeeds and the node is what `get` returns from then on |
| `SignalInners.SignalInner.Register` | src/utils/signaling.rs:62-67 | Puts the callback into the list, or into the pending one during a dispatch |
| `SignalInners.SignalInner.Drop` | src/utils/signaling.rs:88-96 | Dropping the token ends the callback's life and nothing else |
| `SignalInners.SignalInner.Send` | src/utils/signaling.rs:149-183 | From a callback it only queues; otherwise it returns with nothing in progress, having done what the machine does |
| `SignalInners.SignalInner.Enqueue` | src/utils/signaling.rs:149-159 | Only adds the event to the queue; a dispatch is to start if and only if none is in progress |
| `SignalInners.SignalInner.Drain` | src/utils/signaling.rs:163-181 | The loop ends with the queue empty, each turn being steps of the machine |
| `SignalInners.SignalInner.Deliver` | src/utils/signaling.rs:167-174 | The `retain` runs and keeps exactly the callbacks that could be upgraded when it came to them |
| `SignalInners.SignalInner.Invoke` | src/utils/signaling.rs:168-170 | A callback is never entered while it runs, so its mutable borrow cannot fail; it carries out exactly the next entry of the script |
| `Serials.SerialCounter.NextSerial` | src/utils/serial.rs:77-82 | An undisturbed call draws what the two-step machine draws, and never 0 |
| `Ids.IdGenerator.Advance` | src/utils/ids.rs:12-27 | The wrap-around search terminates whenever the full-set check passes, at the first free id cyclically |
| `Ids.IdGenerator.Next` | src/utils/ids.rs:12-27 | Hands out the first free id from the counter, or refuses if and only if usize::MAX ids are in use |
| `Ids.IdGenerator.Remove` | src/utils/ids.rs:29-31 | Frees the id and reports whether it was live |
| `VblankThrottle.UdevSurface.FrameFinish` | anvil/src/udev.rs:1220-1290 | One vblank or timer firing changes the two fields and the event loop's timers as the machine does |
| `ToplevelIcons.IconUserData.FreezeIcon` | src/wayland/xdg_toplevel_icon.rs:137-142 | The first set_icon takes the list and later ones change nothing |
| `ToplevelIcons.IconUserData.RegisterBufferDestructionHook` | src/wayland/xdg_toplevel_icon.rs:153-164 | Adds one new hook for the buffer |
| `ToplevelIcons.IconUserData.UnregisterBufferDestructionHook` | src/wayland/xdg_toplevel_icon.rs:166-178 | Removes the first hook of the buffer, from the list and from the buffer |
| `ToplevelIcons.IconUserData.UnregisterAllHooks` | src/wayland/xdg_toplevel_icon.rs:180-188 | Drains the hooks and removes each from its buffer |
| `ToplevelIcons.IconUserData.AddBuffer` | src/wayland/xdg_toplevel_icon.rs:190-215 | The scan overrides the entry of equal width, height and scale and unhooks its buffer, or pushes |
| `ToplevelIcons.IconUserData.AddBufferRequested` | src/wayland/xdg_toplevel_icon.rs:362-399 | Posts the errors for an immutable icon and an unsuitable buffer, and hooks and adds a suitable one |
| `PointerConstraints.ConstraintsState.CreateConstraint` | src/wayland/pointer_constraints.rs:408-475 | lock_pointer and confine_pointer: a new inactive constraint with the region both applied and pending, or AlreadyConstrained with the present one untouched |
| `PointerConstraints.ConstraintsState.AddConstraint` | src/wayland/pointer_constraints.rs:340-369 | Inserts only into a free place, posts the error otherwise, and hooks the surface's commits |
| `PointerConstraints.ConstraintsState.ActivateConstraint` | src/wayland/pointer_constraints.rs:148-161 | Sends locked or confined only when the constraint was inactive |
| `PointerConstraints.ConstraintsState.DeactivateConstraint` | src/wayland/pointer_constraints.rs:169-192 | Sends unlocked or unconfined only when it was active, and then removes a oneshot |
| `PointerConstraints.ConstraintsState.SetPendingRegion` | src/wayland/pointer_constraints.rs:518-526 | Sets the pending region of the constraint in the object's place, if of the same kind |
| `PointerConstraints.ConstraintsState.SetCursorPositionHint` | src/wayland/pointer_constraints.rs:566-572 | Sets the pending hint of the lock in the object's place |
| `PointerConstraints.ConstraintsState.CommitConstraint` | src/wayland/pointer_constraints.rs:221-234 | Applies the pending region and takes the pending hint |
| `PointerConstraints.ConstraintsState.CommitSurface` | src/wayland/pointer_constraints.rs:296-318 | Commits every constraint of the surface and no other, in whatever order, and reports each new hint once |
| `PointerConstraints.ConstraintsState.RemoveConstraint` | src/wayland/pointer_constraints.rs:371-388 | Removes whatever is in the place |
| `PointerConstraints.ConstraintsState.DestroyObject` | src/wayland/pointer_constraints.rs:532-543 | Destroying an object removes the constraint in its place |
| `ResizeGrab.ResizeSurfaceGrab.constructor` | smallvil/src/grabs/resize_grab.rs:57-76 | Starting stores the edges and initial rectangle in the surface, replacing what was there |
| `ResizeGrab.ResizeSurfaceGrab.Drag` | smallvil/src/grabs/resize_grab.rs:90-109 | One axis: a low edge is dragged against the pointer, the sum is cast to i32 |
| `ResizeGrab.ResizeSurfaceGrab.Motion` | smallvil/src/grabs/resize_grab.rs:80-136 | The new size follows the dragged edges, fitted to the hints, and is configured |
| `ResizeGrab.ResizeSurfaceGrab.Button` | smallvil/src/grabs/resize_grab.rs:148-179 | Releasing configures the last size again without the resizing state and waits for the last commit |
| `ResizeGrab.Toplevel.CommitResize` | smallvil/src/grabs/resize_grab.rs:307-318 | Returns the resize in effect, and ends a finished one |
| `ResizeGrab.Toplevel.Commit` | smallvil/src/grabs/resize_grab.rs:322-365 | Moves a mapped window along the axes of a left or top edge, and no other |
| `ResizeGrab.IdleCommitStays` | smallvil/src/grabs/resize_grab.rs:307-318 | Without a resize a commit moves nothing |
| `PointerGestures.PointerHandle.NewGesture` | src/wayland/pointer_gestures.rs:140-150 | A new object is known under its kind, with nothing in progress |
| `PointerGestures.PointerHandle.Destroyed` | src/wayland/pointer_gestures.rs:567-575 | The object is no longer known and the others stay, in order |
| `PointerGestures.PointerHandle.Notified` | src/wayland/pointer_gestures.rs:184-239 | One object's begin, update, end and leave: what is stored or taken and what is sent |
| `PointerGestures.PointerHandle.ForEachFocused` | src/wayland/pointer_gestures.rs:335-368 | The loop reaches each listed object of the surface's client once, and no other |
| `PointerGestures.PointerHandle.GestureEvent` | src/wayland/pointer_gestures.rs:184-333 | A begin, update or end is a step of the machine on the objects of its kind |
| `PointerGestures.PointerHandle.PointerLeave` | src/wayland/pointer_gestures.rs:152-182 | Leaving reaches all three kinds |

## Left out

- Floating-point coordinates: rectangles are over integers, pointer locations and hints over reals; f64 rounding of `w + delta` in a resize is not modelled, its cast to i32 is.
- Overflow of the plain `+` and `-` in transforms: computed over unbounded integers; the multiplications of `to_buffer` saturate as in the source.
- Negative rectangle sizes: a debug assertion in the source forbids them.
- Memory orderings, `Arc`/`Weak` internals, freeing of nodes and drops on the wrong thread: atomics are sequentially consistent steps, weak references an alive set.
- Appending a list of more than one node: `append_list` is only called with one.
- AppendLists.AppendList.AppendPtr: rivals append between the attempts as whole operations; every finer interleaving is in `UserDataMaps`, where each step is one atomic access.
- SignalInners.SignalInner.Send: the callbacks follow a finite script, one entry a call, so termination is proved for finitely many actions; `Signaling.DispatchTerminates` has no script.
- A token dropped while its own callback runs: the callback's memory is not modelled, only that it is no longer alive.
- Ids on 32-bit targets: usize has 64 bits here. The mutex around the set and the counter is not modelled.
- Times before the clock's epoch, and overflow of seconds: seconds are unbounded and non-negative.
- The rest of `frame_finish` after a vblank is accepted: presentation feedback and rendering.
- The icon name, icon sizes, and the NoBuffer error that a hook posts when its buffer is destroyed.
- ToplevelIcons.IconUserData.AddBufferRequested: a request on a frozen icon posts the error and then adds to a list nobody reads, as a release build does; a debug build panics.
- Protocol errors do not disconnect the client in the models: runs may go on after one.
- PointerConstraints.ConstraintsState.CommitSurface: the hints of one commit are a map, as the order in which a hash map visits its pointers is not fixed.
- Destruction of a surface, which drops its constraints and its resize state.
- A resize that saturates an i32 edge: `OppositeEdgeStays` is stated in wrapping i32 arithmetic, as a release build computes; a debug build panics on overflow.
- `send_pending_configure` sends nothing when the pending state equals the last one sent; here every configure counts.
- The configure that smallvil's resize request sends before the grab starts.
- Anvil's resize machine, which waits for an acknowledged configure: its ack transition is not part of this model.
- Serials, times, fingers, deltas, scale and rotation of gesture events, and the order of events between different objects.
- Output mode lists, frame extents, cursor shapes, device bookkeeping, grabs that only pass events on, and all code that talks to the kernel, the GPU, libinput or X11.
