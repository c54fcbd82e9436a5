/** The buffers of a toplevel icon and their destruction hooks: src/wayland/xdg_toplevel_icon.rs. */
module ToplevelIcons {
  import opened Wrappers

  type Buffer = nat
  type HookId = nat

  datatype Extent = Extent(width: int, height: int)

  datatype Entry = Entry(buffer: Buffer, scale: int)

  datatype Hook = Hook(buffer: Buffer, id: HookId)

  datatype Error = Immutable | InvalidBuffer

  /** The buffers backed by wl_shm, whose extent never changes. */
  type Shm = map<Buffer, Extent>

  /**
   * `registry` holds the destruction hooks known to all buffers, those of other icons too; `adds`
   * and `frozenAdds` are histories: the accepted requests behind `builder` and `constructed`.
   */
  datatype Icon = Icon(
    builder: seq<Entry>, constructed: Option<seq<Entry>>, hooks: seq<Hook>,
    registry: set<Hook>, nextHook: HookId, errors: seq<Error>,
    adds: seq<Entry>, frozenAdds: seq<Entry>)

  // ---- the specification ----------------------------------------------------------------------

  predicate Known(shm: Shm, list: seq<Entry>) {
    forall k :: 0 <= k < |list| ==> list[k].buffer in shm
  }

  /** Width, height and scale all agree. */
  predicate SameKey(shm: Shm, a: Entry, b: Entry)
    requires a.buffer in shm && b.buffer in shm
  {
    && shm[a.buffer].width == shm[b.buffer].width && shm[a.buffer].height == shm[b.buffer].height
    && a.scale == b.scale
  }

  /** The entry of the same key is overridden in place, else the new one goes last. */
  function Place(shm: Shm, list: seq<Entry>, e: Entry): (r: seq<Entry>)
    requires Known(shm, list) && e.buffer in shm
    ensures Known(shm, r)
  {
    if list == [] then [e]
    else if SameKey(shm, list[0], e) then [list[0].(buffer := e.buffer)] + list[1..]
    else [list[0]] + Place(shm, list[1..], e)
  }

  function Overridden(shm: Shm, list: seq<Entry>, e: Entry): Option<Buffer>
    requires Known(shm, list) && e.buffer in shm
  {
    if list == [] then None
    else if SameKey(shm, list[0], e) then Some(list[0].buffer)
    else Overridden(shm, list[1..], e)
  }

  lemma UpdateBehind(list: seq<Entry>, i: nat, e: Entry)
    requires 0 < i < |list|
    ensures list[i := e] == [list[0]] + list[1..][i - 1 := e]
  {
  }

  /** `i` is the first entry of the same key, or the end. */
  lemma {:induction false} PlaceAt(shm: Shm, list: seq<Entry>, e: Entry, i: nat)
    requires Known(shm, list) && e.buffer in shm && i <= |list|
    requires forall j :: 0 <= j < i ==> !SameKey(shm, list[j], e)
    requires i < |list| ==> SameKey(shm, list[i], e)
    ensures Place(shm, list, e)
         == if i < |list| then list[i := list[i].(buffer := e.buffer)] else list + [e]
    ensures Overridden(shm, list, e) == if i < |list| then Some(list[i].buffer) else None
  {
    if i > 0 {
      var rest := list[1..];
      assert !SameKey(shm, list[0], e);
      PlaceAt(shm, rest, e, i - 1);
      if i < |list| {
        UpdateBehind(list, i, list[i].(buffer := e.buffer));
      } else {
        assert list == [list[0]] + rest;
      }
    }
  }

  function FirstHook(hooks: seq<Hook>, buffer: Buffer): (k: nat)
    ensures k <= |hooks|
    ensures k < |hooks| ==> hooks[k].buffer == buffer
    ensures forall j :: 0 <= j < k ==> hooks[j].buffer != buffer
  {
    if hooks == [] || hooks[0].buffer == buffer then 0 else 1 + FirstHook(hooks[1..], buffer)
  }

  function Without(hooks: seq<Hook>, k: nat): seq<Hook>
    requires k < |hooks|
  {
    hooks[..k] + hooks[k + 1..]
  }

  function Unregister(s: Icon, buffer: Buffer): Icon {
    var k := FirstHook(s.hooks, buffer);
    if k == |s.hooks| then s
    else s.(hooks := Without(s.hooks, k), registry := s.registry - {s.hooks[k]})
  }

  function RegisterHook(s: Icon, buffer: Buffer): Icon {
    var hook := Hook(buffer, s.nextHook);
    s.(hooks := s.hooks + [hook], registry := s.registry + {hook}, nextHook := s.nextHook + 1)
  }

  function Add(shm: Shm, s: Icon, e: Entry): Icon
    requires Known(shm, s.builder) && e.buffer in shm
  {
    var placed := s.(builder := Place(shm, s.builder, e), adds := s.adds + [e]);
    match Overridden(shm, s.builder, e)
    case None => placed
    case Some(buffer) => Unregister(placed, buffer)
  }

  function Post(s: Icon, e: Error): Icon { s.(errors := s.errors + [e]) }

  /** The add_buffer request; the error for an immutable icon does not stop it. */
  function AddBufferRequest(shm: Shm, s: Icon, e: Entry): Icon
    requires Known(shm, s.builder)
  {
    var s := if s.constructed.Some? then Post(s, Immutable) else s;
    if e.buffer !in shm || shm[e.buffer].width != shm[e.buffer].height then Post(s, InvalidBuffer)
    else Add(shm, RegisterHook(s, e.buffer), e)
  }

  function Freeze(s: Icon): Icon {
    if s.constructed.Some? then s
    else s.(constructed := Some(s.builder), builder := [], frozenAdds := s.adds, adds := [])
  }

  function Destroyed(s: Icon): Icon {
    s.(hooks := [], registry := s.registry - (set k | 0 <= k < |s.hooks| :: s.hooks[k]))
  }

  // ---- the object -----------------------------------------------------------------------------

  class IconUserData {
    const shm: Shm
    var builder: seq<Entry>
    var constructed: Option<seq<Entry>>
    var hooks: seq<Hook>
    var registry: set<Hook>
    var nextHook: HookId
    var errors: seq<Error>
    ghost var adds: seq<Entry>
    ghost var frozenAdds: seq<Entry>

    ghost function State(): Icon
      reads this
    {
      Icon(builder, constructed, hooks, registry, nextHook, errors, adds, frozenAdds)
    }

    constructor (shm: Shm, others: set<Hook>, nextHook: HookId)
      ensures this.shm == shm && State() == Icon([], None, [], others, nextHook, [], [], [])
    {
      this.shm, this.registry, this.nextHook := shm, others, nextHook;
      builder, constructed, hooks, errors, adds, frozenAdds := [], None, [], [], [], [];
    }

    method FreezeIcon()
      modifies this
      ensures State() == Freeze(old(State()))
    {
      if constructed.None? {
        constructed := Some(builder);
        builder := [];
        frozenAdds := adds;
        adds := [];
      }
    }

    method RegisterBufferDestructionHook(buffer: Buffer)
      modifies this
      ensures State() == RegisterHook(old(State()), buffer)
    {
      var hook := Hook(buffer, nextHook);
      nextHook := nextHook + 1;
      registry := registry + {hook};
      hooks := hooks + [hook];
    }

    method UnregisterBufferDestructionHook(buffer: Buffer)
      modifies this
      ensures State() == Unregister(old(State()), buffer)
    {
      var k := 0;
      while k < |hooks| && hooks[k].buffer != buffer
        invariant k <= |hooks| && forall j :: 0 <= j < k ==> hooks[j].buffer != buffer
        invariant State() == old(State())
      {
        k := k + 1;
      }
      assert k == FirstHook(hooks, buffer);
      if k < |hooks| {
        registry := registry - {hooks[k]};
        hooks := hooks[..k] + hooks[k + 1..];
      }
    }

    method UnregisterAllHooks()
      modifies this
      ensures State() == Destroyed(old(State()))
    {
      var drained := hooks;
      hooks := [];
      for k := 0 to |drained|
        invariant State() == old(State()).(hooks := [], registry := registry)
        invariant registry == old(registry) - set j | 0 <= j < k :: drained[j]
      {
        registry := registry - {drained[k]};
      }
    }

    method AddBuffer(buffer: Buffer, scale: int)
      requires Known(shm, builder) && buffer in shm
      modifies this
      ensures State() == Add(shm, old(State()), Entry(buffer, scale))
    {
      var e := Entry(buffer, scale);
      adds := adds + [e];
      for i := 0 to |builder|
        invariant State() == old(State()).(adds := old(adds) + [e])
        invariant forall j :: 0 <= j < i ==> !SameKey(shm, builder[j], e)
      {
        if SameKey(shm, builder[i], e) {
          PlaceAt(shm, builder, e, i);
          var existing := builder[i].buffer;
          builder := builder[i := builder[i].(buffer := buffer)];
          UnregisterBufferDestructionHook(existing);
          return;
        }
      }
      PlaceAt(shm, builder, e, |builder|);
      builder := builder + [e];
    }

    method AddBufferRequested(buffer: Buffer, scale: int)
      requires Known(shm, builder)
      modifies this
      ensures State() == AddBufferRequest(shm, old(State()), Entry(buffer, scale))
    {
      if constructed.Some? {
        errors := errors + [Immutable];
      }
      if buffer !in shm {
        errors := errors + [InvalidBuffer];
        return;
      }
      if shm[buffer].width != shm[buffer].height {
        errors := errors + [InvalidBuffer];
        return;
      }
      RegisterBufferDestructionHook(buffer);
      AddBuffer(buffer, scale);
    }
  }

  // ---- the list as a map ------------------------------------------------------------------------

  datatype Key = Key(extent: Extent, scale: int)

  function KeyOf(shm: Shm, e: Entry): Key
    requires e.buffer in shm
  {
    Key(shm[e.buffer], e.scale)
  }

  function Lookup(shm: Shm, list: seq<Entry>, key: Key): Option<Buffer>
    requires Known(shm, list)
  {
    if list == [] then None
    else if KeyOf(shm, list[0]) == key then Some(list[0].buffer)
    else Lookup(shm, list[1..], key)
  }

  /** The buffer of the last request with this key. */
  function LastAdded(shm: Shm, adds: seq<Entry>, key: Key): Option<Buffer>
    requires Known(shm, adds)
  {
    if adds == [] then None
    else
      var n := |adds| - 1;
      if KeyOf(shm, adds[n]) == key then Some(adds[n].buffer) else LastAdded(shm, adds[..n], key)
  }

  ghost predicate DistinctKeys(shm: Shm, list: seq<Entry>)
    requires Known(shm, list)
  {
    forall i, j :: 0 <= i < j < |list| ==> KeyOf(shm, list[i]) != KeyOf(shm, list[j])
  }

  /** No key twice, and under every key the last buffer added for it. */
  ghost predicate Refines(shm: Shm, list: seq<Entry>, adds: seq<Entry>) {
    && Known(shm, list) && Known(shm, adds) && DistinctKeys(shm, list)
    && forall key :: Lookup(shm, list, key) == LastAdded(shm, adds, key)
  }

  lemma {:induction false} PlaceLookup(shm: Shm, list: seq<Entry>, e: Entry, key: Key)
    requires Known(shm, list) && e.buffer in shm
    ensures Lookup(shm, Place(shm, list, e), key)
         == if key == KeyOf(shm, e) then Some(e.buffer) else Lookup(shm, list, key)
  {
    if list != [] && !SameKey(shm, list[0], e) {
      PlaceLookup(shm, list[1..], e, key);
    }
  }

  lemma {:induction false} LookupNone(shm: Shm, list: seq<Entry>, key: Key)
    requires Known(shm, list)
    ensures Lookup(shm, list, key) == None <==> forall k :: 0 <= k < |list| ==> KeyOf(shm, list[k]) != key
  {
    if list != [] {
      LookupNone(shm, list[1..], key);
      assert forall k :: 0 < k < |list| ==> list[k] == list[1..][k - 1];
    }
  }

  lemma {:induction false} PlaceDistinct(shm: Shm, list: seq<Entry>, e: Entry)
    requires Known(shm, list) && e.buffer in shm && DistinctKeys(shm, list)
    ensures DistinctKeys(shm, Place(shm, list, e))
  {
    if list != [] && !SameKey(shm, list[0], e) {
      var rest, key := list[1..], KeyOf(shm, list[0]);
      PlaceDistinct(shm, rest, e);
      forall k | 0 <= k < |rest| ensures KeyOf(shm, rest[k]) != key { assert rest[k] == list[k + 1]; }
      LookupNone(shm, rest, key);
      PlaceLookup(shm, rest, e, key);
      LookupNone(shm, Place(shm, rest, e), key);
    }
  }

  lemma PlaceRefines(shm: Shm, list: seq<Entry>, adds: seq<Entry>, e: Entry)
    requires Refines(shm, list, adds) && e.buffer in shm
    ensures Refines(shm, Place(shm, list, e), adds + [e])
  {
    PlaceDistinct(shm, list, e);
    assert (adds + [e])[..|adds|] == adds;
    forall key ensures Lookup(shm, Place(shm, list, e), key) == LastAdded(shm, adds + [e], key) {
      PlaceLookup(shm, list, e, key);
    }
  }

  // ---- the hooks --------------------------------------------------------------------------------

  /** How often `list` stores the buffer. */
  function StoredTimes(list: seq<Entry>, buffer: Buffer): nat {
    if list == [] then 0 else (if list[0].buffer == buffer then 1 else 0) + StoredTimes(list[1..], buffer)
  }

  function HookedTimes(hooks: seq<Hook>, buffer: Buffer): nat {
    if hooks == [] then 0 else (if hooks[0].buffer == buffer then 1 else 0) + HookedTimes(hooks[1..], buffer)
  }

  lemma {:induction false} PlaceTimes(shm: Shm, list: seq<Entry>, e: Entry, buffer: Buffer)
    requires Known(shm, list) && e.buffer in shm
    ensures StoredTimes(Place(shm, list, e), buffer) + (if Overridden(shm, list, e) == Some(buffer) then 1 else 0)
         == StoredTimes(list, buffer) + (if e.buffer == buffer then 1 else 0)
  {
    if list != [] && !SameKey(shm, list[0], e) {
      PlaceTimes(shm, list[1..], e, buffer);
    }
  }

  lemma {:induction false} OverriddenStored(shm: Shm, list: seq<Entry>, e: Entry)
    requires Known(shm, list) && e.buffer in shm
    ensures var b := Overridden(shm, list, e); b.Some? ==> StoredTimes(list, b.value) > 0
  {
    if list != [] && !SameKey(shm, list[0], e) {
      OverriddenStored(shm, list[1..], e);
    }
  }

  lemma {:induction false} HookedConcat(a: seq<Hook>, b: seq<Hook>, buffer: Buffer)
    ensures HookedTimes(a + b, buffer) == HookedTimes(a, buffer) + HookedTimes(b, buffer)
  {
    if a == [] {
      assert a + b == b;
    } else {
      assert (a + b)[1..] == a[1..] + b;
      HookedConcat(a[1..], b, buffer);
    }
  }

  lemma HookedCons(h: Hook, rest: seq<Hook>, buffer: Buffer)
    ensures HookedTimes([h] + rest, buffer) == (if h.buffer == buffer then 1 else 0) + HookedTimes(rest, buffer)
  {
    assert ([h] + rest)[1..] == rest;
  }

  lemma WithoutCons(h: Hook, rest: seq<Hook>, k: nat)
    requires k < |rest|
    ensures Without([h] + rest, k + 1) == [h] + Without(rest, k)
  {
  }

  /** The first hook of a hooked buffer goes, and no other. */
  lemma {:induction false} UnregisterTimes(hooks: seq<Hook>, gone: Buffer, buffer: Buffer)
    requires HookedTimes(hooks, gone) > 0
    ensures var k := FirstHook(hooks, gone);
            && k < |hooks|
            && HookedTimes(Without(hooks, k), buffer) + (if gone == buffer then 1 else 0)
            == HookedTimes(hooks, buffer)
  {
    if hooks[0].buffer == gone {
      assert Without(hooks, 0) == hooks[1..];
    } else {
      var h, rest := hooks[0], hooks[1..];
      var k := FirstHook(rest, gone);
      UnregisterTimes(rest, gone, buffer);
      assert hooks == [h] + rest;
      WithoutCons(h, rest, k);
      HookedCons(h, Without(rest, k), buffer);
    }
  }

  /** This icon's hooks and the `others` make up the registry, without overlap. */
  ghost predicate RegistryOk(s: Icon, others: set<Hook>) {
    && (forall i, j :: 0 <= i < j < |s.hooks| ==> s.hooks[i] != s.hooks[j])
    && (forall k :: 0 <= k < |s.hooks| ==> s.hooks[k] !in others && s.hooks[k].id < s.nextHook)
    && (forall h :: h in others ==> h.id < s.nextHook)
    && (forall h :: h in s.registry <==> h in others || h in s.hooks)
  }

  lemma RegisterKeepsRegistry(s: Icon, buffer: Buffer, others: set<Hook>)
    requires RegistryOk(s, others)
    ensures RegistryOk(RegisterHook(s, buffer), others)
  {
  }

  lemma WithoutOne(hooks: seq<Hook>, k: nat)
    requires k < |hooks| && forall i, j :: 0 <= i < j < |hooks| ==> hooks[i] != hooks[j]
    ensures var rest := Without(hooks, k);
            && (forall i, j :: 0 <= i < j < |rest| ==> rest[i] != rest[j])
            && (forall h :: h in rest <==> h in hooks && h != hooks[k])
  {
    var rest := Without(hooks, k);
    forall h | h in hooks && h != hooks[k] ensures h in rest {
      var i :| 0 <= i < |hooks| && hooks[i] == h;
      assert if i < k then rest[i] == h else rest[i - 1] == h;
    }
  }

  lemma UnregisterKeepsRegistry(s: Icon, buffer: Buffer, others: set<Hook>)
    requires RegistryOk(s, others)
    ensures RegistryOk(Unregister(s, buffer), others)
  {
    var k := FirstHook(s.hooks, buffer);
    if k < |s.hooks| {
      WithoutOne(s.hooks, k);
    }
  }

  // ---- whole runs -------------------------------------------------------------------------------

  datatype Request = AddBufferOf(entry: Entry) | SetIcon

  /** A buffer counts once for every entry, pending or already frozen. */
  function Stored(s: Icon, buffer: Buffer): nat {
    StoredTimes(s.builder, buffer) + if s.constructed.Some? then StoredTimes(s.constructed.value, buffer) else 0
  }

  ghost predicate HooksMatch(s: Icon) {
    forall buffer :: HookedTimes(s.hooks, buffer) == Stored(s, buffer)
  }

  ghost predicate Inv(shm: Shm, s: Icon, others: set<Hook>) {
    && Refines(shm, s.builder, s.adds)
    && (s.constructed.Some? ==> Refines(shm, s.constructed.value, s.frozenAdds))
    && HooksMatch(s)
    && RegistryOk(s, others)
  }

  function Start(others: set<Hook>, nextHook: HookId): Icon {
    Icon([], None, [], others, nextHook, [], [], [])
  }

  lemma AddHooksMatch(shm: Shm, s: Icon, e: Entry)
    requires Known(shm, s.builder) && HooksMatch(s) && e.buffer in shm
    ensures HooksMatch(Add(shm, RegisterHook(s, e.buffer), e))
  {
    var r := RegisterHook(s, e.buffer);
    var s', overridden := Add(shm, r, e), Overridden(shm, s.builder, e);
    OverriddenStored(shm, s.builder, e);
    forall buffer ensures HookedTimes(s'.hooks, buffer) == Stored(s', buffer) {
      PlaceTimes(shm, s.builder, e, buffer);
      HookedConcat(s.hooks, [Hook(e.buffer, s.nextHook)], buffer);
      if overridden.Some? {
        HookedConcat(s.hooks, [Hook(e.buffer, s.nextHook)], overridden.value);
        assert HookedTimes(s.hooks, overridden.value) == Stored(s, overridden.value);
        UnregisterTimes(r.hooks, overridden.value, buffer);
      }
    }
  }

  lemma AddKeeps(shm: Shm, s: Icon, e: Entry, others: set<Hook>)
    requires Inv(shm, s, others) && e.buffer in shm
    ensures Inv(shm, Add(shm, RegisterHook(s, e.buffer), e), others)
  {
    var r := RegisterHook(s, e.buffer);
    RegisterKeepsRegistry(s, e.buffer, others);
    PlaceRefines(shm, s.builder, s.adds, e);
    AddHooksMatch(shm, s, e);
    match Overridden(shm, s.builder, e)
    case None =>
    case Some(buffer) => UnregisterKeepsRegistry(r, buffer, others);
  }

  lemma PostKeeps(shm: Shm, s: Icon, error: Error, others: set<Hook>)
    requires Inv(shm, s, others)
    ensures Inv(shm, Post(s, error), others)
  {
    assert forall buffer :: Stored(Post(s, error), buffer) == Stored(s, buffer);
  }

  lemma FreezeKeeps(shm: Shm, s: Icon, others: set<Hook>)
    requires Inv(shm, s, others)
    ensures Inv(shm, Freeze(s), others)
  {
    assert forall buffer :: Stored(Freeze(s), buffer) == Stored(s, buffer);
  }

  lemma RequestKeeps(shm: Shm, s: Icon, request: Request, others: set<Hook>)
    requires Inv(shm, s, others)
    ensures Inv(shm, Apply(shm, s, request), others)
  {
    match request
    case AddBufferOf(e) =>
      PostKeeps(shm, s, Immutable, others);
      var posted := if s.constructed.Some? then Post(s, Immutable) else s;
      PostKeeps(shm, posted, InvalidBuffer, others);
      if e.buffer in shm {
        AddKeeps(shm, posted, e, others);
      }
    case SetIcon => FreezeKeeps(shm, s, others);
  }

  function Apply(shm: Shm, s: Icon, request: Request): Icon
    requires Known(shm, s.builder)
  {
    match request
    case AddBufferOf(e) => AddBufferRequest(shm, s, e)
    case SetIcon => Freeze(s)
  }

  lemma KnownKept(shm: Shm, s: Icon, request: Request)
    requires Known(shm, s.builder)
    ensures Known(shm, Apply(shm, s, request).builder)
  {
  }

  function Run(shm: Shm, s: Icon, requests: seq<Request>): (r: Icon)
    requires Known(shm, s.builder)
    ensures Known(shm, r.builder)
  {
    if requests == [] then s
    else
      var n := |requests| - 1;
      KnownKept(shm, Run(shm, s, requests[..n]), requests[n]);
      Apply(shm, Run(shm, s, requests[..n]), requests[n])
  }

  lemma {:induction false} RunKeeps(shm: Shm, others: set<Hook>, nextHook: HookId, requests: seq<Request>)
    requires forall h :: h in others ==> h.id < nextHook
    ensures Inv(shm, Run(shm, Start(others, nextHook), requests), others)
  {
    if requests != [] {
      var n := |requests| - 1;
      RunKeeps(shm, others, nextHook, requests[..n]);
      RequestKeeps(shm, Run(shm, Start(others, nextHook), requests[..n]), requests[n], others);
    }
  }

  function AcceptedOne(shm: Shm, request: Request): seq<Entry> {
    match request
    case SetIcon => []
    case AddBufferOf(e) =>
      if e.buffer in shm && shm[e.buffer].width == shm[e.buffer].height then [e] else []
  }

  /** The entries of the requests for square wl_shm buffers. */
  function Accepted(shm: Shm, requests: seq<Request>): seq<Entry> {
    if requests == [] then []
    else Accepted(shm, requests[..|requests| - 1]) + AcceptedOne(shm, requests[|requests| - 1])
  }

  /** The first SetIcon request, or the end. */
  ghost predicate FirstSet(requests: seq<Request>, k: nat) {
    && k <= |requests|
    && (forall j :: 0 <= j < k ==> requests[j].AddBufferOf?)
    && (k < |requests| ==> requests[k].SetIcon?)
  }

  lemma {:induction false} PendingHistory(shm: Shm, others: set<Hook>, nextHook: HookId, requests: seq<Request>)
    requires FirstSet(requests, |requests|)
    ensures var s := Run(shm, Start(others, nextHook), requests);
            s.constructed.None? && s.adds == Accepted(shm, requests)
  {
    if requests != [] {
      var n := |requests| - 1;
      PendingHistory(shm, others, nextHook, requests[..n]);
      ApplyHistories(shm, Run(shm, Start(others, nextHook), requests[..n]), requests[n]);
    }
  }

  /** The icon is frozen, with these histories. */
  ghost predicate Frozen(shm: Shm, s: Icon, front: seq<Request>, rest: seq<Request>) {
    s.constructed.Some? && s.frozenAdds == Accepted(shm, front) && s.adds == Accepted(shm, rest)
  }

  lemma FrozenStep(shm: Shm, s: Icon, front: seq<Request>, rest: seq<Request>, request: Request)
    requires Known(shm, s.builder) && Frozen(shm, s, front, rest)
    ensures Frozen(shm, Apply(shm, s, request), front, rest + [request])
  {
    ApplyHistories(shm, s, request);
    AcceptedSnoc(shm, rest, request);
  }

  lemma FreezeStep(shm: Shm, s: Icon, front: seq<Request>)
    requires Known(shm, s.builder) && s.constructed.None? && s.adds == Accepted(shm, front)
    ensures Frozen(shm, Apply(shm, s, SetIcon), front, [] + [SetIcon])
  {
    AcceptedSnoc(shm, [], SetIcon);
  }

  lemma {:induction false} FrozenHistory(shm: Shm, others: set<Hook>, nextHook: HookId,
                                         requests: seq<Request>, k: nat)
    requires FirstSet(requests, k) && k < |requests|
    ensures Frozen(shm, Run(shm, Start(others, nextHook), requests), requests[..k], requests[k..])
  {
    var n := |requests| - 1;
    var before, request := requests[..n], requests[n];
    var s := Run(shm, Start(others, nextHook), before);
    RestSlices(requests, k);
    if k < n {
      FrozenHistory(shm, others, nextHook, before, k);
      FrozenStep(shm, s, requests[..k], before[k..], request);
    } else {
      PendingHistory(shm, others, nextHook, before);
      FreezeStep(shm, s, requests[..k]);
    }
  }

  lemma RestSlices(requests: seq<Request>, k: nat)
    requires k < |requests|
    ensures var n := |requests| - 1;
            requests[..n][..k] == requests[..k] && requests[k..] == requests[..n][k..] + [requests[n]]
  {
  }

  lemma AcceptedSnoc(shm: Shm, requests: seq<Request>, request: Request)
    ensures Accepted(shm, requests + [request]) == Accepted(shm, requests) + AcceptedOne(shm, request)
  {
    assert (requests + [request])[..|requests|] == requests;
  }

  /** An accepted request joins the history; the first SetIcon starts a new one. */
  lemma ApplyHistories(shm: Shm, s: Icon, request: Request)
    requires Known(shm, s.builder)
    ensures var s' := Apply(shm, s, request);
            match request
            case AddBufferOf(e) =>
              && s'.frozenAdds == s.frozenAdds && s'.constructed == s.constructed
              && s'.adds == s.adds + AcceptedOne(shm, request)
            case SetIcon =>
              && s'.constructed.Some?
              && s'.adds == (if s.constructed.Some? then s.adds else [])
              && s'.frozenAdds == if s.constructed.Some? then s.frozenAdds else s.adds
  {
  }

  /**
   * The first SetIcon splits the accepted requests: those before it make the frozen list, those after
   * it the pending one. Each list holds no key twice and, under every key, the last buffer added.
   */
  lemma ListsAreLastAdded(shm: Shm, others: set<Hook>, nextHook: HookId, requests: seq<Request>, k: nat)
    requires (forall h :: h in others ==> h.id < nextHook) && FirstSet(requests, k)
    ensures var s := Run(shm, Start(others, nextHook), requests);
            if k == |requests| then
              s.constructed.None? && Refines(shm, s.builder, Accepted(shm, requests))
            else
              && s.constructed.Some?
              && Refines(shm, s.constructed.value, Accepted(shm, requests[..k]))
              && Refines(shm, s.builder, Accepted(shm, requests[k..]))
  {
    RunKeeps(shm, others, nextHook, requests);
    if k < |requests| {
      FrozenHistory(shm, others, nextHook, requests, k);
    } else {
      PendingHistory(shm, others, nextHook, requests);
    }
  }

  lemma {:induction false} FrozenIffSet(shm: Shm, others: set<Hook>, nextHook: HookId, requests: seq<Request>)
    ensures Run(shm, Start(others, nextHook), requests).constructed.Some? <==> SetIcon in requests
  {
    if requests != [] {
      var n := |requests| - 1;
      FrozenIffSet(shm, others, nextHook, requests[..n]);
      ApplyHistories(shm, Run(shm, Start(others, nextHook), requests[..n]), requests[n]);
      assert requests == requests[..n] + [requests[n]];
    }
  }

  /** The errors a request calls for, the icon being immutable or not. */
  function ErrorsOf(shm: Shm, immutable: bool, request: Request): seq<Error> {
    match request
    case SetIcon => []
    case AddBufferOf(e) =>
      (if immutable then [Immutable] else [])
      + (if e.buffer in shm && shm[e.buffer].width == shm[e.buffer].height then [] else [InvalidBuffer])
  }

  /**
   * Over every run a request posts Immutable just if it adds a buffer after a set_icon, and InvalidBuffer
   * just if it adds one that is not of wl_shm or not square; and nothing else.
   */
  lemma ErrorsPosted(shm: Shm, others: set<Hook>, nextHook: HookId, requests: seq<Request>, request: Request)
    ensures Run(shm, Start(others, nextHook), requests + [request]).errors
         == Run(shm, Start(others, nextHook), requests).errors + ErrorsOf(shm, SetIcon in requests, request)
  {
    FrozenIffSet(shm, others, nextHook, requests);
    assert (requests + [request])[..|requests|] == requests;
    ApplyErrors(shm, Run(shm, Start(others, nextHook), requests), request);
  }

  lemma ApplyErrors(shm: Shm, s: Icon, request: Request)
    requires Known(shm, s.builder)
    ensures Apply(shm, s, request).errors == s.errors + ErrorsOf(shm, s.constructed.Some?, request)
  {
  }

  /** A buffer is hooked as often as it is stored, however often one wl_buffer is added. */
  lemma HookedAsOftenAsStored(shm: Shm, others: set<Hook>, nextHook: HookId, requests: seq<Request>)
    requires forall h :: h in others ==> h.id < nextHook
    ensures var s := Run(shm, Start(others, nextHook), requests);
            forall buffer :: HookedTimes(s.hooks, buffer) == Stored(s, buffer)
  {
    RunKeeps(shm, others, nextHook, requests);
  }

  /** Destroying the icon leaves exactly the hooks of the others behind. */
  lemma DestroyLeavesOthers(shm: Shm, others: set<Hook>, nextHook: HookId, requests: seq<Request>)
    requires forall h :: h in others ==> h.id < nextHook
    ensures Destroyed(Run(shm, Start(others, nextHook), requests)).registry == others
  {
    RunKeeps(shm, others, nextHook, requests);
    var s := Run(shm, Start(others, nextHook), requests);
    var mine := set k | 0 <= k < |s.hooks| :: s.hooks[k];
    assert forall h :: h in mine <==> h in s.hooks;
  }
}
