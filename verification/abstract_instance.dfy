/** The driver connection: the process-wide one-time loader initialization, adapter
    enumeration, and the instance's single weak "active device" slot.

    Each operation is treated as one atomic step; `createDevice` is linearized at its
    registration, the only part of it done under the device mutex. Calls
    into the driver and into the adapter component are parameters: the outcome they would
    produce is given, not computed. */
module Instance {
  import opened Common
  import LogicalDevice

  /** A non-null `PFN_vkGetInstanceProcAddr`. */
  type ProcAddr = nat

  /** The `vk::Instance` handle of an instance. */
  type InstanceHandle = nat

  type AdapterId = LogicalDevice.AdapterId

  /** Identity of a `Device` object (what a `shared_ptr<Device>` points to). */
  type DeviceId = nat

  /** Exceptions raised through the operations modelled here. */
  datatype Error =
    | InitializationFailed(message: string)   // vk::InitializationFailedError
    | DriverError(code: int)                  // anything the driver or adapter code raises

  const LibraryNotLoaded: Error := InitializationFailed("Unable to load Vulkan library")
  const EntryPointNotResolved: Error := InitializationFailed("Unable to get \"vkGetInstanceProcAddr\"")
  const NoCompatibleDevices: Error := InitializationFailed("No compatible devices found")

  /* ---------- Loader initialization ---------- */

  /** What constructing a `vk::DynamicLoader` finds: whether the Vulkan library loaded,
      and what `getProcAddress("vkGetInstanceProcAddr")` resolves to (None for null). */
  datatype DynamicLoader = DynamicLoader(success: bool, instanceProcAddr: Option<ProcAddr>)

  /** The contents of `vk::defaultDispatchLoaderDynamic` after its `init`. */
  datatype Dispatch = Dispatch(instance: InstanceHandle, getInstanceProcAddr: ProcAddr)

  /** The static loader state: `g_dyld`, `s_dldInitialized` and the dispatch table. */
  datatype LoaderState = LoaderState(
    dyld: Option<DynamicLoader>,
    initialized: bool,
    dispatch: Option<Dispatch>)

  const InitialLoader: LoaderState := LoaderState(None, false, None)

  /** The flag is set exactly when the dispatch table has been filled. */
  predicate LoaderValid(s: LoaderState)
  {
    s.initialized <==> s.dispatch.Some?
  }

  datatype InitStep = InitStep(state: LoaderState, outcome: Outcome<Error>)

  /** `AbstractInstance::init(vkGetInstanceProcAddr)` called on the instance `self`;
      `library` is what loading the Vulkan library would yield if it is attempted. */
  function Init(s: LoaderState, self: InstanceHandle, entry: Option<ProcAddr>, library: DynamicLoader): (r: InitStep)
    // already initialized: a no-op whatever the arguments
    ensures s.initialized ==> r == InitStep(s, Pass)
    // an explicit entry point cannot fail and is the one the dispatch table uses
    ensures !s.initialized && entry.Some? ==>
      && r.outcome == Pass
      && r.state.initialized
      && r.state.dispatch == Some(Dispatch(self, entry.value))
      && r.state.dyld == s.dyld
    // no entry point: the library is loaded (and kept); there are exactly two failure exits
    ensures !s.initialized && entry.None? ==>
      && r.state.dyld == Some(library)
      && (library.success && library.instanceProcAddr.Some? ==> r.outcome == Pass)
      && (r.outcome == Fail(LibraryNotLoaded) <==> !library.success)
      && (r.outcome == Fail(EntryPointNotResolved) <==> library.success && library.instanceProcAddr.None?)
      && (r.outcome.Pass? ==>
            library.instanceProcAddr.Some? &&
            r.state.dispatch == Some(Dispatch(self, library.instanceProcAddr.value)))
    // a failure leaves the flag clear, so a later call tries again
    ensures r.outcome.Fail? ==> !r.state.initialized && r.state.dispatch == s.dispatch
    ensures r.outcome.Pass? <==> r.state.initialized
    ensures LoaderValid(s) ==> LoaderValid(r.state)
  {
    if s.initialized then
      InitStep(s, Pass)
    else if entry.Some? then
      InitStep(s.(initialized := true, dispatch := Some(Dispatch(self, entry.value))), Pass)
    else
      var loaded := s.(dyld := Some(library));
      if !library.success then
        InitStep(loaded, Fail(LibraryNotLoaded))
      else if library.instanceProcAddr.None? then
        InitStep(loaded, Fail(EntryPointNotResolved))
      else
        InitStep(loaded.(initialized := true, dispatch := Some(Dispatch(self, library.instanceProcAddr.value))), Pass)
  }

  /** After one successful `init`, any number of further calls change nothing and succeed. */
  lemma InitIsIdempotent(
    s: LoaderState, self: InstanceHandle, entry: Option<ProcAddr>, library: DynamicLoader,
    self': InstanceHandle, entry': Option<ProcAddr>, library': DynamicLoader)
    requires Init(s, self, entry, library).outcome.Pass?
    ensures Init(Init(s, self, entry, library).state, self', entry', library') ==
            InitStep(Init(s, self, entry, library).state, Pass)
  {
  }

  /** A failed `init` can be retried, and the retry behaves as a first call would (apart
      from the library handle left behind, which a null-entry retry replaces). */
  lemma FailedInitCanBeRetried(
    s: LoaderState, self: InstanceHandle, entry: Option<ProcAddr>, library: DynamicLoader,
    entry': Option<ProcAddr>, library': DynamicLoader)
    requires Init(s, self, entry, library).outcome.Fail?
    ensures Init(Init(s, self, entry, library).state, self, entry', library').outcome ==
            Init(s, self, entry', library').outcome
    ensures entry'.Some? ==> Init(Init(s, self, entry, library).state, self, entry', library').state.initialized
  {
  }

  /* ---------- Adapter enumeration ---------- */

  /** The filter applied to each adapter: everything, or only the compatible ones. */
  predicate Keeps(compatibleOnly: bool, isCompatible: AdapterId -> bool, a: AdapterId)
  {
    !compatibleOnly || isCompatible(a)
  }

  /** Reference definition: the kept adapters, in driver order. */
  function Kept(adapters: seq<AdapterId>, compatibleOnly: bool, isCompatible: AdapterId -> bool): seq<AdapterId>
  {
    if |adapters| == 0 then []
    else
      var last := adapters[|adapters| - 1];
      Kept(adapters[..|adapters| - 1], compatibleOnly, isCompatible) +
        (if Keeps(compatibleOnly, isCompatible, last) then [last] else [])
  }

  /** The error of the first adapter, in driver order, whose `PhysicalDevice::init` raises. */
  function FirstInitFailure(adapters: seq<AdapterId>, initAdapter: AdapterId -> Outcome<Error>): Option<Error>
  {
    if |adapters| == 0 then None
    else
      match FirstInitFailure(adapters[..|adapters| - 1], initAdapter)
      case Some(e) => Some(e)
      case None =>
        match initAdapter(adapters[|adapters| - 1])
        case Fail(e) => Some(e)
        case Pass => None
  }

  /** The positions, in the driver's list, of the adapters `Kept` retains: strictly
      increasing, so the result is an order-preserving subsequence, and covering exactly the
      positions whose adapter passes the filter. */
  function KeptPositions(adapters: seq<AdapterId>, compatibleOnly: bool, isCompatible: AdapterId -> bool): (idx: seq<nat>)
    ensures |idx| == |Kept(adapters, compatibleOnly, isCompatible)|
    ensures forall k :: 0 <= k < |idx| ==>
      idx[k] < |adapters| && Kept(adapters, compatibleOnly, isCompatible)[k] == adapters[idx[k]]
    ensures forall k, l :: 0 <= k < l < |idx| ==> idx[k] < idx[l]
    ensures forall i :: 0 <= i < |adapters| ==>
      (i in idx <==> Keeps(compatibleOnly, isCompatible, adapters[i]))
  {
    if |adapters| == 0 then []
    else
      var n := |adapters| - 1;
      var prefix := KeptPositions(adapters[..n], compatibleOnly, isCompatible);
      assert forall k :: 0 <= k < |prefix| ==> adapters[..n][prefix[k]] == adapters[prefix[k]];
      prefix + (if Keeps(compatibleOnly, isCompatible, adapters[n]) then [n] else [])
  }

  /** Every kept adapter passes the filter, and every adapter that passes it is kept. */
  lemma {:induction false} KeptMembers(adapters: seq<AdapterId>, compatibleOnly: bool, isCompatible: AdapterId -> bool)
    ensures forall a :: a in Kept(adapters, compatibleOnly, isCompatible) <==>
      a in adapters && Keeps(compatibleOnly, isCompatible, a)
  {
    if |adapters| > 0 {
      var n := |adapters| - 1;
      KeptMembers(adapters[..n], compatibleOnly, isCompatible);
      assert adapters == adapters[..n] + [adapters[n]];
    }
  }

  /** Without `compatibleOnly` every adapter is kept, in order. */
  lemma {:induction false} KeptAllWhenNotCompatibleOnly(adapters: seq<AdapterId>, isCompatible: AdapterId -> bool)
    ensures Kept(adapters, false, isCompatible) == adapters
  {
    if |adapters| > 0 {
      var n := |adapters| - 1;
      KeptAllWhenNotCompatibleOnly(adapters[..n], isCompatible);
      assert adapters == adapters[..n] + [adapters[n]];
    }
  }

  /** When every adapter initializes, no failure is reported. */
  lemma {:induction false} FirstInitFailureNoneWhenAllPass(adapters: seq<AdapterId>, initAdapter: AdapterId -> Outcome<Error>)
    requires forall j :: 0 <= j < |adapters| ==> initAdapter(adapters[j]).Pass?
    ensures FirstInitFailure(adapters, initAdapter).None?
  {
    if |adapters| > 0 {
      var n := |adapters| - 1;
      assert forall j :: 0 <= j < n ==> adapters[..n][j] == adapters[j];
      FirstInitFailureNoneWhenAllPass(adapters[..n], initAdapter);
      assert initAdapter(adapters[n]).Pass?;
    }
  }

  /** The reported failure is that of the first adapter, in driver order, whose
      initialization raises. */
  lemma {:induction false} FirstInitFailureIsFirst(adapters: seq<AdapterId>, i: nat, initAdapter: AdapterId -> Outcome<Error>)
    requires i < |adapters|
    requires initAdapter(adapters[i]).Fail?
    requires forall j :: 0 <= j < i ==> initAdapter(adapters[j]).Pass?
    ensures FirstInitFailure(adapters, initAdapter) == Some(initAdapter(adapters[i]).error)
  {
    var n := |adapters| - 1;
    var prefix := adapters[..n];
    assert forall j :: 0 <= j < n ==> prefix[j] == adapters[j];
    if i < n {
      FirstInitFailureIsFirst(prefix, i, initAdapter);
    } else {
      FirstInitFailureNoneWhenAllPass(prefix, initAdapter);
    }
  }

  /** A failure in a prefix is the failure of the whole list. */
  lemma {:induction false} FirstInitFailureOfPrefix(adapters: seq<AdapterId>, n: nat, initAdapter: AdapterId -> Outcome<Error>)
    requires n <= |adapters|
    requires FirstInitFailure(adapters[..n], initAdapter).Some?
    decreases |adapters| - n
    ensures FirstInitFailure(adapters, initAdapter) == FirstInitFailure(adapters[..n], initAdapter)
  {
    if n < |adapters| {
      assert adapters[..n + 1][..n] == adapters[..n];
      FirstInitFailureOfPrefix(adapters, n + 1, initAdapter);
    } else {
      assert adapters[..n] == adapters;
    }
  }

  /** `AbstractInstance::enumeratePhysicalDevices(compatibleOnly)` over the adapters the
      driver reports, in its order. `initAdapter` is the outcome of `PhysicalDevice::init`
      for each adapter; `isCompatible` is `isCompatibleDevice`. */
  method EnumeratePhysicalDevices(
    adapters: seq<AdapterId>,
    compatibleOnly: bool,
    initAdapter: AdapterId -> Outcome<Error>,
    isCompatible: AdapterId -> bool)
    returns (r: Result<seq<AdapterId>, Error>)
    // an adapter whose initialization raises aborts the enumeration with that error
    ensures FirstInitFailure(adapters, initAdapter).Some? ==>
      r == Failure(FirstInitFailure(adapters, initAdapter).value)
    // otherwise: the kept adapters in driver order, or an error when none are kept
    ensures FirstInitFailure(adapters, initAdapter).None? ==>
      && (r.Success? <==> Kept(adapters, compatibleOnly, isCompatible) != [])
      && (r.Success? ==> r.value == Kept(adapters, compatibleOnly, isCompatible))
      && (r.Failure? ==> r.error == NoCompatibleDevices)
    // an empty list is never returned
    ensures r.Success? ==> |r.value| > 0
  {
    var kept: seq<AdapterId> := [];
    var i := 0;
    while i < |adapters|
      invariant 0 <= i <= |adapters|
      invariant FirstInitFailure(adapters[..i], initAdapter).None?
      invariant kept == Kept(adapters[..i], compatibleOnly, isCompatible)
    {
      var adapter := adapters[i];
      assert adapters[..i + 1][..i] == adapters[..i];
      match initAdapter(adapter) {
        case Fail(e) =>
          FirstInitFailureOfPrefix(adapters, i + 1, initAdapter);
          return Failure(e);
        case Pass =>
      }
      if !compatibleOnly || isCompatible(adapter) {
        kept := kept + [adapter];
      }
      i := i + 1;
    }
    assert adapters[..i] == adapters;
    if |kept| == 0 {
      return Failure(NoCompatibleDevices);
    }
    return Success(kept);
  }

  /* ---------- Active-device registry ---------- */

  /** One process with one instance. `slot` is `m_deviceWeak`; `devices` holds every
      `Device` object created so far, by identity; `live` are the devices some strong
      reference still keeps alive; `nextId` is the identity the next new object receives. */
  datatype World = World(
    loader: LoaderState,
    self: InstanceHandle,
    slot: Option<DeviceId>,
    devices: map<DeviceId, LogicalDevice.Device>,
    live: set<DeviceId>,
    nextId: DeviceId)

  const InitialWorld: World := World(InitialLoader, 0, None, map[], {}, 0)

  ghost predicate Valid(w: World)
  {
    && LoaderValid(w.loader)
    && w.live <= w.devices.Keys
    && (w.slot.Some? ==> w.slot.value in w.devices)
    && (forall id :: id in w.devices ==> id < w.nextId)
    && (forall id :: id in w.devices ==> LogicalDevice.Valid(w.devices[id]))
  }

  /** `weak_ptr::lock`: the referenced device if it is still alive, otherwise nothing. */
  function Lock(slot: Option<DeviceId>, live: set<DeviceId>): Option<DeviceId>
  {
    if slot.Some? && slot.value in live then slot else None
  }

  /** `AbstractInstance::device()`. */
  function CurrentDevice(w: World): (r: Option<DeviceId>)
    ensures r.Some? <==> w.slot.Some? && w.slot.value in w.live
    ensures r.Some? ==> r == w.slot && r.value in w.live
  {
    Lock(w.slot, w.live)
  }

  datatype CreateStep = CreateStep(world: World, result: Result<DeviceId, Error>)

  /** `AbstractInstance::createDevice`. `queueFamilyIndex` is the outcome of
      `getQueueFamilyIndex(queueFlags)`, `filterAvailable` is `filterAvailableExtensions`,
      and `open` is the adapter's `createDevice` with the features and maximum queue count
      already bound. */
  function CreateDevice(
    w: World,
    queueFamilyIndex: Result<u32, Error>,
    filterAvailable: seq<string> -> seq<string>,
    requested: seq<string>,
    open: (u32, seq<string>) -> Result<LogicalDevice.ValidDevice, Error>): (r: CreateStep)
    ensures r.result.Success? <==>
      queueFamilyIndex.Success? && open(queueFamilyIndex.value, filterAvailable(requested)).Success?
    // a failure propagates and leaves everything as it was
    ensures r.result.Failure? ==> r.world == w
    ensures queueFamilyIndex.Failure? ==> r.result == Failure(queueFamilyIndex.error)
    ensures queueFamilyIndex.Success? && open(queueFamilyIndex.value, filterAvailable(requested)).Failure? ==>
      r.result == Failure(open(queueFamilyIndex.value, filterAvailable(requested)).error)
    // success: a new object, registered (replacing any previous registration) and current
    ensures r.result.Success? ==>
      && (Valid(w) ==> r.result.value !in w.devices.Keys)
      && r.result.value in r.world.devices
      && r.world.devices[r.result.value] == open(queueFamilyIndex.value, filterAvailable(requested)).value
      && r.world.slot == Some(r.result.value)
      && CurrentDevice(r.world) == Some(r.result.value)
      && r.world.loader == w.loader
      && (Valid(w) ==> forall id :: id in w.devices ==> id in r.world.devices && r.world.devices[id] == w.devices[id])
      && (forall id :: id in w.live ==> id in r.world.live)
      && r.world == w.(
           devices := w.devices[r.result.value := open(queueFamilyIndex.value, filterAvailable(requested)).value],
           live := w.live + {r.result.value},
           nextId := r.result.value + 1,
           slot := Some(r.result.value))
    ensures Valid(w) ==> Valid(r.world)
  {
    if queueFamilyIndex.Failure? then
      CreateStep(w, Failure(queueFamilyIndex.error))
    else
      match open(queueFamilyIndex.value, filterAvailable(requested))
      case Failure(e) => CreateStep(w, Failure(e))
      case Success(device) =>
        var id := w.nextId;
        var w' := w.(
          devices := w.devices[id := device],
          live := w.live + {id},
          nextId := id + 1,
          slot := Some(id));
        CreateStep(w', Success(id))
  }

  /** `AbstractInstance::resetDevice(deviceToReset)`; None is a null `shared_ptr`. */
  function ResetDevice(w: World, deviceToReset: Option<DeviceId>): (r: World)
    ensures deviceToReset.Some? && CurrentDevice(w) == deviceToReset ==>
      r.slot.None? && CurrentDevice(r).None? && r == w.(slot := None)
    ensures !(deviceToReset.Some? && CurrentDevice(w) == deviceToReset) ==> r == w
    ensures Valid(w) ==> Valid(r)
  {
    if deviceToReset.None? then w
    else if Lock(w.slot, w.live) == deviceToReset then w.(slot := None)
    else w
  }

  /** The last strong reference to a device is dropped (the caller's doing, not the
      instance's): the weak slot is untouched but can no longer be locked to it. */
  function Release(w: World, id: DeviceId): (r: World)
    ensures r.slot == w.slot && id !in r.live
    // only that device dies; every other device and the rest of the world are untouched
    ensures r == w.(live := w.live - {id})
    ensures CurrentDevice(r) == (if CurrentDevice(w) == Some(id) then None else CurrentDevice(w))
    ensures Valid(w) ==> Valid(r)
  {
    w.(live := w.live - {id})
  }

  /* ---------- Sequences of operations ---------- */

  /** Every operation that changes a world. `device()` and `enumeratePhysicalDevices`
      change nothing. */
  datatype Op =
    | InitLoader(entry: Option<ProcAddr>, library: DynamicLoader)
    | CreateDeviceOp(
        queueFamilyIndex: Result<u32, Error>,
        filterAvailable: seq<string> -> seq<string>,
        requested: seq<string>,
        open: (u32, seq<string>) -> Result<LogicalDevice.ValidDevice, Error>)
    | ResetDeviceOp(deviceToReset: Option<DeviceId>)
    | ReleaseDevice(id: DeviceId)

  function Apply(w: World, op: Op): World
  {
    match op
    case InitLoader(entry, library) => w.(loader := Init(w.loader, w.self, entry, library).state)
    case CreateDeviceOp(qfi, filter, requested, open) => CreateDevice(w, qfi, filter, requested, open).world
    case ResetDeviceOp(d) => ResetDevice(w, d)
    case ReleaseDevice(id) => Release(w, id)
  }

  function Run(w: World, ops: seq<Op>): World
    decreases |ops|
  {
    if |ops| == 0 then w else Run(Apply(w, ops[0]), ops[1..])
  }

  lemma {:induction false} RunAppend(w: World, ops: seq<Op>, more: seq<Op>)
    decreases |ops|
    ensures Run(w, ops + more) == Run(Run(w, ops), more)
  {
    if |ops| > 0 {
      assert (ops + more)[1..] == ops[1..] + more;
      RunAppend(Apply(w, ops[0]), ops[1..], more);
    } else {
      assert ops + more == more;
    }
  }

  /** Every sequence of operations keeps the world well formed. */
  lemma {:induction false} RunPreservesValid(w: World, ops: seq<Op>)
    requires Valid(w)
    decreases |ops|
    ensures Valid(Run(w, ops))
  {
    if |ops| > 0 {
      RunPreservesValid(Apply(w, ops[0]), ops[1..]);
    }
  }

  /** Once the loader is initialized, nothing changes its state again: the flag stays set
      and the dispatch table keeps the entry point of the first successful call. */
  lemma {:induction false} InitializedLoaderIsFrozen(w: World, ops: seq<Op>)
    requires w.loader.initialized
    decreases |ops|
    ensures Run(w, ops).loader == w.loader
  {
    if |ops| > 0 {
      InitializedLoaderIsFrozen(Apply(w, ops[0]), ops[1..]);
    }
  }

  /** No operation clears the flag: if it is set after some prefix of a run, it is set after
      every longer prefix. */
  lemma InitializedNeverCleared(w: World, ops: seq<Op>, i: nat, j: nat)
    requires i <= j <= |ops|
    requires Run(w, ops[..i]).loader.initialized
    ensures Run(w, ops[..j]).loader.initialized
  {
    assert ops[..j] == ops[..i] + ops[i..j];
    RunAppend(w, ops[..i], ops[i..j]);
    InitializedLoaderIsFrozen(Run(w, ops[..i]), ops[i..j]);
  }

  /** Creating B while A is still alive: `device()` answers B, and `resetDevice(A)` changes
      nothing because A has been superseded. */
  lemma SupersededDeviceResetIsNoOp(
    w: World,
    qfiA: Result<u32, Error>, filterA: seq<string> -> seq<string>, requestedA: seq<string>,
    openA: (u32, seq<string>) -> Result<LogicalDevice.ValidDevice, Error>,
    qfiB: Result<u32, Error>, filterB: seq<string> -> seq<string>, requestedB: seq<string>,
    openB: (u32, seq<string>) -> Result<LogicalDevice.ValidDevice, Error>)
    requires Valid(w)
    requires CreateDevice(w, qfiA, filterA, requestedA, openA).result.Success?
    requires CreateDevice(CreateDevice(w, qfiA, filterA, requestedA, openA).world,
                          qfiB, filterB, requestedB, openB).result.Success?
    ensures
      var a := CreateDevice(w, qfiA, filterA, requestedA, openA);
      var b := CreateDevice(a.world, qfiB, filterB, requestedB, openB);
      && a.result.value in b.world.live
      && CurrentDevice(b.world) == Some(b.result.value)
      && ResetDevice(b.world, Some(a.result.value)) == b.world
  {
  }

  /** Once the registered device is released, `device()` answers nothing, also after a
      `resetDevice`. `NoDeviceUntilCreated` extends this to every later series of operations
      without a `createDevice`. */
  lemma ReleasedDeviceIsGone(
    w: World,
    qfi: Result<u32, Error>, filter: seq<string> -> seq<string>, requested: seq<string>,
    open: (u32, seq<string>) -> Result<LogicalDevice.ValidDevice, Error>,
    d: Option<DeviceId>)
    requires CreateDevice(w, qfi, filter, requested, open).result.Success?
    ensures
      var c := CreateDevice(w, qfi, filter, requested, open);
      var gone := Release(c.world, c.result.value);
      && CurrentDevice(gone).None?
      && CurrentDevice(ResetDevice(gone, d)).None?
  {
  }

  /** While no `createDevice` runs, a world whose `device()` answers nothing keeps answering
      nothing, whatever `init`, `resetDevice` and releases happen. */
  lemma {:induction false} NoDeviceUntilCreated(w: World, ops: seq<Op>)
    requires CurrentDevice(w).None?
    requires forall k :: 0 <= k < |ops| ==> !ops[k].CreateDeviceOp?
    decreases |ops|
    ensures CurrentDevice(Run(w, ops)).None?
  {
    if |ops| > 0 {
      assert !ops[0].CreateDeviceOp?;
      assert CurrentDevice(Apply(w, ops[0])).None?;
      NoDeviceUntilCreated(Apply(w, ops[0]), ops[1..]);
    }
  }
}
