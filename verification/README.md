# QmVk instance, device and memory-flags core in Dafny

This project models three small pieces of QmVk, the Vulkan helper library of QMPlay2:

- **The driver connection** (`AbstractInstance`): the process-wide, one-time
  initialization of the Vulkan dispatch table (`init`), adapter enumeration with the
  optional compatibility filter (`enumeratePhysicalDevices`), and the instance's single
  weak "active device" slot (`createDevice`, `resetDevice`, `device`).
- **The logical device's query surface** (`Device`): the adapter and queue family it was
  opened against, the enabled-extension set with its membership query, and the size of the
  weak queue registry.
- **The memory-selection value type** (`MemoryPropertyFlags`): required, optional and
  not-wanted property masks plus a heap index whose default is the sentinel `~0`.

Modules, one per source file plus shared vocabulary:

| file | module | models |
|---|---|---|
| `common.dfy` | `Common` | `uint32_t` and its conversion, Option/Result/Outcome for null pointers and exceptions |
| `memory_property_flags.dfy` | `MemoryFlags` | `MemoryPropertyFlags.hpp` |
| `device.dfy` | `LogicalDevice` | `Device.hpp` |
| `abstract_instance.dfy` | `Instance` | `AbstractInstance.cpp` |

How the model reads the source:

- Each operation is treated as one atomic step. The source does not lock all of it:
  `enumeratePhysicalDevices` takes no lock, `createDevice` locks only the registration
  after the adapter call, and `resetDevice` tests for null before locking.
  `createDevice` is linearized at its registration.
- The loader state is process-wide: `LoaderState(dyld, initialized, dispatch)` stands for
  `g_dyld`, `s_dldInitialized` and `vk::defaultDispatchLoaderDynamic`.
- What the driver would do is a parameter of the operation:
  - whether the Vulkan library loads;
  - what `vkGetInstanceProcAddr` resolves to;
  - the adapter list;
  - each adapter's `PhysicalDevice::init` outcome;
  - `isCompatibleDevice`, `getQueueFamilyIndex` and `filterAvailableExtensions`;
  - the adapter's own `createDevice`.
- Thrown exceptions are `Failure`/`Fail` values. The three messages of
  `vk::InitializationFailedError` are kept verbatim.
- Shared ownership is abstracted.
  - A `Device` object is an identity (`DeviceId`).
  - `live` is the set of devices some strong reference still keeps alive.
  - `weak_ptr::lock` is `Lock`: the slot's device if it is live, otherwise nothing.
  - Dropping the last strong reference is the `Release` step.
- `unordered_set<string>` is a duplicate-free sequence and `count` counts occurrences.
  `hasExtension` is modelled as `count(name) > 0`, as written.
- `numQueues` returns `size()` as `uint32_t`. The model writes out the truncation modulo 2^32.
- Property masks are 32-bit `bv32` masks with the Vulkan `VkMemoryPropertyFlagBits` values.
  `heap = ~0` is the `int` value `~0` (that is, −1) converted to `uint32_t`, which gives
  0xFFFFFFFF.

## Model

| member | source | states |
|---|---|---|
| `Common.ToU32` | Device.hpp:91-94 | the conversion to `uint32_t` keeps the value modulo 2^32 and is the identity on values already in range |
| `MemoryFlags.AnyHeap` | MemoryPropertyFlags.hpp:47 | the default `heap` value `~0` is 0xFFFFFFFF, beyond every valid heap index |
| `MemoryFlags.Default` | MemoryPropertyFlags.hpp:32 | default construction gives three empty masks and the "any heap" sentinel |
| `MemoryFlags.FromBit` | MemoryPropertyFlags.hpp:52-55 | the single-bit constructor sets `required` to that bit's mask, leaves `optional` and `notWanted` empty and `heap` at the sentinel |
| `MemoryFlags.FromFlags` | MemoryPropertyFlags.hpp:57-64 | the mask constructor stores each argument unchanged in its own field; `heap` stays at the sentinel |
| `MemoryFlags.MemoryPropertyBit.Mask` | MemoryPropertyFlags.hpp:33-35 | every single-bit argument has exactly one bit set |
| `MemoryFlags.AnyHeapIsNoHeapIndex` | MemoryPropertyFlags.hpp:47 | a value carrying the sentinel names no heap, so it means "any heap" |
| `MemoryFlags.OmittedMasksAreEmpty` | MemoryPropertyFlags.hpp:38-39 | omitted `optionalFlags`/`notWantedFlags` arguments are empty masks |
| `MemoryFlags.DefaultIsEmptyMask` | MemoryPropertyFlags.hpp:32-40 | the default constructor equals the mask constructor given an empty mask |
| `MemoryFlags.FromBitIsSingleBitMask` | MemoryPropertyFlags.hpp:52-64 | the single-bit constructor equals the mask constructor called with just that bit |
| `MemoryFlags.FromFlagsRoundTrip` | MemoryPropertyFlags.hpp:44-64 | the mask constructor is injective, and builds exactly the values whose heap is the sentinel |
| `LogicalDevice.Insert` | Device.hpp:69 | inserting into the extension set adds the name once and keeps every entry distinct |
| `LogicalDevice.FromList` | Device.hpp:69 | a set built from a list of names holds exactly those names, each once |
| `LogicalDevice.CountPositiveIffMember` | Device.hpp:86-89 | `count(name) > 0` holds exactly when the name is stored |
| `LogicalDevice.CountOfDistinct` | Device.hpp:69 | in a duplicate-free set `count` is 1 for a member and 0 otherwise |
| `LogicalDevice.DistinctSize` | Device.hpp:69 | a duplicate-free store has as many distinct names as entries |
| `LogicalDevice.New` | Device.hpp:42-46 | a device reports the adapter and queue family it was built with; `hasExtension` is true exactly for the given names; `numQueues` is the registry length |
| `LogicalDevice.Update` | Device.hpp:66-72 | a non-`const` change can replace the extension set and queue registry but never the adapter or queue-family index |
| `LogicalDevice.EnabledExtensionsHasNoDuplicates` | Device.hpp:82-85 | `enabledExtensions()` returns exactly the stored names, one set member per stored entry |
| `LogicalDevice.HasExtension` | Device.hpp:86-89 | `hasExtension(name)` is true exactly when `name` is in `enabledExtensions()` |
| `LogicalDevice.HasExtensionCountsOnce` | Device.hpp:86-89 | the `count` that `hasExtension` tests is 1 for an enabled name and 0 otherwise |
| `LogicalDevice.NumQueues` | Device.hpp:91-94 | `numQueues()` is the weak-queue registry's length, reduced modulo 2^32 |
| `LogicalDevice.ConstMembersNeverChange` | Device.hpp:66-67 | after any series of non-`const` updates, `physicalDevice()` and the queue-family index are the ones given at construction |
| `Instance.Init` | AbstractInstance.cpp:30-48 | an initialized loader makes `init` a no-op; a non-null entry point cannot fail; a null one fails exactly when the library does not load or the symbol does not resolve, and succeeds otherwise; a failure leaves the flag clear; on success the dispatch table uses the supplied or resolved entry point |
| `Instance.InitIsIdempotent` | AbstractInstance.cpp:32-34 | after a successful `init`, any later call succeeds and changes nothing, whatever its arguments |
| `Instance.FailedInitCanBeRetried` | AbstractInstance.cpp:38-47 | after a failed `init`, a retry behaves like a first call; with a non-null entry point it succeeds |
| `Instance.KeptPositions` | AbstractInstance.cpp:57-67 | the kept adapters sit at strictly increasing positions of the driver list, and those are exactly the positions whose adapter passes the filter |
| `Instance.KeptMembers` | AbstractInstance.cpp:65-66 | an adapter is kept exactly when it is enumerated and passes the filter |
| `Instance.KeptAllWhenNotCompatibleOnly` | AbstractInstance.cpp:65 | without `compatibleOnly` every adapter is kept, in order |
| `Instance.FirstInitFailureIsFirst` | AbstractInstance.cpp:57-64 | when adapter `i` raises and every earlier adapter initializes, the reported error is adapter `i`'s |
| `Instance.FirstInitFailureNoneWhenAllPass` | AbstractInstance.cpp:57-64 | when every adapter initializes, no initialization error is reported |
| `Instance.FirstInitFailureOfPrefix` | AbstractInstance.cpp:57-64 | the first adapter whose initialization raises decides the error, whatever follows it |
| `Instance.EnumeratePhysicalDevices` | AbstractInstance.cpp:50-73 | the result is the kept adapters in driver order. An adapter whose `init` raises aborts with its error. An empty result is always the "No compatible devices found" error, also with zero adapters and `compatibleOnly` false |
| `Instance.CurrentDevice` | AbstractInstance.cpp:102-106 | `device()` returns the registered device exactly when it is still alive, and nothing otherwise |
| `Instance.CreateDevice` | AbstractInstance.cpp:75-92 | success gives a new device, registered in place of any previous one, and `device()` then returns it; nothing else changes but the new object's allocation and liveness. A failure of the queue-family lookup or of the adapter propagates that error unchanged and leaves the instance unchanged |
| `Instance.ResetDevice` | AbstractInstance.cpp:93-101 | the slot is cleared only when the argument is the registered live device. A null argument, a superseded device or a dead registration change nothing |
| `Instance.Release` | AbstractInstance.cpp:99-105 | only the released device dies: every other device and the rest of the instance are unchanged; the slot still holds it but `device()` returns nothing if it was the registered one |
| `Instance.RunPreservesValid` | AbstractInstance.cpp:26-28 | every series of operations keeps the flag and the dispatch table in step, the registry pointing at created devices, and every created device's extension store duplicate-free |
| `Instance.InitializedLoaderIsFrozen` | AbstractInstance.cpp:27-34 | once the loader is initialized, no operation changes any loader state again |
| `Instance.InitializedNeverCleared` | AbstractInstance.cpp:27-47 | once the flag is set in a run, it stays set for the rest of that run |
| `Instance.SupersededDeviceResetIsNoOp` | AbstractInstance.cpp:89-101 | after creating A then B, `device()` returns B, A is still alive, and `resetDevice(A)` changes nothing |
| `Instance.NoDeviceUntilCreated` | AbstractInstance.cpp:93-106 | once `device()` answers nothing, it keeps answering nothing through any series of `init`, `resetDevice` and releases that contains no `createDevice` |
| `Instance.ReleasedDeviceIsGone` | AbstractInstance.cpp:99-105 | after the created device is released, `device()` returns nothing, and `resetDevice` does not change that |

## Left out

- `Device::queue` and `Device::init`: their bodies are not part of this model.
  - `New` therefore takes the enabled-extension list and the queue registry as given.
  - Lazy queue creation, queue-index bounds and queue-count clamping are not modelled.
- The `Device` constructor body is not part of this model. `New` records only what the
  declaration fixes: the two `const` members.
- `ComputePipeline.hpp`: it holds declarations only. The group-count ceiling division, the
  workgroup-size rejection and the rebuild state machine have no body to model.
- `PhysicalDevice` behaviour: `init`, `isCompatibleDevice`, `getQueueFamilyIndex`,
  `filterAvailableExtensions` and `createDevice` are uninterpreted parameters.
- Vulkan calls: what `vk::DynamicLoader` and `getProcAddress` find is a given outcome.
  The dispatch table's `init` is treated as always succeeding. The driver's own
  `enumeratePhysicalDevices` is a given list.
- A driver error raised by the driver's own `enumeratePhysicalDevices` is not modelled. It would
  propagate unchanged.
- Mutexes and cross-thread guarantees: each operation is one atomic step.
- `shared_ptr`/`weak_ptr` reference counting: abstracted as a set of live device identities.
  Freshly constructed `PhysicalDevice` wrappers are represented by their adapter identities.
- One instance per process. The loader state is shared, but the model has one device slot.
- `Update` is the frame of every non-`const` member, not a member of the source. It
  expresses the `const` qualifiers on `m_physicalDevice` and `m_queueFamilyIndex`.
  `ConstMembersNeverChange` says nothing about what `init` or `queue` actually do.
