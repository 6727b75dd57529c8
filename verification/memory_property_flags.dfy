/** The memory-selection policy value type: property bits that a memory type must have,
    bits it should preferably have, bits it must not have, and a heap constraint whose
    default is an out-of-range sentinel meaning "any heap". */
module MemoryFlags {
  import opened Common

  /** `vk::MemoryPropertyFlags`: a 32-bit VkFlags mask. */
  type Flags = bv32

  const NoFlags: Flags := 0

  /** Number of memory heaps a Vulkan implementation may report (VK_MAX_MEMORY_HEAPS). */
  const MaxMemoryHeaps: nat := 16

  /** `vk::MemoryPropertyFlagBits`, one value per VkMemoryPropertyFlagBits enumerant. */
  datatype MemoryPropertyBit =
    | DeviceLocal
    | HostVisible
    | HostCoherent
    | HostCached
    | LazilyAllocated
    | Protected
    | DeviceCoherentAmd
    | DeviceUncachedAmd
    | RdmaCapableNv
  {
    /** The enumerant's value as a mask: exactly one bit is set. */
    function Mask(): (m: Flags)
      ensures m != 0 && m & (m - 1) == 0
    {
      match this
      case DeviceLocal => 0x1
      case HostVisible => 0x2
      case HostCoherent => 0x4
      case HostCached => 0x8
      case LazilyAllocated => 0x10
      case Protected => 0x20
      case DeviceCoherentAmd => 0x40
      case DeviceUncachedAmd => 0x80
      case RdmaCapableNv => 0x100
    }
  }

  /** C++ `~` on a two's-complement `int`. */
  function Complement(x: int): int
  {
    -x - 1
  }

  /** The default member initializer `uint32_t heap = ~0`: the `int` value `~0` converted
      to `uint32_t`. */
  function AnyHeap(): (h: u32)
    ensures h as int == 0xFFFF_FFFF
    ensures h as int >= MaxMemoryHeaps
  {
    ToU32(Complement(0))
  }

  datatype MemoryPropertyFlags = MemoryPropertyFlags(
    required: Flags,
    optional: Flags,
    notWanted: Flags,
    heap: u32)

  /** The defaulted constructor `MemoryPropertyFlags()`. */
  function Default(): (m: MemoryPropertyFlags)
    ensures m.required == NoFlags && m.optional == NoFlags && m.notWanted == NoFlags
    ensures m.heap as int == 0xFFFF_FFFF
  {
    MemoryPropertyFlags(NoFlags, NoFlags, NoFlags, AnyHeap())
  }

  /** The single-bit constructor `MemoryPropertyFlags(requiredFlag)`. */
  function FromBit(requiredFlag: MemoryPropertyBit): (m: MemoryPropertyFlags)
    ensures m.required == requiredFlag.Mask()
    ensures m.optional == NoFlags && m.notWanted == NoFlags
    ensures m.heap as int == 0xFFFF_FFFF
  {
    MemoryPropertyFlags(requiredFlag.Mask(), NoFlags, NoFlags, AnyHeap())
  }

  /** The mask constructor `MemoryPropertyFlags(requiredFlags, optionalFlags = {},
      notWantedFlags = {})`. */
  function FromFlags(
    requiredFlags: Flags,
    optionalFlags: Flags := NoFlags,
    notWantedFlags: Flags := NoFlags): (m: MemoryPropertyFlags)
    ensures m.required == requiredFlags
    ensures m.optional == optionalFlags
    ensures m.notWanted == notWantedFlags
    ensures m.heap as int == 0xFFFF_FFFF
  {
    MemoryPropertyFlags(requiredFlags, optionalFlags, notWantedFlags, AnyHeap())
  }

  /** No constructor assigns `heap`: every value they build leaves it at the sentinel. */
  predicate HasAnyHeap(m: MemoryPropertyFlags)
  {
    m.heap == AnyHeap()
  }

  /** The sentinel is not the index of any heap. */
  lemma AnyHeapIsNoHeapIndex(m: MemoryPropertyFlags)
    requires HasAnyHeap(m)
    ensures !(m.heap as int < MaxMemoryHeaps)
  {
  }

  /** The mask constructor with both trailing arguments omitted passes empty masks. */
  lemma OmittedMasksAreEmpty(requiredFlags: Flags)
    ensures FromFlags(requiredFlags) == FromFlags(requiredFlags, NoFlags, NoFlags)
    ensures FromFlags(requiredFlags, NoFlags) == FromFlags(requiredFlags, NoFlags, NoFlags)
  {
  }

  /** The default constructor and the mask constructor given an empty mask agree. */
  lemma DefaultIsEmptyMask()
    ensures Default() == FromFlags(NoFlags)
  {
  }

  /** The single-bit constructor and the mask constructor given that bit agree. */
  lemma FromBitIsSingleBitMask(requiredFlag: MemoryPropertyBit)
    ensures FromBit(requiredFlag) == FromFlags(requiredFlag.Mask())
  {
  }

  /** The mask constructor stores its arguments unchanged: it is injective, and every value
      with the sentinel heap is built by it from its own three masks. */
  lemma FromFlagsRoundTrip(m: MemoryPropertyFlags, r: Flags, o: Flags, n: Flags)
    ensures HasAnyHeap(m) <==> FromFlags(m.required, m.optional, m.notWanted) == m
    ensures FromFlags(r, o, n) == m ==> r == m.required && o == m.optional && n == m.notWanted
  {
  }
}
