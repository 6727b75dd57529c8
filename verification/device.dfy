/** The query surface of one opened logical device: the adapter and queue family it was
    opened against (fixed for its lifetime), the extensions actually enabled on it, and the
    registry of weak references to the queues already handed out. */
module LogicalDevice {
  import opened Common

  /** Identity of the physical device (adapter) a logical device holds strongly. */
  type AdapterId = nat

  /** Identity of a `Queue` object. */
  type QueueId = nat

  /* ---------- unordered_set<string> ---------- */

  /** No name occurs twice: the uniqueness an `unordered_set` keeps. */
  predicate Distinct(s: seq<string>)
  {
    forall i, j :: 0 <= i < j < |s| ==> s[i] != s[j]
  }

  function Elements(s: seq<string>): set<string>
  {
    set x | x in s
  }

  /** `unordered_set::insert`: adds a name unless it is already present. */
  function Insert(s: seq<string>, x: string): (r: seq<string>)
    requires Distinct(s)
    ensures Distinct(r)
    ensures forall y :: y in r <==> y in s || y == x
    ensures x in s ==> r == s
  {
    if x in s then s else s + [x]
  }

  /** The set built from a list of names by inserting each in turn. */
  function FromList(names: seq<string>): (r: seq<string>)
    ensures Distinct(r)
    ensures forall y :: y in r <==> y in names
    ensures |r| <= |names|
  {
    if |names| == 0 then []
    else Insert(FromList(names[..|names| - 1]), names[|names| - 1])
  }

  /** `unordered_set::count`: how many stored entries equal `x`. */
  function Count(s: seq<string>, x: string): nat
  {
    if |s| == 0 then 0
    else (if s[0] == x then 1 else 0) + Count(s[1..], x)
  }

  lemma {:induction false} CountPositiveIffMember(s: seq<string>, x: string)
    ensures Count(s, x) > 0 <==> x in s
  {
    if |s| > 0 {
      CountPositiveIffMember(s[1..], x);
      assert x in s <==> s[0] == x || x in s[1..];
    }
  }

  /** In a duplicate-free store `count` is 0 or 1, as for every `unordered_set`. */
  lemma {:induction false} CountOfDistinct(s: seq<string>, x: string)
    requires Distinct(s)
    ensures Count(s, x) == if x in s then 1 else 0
  {
    if |s| > 0 {
      var t := s[1..];
      DistinctTail(s);
      CountOfDistinct(t, x);
      if s[0] == x {
        assert x !in t by {
          forall k | 0 <= k < |t| ensures t[k] != x {
            assert t[k] == s[k + 1];
          }
        }
      }
      assert x in s <==> s[0] == x || x in t;
    }
  }

  lemma DistinctTail(s: seq<string>)
    requires Distinct(s) && |s| > 0
    ensures Distinct(s[1..])
    ensures s[0] !in s[1..]
  {
    var t := s[1..];
    forall i, j | 0 <= i < j < |t| ensures t[i] != t[j] {
      assert t[i] == s[i + 1] && t[j] == s[j + 1];
    }
    forall k | 0 <= k < |t| ensures t[k] != s[0] {
      assert t[k] == s[k + 1];
    }
  }

  /** A duplicate-free store has exactly as many distinct names as entries. */
  lemma {:induction false} DistinctSize(s: seq<string>)
    requires Distinct(s)
    ensures |Elements(s)| == |s|
  {
    if |s| > 0 {
      var t := s[1..];
      DistinctTail(s);
      DistinctSize(t);
      assert Elements(s) == {s[0]} + Elements(t) by {
        forall y ensures y in Elements(s) <==> y == s[0] || y in Elements(t) {
          assert y in s <==> y == s[0] || y in t;
        }
      }
    }
  }

  /* ---------- Device ---------- */

  /** `Device`: `physicalDevice` and `queueFamilyIndex` are the `const` members set by the
      constructor; `enabledExtensions` is the `unordered_set<string>`; `weakQueues` is the
      `vector<weak_ptr<Queue>>` (None for an empty weak reference). */
  datatype Device = Device(
    physicalDevice: AdapterId,
    queueFamilyIndex: u32,
    enabledExtensions: seq<string>,
    weakQueues: seq<Option<QueueId>>)

  ghost predicate Valid(d: Device)
  {
    Distinct(d.enabledExtensions)
  }

  /** A device whose extension store keeps the `unordered_set` invariant; every device the
      adapter hands out is one. */
  type ValidDevice = d: Device | Distinct(d.enabledExtensions) witness Device(0, 0, [], [])

  /** A device opened against `physicalDevice` and `queueFamilyIndex`, with the given
      enabled extension list and queue registry. */
  function New(
    physicalDevice: AdapterId,
    queueFamilyIndex: u32,
    extensions: seq<string>,
    weakQueues: seq<Option<QueueId>>): (d: Device)
    ensures Valid(d)
    ensures PhysicalDevice(d) == physicalDevice && d.queueFamilyIndex == queueFamilyIndex
    ensures EnabledExtensions(d) == Elements(extensions)
    ensures forall name :: HasExtension(d, name) <==> name in extensions
    ensures |weakQueues| < U32Modulus ==> NumQueues(d) as int == |weakQueues|
  {
    Device(physicalDevice, queueFamilyIndex, FromList(extensions), weakQueues)
  }

  /** The frame the C++ `const` qualifiers on `m_physicalDevice` and `m_queueFamilyIndex`
      impose on every non-`const` member: it may replace the extension set and the queue
      registry, and nothing else. This is not a model of `init` or `queue`, whose bodies are
      not part of this model; it states only what the qualifiers guarantee. */
  function Update(d: Device, extensions: seq<string>, weakQueues: seq<Option<QueueId>>): (r: Device)
    ensures Valid(r)
    ensures PhysicalDevice(r) == PhysicalDevice(d)
    ensures r.queueFamilyIndex == d.queueFamilyIndex
    ensures forall name :: HasExtension(r, name) <==> name in extensions
  {
    d.(enabledExtensions := FromList(extensions), weakQueues := weakQueues)
  }

  /** `physicalDevice()`. */
  function PhysicalDevice(d: Device): AdapterId
  {
    d.physicalDevice
  }

  /** `enabledExtensions()`: the stored set. */
  function EnabledExtensions(d: Device): set<string>
  {
    Elements(d.enabledExtensions)
  }

  /** The set `enabledExtensions()` reports has one member per stored entry: no duplicates. */
  lemma EnabledExtensionsHasNoDuplicates(d: Device)
    requires Valid(d)
    ensures |EnabledExtensions(d)| == |d.enabledExtensions|
    ensures forall name :: name in EnabledExtensions(d) <==> name in d.enabledExtensions
  {
    DistinctSize(d.enabledExtensions);
  }

  /** `hasExtension(name)`: `count(name) > 0`. */
  function HasExtension(d: Device, name: string): (b: bool)
    ensures b <==> name in EnabledExtensions(d)
  {
    CountPositiveIffMember(d.enabledExtensions, name);
    Count(d.enabledExtensions, name) > 0
  }

  /** `numQueues()`: the registry's `size()` returned as `uint32_t`. */
  function NumQueues(d: Device): (n: u32)
    ensures (n as int - |d.weakQueues|) % U32Modulus == 0
    ensures |d.weakQueues| < U32Modulus ==> n as int == |d.weakQueues|
  {
    ToU32(|d.weakQueues|)
  }

  /** `hasExtension` answers from the stored set alone, and in a valid device that set holds
      each name once. */
  lemma HasExtensionCountsOnce(d: Device, name: string)
    requires Valid(d)
    ensures Count(d.enabledExtensions, name) == (if HasExtension(d, name) then 1 else 0)
  {
    CountOfDistinct(d.enabledExtensions, name);
  }

  /** The device after a series of non-`const` updates, applied in order. */
  function UpdateAll(d: Device, extensions: seq<seq<string>>, queues: seq<seq<Option<QueueId>>>): Device
    requires |extensions| == |queues|
    decreases |extensions|
  {
    if |extensions| == 0 then d
    else UpdateAll(Update(d, extensions[0], queues[0]), extensions[1..], queues[1..])
  }

  /** The `const` members survive any sequence of non-`const` updates. This restates the
      `const` qualifiers through `Update`; it is no evidence about `init` or `queue`. */
  lemma {:induction false} ConstMembersNeverChange(
    d: Device, extensions: seq<seq<string>>, queues: seq<seq<Option<QueueId>>>)
    requires |extensions| == |queues|
    decreases |extensions|
    ensures PhysicalDevice(UpdateAll(d, extensions, queues)) == PhysicalDevice(d)
    ensures UpdateAll(d, extensions, queues).queueFamilyIndex == d.queueFamilyIndex
  {
    if |extensions| > 0 {
      ConstMembersNeverChange(Update(d, extensions[0], queues[0]), extensions[1..], queues[1..]);
    }
  }
}
