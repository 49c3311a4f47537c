/**
 * The shim's workspace cache: five pairs of global maps, one pair per operation
 * family, from a descriptor handle to the device workspace allocated for it and
 * to that workspace's size in bytes.
 *
 * The pairs are modelled as one pair of maps keyed by a `Slot` (family, handle).
 * The class keeps the source's two maps; `Entries()` joins them into one map of
 * `Entry` values, and the pure functions `Acquired`, `Released` and `Destroyed`
 * state what each operation does to that joined map.
 */
module Workspace {
  import opened DeviceMemory

  /** A descriptor handle, as an address. */
  type Handle = nat

  /** The operation families that each own one pointer map and one size map. */
  datatype Family =
    | ForwardConvolution
    | BackwardDataConvolution
    | BackwardKernelConvolution
    | Pooling
    | Lrn

  /** The families whose workspaces are keyed by a convolution descriptor. */
  predicate IsConvolution(f: Family)
  {
    f == ForwardConvolution || f == BackwardDataConvolution || f == BackwardKernelConvolution
  }

  /** One key of one family's maps. */
  datatype Slot = Slot(family: Family, key: Handle)

  /** What the two maps hold under one key. */
  datatype Entry = Entry(ptr: Ptr, size: nat)

  // ------------------------------------------------------------ the cache as a value

  /** The get-or-allocate block: a present key is kept as it is, an absent one records the new allocation. */
  function Acquired(entries: map<Slot, Entry>, slot: Slot, p: Ptr, required: nat): (r: map<Slot, Entry>)
    ensures slot in r
    ensures slot in entries ==> r == entries
    ensures slot !in entries ==> r[slot].ptr == p && r[slot].size == required && r.Keys == entries.Keys + {slot}
    ensures forall t :: t in entries && t != slot ==> t in r && r[t] == entries[t]
  {
    if slot in entries then entries else entries[slot := Entry(p, required)]
  }

  /** The condition under which `Free` erases a key: present, non-null and of positive size. */
  predicate Releasable(entries: map<Slot, Entry>, slot: Slot)
  {
    slot in entries && entries[slot].ptr != Null && entries[slot].size > 0
  }

  /** `Free`: erases the key from both maps when it is releasable, and otherwise changes nothing. */
  function Released(entries: map<Slot, Entry>, slot: Slot): (r: map<Slot, Entry>)
    ensures slot in r <==> slot in entries && !Releasable(entries, slot)
    ensures r.Keys <= entries.Keys
    ensures forall t :: t in entries && t != slot ==> t in r && r[t] == entries[t]
    ensures !Releasable(entries, slot) ==> r == entries
  {
    if Releasable(entries, slot) then entries - {slot} else entries
  }

  /** The device pointer `Free` hands to hipFree for a slot: its pointer when releasable, none otherwise. */
  function ReleasedPtr(entries: map<Slot, Entry>, slot: Slot): (ps: set<Ptr>)
    ensures Releasable(entries, slot) ==> ps == {entries[slot].ptr}
    ensures !Releasable(entries, slot) <==> ps == {}
  {
    if Releasable(entries, slot) then {entries[slot].ptr} else {}
  }

  /** Releasing one slot does not change what releasing another would free. */
  lemma ReleasedPtrOfOther(entries: map<Slot, Entry>, slot: Slot, other: Slot)
    requires slot != other
    ensures ReleasedPtr(Released(entries, slot), other) == ReleasedPtr(entries, other)
  {
  }

  /** Destroying a convolution descriptor frees its forward, backward-kernel and backward-data workspaces, in that order. */
  function Destroyed(entries: map<Slot, Entry>, desc: Handle): (r: map<Slot, Entry>)
  {
    Released(Released(Released(entries, Slot(ForwardConvolution, desc)),
                      Slot(BackwardKernelConvolution, desc)),
             Slot(BackwardDataConvolution, desc))
  }

  /**
   * What the get-or-allocate block does to the device: nothing on a hit or for a
   * zero-byte request, and otherwise one new allocation of `required` bytes at `p`.
   */
  predicate AllocatedFor(entries: map<Slot, Entry>, slot: Slot, p: Ptr, required: nat, live: map<Ptr, nat>, live': map<Ptr, nat>)
  {
    if slot in entries || required == 0 then live' == live
    else p != Null && p !in live && live' == live[p := required]
  }

  /** Device pointers that the entries own, with the device's view of their sizes. */
  ghost predicate Backed(entries: map<Slot, Entry>, live: map<Ptr, nat>)
  {
    (forall s :: s in entries ==> (entries[s].ptr == Null <==> entries[s].size == 0)) &&
    (forall s :: s in entries && entries[s].ptr != Null ==>
       entries[s].ptr in live && live[entries[s].ptr] == entries[s].size) &&
    (forall s, t :: s in entries && t in entries && s != t && entries[s].ptr != Null ==>
       entries[s].ptr != entries[t].ptr)
  }

  // ------------------------------------------------------------ properties of the cache

  /** A second acquire of the same slot returns what the first one recorded, whatever the size asked for. */
  lemma AcquireIdempotent(entries: map<Slot, Entry>, slot: Slot, p: Ptr, n: nat, q: Ptr, m: nat)
    ensures Acquired(Acquired(entries, slot, p, n), slot, q, m) == Acquired(entries, slot, p, n)
    ensures Acquired(Acquired(entries, slot, p, n), slot, q, m)[slot] ==
            (if slot in entries then entries[slot] else Entry(p, n))
  {
  }

  /** A second get-or-allocate on the same slot allocates nothing on the device, whatever size it asks for. */
  lemma SecondAcquireAllocatesNothing(entries: map<Slot, Entry>, slot: Slot, p: Ptr, n: nat, q: Ptr, m: nat,
                                      live: map<Ptr, nat>, live': map<Ptr, nat>)
    requires AllocatedFor(Acquired(entries, slot, p, n), slot, q, m, live, live')
    ensures live' == live
  {
  }

  /** Freeing a workspace that was just allocated with a positive size restores the cache. */
  lemma AcquireThenReleaseRestores(entries: map<Slot, Entry>, slot: Slot, p: Ptr, n: nat)
    requires slot !in entries && p != Null && n > 0
    ensures Released(Acquired(entries, slot, p, n), slot) == entries
  {
    assert Acquired(entries, slot, p, n) - {slot} == entries;
  }

  /** A zero-byte workspace is cached as a null pointer that no later `Free` erases. */
  lemma ZeroSizeEntrySticks(entries: map<Slot, Entry>, slot: Slot)
    requires slot !in entries
    ensures Released(Acquired(entries, slot, Null, 0), slot) == Acquired(entries, slot, Null, 0)
    ensures Released(Acquired(entries, slot, Null, 0), slot)[slot] == Entry(Null, 0)
  {
  }

  /**
   * After a convolution descriptor is destroyed none of its three convolution
   * slots holds a workspace, and every slot of another descriptor or of the
   * pooling and LRN families is as it was.
   */
  lemma DestroyReleasesConvolutionSlots(entries: map<Slot, Entry>, desc: Handle)
    requires forall s :: s in entries ==> (entries[s].ptr == Null <==> entries[s].size == 0)
    ensures forall f :: IsConvolution(f) ==> !Releasable(Destroyed(entries, desc), Slot(f, desc))
    ensures forall f :: IsConvolution(f) && Releasable(entries, Slot(f, desc)) ==>
              Slot(f, desc) !in Destroyed(entries, desc)
    ensures forall s :: s in entries && (s.key != desc || !IsConvolution(s.family)) ==>
              s in Destroyed(entries, desc) && Destroyed(entries, desc)[s] == entries[s]
    ensures Destroyed(entries, desc).Keys <= entries.Keys
  {
    var e1 := Released(entries, Slot(ForwardConvolution, desc));
    var e2 := Released(e1, Slot(BackwardKernelConvolution, desc));
    var e3 := Released(e2, Slot(BackwardDataConvolution, desc));
    assert e3 == Destroyed(entries, desc);
  }

  /** Destroying the same descriptor twice does no more than destroying it once. */
  lemma DestroyIdempotent(entries: map<Slot, Entry>, desc: Handle)
    requires forall s :: s in entries ==> (entries[s].ptr == Null <==> entries[s].size == 0)
    ensures Destroyed(Destroyed(entries, desc), desc) == Destroyed(entries, desc)
  {
    DestroyReleasesConvolutionSlots(entries, desc);
    var d := Destroyed(entries, desc);
    assert Released(d, Slot(ForwardConvolution, desc)) == d;
    assert Released(d, Slot(BackwardKernelConvolution, desc)) == d;
    assert Released(d, Slot(BackwardDataConvolution, desc)) == d;
  }

  /** Recording a new allocation keeps every cached pointer backed by a distinct live allocation. */
  lemma AcquirePreservesBacked(entries: map<Slot, Entry>, live: map<Ptr, nat>, slot: Slot, p: Ptr, n: nat, live': map<Ptr, nat>)
    requires Backed(entries, live)
    requires n == 0 ==> p == Null && live' == live
    requires n > 0 ==> p != Null && p !in live && live' == live[p := n]
    ensures Backed(Acquired(entries, slot, p, n), live')
  {
  }

  /** Freeing a releasable slot's workspace keeps every other cached pointer backed. */
  lemma ReleasePreservesBacked(entries: map<Slot, Entry>, live: map<Ptr, nat>, slot: Slot)
    requires Backed(entries, live) && Releasable(entries, slot)
    ensures Backed(Released(entries, slot), live - {entries[slot].ptr})
  {
  }

  // ------------------------------------------------------------ the cache as the source keeps it

  class WorkspaceCache {
    /** The device the workspaces are allocated on. */
    const dev: Device
    /** The device pointer maps of all five families. */
    var ptrs: map<Slot, Ptr>
    /** The size maps of all five families. */
    var sizes: map<Slot, nat>

    /** The two maps joined, one entry per key. */
    ghost function Entries(): (r: map<Slot, Entry>)
      requires ptrs.Keys == sizes.Keys
      reads this
      ensures r.Keys == ptrs.Keys
      ensures forall s :: s in r ==> r[s] == Entry(ptrs[s], sizes[s])
    {
      map s | s in ptrs :: Entry(ptrs[s], sizes[s])
    }

    ghost predicate Valid()
      reads this, dev
    {
      dev.Valid() &&
      ptrs.Keys == sizes.Keys &&
      Backed(Entries(), dev.live)
    }

    constructor (d: Device)
      requires d.Valid()
      ensures Valid() && dev == d && ptrs == map[] && sizes == map[]
    {
      dev := d;
      ptrs := map[];
      sizes := map[];
    }

    /**
     * The get-or-allocate block run by every compute entry point. `required` is
     * the backend's workspace-size answer; it is consulted only on a miss.
     */
    method Acquire(slot: Slot, required: nat) returns (p: Ptr, size: nat)
      requires Valid()
      modifies this, dev
      ensures Valid()
      ensures Entries() == Acquired(old(Entries()), slot, p, required)
      ensures p == ptrs[slot] && size == sizes[slot]
      ensures slot in old(ptrs) ==> p == old(ptrs[slot]) && size == old(sizes[slot]) && dev.live == old(dev.live)
      ensures slot !in old(ptrs) ==> size == required && (required == 0 <==> p == Null)
      ensures slot !in old(ptrs) && required == 0 ==> dev.live == old(dev.live)
      ensures slot !in old(ptrs) && required > 0 ==> p !in old(dev.live) && dev.live == old(dev.live)[p := required]
      ensures AllocatedFor(old(Entries()), slot, p, required, old(dev.live), dev.live)
    {
      if slot !in ptrs {
        ghost var before := Entries();
        ghost var liveBefore := dev.live;
        p := dev.Malloc(required);
        size := required;
        ptrs := ptrs[slot := p];
        sizes := sizes[slot := size];
        assert Entries() == Acquired(before, slot, p, required);
        AcquirePreservesBacked(before, liveBefore, slot, p, required, dev.live);
      } else {
        p := ptrs[slot];
        size := sizes[slot];
      }
    }

    /** `Free`: releases a slot's workspace when it is present, non-null and of positive size. */
    method FreeEntry(slot: Slot)
      requires Valid()
      modifies this, dev
      ensures Valid()
      ensures Entries() == Released(old(Entries()), slot)
      ensures Releasable(old(Entries()), slot) ==> dev.live == old(dev.live) - {old(ptrs[slot])}
      ensures !Releasable(old(Entries()), slot) ==> dev.live == old(dev.live)
      ensures dev.live == old(dev.live) - ReleasedPtr(old(Entries()), slot)
    {
      if slot in ptrs && ptrs[slot] != Null && sizes[slot] > 0 {
        ghost var before := Entries();
        ghost var liveBefore := dev.live;
        assert Releasable(before, slot);
        dev.Free(ptrs[slot]);
        ptrs := ptrs - {slot};
        sizes := sizes - {slot};
        ReleasePreservesBacked(before, liveBefore, slot);
        assert Entries() == before - {slot};
      }
    }

    /** hipdnnDestroyConvolutionDescriptor: frees the descriptor's three convolution workspaces. */
    method DestroyConvolutionDescriptor(desc: Handle)
      requires Valid()
      modifies this, dev
      ensures Valid()
      ensures Entries() == Destroyed(old(Entries()), desc)
      ensures dev.live == old(dev.live)
                          - ReleasedPtr(old(Entries()), Slot(ForwardConvolution, desc))
                          - ReleasedPtr(old(Entries()), Slot(BackwardKernelConvolution, desc))
                          - ReleasedPtr(old(Entries()), Slot(BackwardDataConvolution, desc))
    {
      ghost var e0 := Entries();
      FreeEntry(Slot(ForwardConvolution, desc));
      ReleasedPtrOfOther(e0, Slot(ForwardConvolution, desc), Slot(BackwardKernelConvolution, desc));
      ReleasedPtrOfOther(e0, Slot(ForwardConvolution, desc), Slot(BackwardDataConvolution, desc));
      ghost var e1 := Entries();
      FreeEntry(Slot(BackwardKernelConvolution, desc));
      ReleasedPtrOfOther(e1, Slot(BackwardKernelConvolution, desc), Slot(BackwardDataConvolution, desc));
      FreeEntry(Slot(BackwardDataConvolution, desc));
    }
  }
}
