/**
 * The part of the HIP runtime the shim relies on: an allocator that hands out
 * device pointers, frees them, and reports the size of an allocation.
 * Contents of device memory are kept in ordinary arrays by the modules that
 * use them; this class tracks only which pointers are live and how big they are.
 */
module DeviceMemory {
  /** A device address; 0 is the null pointer. */
  type Ptr = nat

  const Null: Ptr := 0

  class Device {
    /** Every live allocation and its size in bytes. */
    var live: map<Ptr, nat>
    /** The next address the allocator will hand out. */
    var next: Ptr

    ghost predicate Valid()
      reads this
    {
      0 < next &&
      forall p :: p in live ==> Null < p < next && live[p] > 0
    }

    constructor ()
      ensures Valid() && live == map[]
    {
      live := map[];
      next := 1;
    }

    /**
     * hipMalloc: a request for zero bytes yields the null pointer and allocates
     * nothing; any other request yields a pointer that was not live before.
     */
    method Malloc(size: nat) returns (p: Ptr)
      requires Valid()
      modifies this
      ensures Valid()
      ensures size == 0 ==> p == Null && live == old(live)
      ensures size > 0 ==> p != Null && p !in old(live) && live == old(live)[p := size]
    {
      if size == 0 {
        p := Null;
      } else {
        p := next;
        live := live[p := size];
        next := next + 1;
      }
    }

    /** hipFree of a live allocation. */
    method Free(p: Ptr)
      requires Valid() && p in live
      modifies this
      ensures Valid()
      ensures live == old(live) - {p}
    {
      live := live - {p};
    }

    /** hipMemPtrGetInfo: the size of the allocation, zero for a pointer that is not live. */
    function SizeOf(p: Ptr): (size: nat)
      requires Valid()
      reads this
      ensures size > 0 <==> p in live
      ensures p in live ==> size == live[p]
    {
      if p in live then live[p] else 0
    }
  }
}
