/**
  The device service a Model borrows, reduced to what Model needs from it:
  a ledger of the live object handles it has handed out, and the ordered log
  of every handle that has been released again.  Creating an object mints a
  handle that has never been seen before; releasing one needs the handle to be
  live and of the right kind, which is Vulkan's rule for vkDestroyBuffer,
  vkFreeMemory, vkDestroyImageView and vkDestroySampler.
*/
module DeviceLedger {

  /** A device object handle; 0 plays the part of VK_NULL_HANDLE. */
  type Handle = nat

  const Null: Handle := 0

  /** The kinds of device object a Model owns. */
  datatype Kind = Buffer | Memory | Image | ImageView | Sampler

  class Device {
    /** Handles currently live, with the kind of object each one names. */
    var live: map<Handle, Kind>
    /** Handles 1..minted have been handed out so far. */
    var minted: nat
    /** Every handle released so far, in release order. */
    var released: seq<Handle>

    /** The ledger's invariant: live handles were minted and are not null;
        a released handle is no longer live; no handle is released twice. */
    ghost predicate Valid()
      reads this
    {
      && Null !in live
      && (forall h :: h in live ==> h <= minted)
      && (forall i :: 0 <= i < |released| ==> Null < released[i] <= minted && released[i] !in live)
      && (forall i, j :: 0 <= i < j < |released| ==> released[i] != released[j])
    }

    constructor ()
      ensures Valid()
      ensures live == map[] && released == []
    {
      live := map[];
      minted := 0;
      released := [];
    }

    /** Creates (or allocates) one object of kind `k` under a fresh handle. */
    method Create(k: Kind) returns (h: Handle)
      requires Valid()
      modifies this
      ensures Valid()
      ensures h != Null && h !in old(live)
      ensures live == old(live)[h := k]
      ensures released == old(released)
    {
      minted := minted + 1;
      h := minted;
      live := live[h := k];
    }

    /** Destroys (or frees) the live object `h`, which must be of kind `k`. */
    method Release(h: Handle, k: Kind)
      requires Valid()
      requires h in live && live[h] == k
      modifies this
      ensures Valid()
      ensures live == old(live) - {h}
      ensures released == old(released) + [h]
    {
      live := live - {h};
      released := released + [h];
    }
  }
}
