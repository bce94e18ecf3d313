/**
  The slot allocator: a fixed array of free flags, one per slot, scanned
  from index 0 for the first slot still free.
 */
module SlotAllocator {
  import opened Types

  /** `i` is free and every slot below it is occupied. */
  predicate IsLowestFree(free: seq<bool>, i: int) {
    0 <= i < |free| && free[i] && forall j :: 0 <= j < i ==> !free[j]
  }

  /** No slot is free: the pool is exhausted. */
  predicate AllOccupied(free: seq<bool>) {
    forall j :: 0 <= j < |free| ==> !free[j]
  }

  /** The scan of the allocator's loop, started at index `from`. */
  function FirstFreeFrom(free: seq<bool>, from: nat): (r: Option<nat>)
    requires from <= |free|
    ensures r.Some? ==> from <= r.value < |free| && free[r.value]
    ensures r.Some? ==> forall j :: from <= j < r.value ==> !free[j]
    ensures r.None? ==> forall j :: from <= j < |free| ==> !free[j]
    decreases |free| - from
  {
    if from == |free| then None
    else if free[from] then Some(from)
    else FirstFreeFrom(free, from + 1)
  }

  /** The slot handed out (if any) and the free flags afterwards. */
  datatype Acquired = Acquired(slot: Option<nat>, free: seq<bool>)

  /**
    Hands out the lowest free slot and clears exactly that flag; when no
    flag is set it hands out nothing and leaves the flags alone.
   */
  function GetNextAvailableSlot(free: seq<bool>): (r: Acquired)
    ensures r.slot.Some? <==> !AllOccupied(free)
    ensures r.slot.Some? ==> IsLowestFree(free, r.slot.value)
    ensures r.slot.Some? ==>
      && |r.free| == |free|
      && !r.free[r.slot.value]
      && forall j :: 0 <= j < |free| && j != r.slot.value ==> r.free[j] == free[j]
    ensures r.slot.None? ==> r.free == free
  {
    match FirstFreeFrom(free, 0)
    case None => Acquired(None, free)
    case Some(i) => Acquired(Some(i), free[i := false])
  }

  /** At most one slot is the lowest free one, so allocation is deterministic. */
  lemma LowestFreeIsUnique(free: seq<bool>, i: int, k: int)
    requires IsLowestFree(free, i) && IsLowestFree(free, k)
    ensures i == k
  {
  }

  /** Number of free slots; zero exactly when the pool is exhausted. */
  function CountFree(free: seq<bool>): (c: nat)
    ensures c <= |free|
    ensures c == 0 <==> AllOccupied(free)
  {
    if |free| == 0 then 0
    else CountFree(free[..|free| - 1]) + (if free[|free| - 1] then 1 else 0)
  }

  lemma {:induction false} CountFreeAfterClear(free: seq<bool>, i: nat)
    requires i < |free| && free[i]
    ensures CountFree(free[i := false]) + 1 == CountFree(free)
    decreases |free|
  {
    var last := |free| - 1;
    if i == last {
      assert free[i := false][..last] == free[..last];
    } else {
      assert free[i := false][..last] == free[..last][i := false];
      CountFreeAfterClear(free[..last], i);
    }
  }

  /**
    Acquiring a slot turns exactly one free slot into an occupied one, so
    the number of free slots drops by one.
   */
  lemma AcquireConsumesOneSlot(free: seq<bool>)
    requires !AllOccupied(free)
    ensures CountFree(GetNextAvailableSlot(free).free) + 1 == CountFree(free)
  {
    var r := GetNextAvailableSlot(free);
    CountFreeAfterClear(free, r.slot.value);
    assert r.free == free[r.slot.value := false];
  }
}
