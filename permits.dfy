/**
 * The limit on concurrent fetches: a counting semaphore seen as a count of held
 * permits. A permit is held from admission until the fetch returns; a page whose
 * close is still scheduled no longer holds one.
 */
module Permits {

  class Semaphore {
    const capacity: nat
    var held: nat

    /** Never more permits held than the pool has. */
    predicate Valid()
      reads this
    {
      held <= capacity
    }

    constructor (capacity: nat)
      ensures Valid() && this.capacity == capacity && held == 0
    {
      this.capacity := capacity;
      held := 0;
    }

    /** Take a permit; the caller has been admitted, so one is free. */
    method Acquire()
      requires Valid() && held < capacity
      modifies this
      ensures Valid() && held == old(held) + 1
    {
      held := held + 1;
    }

    /** Give back a permit that the caller holds. */
    method Release()
      requires Valid() && held > 0
      modifies this
      ensures Valid() && held == old(held) - 1
    {
      held := held - 1;
    }
  }
}
