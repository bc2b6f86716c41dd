/** The counting semaphore that bounds chunks in memory. */
module Sync {

  class Semaphore {
    var count: int

    constructor (c: int)
      ensures count == c
    {
      count := c;
    }

    /** Returns only once a permit is free. */
    method Acquire()
      requires count > 0
      modifies this
      ensures count == old(count) - 1
    {
      count := count - 1;
    }

    method Release()
      modifies this
      ensures count == old(count) + 1
    {
      count := count + 1;
    }
  }
}
