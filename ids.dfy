/** IdGenerator: one counter that hands out fresh ids to vertices, edges and
    residual edges alike. It is passed explicitly instead of living in a global. */
module Ids {

  class IdGenerator {
    var counter: nat

    constructor ()
      ensures counter == 0
    {
      counter := 0;
    }

    /** getNextId: the current value, then the counter moves past it. */
    method GetNextId() returns (id: nat)
      modifies this
      ensures id == old(counter)
      ensures counter == old(counter) + 1
    {
      id := counter;
      counter := counter + 1;
    }
  }
}
