// The database driver: any statement may fail, for no stated reason.
module Drivers {
  class Driver {
    // how many statements have failed so far
    ghost var faults: nat

    constructor ()
      ensures faults == 0
    {
      faults := 0;
    }

    method Statement() returns (failed: bool)
      modifies this
      ensures faults == old(faults) + (if failed then 1 else 0)
    {
      failed := *;
      if failed {
        faults := faults + 1;
      }
    }
  }
}
