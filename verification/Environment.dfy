// What can go wrong around a call: a request lost on the way out, a reply lost on the way back, a
// context cancelled, a random id drawn twice. Each occurrence is counted, so that contracts can say what happens without one.
module Environments {

  class Environment {
    ghost var faults: nat
    ghost var cancellations: nat

    constructor ()
      ensures faults == cancellations == 0
    {
      faults, cancellations := 0, 0;
    }

    method Fails() returns (b: bool)
      modifies this`faults
      ensures faults == old(faults) + if b then 1 else 0
    {
      b := *;
      if b {
        faults := faults + 1;
      }
    }

    // A random id turned out to be taken.
    ghost method Collides()
      modifies this`faults
      ensures faults == old(faults) + 1
    {
      faults := faults + 1;
    }

    method Cancelled() returns (b: bool)
      modifies this`cancellations
      ensures cancellations == old(cancellations) + if b then 1 else 0
    {
      b := *;
      if b {
        cancellations := cancellations + 1;
      }
    }
  }
}
