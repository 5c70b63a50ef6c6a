/** The random number generator the fuzzers draw from, as a supplied stream of draws. */
module Randomness {

  /** `stream(k)` is the raw value of the k-th draw; `RandInt` reduces it into the requested range,
      so every sequence of in-range outcomes is produced by some stream. */
  class Random {
    const stream: nat -> nat
    var draws: nat

    constructor (stream: nat -> nat)
      ensures this.stream == stream && draws == 0
    {
      this.stream := stream;
      draws := 0;
    }

    /** random.randint(lo, hi): a value in the inclusive range; one draw consumed. */
    method RandInt(lo: int, hi: int) returns (r: int)
      requires lo <= hi
      modifies this
      ensures lo <= r <= hi
      ensures draws == old(draws) + 1
    {
      r := lo + stream(draws) % (hi - lo + 1);
      draws := draws + 1;
    }
  }
}
