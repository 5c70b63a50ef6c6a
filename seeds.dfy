/** A corpus member: the input data and the fitness fields the schedules and fuzzers overwrite. */
module Seeds {

  class Seed {
    /** The input itself; never reassigned after construction. */
    const data: string
    /** Fitness fields. They start as counts and times; the URL schedule rescales them in place. */
    var length: real
    var coverage: real
    var energy: real
    var executionTime: real

    constructor (data: string)
      ensures this.data == data
      ensures length == |data| as real
      ensures coverage == 0.0 && energy == 0.0 && executionTime == 0.0
    {
      this.data := data;
      coverage := 0.0;
      energy := 0.0;
      executionTime := 0.0;
      length := |data| as real;
    }

    /** The string form of a seed is its data. */
    function ToString(): (r: string)
      ensures r == data
    {
      data
    }
  }

  /** The columns the schedules read from a corpus, one entry per seed. */
  function Lengths(seeds: seq<Seed>): (r: seq<real>)
    reads seeds
    ensures |r| == |seeds| && forall k :: 0 <= k < |seeds| ==> r[k] == seeds[k].length
  {
    seq(|seeds|, k requires 0 <= k < |seeds| reads seeds => seeds[k].length)
  }

  function ExecutionTimes(seeds: seq<Seed>): (r: seq<real>)
    reads seeds
    ensures |r| == |seeds| && forall k :: 0 <= k < |seeds| ==> r[k] == seeds[k].executionTime
  {
    seq(|seeds|, k requires 0 <= k < |seeds| reads seeds => seeds[k].executionTime)
  }

  function Coverages(seeds: seq<Seed>): (r: seq<real>)
    reads seeds
    ensures |r| == |seeds| && forall k :: 0 <= k < |seeds| ==> r[k] == seeds[k].coverage
  {
    seq(|seeds|, k requires 0 <= k < |seeds| reads seeds => seeds[k].coverage)
  }

  function Energies(seeds: seq<Seed>): (r: seq<real>)
    reads seeds
    ensures |r| == |seeds| && forall k :: 0 <= k < |seeds| ==> r[k] == seeds[k].energy
  {
    seq(|seeds|, k requires 0 <= k < |seeds| reads seeds => seeds[k].energy)
  }
}
