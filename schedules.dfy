/** The two power schedules: AbstractPowerSchedule (uniform energy) and UrlSchedule
    (weighted energy from min-max normalised seed fields, written back into the seeds). */
module PowerSchedules {
  import opened Outcomes
  import opened Seeds
  import opened Energy
  import opened Randomness

  datatype Schedule = Uniform | UrlWeighted

  /** AbstractPowerSchedule `_assign_energy`: every seed gets energy 1; nothing else changes. */
  method AssignUniformEnergy(seeds: seq<Seed>)
    modifies seeds
    ensures forall k :: 0 <= k < |seeds| ==> seeds[k].energy == 1.0
    ensures Lengths(seeds) == old(Lengths(seeds))
    ensures ExecutionTimes(seeds) == old(ExecutionTimes(seeds))
    ensures Coverages(seeds) == old(Coverages(seeds))
  {
    ghost var lengths, times, coverages := Lengths(seeds), ExecutionTimes(seeds), Coverages(seeds);
    var i := 0;
    while i < |seeds|
      invariant 0 <= i <= |seeds|
      invariant forall k :: 0 <= k < i ==> seeds[k].energy == 1.0
      invariant forall k :: 0 <= k < |seeds| ==>
        seeds[k].length == lengths[k] && seeds[k].executionTime == times[k] && seeds[k].coverage == coverages[k]
    {
      seeds[i].energy := 1.0;
      i := i + 1;
    }
    assert Lengths(seeds) == lengths;
    assert ExecutionTimes(seeds) == times;
    assert Coverages(seeds) == coverages;
  }

  /** The values given for two positions holding the same seed object agree. */
  predicate AgreeOnAliases(seeds: seq<Seed>, values: seq<real>)
    requires |values| == |seeds|
  {
    forall j, k :: 0 <= j < |seeds| && 0 <= k < |seeds| && seeds[j] == seeds[k] ==> values[j] == values[k]
  }

  /** The write-back loop of `normalize_seeds`. */
  method WriteBack(seeds: seq<Seed>, lengths: seq<real>, times: seq<real>, coverages: seq<real>)
    requires |lengths| == |seeds| && |times| == |seeds| && |coverages| == |seeds|
    requires AgreeOnAliases(seeds, lengths) && AgreeOnAliases(seeds, times) && AgreeOnAliases(seeds, coverages)
    modifies seeds
    ensures Lengths(seeds) == lengths && ExecutionTimes(seeds) == times && Coverages(seeds) == coverages
    ensures Energies(seeds) == old(Energies(seeds))
  {
    ghost var energies := Energies(seeds);
    var i := 0;
    while i < |seeds|
      invariant 0 <= i <= |seeds|
      invariant forall k :: 0 <= k < |seeds| ==> seeds[k].energy == old(seeds[k].energy)
      invariant forall k :: 0 <= k < |seeds| && seeds[k] in seeds[..i] ==>
        seeds[k].length == lengths[k] && seeds[k].executionTime == times[k] && seeds[k].coverage == coverages[k]
    {
      seeds[i].length := lengths[i];
      seeds[i].executionTime := times[i];
      seeds[i].coverage := coverages[i];
      assert seeds[..i + 1] == seeds[..i] + [seeds[i]];
      i := i + 1;
    }
    assert seeds[..i] == seeds;
    assert Lengths(seeds) == lengths;
    assert ExecutionTimes(seeds) == times;
    assert Coverages(seeds) == coverages;
    assert Energies(seeds) == energies;
  }

  /** Normalising a column of a corpus gives equal values to aliased positions. */
  lemma NormalizeAgrees(seeds: seq<Seed>, column: seq<real>)
    requires |column| == |seeds| > 0 && AgreeOnAliases(seeds, column)
    ensures AgreeOnAliases(seeds, Normalize(column))
  {
  }

  /** UrlSchedule `normalize_seeds`: the length, execution time and coverage columns are
      normalised and written back into the seeds; the energies are left alone. The same seed
      object may appear twice in the list: it then receives the same values twice. */
  method NormalizeSeeds(seeds: seq<Seed>)
    requires |seeds| > 0
    modifies seeds
    ensures Lengths(seeds) == Normalize(old(Lengths(seeds)))
    ensures ExecutionTimes(seeds) == Normalize(old(ExecutionTimes(seeds)))
    ensures Coverages(seeds) == Normalize(old(Coverages(seeds)))
    ensures Energies(seeds) == old(Energies(seeds))
  {
    var lengths, times, coverages := Lengths(seeds), ExecutionTimes(seeds), Coverages(seeds);
    NormalizeAgrees(seeds, lengths);
    NormalizeAgrees(seeds, times);
    NormalizeAgrees(seeds, coverages);
    WriteBack(seeds, Normalize(lengths), Normalize(times), Normalize(coverages));
  }

  /** The energy loop of UrlSchedule `_assign_energy`: each seed's energy becomes the
      weighted sum of its own fields, which stay as they are. */
  method WriteWeightedEnergies(seeds: seq<Seed>)
    modifies seeds
    ensures Lengths(seeds) == old(Lengths(seeds))
    ensures ExecutionTimes(seeds) == old(ExecutionTimes(seeds))
    ensures Coverages(seeds) == old(Coverages(seeds))
    ensures Energies(seeds) == WeightedEnergies(Lengths(seeds), ExecutionTimes(seeds), Coverages(seeds))
  {
    var i := 0;
    while i < |seeds|
      invariant 0 <= i <= |seeds|
      invariant Lengths(seeds) == old(Lengths(seeds))
      invariant ExecutionTimes(seeds) == old(ExecutionTimes(seeds))
      invariant Coverages(seeds) == old(Coverages(seeds))
      invariant forall k :: 0 <= k < i ==>
        seeds[k].energy == WeightedEnergy(seeds[k].length, seeds[k].executionTime, seeds[k].coverage)
    {
      var seed := seeds[i];
      seed.energy := WeightedEnergy(seed.length, seed.executionTime, seed.coverage);
      i := i + 1;
    }
    assert Energies(seeds) == WeightedEnergies(Lengths(seeds), ExecutionTimes(seeds), Coverages(seeds));
  }

  /** UrlSchedule `_assign_energy`: normalise the seeds in place, then give each the weighted
      energy of its normalised fields. */
  method AssignWeightedEnergy(seeds: seq<Seed>)
    requires |seeds| > 0
    modifies seeds
    ensures Lengths(seeds) == Normalize(old(Lengths(seeds)))
    ensures ExecutionTimes(seeds) == Normalize(old(ExecutionTimes(seeds)))
    ensures Coverages(seeds) == Normalize(old(Coverages(seeds)))
    ensures Energies(seeds) == UrlEnergies(old(Lengths(seeds)), old(ExecutionTimes(seeds)), old(Coverages(seeds)))
  {
    NormalizeSeeds(seeds);
    WriteWeightedEnergies(seeds);
  }

  /** random.choices reduced to what it can return: an index whose weight is positive. */
  method PickPositive(weights: seq<real>, rng: Random) returns (index: int)
    requires exists k :: 0 <= k < |weights| && weights[k] > 0.0
    modifies rng
    ensures 0 <= index < |weights| && weights[index] > 0.0
  {
    var candidates := PositiveIndices(weights);
    var k0 :| 0 <= k0 < |weights| && weights[k0] > 0.0;
    assert k0 in candidates;
    var pick := rng.RandInt(0, |candidates| - 1);
    index := candidates[pick];
    assert candidates[pick] in candidates;
  }

  /** random.choices by normalised energy, reduced to what it can return: a seed whose
      weight is positive. Dividing by a positive total keeps the sign, so these are the
      seeds of positive energy. Fails, as the assertion in `_normalized_energy`, when the
      energies sum to zero. */
  method PickByEnergy(seeds: seq<Seed>, rng: Random) returns (r: Result<Seed>)
    requires forall k :: 0 <= k < |seeds| ==> seeds[k].energy >= 0.0
    modifies rng
    ensures r.Failure? <==> Sum(Energies(seeds)) == 0.0
    ensures r.Failure? ==> r.error == ZeroEnergy
    ensures r.Success? ==> r.value in seeds && r.value.energy > 0.0
    ensures Lengths(seeds) == old(Lengths(seeds)) && ExecutionTimes(seeds) == old(ExecutionTimes(seeds))
    ensures Coverages(seeds) == old(Coverages(seeds)) && Energies(seeds) == old(Energies(seeds))
  {
    var energies := Energies(seeds);
    var weights := NormalizedEnergy(energies);
    if weights.Failure? {
      r := Failure(weights.error);
    } else {
      SumNonNegative(energies);
      SumPositiveHasPositive(energies);
      var index := PickPositive(energies, rng);
      r := Success(seeds[index]);
    }
    ColumnsUnchanged(seeds);
  }

  /** The energy update of `choose` for either schedule; the weighted one needs a seed. */
  method AssignEnergy(schedule: Schedule, seeds: seq<Seed>)
    requires schedule == UrlWeighted ==> |seeds| > 0
    modifies seeds
    ensures schedule == Uniform ==> forall k :: 0 <= k < |seeds| ==> seeds[k].energy == 1.0
    ensures schedule == Uniform ==>
      Lengths(seeds) == old(Lengths(seeds)) &&
      ExecutionTimes(seeds) == old(ExecutionTimes(seeds)) &&
      Coverages(seeds) == old(Coverages(seeds))
    ensures schedule == UrlWeighted ==>
      Lengths(seeds) == Normalize(old(Lengths(seeds))) &&
      ExecutionTimes(seeds) == Normalize(old(ExecutionTimes(seeds))) &&
      Coverages(seeds) == Normalize(old(Coverages(seeds))) &&
      Energies(seeds) == UrlEnergies(old(Lengths(seeds)), old(ExecutionTimes(seeds)), old(Coverages(seeds)))
    ensures forall k :: 0 <= k < |seeds| ==> 0.0 <= seeds[k].energy <= 1.0
  {
    if schedule == Uniform {
      AssignUniformEnergy(seeds);
    } else {
      AssignWeightedEnergy(seeds);
      assert forall k :: 0 <= k < |seeds| ==> seeds[k].energy == Energies(seeds)[k];
    }
  }

  /** What `choose` writes into a non-empty corpus whose lengths, execution times and
      coverages were `lengths`, `times` and `coverages` before the call. The uniform
      schedule sets every energy to 1 and leaves those fields alone; UrlSchedule min-max
      normalises them and derives the energies from their old values. */
  predicate ScheduleWrites(schedule: Schedule, seeds: seq<Seed>,
                           lengths: seq<real>, times: seq<real>, coverages: seq<real>)
    requires |seeds| > 0 && |lengths| == |times| == |coverages| == |seeds|
    reads seeds
  {
    match schedule
    case Uniform =>
      && (forall k :: 0 <= k < |seeds| ==> seeds[k].energy == 1.0)
      && Lengths(seeds) == lengths
      && ExecutionTimes(seeds) == times
      && Coverages(seeds) == coverages
    case UrlWeighted =>
      && Lengths(seeds) == Normalize(lengths)
      && ExecutionTimes(seeds) == Normalize(times)
      && Coverages(seeds) == Normalize(coverages)
      && Energies(seeds) == UrlEnergies(lengths, times, coverages)
  }

  /** `choose`: assign energies with the schedule, normalise them into weights, then pick.
      Fails when the corpus is empty or every energy is zero. */
  method Choose(schedule: Schedule, seeds: seq<Seed>, rng: Random) returns (r: Result<Seed>)
    modifies seeds, rng
    ensures |seeds| > 0 ==>
      ScheduleWrites(schedule, seeds, old(Lengths(seeds)), old(ExecutionTimes(seeds)), old(Coverages(seeds)))
    ensures schedule == UrlWeighted && |seeds| == 0 ==> r == Failure(EmptyList)
    ensures schedule == Uniform && |seeds| == 0 ==> r == Failure(ZeroEnergy)
    ensures |seeds| > 0 ==> (r.Failure? <==> Sum(Energies(seeds)) == 0.0)
    ensures |seeds| > 0 && r.Failure? ==> r.error == ZeroEnergy
    ensures r.Success? ==> r.value in seeds && r.value.energy > 0.0
  {
    if schedule == UrlWeighted && |seeds| == 0 {
      return Failure(EmptyList);
    }
    AssignEnergy(schedule, seeds);
    r := PickByEnergy(seeds, rng);
  }

  /** Drawing from the generator leaves every column of the seeds as it was. */
  twostate lemma ColumnsUnchanged(seeds: seq<Seed>)
    requires unchanged(seeds)
    ensures Lengths(seeds) == old(Lengths(seeds)) && ExecutionTimes(seeds) == old(ExecutionTimes(seeds))
    ensures Coverages(seeds) == old(Coverages(seeds)) && Energies(seeds) == old(Energies(seeds))
  {
  }
}
