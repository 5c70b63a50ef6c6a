/** The fuzzer driver: MutationFuzzer, UrlFuzzer, HtmlFuzzer and RandomFuzzer as one class
    parameterised by a `Strategy`, with `generate_input`, `_update`, `_create_candidate`,
    `mutate` and AbstractFuzzer's `run_fuzzer` loop. The executor is an oracle function. */
module Fuzzers {
  import opened Outcomes
  import opened Seeds
  import opened Energy
  import opened Randomness
  import opened PyStrings
  import opened Mutators
  import opened Stacking
  import opened PowerSchedules
  import opened RandomStrings

  /** What `executor._execute_input` reports: the number of exceptions, the execution time
      and the set of covered lines, or that it raised. */
  datatype Execution = Executed(exceptions: int, time: real, coverage: set<int>) | Raised

  /** The `self.data` dictionary that `run_fuzzer` fills in. */
  datatype RunData = RunData(coverage: seq<nat>, inputs: seq<string>, executionTimes: seq<real>, exceptions: int)

  /** RandomFuzzer's length bounds, or a mutation fuzzer's operator catalogue, optional power
      schedule and stacking bounds. */
  datatype Strategy =
    | RandomStrings(minLength: int, maxLength: int)
    | Mutational(variant: Variant, schedule: Option<Schedule>, minMutations: int, maxMutations: int)

  /** The data of each seed, in order. */
  function Datas(seeds: seq<Seed>): (r: seq<string>)
    ensures |r| == |seeds| && forall k :: 0 <= k < |seeds| ==> r[k] == seeds[k].data
  {
    seq(|seeds|, k requires 0 <= k < |seeds| => seeds[k].data)
  }

  /** The inputs `_update` promotes over a run: those whose coverage entry is strictly
      greater than the entry before it. */
  function Promoted(coverage: seq<nat>, inputs: seq<string>): (r: seq<string>)
    requires |coverage| <= |inputs|
    ensures |coverage| <= 1 ==> r == []
    ensures |coverage| > 1 ==> |r| < |coverage|
    ensures forall s :: s in r ==> s in inputs
    decreases |coverage|
  {
    if |coverage| < 2 then []
    else
      var n := |coverage| - 1;
      Promoted(coverage[..n], inputs) + (if coverage[n] > coverage[n - 1] then [inputs[n]] else [])
  }

  /** With coverage that never rises, nothing is promoted. */
  lemma {:induction false} NoRiseNoPromotion(coverage: seq<nat>, inputs: seq<string>)
    requires |coverage| <= |inputs|
    requires forall k :: 0 < k < |coverage| ==> coverage[k] <= coverage[k - 1]
    ensures Promoted(coverage, inputs) == []
    decreases |coverage|
  {
    if |coverage| >= 2 {
      NoRiseNoPromotion(coverage[..|coverage| - 1], inputs);
    }
  }

  /** With coverage that rises at every step, every input after the first is promoted. */
  lemma {:induction false} AlwaysRisingPromotesAll(coverage: seq<nat>, inputs: seq<string>)
    requires 0 < |coverage| <= |inputs|
    requires forall k :: 0 < k < |coverage| ==> coverage[k] > coverage[k - 1]
    ensures Promoted(coverage, inputs) == inputs[1..|coverage|]
    decreases |coverage|
  {
    if |coverage| >= 2 {
      var n := |coverage| - 1;
      AlwaysRisingPromotesAll(coverage[..n], inputs);
      assert inputs[1..n] + [inputs[n]] == inputs[1..n + 1];
    }
  }

  /** Promotion only looks at the inputs that have a coverage entry. */
  lemma {:induction false} PromotedIgnoresLaterInputs(coverage: seq<nat>, inputs: seq<string>, more: seq<string>)
    requires |coverage| <= |inputs|
    ensures Promoted(coverage, inputs + more) == Promoted(coverage, inputs)
    decreases |coverage|
  {
    if |coverage| >= 2 {
      var n := |coverage| - 1;
      PromotedIgnoresLaterInputs(coverage[..n], inputs, more);
      assert (inputs + more)[n] == inputs[n];
    }
  }

  /** Recording one more executed input promotes it exactly when its coverage rose. */
  lemma PromotedSnoc(coverage: seq<nat>, inputs: seq<string>, c: nat, x: string)
    requires |coverage| == |inputs|
    ensures Promoted(coverage + [c], inputs + [x]) ==
      Promoted(coverage, inputs) + (if |coverage| > 0 && c > coverage[|coverage| - 1] then [x] else [])
  {
    PromotedIgnoresLaterInputs(coverage, inputs, [x]);
    assert (coverage + [c])[..|coverage|] == coverage;
  }

  /** The inputs replay the corpus from index `start` for as long as the corpus lasts. */
  predicate ReplaysCorpus(inputs: seq<string>, corpus: seq<Seed>, start: nat)
  {
    forall k :: 0 <= k < |inputs| && start + k < |corpus| ==> inputs[k] == corpus[start + k].data
  }

  lemma ReplaysCorpusSnoc(inputs: seq<string>, corpus: seq<Seed>, start: nat, x: string)
    requires ReplaysCorpus(inputs, corpus, start)
    requires start + |inputs| < |corpus| ==> x == corpus[start + |inputs|].data
    ensures ReplaysCorpus(inputs + [x], corpus, start)
  {
  }

  /** The bookkeeping the `run_fuzzer` loop keeps after `i` completed passes and, if
      `error` is set, one failed pass: the record is consistent and its lengths match the
      passes. */
  predicate Accounted(oracle: (nat, string) -> Execution, budget: int, i: int, error: Option<Error>, data: RunData)
  {
    Recorded(oracle, data) &&
    0 <= i <= (if budget < 0 then 0 else budget) &&
    (error.None? ==> |data.inputs| == i && |data.coverage| == i) &&
    (error.Some? ==> i < budget && |data.inputs| <= i + 1) &&
    (error == Some(ExecutorFailed) ==>
      |data.coverage| == |data.inputs| - 1 && oracle(|data.coverage|, data.inputs[|data.coverage|]).Raised?) &&
    (error.Some? && error != Some(ExecutorFailed) ==> |data.coverage| == |data.inputs| == i)
  }

  /** A pass that fails at generation leaves the data alone; one that fails at execution
      has recorded the input only; a completed pass has recorded one more execution. */
  lemma AccountedStep(oracle: (nat, string) -> Execution, budget: int, i: nat,
                      data: RunData, error: Option<Error>, data': RunData)
    requires Accounted(oracle, budget, i, None, data) && i < budget
    requires Recorded(oracle, data')
    requires error.Some? && error != Some(ExecutorFailed) ==> data' == data
    requires error.None? || error == Some(ExecutorFailed) ==> |data'.inputs| == i + 1
    requires error == Some(ExecutorFailed) ==>
      oracle(i, data'.inputs[i]).Raised? && data'.coverage == data.coverage
    requires error.None? ==>
      oracle(i, data'.inputs[i]).Executed? && data'.coverage == data.coverage + [|oracle(i, data'.inputs[i]).coverage|]
    ensures Accounted(oracle, budget, if error.None? then i + 1 else i, error, data')
  {
  }

  /** The corpus after `i` completed passes: `initial` followed by the promoted inputs, and
      for a mutation fuzzer that started seeding at `start`, the corpus replayed in order. */
  predicate Grown(i: int, error: Option<Error>, data: RunData, seeds: seq<Seed>, seedIndex: nat,
                  mutational: bool, initial: seq<Seed>, start: nat)
  {
    |data.coverage| <= |data.inputs| &&
    |initial| <= |seeds| && seeds[..|initial|] == initial &&
    (!mutational ==> seeds == initial && seedIndex == start) &&
    (mutational ==>
      Datas(seeds) == Datas(initial) + Promoted(data.coverage, data.inputs) &&
      (error.None? && start + i <= |initial| ==> seedIndex == start + i) &&
      ReplaysCorpus(data.inputs, initial, start))
  }

  /** A pass promotes its input exactly when coverage rose, and while seeding its input is
      the next seed of the corpus. */
  lemma GrownStep(i: nat, mutational: bool, initial: seq<Seed>, start: nat,
                  data: RunData, seeds: seq<Seed>, seedIndex: nat,
                  error: Option<Error>, data': RunData, seeds': seq<Seed>, seedIndex': nat)
    requires Grown(i, None, data, seeds, seedIndex, mutational, initial, start)
    requires |data.inputs| == i && |data.coverage| == i && |data'.coverage| <= |data'.inputs|
    requires |seeds| <= |seeds'| && seeds'[..|seeds|] == seeds
    requires error.Some? && error != Some(ExecutorFailed) ==> data' == data && seeds' == seeds
    requires error.None? || error == Some(ExecutorFailed) ==>
      |data'.inputs| == i + 1 && data'.inputs[..i] == data.inputs
    requires error == Some(ExecutorFailed) ==> seeds' == seeds && data'.coverage == data.coverage
    requires error.None? ==> |data'.coverage| == i + 1 && data'.coverage[..i] == data.coverage
    requires error.None? && mutational ==>
      Datas(seeds') == Datas(seeds) +
        (if i > 0 && data'.coverage[i] > data'.coverage[i - 1] then [data'.inputs[i]] else [])
    requires !mutational ==> seeds' == seeds && seedIndex' == seedIndex
    requires mutational && seedIndex < |seeds| ==>
      seedIndex' == seedIndex + 1 && (error.None? || error == Some(ExecutorFailed)) &&
      data'.inputs[i] == seeds[seedIndex].data
    ensures Grown(if error.None? then i + 1 else i, error, data', seeds', seedIndex', mutational, initial, start)
  {
    assert seeds'[..|initial|] == initial by {
      assert seeds'[..|initial|] == seeds'[..|seeds|][..|initial|];
    }
    if mutational && (error.None? || error == Some(ExecutorFailed)) {
      var x := data'.inputs[i];
      assert data'.inputs == data.inputs + [x] by {
        assert data'.inputs[..i] == data.inputs;
      }
      assert ReplaysCorpus(data'.inputs, initial, start) by {
        if start + i < |initial| {
          assert seeds[seedIndex] == initial[start + i];
        }
        ReplaysCorpusSnoc(data.inputs, initial, start, x);
      }
      var executed := error.None?;
      var c := if executed then data'.coverage[i] else 0;
      assert data'.coverage == if executed then data.coverage + [c] else data.coverage by {
        if executed {
          assert data'.coverage[..i] == data.coverage;
        }
      }
      assert Datas(seeds') == Datas(seeds) +
          (if executed && i > 0 && c > data.coverage[i - 1] then [x] else []) by {
        if executed && i > 0 {
          assert data'.coverage[i - 1] == data'.coverage[..i][i - 1];
        }
      }
      CorpusAfterPass(initial, seeds, seeds', data.coverage, data.inputs, x, executed, c);
    }
  }

  /** The corpus after a pass is the initial corpus followed by the inputs promoted so far. */
  lemma CorpusAfterPass(initial: seq<Seed>, seeds: seq<Seed>, seeds': seq<Seed>,
                        coverage: seq<nat>, inputs: seq<string>, x: string, executed: bool, c: nat)
    requires |coverage| == |inputs|
    requires Datas(seeds) == Datas(initial) + Promoted(coverage, inputs)
    requires Datas(seeds') == Datas(seeds) +
      (if executed && |coverage| > 0 && c > coverage[|coverage| - 1] then [x] else [])
    ensures Datas(seeds') == Datas(initial) + Promoted(if executed then coverage + [c] else coverage, inputs + [x])
  {
    PromotedAfterPass(coverage, inputs, x, executed, c);
  }

  /** After one more pass that recorded its input `x`, and its coverage `c` when it ran,
      the promoted inputs grow by `x` exactly when its coverage was recorded and rose. */
  lemma PromotedAfterPass(coverage: seq<nat>, inputs: seq<string>, x: string, executed: bool, c: nat)
    requires |coverage| == |inputs|
    ensures Promoted(if executed then coverage + [c] else coverage, inputs + [x]) ==
      Promoted(coverage, inputs) + (if executed && |coverage| > 0 && c > coverage[|coverage| - 1] then [x] else [])
  {
    if executed {
      PromotedSnoc(coverage, inputs, c, x);
    } else {
      PromotedIgnoresLaterInputs(coverage, inputs, [x]);
    }
  }

  /** What the `run_fuzzer` loop has gathered once it stops, either because the budget is
      spent or because a pass failed. */
  lemma RunFinished(oracle: (nat, string) -> Execution, budget: int, i: int, error: Option<Error>,
                    data: RunData, seeds: seq<Seed>, seedIndex: nat, mutational: bool,
                    initial: seq<Seed>, start: nat)
    requires Accounted(oracle, budget, i, error, data)
    requires Grown(i, error, data, seeds, seedIndex, mutational, initial, start)
    requires !(i < budget && error.None?)
    ensures |data.inputs| <= if budget < 0 then 0 else budget
    ensures error.None? ==> |data.inputs| == (if budget < 0 then 0 else budget)
    ensures error.None? ==> |data.coverage| == |data.inputs|
    ensures error == Some(ExecutorFailed) ==>
      |data.coverage| == |data.inputs| - 1 && oracle(|data.coverage|, data.inputs[|data.coverage|]).Raised?
    ensures error.Some? && error != Some(ExecutorFailed) ==> |data.coverage| == |data.inputs| == i < budget
    ensures forall k :: 0 <= k < |data.coverage| ==>
      oracle(k, data.inputs[k]).Executed? &&
      data.coverage[k] == |oracle(k, data.inputs[k]).coverage| &&
      data.executionTimes[k] == oracle(k, data.inputs[k]).time
    ensures data.exceptions == TotalExceptions(oracle, data.inputs, |data.coverage|)
    ensures |initial| <= |seeds| && seeds[..|initial|] == initial
    ensures !mutational ==> seeds == initial
    ensures mutational ==> Datas(seeds) == Datas(initial) + Promoted(data.coverage, data.inputs)
    ensures mutational ==> ReplaysCorpus(data.inputs, initial, start)
  {
  }

  /** The oracle reports a non-negative exception count for each of the first `n` inputs
      that it executes. */
  predicate CountsNonNegative(oracle: (nat, string) -> Execution, inputs: seq<string>, n: nat)
    requires n <= |inputs|
  {
    forall k :: 0 <= k < n ==> oracle(k, inputs[k]).Executed? ==> oracle(k, inputs[k]).exceptions >= 0
  }

  /** The exceptions the oracle reports for the first `n` inputs; an input whose execution
      raised adds none. */
  function TotalExceptions(oracle: (nat, string) -> Execution, inputs: seq<string>, n: nat): int
    requires n <= |inputs|
  {
    if n == 0 then 0
    else
      TotalExceptions(oracle, inputs, n - 1) +
      (match oracle(n - 1, inputs[n - 1]) case Executed(e, _, _) => e case Raised => 0)
  }

  /** With non-negative reported counts the total is non-negative. */
  lemma {:induction false} ExceptionsNonNegative(oracle: (nat, string) -> Execution, inputs: seq<string>, n: nat)
    requires n <= |inputs| && CountsNonNegative(oracle, inputs, n)
    ensures TotalExceptions(oracle, inputs, n) >= 0
  {
    if n > 0 {
      ExceptionsNonNegative(oracle, inputs, n - 1);
    }
  }

  /** The total only looks at the inputs it counts. */
  lemma {:induction false} ExceptionsIgnoreLaterInputs(oracle: (nat, string) -> Execution, inputs: seq<string>, more: seq<string>, n: nat)
    requires n <= |inputs|
    ensures TotalExceptions(oracle, inputs + more, n) == TotalExceptions(oracle, inputs, n)
  {
    if n > 0 {
      ExceptionsIgnoreLaterInputs(oracle, inputs, more, n - 1);
      assert (inputs + more)[n - 1] == inputs[n - 1];
    }
  }

  /** `data` records, for each input that has a coverage entry, what the oracle reported
      for it, and the total of the reported exceptions. */
  predicate Recorded(oracle: (nat, string) -> Execution, data: RunData)
  {
    |data.executionTimes| == |data.coverage| <= |data.inputs| &&
    (forall k :: 0 <= k < |data.coverage| ==>
      oracle(k, data.inputs[k]).Executed? &&
      data.coverage[k] == |oracle(k, data.inputs[k]).coverage| &&
      data.executionTimes[k] == oracle(k, data.inputs[k]).time) &&
    data.exceptions == TotalExceptions(oracle, data.inputs, |data.coverage|)
  }

  /** Appending an input keeps the record; appending its execution completes it. */
  lemma RecordedSnoc(oracle: (nat, string) -> Execution, data: RunData, x: string)
    requires Recorded(oracle, data) && |data.inputs| == |data.coverage|
    ensures Recorded(oracle, data.(inputs := data.inputs + [x]))
    ensures oracle(|data.coverage|, x).Executed? ==>
      var e := oracle(|data.coverage|, x);
      Recorded(oracle, RunData(data.coverage + [|e.coverage|], data.inputs + [x],
                               data.executionTimes + [e.time], data.exceptions + e.exceptions))
  {
    ExceptionsIgnoreLaterInputs(oracle, data.inputs, [x], |data.coverage|);
  }

  /** An oracle reporting no exceptions gives a zero total. */
  lemma {:induction false} CleanRunNoExceptions(oracle: (nat, string) -> Execution, inputs: seq<string>, n: nat)
    requires n <= |inputs|
    requires forall k :: 0 <= k < n ==> oracle(k, inputs[k]).Executed? ==> oracle(k, inputs[k]).exceptions == 0
    ensures TotalExceptions(oracle, inputs, n) == 0
  {
    if n > 0 {
      CleanRunNoExceptions(oracle, inputs, n - 1);
    }
  }

  class Fuzzer {
    const strategy: Strategy
    var seeds: seq<Seed>
    var seedIndex: nat
    var data: RunData

    /** `seed_index` never passes the corpus, and the run data has one time per coverage
        entry and at least as many inputs. */
    predicate Valid()
      reads this
    {
      seedIndex <= |seeds| &&
      |data.executionTimes| == |data.coverage| && |data.coverage| <= |data.inputs|
    }

    /** RandomFuzzer(executor, min_length, max_length). */
    constructor RandomFuzzer(minLength: int, maxLength: int)
      ensures Valid()
      ensures strategy == RandomStrings(minLength, maxLength)
      ensures seeds == [] && seedIndex == 0 && data == RunData([], [], [], 0)
    {
      strategy := RandomStrings(minLength, maxLength);
      seeds := [];
      seedIndex := 0;
      data := RunData([], [], [], 0);
    }

    /** MutationFuzzer, UrlFuzzer or HtmlFuzzer(executor, seeds, power_schedule,
        min_mutations, max_mutations): the corpus is kept, the seeding index starts at 0. */
    constructor MutationFuzzer(variant: Variant, seeds: seq<Seed>, schedule: Option<Schedule>,
                               minMutations: int, maxMutations: int)
      ensures Valid()
      ensures strategy == Mutational(variant, schedule, minMutations, maxMutations)
      ensures this.seeds == seeds && seedIndex == 0 && data == RunData([], [], [], 0)
    {
      strategy := Mutational(variant, schedule, minMutations, maxMutations);
      this.seeds := seeds;
      seedIndex := 0;
      data := RunData([], [], [], 0);
    }

    /** The draws operator `o` makes on `s`, each in the range the operator draws it from. */
    static method DrawFor(o: Operator, s: string, rng: Random) returns (d: Draw)
      modifies rng
      ensures Fits(o, s, d)
    {
      d := Draw(0, 32, 0, []);
      match o {
        case DeleteChar =>
          if |s| > 5 {
            var pos := rng.RandInt(0, |s| - 1);
            d := d.(pos := pos);
          }
        case ReplaceChar =>
          if s != [] {
            var pos := rng.RandInt(0, |s| - 1);
            var code := rng.RandInt(32, 126);
            d := d.(pos := pos, code := code);
          }
        case InsertChar =>
          var pos := rng.RandInt(0, |s|);
          var code := rng.RandInt(32, 126);
          d := d.(pos := pos, code := code);
        case InsertSlash =>
          var pos := rng.RandInt(0, |s|);
          d := d.(pos := pos);
        case InsertSpecial =>
          var pos := rng.RandInt(0, |s|);
          var pick := rng.RandInt(0, |SpecialCharacters| - 1);
          d := d.(pos := pos, pick := pick);
        case ConcatenateSlash =>
          var pos := rng.RandInt(0, |s|);
          d := d.(pos := pos);
        case PlusToSpace =>
        case ReplaceBody =>
          if Find(s, BodyOpen) != -1 {
            var letters := DrawFiller(rng);
            d := d.(letters := letters);
          }
        case GenerateHtml =>
      }
    }

    /** The ten random.choices draws of `_generate_random_html_content`. */
    static method DrawFiller(rng: Random) returns (letters: string)
      modifies rng
      ensures IsFiller(letters)
    {
      letters := [];
      while |letters| < 10
        invariant |letters| <= 10
        invariant forall k :: 0 <= k < |letters| ==> 'a' <= letters[k] <= 'z'
      {
        var pick := rng.RandInt(0, 25);
        letters := letters + [('a' as int + pick) as char];
      }
    }

    /** `mutate(s)`: random.choice of an operator of the catalogue, then that operator. */
    static method MutateOnce(v: Variant, s: string, rng: Random) returns (r: Result<string>, st: Step)
      modifies rng
      ensures StepFits(v, s, st) && r == Mutate(v, s, st)
    {
      var op := rng.RandInt(0, |Catalog(v)| - 1);
      var d := DrawFor(Catalog(v)[op], s, rng);
      st := Step(op, d);
      r := Mutate(v, s, st);
    }

    /** The stacking loop of `_create_candidate`: `trials` calls of `mutate`, each on the
        previous candidate; an error stops it. */
    static method StackMutations(v: Variant, base: string, trials: int, rng: Random)
      returns (r: Result<string>, steps: seq<Step>)
      modifies rng
      ensures ValidStack(v, base, steps) && r == Stack(v, base, steps)
      ensures r.Success? ==> |steps| == if trials < 0 then 0 else trials
      ensures r.Failure? ==> 0 < |steps| <= trials && r.error == WrongArity
    {
      var candidate := base;
      steps := [];
      var i := 0;
      while i < trials
        invariant 0 <= i <= (if trials < 0 then 0 else trials)
        invariant |steps| == i
        invariant ValidStack(v, base, steps) && Stack(v, base, steps) == Success(candidate)
      {
        var next, st := MutateOnce(v, candidate, rng);
        StackSnoc(v, base, steps, st);
        steps := steps + [st];
        if next.Failure? {
          return next, steps;
        }
        candidate := next.value;
        i := i + 1;
      }
      r := Success(candidate);
    }

    /** The seed choice of `_create_candidate`: np.random.choice over the corpus (an error
        on an empty corpus), superseded by the power schedule's choice when there is one. */
    method PickBase(rng: Random) returns (r: Result<string>)
      requires strategy.Mutational?
      modifies seeds, rng
      ensures |seeds| == 0 ==> r == Failure(EmptyList)
      ensures strategy.schedule.None? ==> unchanged(seeds) && (|seeds| > 0 ==> r.Success?)
      ensures strategy.schedule.Some? && |seeds| > 0 ==>
        (r.Failure? <==> Sum(Energies(seeds)) == 0.0) && (r.Failure? ==> r.error == ZeroEnergy)
      ensures strategy.schedule != Some(UrlWeighted) && |seeds| > 0 ==> r.Success?
      ensures strategy.schedule.Some? && |seeds| > 0 ==>
        ScheduleWrites(strategy.schedule.value, seeds,
                       old(Lengths(seeds)), old(ExecutionTimes(seeds)), old(Coverages(seeds)))
      ensures r.Success? ==> r.value in Datas(seeds)
      ensures r.Success? && strategy.schedule.Some? ==>
        exists k :: 0 <= k < |seeds| && seeds[k].data == r.value && seeds[k].energy > 0.0
      ensures r.Failure? ==> r.error in {EmptyList, ZeroEnergy}
    {
      if |seeds| == 0 {
        return Failure(EmptyList);
      }
      ghost var lengths, times, coverages := Lengths(seeds), ExecutionTimes(seeds), Coverages(seeds);
      var index := rng.RandInt(0, |seeds| - 1);
      if strategy.schedule.None? {
        assert Datas(seeds)[index] == seeds[index].data;
        return Success(seeds[index].data);
      }
      assert Lengths(seeds) == lengths && ExecutionTimes(seeds) == times && Coverages(seeds) == coverages;
      var chosen := Choose(strategy.schedule.value, seeds, rng);
      if strategy.schedule == Some(Uniform) {
        SumOnes(Energies(seeds));
      }
      assert ScheduleWrites(strategy.schedule.value, seeds, lengths, times, coverages);
      if chosen.Failure? {
        return Failure(chosen.error);
      }
      ghost var k :| 0 <= k < |seeds| && seeds[k] == chosen.value;
      assert Datas(seeds)[k] == chosen.value.data;
      r := Success(chosen.value.data);
    }

    /** The end of `_create_candidate`: random.randint for the number of trials (an error
        when min_mutations > max_mutations), then that many mutations stacked on `base`. */
    method MutateTrials(base: string, rng: Random) returns (r: Result<string>, steps: seq<Step>)
      requires strategy.Mutational?
      modifies rng
      ensures r.Failure? ==> r.error in {EmptyRange, WrongArity}
      ensures strategy.minMutations > strategy.maxMutations ==> r == Failure(EmptyRange)
      ensures strategy.minMutations <= strategy.maxMutations && strategy.variant != Html ==> r.Success?
      ensures strategy.minMutations <= strategy.maxMutations ==>
        ValidStack(strategy.variant, base, steps) && r == Stack(strategy.variant, base, steps) &&
        (|steps| <= strategy.maxMutations || (|steps| == 0 && strategy.maxMutations < 0)) &&
        (r.Success? ==> strategy.minMutations <= |steps|)
    {
      steps := [];
      if strategy.minMutations > strategy.maxMutations {
        return Failure(EmptyRange), steps;
      }
      var trials := rng.RandInt(strategy.minMutations, strategy.maxMutations);
      r, steps := StackMutations(strategy.variant, base, trials, rng);
    }

    /** `_create_candidate`: the seed choice, random.randint for the number of trials (an
        error when min_mutations > max_mutations), then the stacked mutations of the chosen
        seed's data. */
    method CreateCandidate(rng: Random) returns (r: Result<string>, base: string, steps: seq<Step>)
      requires strategy.Mutational?
      modifies seeds, rng
      ensures |seeds| == 0 ==> r == Failure(EmptyList)
      ensures r.Failure? ==> r.error in {EmptyList, ZeroEnergy, EmptyRange, WrongArity}
      ensures strategy.schedule.None? ==> unchanged(seeds)
      ensures strategy.schedule.Some? && |seeds| > 0 ==>
        ScheduleWrites(strategy.schedule.value, seeds,
                       old(Lengths(seeds)), old(ExecutionTimes(seeds)), old(Coverages(seeds)))
      ensures strategy.schedule.Some? && |seeds| > 0 ==>
        (r == Failure(ZeroEnergy) <==> Sum(Energies(seeds)) == 0.0)
      ensures |seeds| > 0 && strategy.schedule != Some(UrlWeighted) && strategy.variant != Html &&
              strategy.minMutations <= strategy.maxMutations
        ==> r.Success?
      ensures |seeds| > 0 && (strategy.schedule.None? || Sum(Energies(seeds)) != 0.0) ==>
        (strategy.minMutations > strategy.maxMutations ==> r == Failure(EmptyRange)) &&
        (strategy.minMutations <= strategy.maxMutations ==>
          base in Datas(seeds) &&
          ValidStack(strategy.variant, base, steps) && r == Stack(strategy.variant, base, steps) &&
          (|steps| <= strategy.maxMutations || (|steps| == 0 && strategy.maxMutations < 0)) &&
          (r.Success? ==> strategy.minMutations <= |steps|))
    {
      base, steps := [], [];
      var picked := PickBase(rng);
      if picked.Failure? {
        return Failure(picked.error), base, steps;
      }
      base := picked.value;
      r, steps := MutateTrials(base, rng);
    }

    /** The `n` random.choice draws of `generate_random_string(n)`. */
    static method DrawPicks(n: int, rng: Random) returns (picks: seq<int>)
      modifies rng
      ensures |picks| == if n < 0 then 0 else n
      ensures ValidPicks(picks)
    {
      picks := [];
      while |picks| < n
        invariant |picks| <= if n < 0 then 0 else n
        invariant ValidPicks(picks)
      {
        var pick := rng.RandInt(0, |Letters| - 1);
        picks := picks + [pick];
      }
    }

    /** RandomFuzzer's `generate_input`: a random.randint length (an error when
        min_length > max_length; a negative length gives the empty string), then that many
        characters of the alphabet. */
    method RandomInput(rng: Random) returns (r: Result<string>, picks: seq<int>)
      requires strategy.RandomStrings?
      modifies rng
      ensures strategy.minLength > strategy.maxLength <==> r.Failure?
      ensures r.Failure? ==> r.error == EmptyRange
      ensures r.Success? ==> ValidPicks(picks) && r.value == GenerateRandomString(picks)
      ensures r.Success? && strategy.minLength >= 0 ==> strategy.minLength <= |r.value| <= strategy.maxLength
      ensures r.Success? && strategy.maxLength >= 0 ==> |r.value| <= strategy.maxLength
      ensures r.Success? && strategy.maxLength <= 0 ==> r.value == []
    {
      picks := [];
      if strategy.minLength > strategy.maxLength {
        return Failure(EmptyRange), picks;
      }
      var length := rng.RandInt(strategy.minLength, strategy.maxLength);
      picks := DrawPicks(length, rng);
      r := Success(GenerateRandomString(picks));
    }

    /** The configurations whose `generate_input` cannot fail: a random fuzzer whose length
        range is not empty, and a plain or URL mutation fuzzer over a non-empty corpus whose
        trial range is not empty, without a power schedule or with the uniform one. */
    predicate NeverFailsToGenerate()
      reads this
    {
      if strategy.RandomStrings? then
        strategy.minLength <= strategy.maxLength
      else
        && strategy.variant != Html
        && strategy.schedule != Some(UrlWeighted)
        && |seeds| > 0
        && strategy.minMutations <= strategy.maxMutations
    }

    /** `generate_input`. A mutation fuzzer first returns its seeds' data in corpus order,
        advancing `seed_index`; once the index reaches the corpus size it returns mutated
        candidates and leaves the index alone. The corpus list itself is not changed. */
    method GenerateInput(rng: Random) returns (r: Result<string>, base: string, steps: seq<Step>)
      requires Valid()
      modifies this, seeds, rng
      ensures Valid()
      ensures seeds == old(seeds) && data == old(data)
      ensures r.Failure? ==> r.error in {EmptyList, ZeroEnergy, EmptyRange, WrongArity}
      ensures strategy.RandomStrings? ==> seedIndex == old(seedIndex)
      ensures strategy.RandomStrings? ==>
        (r.Failure? <==> strategy.minLength > strategy.maxLength) &&
        (r.Success? ==> forall c :: c in r.value ==> c in Letters) &&
        (r.Success? && strategy.minLength >= 0 ==> strategy.minLength <= |r.value| <= strategy.maxLength) &&
        (r.Success? && strategy.maxLength >= 0 ==> |r.value| <= strategy.maxLength)
      ensures strategy.Mutational? && old(seedIndex) < |seeds| ==>
        r == Success(seeds[old(seedIndex)].data) && seedIndex == old(seedIndex) + 1
      ensures strategy.Mutational? && old(seedIndex) >= |seeds| ==>
        seedIndex == old(seedIndex) &&
        (|seeds| == 0 ==> r == Failure(EmptyList)) &&
        (r.Success? ==>
           (base in Datas(seeds) && ValidStack(strategy.variant, base, steps) &&
            r == Stack(strategy.variant, base, steps) &&
            strategy.minMutations <= |steps| &&
            (|steps| <= strategy.maxMutations || (|steps| == 0 && strategy.maxMutations < 0))))
      ensures strategy.Mutational? && old(seedIndex) >= |seeds| && |seeds| > 0 ==>
        (strategy.schedule.Some? ==> (r == Failure(ZeroEnergy) <==> Sum(Energies(seeds)) == 0.0)) &&
        (strategy.schedule.None? || Sum(Energies(seeds)) != 0.0 ==>
          (strategy.minMutations > strategy.maxMutations ==> r == Failure(EmptyRange)) &&
          (strategy.minMutations <= strategy.maxMutations && strategy.variant != Html ==> r.Success?))
      ensures old(NeverFailsToGenerate()) ==> r.Success?
      ensures strategy.RandomStrings? || old(seedIndex) < |old(seeds)| || strategy.schedule.None? ==>
        unchanged(old(seeds))
      ensures strategy.Mutational? && strategy.schedule.Some? && old(seedIndex) >= |seeds| > 0 ==>
        ScheduleWrites(strategy.schedule.value, seeds,
                       old(Lengths(seeds)), old(ExecutionTimes(seeds)), old(Coverages(seeds)))
    {
      base, steps := [], [];
      if strategy.RandomStrings? {
        var picks;
        r, picks := RandomInput(rng);
      } else if seedIndex < |seeds| {
        r := Success(seeds[seedIndex].data);
        seedIndex := seedIndex + 1;
      } else {
        r, base, steps := CreateCandidate(rng);
      }
    }

    /** The corpus `_update` leaves, from the corpus `before`, once `input` has been
        recorded and executed. RandomFuzzer keeps it. A mutation fuzzer appends a seed for
        `input` exactly when there are two coverage entries or more and the last is
        strictly greater than the one before. The seed has the input's length and energy 0;
        UrlFuzzer and HtmlFuzzer copy the last coverage and execution time into it, and
        MutationFuzzer leaves both at 0. */
    predicate UpdatedCorpus(before: seq<Seed>, input: string)
      requires Valid()
      reads this, seeds
    {
      var cov := data.coverage;
      if strategy.Mutational? && |cov| > 1 && cov[|cov| - 1] > cov[|cov| - 2] then
        && |seeds| == |before| + 1
        && seeds[..|before|] == before
        && seeds[|before|].data == input
        && seeds[|before|].length == |input| as real
        && seeds[|before|].energy == 0.0
        && seeds[|before|].coverage == (if strategy.variant == Plain then 0.0 else cov[|cov| - 1] as real)
        && seeds[|before|].executionTime ==
             (if strategy.variant == Plain then 0.0 else data.executionTimes[|cov| - 1])
      else
        seeds == before
    }

    /** `_update`: the corpus becomes what `UpdatedCorpus` describes, with a fresh seed
        when one is appended. */
    method Update(input: string)
      requires Valid()
      modifies this
      ensures Valid()
      ensures data == old(data) && seedIndex == old(seedIndex)
      ensures UpdatedCorpus(old(seeds), input)
      ensures |seeds| > |old(seeds)| ==> fresh(seeds[|seeds| - 1])
    {
      if strategy.RandomStrings? {
        return;
      }
      var cov := data.coverage;
      if |cov| > 1 && cov[|cov| - 1] > cov[|cov| - 2] {
        var seed := new Seed(input);
        if strategy.variant != Plain {
          seed.coverage := cov[|cov| - 1] as real;
          seed.executionTime := data.executionTimes[|cov| - 1];
        }
        seeds := seeds + [seed];
      }
    }

    /** The part of a `run_fuzzer` pass after generation: record `input`, execute it as the
        `i`-th oracle call, record coverage size, time and exceptions, then `_update`. An
        executor error leaves the input recorded and nothing else. */
    method Execute(i: nat, input: string, oracle: (nat, string) -> Execution) returns (error: Option<Error>)
      requires Valid() && Recorded(oracle, data) && |data.inputs| == i && |data.coverage| == i
      modifies this
      ensures Valid() && Recorded(oracle, data)
      ensures seedIndex == old(seedIndex)
      ensures |old(seeds)| <= |seeds| && seeds[..|old(seeds)|] == old(seeds)
      ensures forall k :: |old(seeds)| <= k < |seeds| ==> fresh(seeds[k])
      ensures error.None? || error == Some(ExecutorFailed)
      ensures data.inputs == old(data.inputs) + [input]
      ensures error == Some(ExecutorFailed) ==>
        oracle(i, input).Raised? && seeds == old(seeds) && data.coverage == old(data.coverage)
      ensures error.None? ==>
        oracle(i, input).Executed? && data.coverage == old(data.coverage) + [|oracle(i, input).coverage|]
      ensures error.None? && strategy.Mutational? ==>
        Datas(seeds) == Datas(old(seeds)) +
          (if i > 0 && data.coverage[i] > data.coverage[i - 1] then [input] else [])
      ensures strategy.RandomStrings? ==> seeds == old(seeds)
      ensures error.None? ==> UpdatedCorpus(old(seeds), input)
      ensures unchanged(old(seeds))
    {
      RecordedSnoc(oracle, data, input);
      data := data.(inputs := data.inputs + [input]);
      var execution := oracle(i, input);
      if execution.Raised? {
        return Some(ExecutorFailed);
      }
      data := data.(coverage := data.coverage + [|execution.coverage|],
                    executionTimes := data.executionTimes + [execution.time],
                    exceptions := data.exceptions + execution.exceptions);
      ghost var before := seeds;
      Update(input);
      error := None;
      if strategy.Mutational? && seeds != before {
        assert Datas(seeds) == Datas(before) + [input];
      }
    }

    /** One pass of the `run_fuzzer` loop, the `i`-th: generate an input, then execute and
        record it. A generation error leaves the data and the corpus alone. */
    method RunIteration(i: nat, oracle: (nat, string) -> Execution, rng: Random) returns (error: Option<Error>)
      requires Valid() && Recorded(oracle, data) && |data.inputs| == i && |data.coverage| == i
      modifies this, seeds, rng
      ensures Valid() && Recorded(oracle, data)
      ensures |old(seeds)| <= |seeds| && seeds[..|old(seeds)|] == old(seeds)
      ensures forall k :: |old(seeds)| <= k < |seeds| ==> fresh(seeds[k])
      ensures error.Some? && error != Some(ExecutorFailed) ==> data == old(data) && seeds == old(seeds)
      ensures error.None? || error == Some(ExecutorFailed) ==>
        |data.inputs| == i + 1 && data.inputs[..i] == old(data.inputs)
      ensures error == Some(ExecutorFailed) ==>
        oracle(i, data.inputs[i]).Raised? && seeds == old(seeds) && data.coverage == old(data.coverage)
      ensures error.None? ==>
        oracle(i, data.inputs[i]).Executed? &&
        data.coverage == old(data.coverage) + [|oracle(i, data.inputs[i]).coverage|]
      ensures error.None? && strategy.Mutational? ==>
        Datas(seeds) == Datas(old(seeds)) +
          (if i > 0 && data.coverage[i] > data.coverage[i - 1] then [data.inputs[i]] else [])
      ensures strategy.RandomStrings? ==> seeds == old(seeds) && seedIndex == old(seedIndex)
      ensures error.None? ==> UpdatedCorpus(old(seeds), data.inputs[i])
      ensures strategy.Mutational? && old(seedIndex) < |old(seeds)| ==>
        seedIndex == old(seedIndex) + 1 && (error.None? || error == Some(ExecutorFailed)) &&
        data.inputs[i] == old(seeds)[old(seedIndex)].data
      ensures old(NeverFailsToGenerate()) ==> error.None? || error == Some(ExecutorFailed)
      ensures strategy.RandomStrings? || old(seedIndex) < |old(seeds)| || strategy.schedule.None? ==>
        unchanged(old(seeds))
      ensures strategy.Mutational? && strategy.schedule.Some? && old(seedIndex) >= |old(seeds)| > 0 ==>
        ScheduleWrites(strategy.schedule.value, old(seeds),
                       old(Lengths(seeds)), old(ExecutionTimes(seeds)), old(Coverages(seeds)))
    {
      var input, base, steps := GenerateInput(rng);
      if input.Failure? {
        return Some(input.error);
      }
      error := Execute(i, input.value, oracle);
    }

    /** The state of the `run_fuzzer` loop after `i` passes: the bookkeeping of those
        passes, the corpus grown from `initial`, and, when the run started in a
        configuration whose generation cannot fail (`safe`), no error but the executor's. */
    predicate Running(oracle: (nat, string) -> Execution, budget: int, i: int, error: Option<Error>,
                      initial: seq<Seed>, start: nat, safe: bool)
      reads this
    {
      && Valid()
      && Accounted(oracle, budget, i, error, data)
      && Grown(i, error, data, seeds, seedIndex, strategy.Mutational?, initial, start)
      && (safe ==> NeverFailsToGenerate() && (error.None? || error == Some(ExecutorFailed)))
      && (strategy.Mutational? && error.Some? && error != Some(ExecutorFailed) ==> |initial| <= start + i)
    }

    /** Before the first pass, with an empty record, the loop's invariant holds. */
    lemma RunningAtStart(oracle: (nat, string) -> Execution, budget: int, safe: bool)
      requires Valid() && data == RunData([], [], [], 0) && safe == NeverFailsToGenerate()
      ensures Running(oracle, budget, 0, None, seeds, seedIndex, safe)
    {
      assert Datas(seeds) == Datas(seeds) + Promoted([], []);
    }

    /** A pass of the loop keeps the bookkeeping and the corpus invariants of the run. */
    method RunStep(i: nat, oracle: (nat, string) -> Execution, rng: Random, ghost budget: int,
                   ghost initial: seq<Seed>, ghost start: nat, ghost safe: bool) returns (error: Option<Error>)
      requires i < budget && Running(oracle, budget, i, None, initial, start, safe)
      modifies this, seeds, rng
      ensures Running(oracle, budget, if error.None? then i + 1 else i, error, initial, start, safe)
      ensures |old(seeds)| <= |seeds| && seeds[..|old(seeds)|] == old(seeds)
      ensures forall k :: |old(seeds)| <= k < |seeds| ==> fresh(seeds[k])
      ensures strategy.RandomStrings? || strategy.schedule.None? ==> unchanged(initial)
    {
      ghost var data0, seeds0, seedIndex0 := data, seeds, seedIndex;
      error := RunIteration(i, oracle, rng);
      AccountedStep(oracle, budget, i, data0, error, data);
      GrownStep(i, strategy.Mutational?, initial, start, data0, seeds0, seedIndex0, error, data, seeds, seedIndex);
    }

    /** `run_fuzzer(budget)`: reset the run data, then up to `budget` times generate an
        input, record it, execute it with the oracle (the k-th call is `oracle(k, input)`),
        record its coverage size, time and exceptions, and update the corpus. The first
        error from generation or execution ends the run; the data gathered so far is
        returned, with the error. */
    method RunFuzzer(budget: int, oracle: (nat, string) -> Execution, rng: Random)
      returns (result: RunData, error: Option<Error>)
      requires Valid()
      modifies this, seeds, rng
      ensures Valid() && result == data
      ensures |result.inputs| <= if budget < 0 then 0 else budget
      ensures error.None? ==> |result.inputs| == (if budget < 0 then 0 else budget)
      ensures error.None? ==> |result.coverage| == |result.inputs|
      ensures error == Some(ExecutorFailed) ==>
        |result.coverage| == |result.inputs| - 1 && oracle(|result.coverage|, result.inputs[|result.coverage|]).Raised?
      ensures error.Some? && error != Some(ExecutorFailed) ==> |result.coverage| == |result.inputs|
      ensures forall k :: 0 <= k < |result.coverage| ==>
        oracle(k, result.inputs[k]).Executed? &&
        result.coverage[k] == |oracle(k, result.inputs[k]).coverage| &&
        result.executionTimes[k] == oracle(k, result.inputs[k]).time
      ensures result.exceptions == TotalExceptions(oracle, result.inputs, |result.coverage|)
      ensures |old(seeds)| <= |seeds| && seeds[..|old(seeds)|] == old(seeds)
      ensures strategy.RandomStrings? ==> seeds == old(seeds)
      ensures strategy.Mutational? ==> Datas(seeds) == Datas(old(seeds)) + Promoted(result.coverage, result.inputs)
      ensures strategy.Mutational? ==> ReplaysCorpus(result.inputs, old(seeds), old(seedIndex))
      ensures error.Some? && error != Some(ExecutorFailed) ==> |result.inputs| < budget
      ensures strategy.Mutational? && error.Some? && error != Some(ExecutorFailed) ==>
        |old(seeds)| <= old(seedIndex) + |result.inputs|
      ensures old(NeverFailsToGenerate()) ==> error.None? || error == Some(ExecutorFailed)
      ensures strategy.RandomStrings? || strategy.schedule.None? ==> unchanged(old(seeds))
    {
      data := RunData([], [], [], 0);
      ghost var initial := seeds;
      ghost var start := seedIndex;
      var i;
      i, error := RunPasses(budget, oracle, rng, initial, start, NeverFailsToGenerate());
      RunFinished(oracle, budget, i, error, data, seeds, seedIndex, strategy.Mutational?, initial, start);
      result := data;
    }

    /** The loop of `run_fuzzer`: passes until the budget is spent or one fails. */
    method RunPasses(budget: int, oracle: (nat, string) -> Execution, rng: Random,
                     ghost initial: seq<Seed>, ghost start: nat, ghost safe: bool)
      returns (i: nat, error: Option<Error>)
      requires Valid() && data == RunData([], [], [], 0)
      requires initial == seeds && start == seedIndex && safe == NeverFailsToGenerate()
      modifies this, seeds, rng
      ensures !(i < budget && error.None?) && Running(oracle, budget, i, error, initial, start, safe)
      ensures strategy.RandomStrings? || strategy.schedule.None? ==> unchanged(initial)
    {
      RunningAtStart(oracle, budget, safe);
      error := None;
      i := 0;
      while i < budget && error.None?
        invariant Running(oracle, budget, i, error, initial, start, safe)
        invariant forall k :: |initial| <= k < |seeds| ==> fresh(seeds[k])
        invariant strategy.RandomStrings? || strategy.schedule.None? ==> unchanged(initial)
        decreases budget - i, if error.None? then 1 else 0
      {
        error := RunStep(i, oracle, rng, budget, initial, start, safe);
        if error.None? {
          i := i + 1;
        }
      }
    }
  }
}
