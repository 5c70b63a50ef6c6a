/** The arithmetic of the power schedules, over exact reals: sums, the normalisation of
    energies into weights, min-max scaling and the weighted energy of the URL schedule. */
module Energy {
  import opened Outcomes

  /** sum(xs), added from the front. */
  function Sum(xs: seq<real>): real
  {
    if xs == [] then 0.0 else xs[0] + Sum(xs[1..])
  }

  /** A sum of non-negative entries is non-negative. */
  lemma {:induction false} SumNonNegative(xs: seq<real>)
    requires forall k :: 0 <= k < |xs| ==> xs[k] >= 0.0
    ensures Sum(xs) >= 0.0
  {
    if xs != [] {
      SumNonNegative(xs[1..]);
    }
  }

  /** A positive total needs a positive entry. */
  lemma {:induction false} SumPositiveHasPositive(xs: seq<real>)
    requires Sum(xs) > 0.0
    ensures exists k :: 0 <= k < |xs| && xs[k] > 0.0
  {
    if xs[0] <= 0.0 {
      SumPositiveHasPositive(xs[1..]);
      var k :| 0 <= k < |xs[1..]| && xs[1..][k] > 0.0;
      assert xs[k + 1] > 0.0;
    }
  }

  /** A list of zeros sums to zero. */
  lemma {:induction false} SumZeros(xs: seq<real>)
    requires forall k :: 0 <= k < |xs| ==> xs[k] == 0.0
    ensures Sum(xs) == 0.0
  {
    if xs != [] {
      SumZeros(xs[1..]);
    }
  }

  /** `n` ones sum to `n`. */
  lemma {:induction false} SumOnes(xs: seq<real>)
    requires forall k :: 0 <= k < |xs| ==> xs[k] == 1.0
    ensures Sum(xs) == |xs| as real
  {
    if xs != [] {
      SumOnes(xs[1..]);
    }
  }

  /** Every entry divided by `c`. */
  function Scaled(xs: seq<real>, c: real): (r: seq<real>)
    requires c != 0.0
    ensures |r| == |xs| && forall k :: 0 <= k < |xs| ==> r[k] * c == xs[k]
  {
    seq(|xs|, k requires 0 <= k < |xs| => xs[k] / c)
  }

  lemma DivideSum(a: real, b: real, c: real)
    requires c != 0.0
    ensures a / c + b / c == (a + b) / c
  {
  }

  lemma DivideItself(c: real)
    requires c != 0.0
    ensures c / c == 1.0
  {
  }

  /** Dividing every entry by `c` divides the sum by `c`. */
  lemma {:induction false} SumScaled(xs: seq<real>, c: real)
    requires c != 0.0
    ensures Sum(Scaled(xs, c)) == Sum(xs) / c
  {
    if xs != [] {
      var ys := Scaled(xs, c);
      assert ys[1..] == Scaled(xs[1..], c);
      assert ys[0] == xs[0] / c;
      SumScaled(xs[1..], c);
      assert Sum(ys) == xs[0] / c + Sum(xs[1..]) / c;
      DivideSum(xs[0], Sum(xs[1..]), c);
    }
  }

  /** Dividing every entry by a non-zero total gives entries that sum to one. */
  lemma WeightsSumToOne(xs: seq<real>)
    requires Sum(xs) != 0.0
    ensures Sum(Scaled(xs, Sum(xs))) == 1.0
  {
    SumScaled(xs, Sum(xs));
    DivideItself(Sum(xs));
  }

  /** `_normalized_energy`: the assertion fails exactly when the energies sum to zero (the
      empty corpus included); otherwise each weight is its energy over the total, and the
      weights sum to one. */
  function NormalizedEnergy(energies: seq<real>): (r: Result<seq<real>>)
    ensures r.Failure? <==> Sum(energies) == 0.0
    ensures r.Failure? ==> r.error == ZeroEnergy
    ensures r.Success? ==> |r.value| == |energies| && Sum(r.value) == 1.0
    ensures r.Success? ==> forall k :: 0 <= k < |energies| ==> r.value[k] * Sum(energies) == energies[k]
  {
    var total := Sum(energies);
    if total == 0.0 then Failure(ZeroEnergy)
    else
      WeightsSumToOne(energies);
      Success(Scaled(energies, total))
  }

  /** After the uniform assignment every one of `n > 0` seeds gets weight 1/n. */
  lemma UniformWeights(energies: seq<real>)
    requires |energies| > 0 && forall k :: 0 <= k < |energies| ==> energies[k] == 1.0
    ensures NormalizedEnergy(energies).Success?
    ensures forall k :: 0 <= k < |energies| ==>
      NormalizedEnergy(energies).value[k] == 1.0 / |energies| as real
  {
    SumOnes(energies);
  }

  /** The indices with a positive weight: the ones random.choices can return. */
  function PositiveIndices(weights: seq<real>): (r: seq<int>)
    ensures forall k :: k in r <==> 0 <= k < |weights| && weights[k] > 0.0
  {
    if weights == [] then []
    else
      var rest := PositiveIndices(weights[1..]);
      var shifted := seq(|rest|, j requires 0 <= j < |rest| => rest[j] + 1);
      assert forall k :: k in shifted <==> k - 1 in rest by {
        forall k ensures k in shifted <==> k - 1 in rest {
          if k - 1 in rest {
            var j :| 0 <= j < |rest| && rest[j] == k - 1;
            assert shifted[j] == k;
          }
        }
      }
      (if weights[0] > 0.0 then [0] else []) + shifted
  }

  // ---------------------------------------------------------------------------
  // Min-max scaling

  function Min(xs: seq<real>): (m: real)
    requires |xs| > 0
    ensures exists k :: 0 <= k < |xs| && xs[k] == m
    ensures forall k :: 0 <= k < |xs| ==> m <= xs[k]
  {
    if |xs| == 1 then xs[0]
    else
      var m := Min(xs[1..]);
      assert forall k :: 1 <= k < |xs| ==> xs[k] == xs[1..][k - 1];
      if xs[0] <= m then xs[0] else m
  }

  function Max(xs: seq<real>): (m: real)
    requires |xs| > 0
    ensures exists k :: 0 <= k < |xs| && xs[k] == m
    ensures forall k :: 0 <= k < |xs| ==> xs[k] <= m
  {
    if |xs| == 1 then xs[0]
    else
      var m := Max(xs[1..]);
      assert forall k :: 1 <= k < |xs| ==> xs[k] == xs[1..][k - 1];
      if xs[0] >= m then xs[0] else m
  }

  /** The scaled value of `v` when the list spans [lo, hi]. */
  function Rescale(v: real, lo: real, hi: real): real
  {
    if lo == hi then 0.0 else (v - lo) / (hi - lo)
  }

  /** `normalize`: min-max scaling, each value mapped by the list's minimum and maximum. */
  function Normalize(xs: seq<real>): (r: seq<real>)
    requires |xs| > 0
    ensures |r| == |xs|
    ensures forall k :: 0 <= k < |xs| ==> r[k] == Rescale(xs[k], Min(xs), Max(xs))
  {
    var lo, hi := Min(xs), Max(xs);
    seq(|xs|, k requires 0 <= k < |xs| => Rescale(xs[k], lo, hi))
  }

  lemma RescaleBounds(v: real, lo: real, hi: real)
    requires lo <= v <= hi
    ensures 0.0 <= Rescale(v, lo, hi) <= 1.0
  {
    if lo != hi {
      var d := hi - lo;
      assert (v - lo) / d * d == v - lo;
    }
  }

  lemma RescaleMonotone(u: real, v: real, lo: real, hi: real)
    requires lo <= u <= v <= hi
    ensures Rescale(u, lo, hi) <= Rescale(v, lo, hi)
  {
    if lo != hi {
      var d := hi - lo;
      assert (v - lo) / d - (u - lo) / d == (v - u) / d;
    }
  }

  lemma RescaleEnds(lo: real, hi: real)
    requires lo != hi
    ensures Rescale(lo, lo, hi) == 0.0 && Rescale(hi, lo, hi) == 1.0
  {
    var d := hi - lo;
    assert d / d == 1.0;
  }

  /** Every normalised value lies in [0, 1]. */
  lemma NormalizeInUnitInterval(xs: seq<real>)
    requires |xs| > 0
    ensures forall k :: 0 <= k < |xs| ==> 0.0 <= Normalize(xs)[k] <= 1.0
  {
    forall k | 0 <= k < |xs| ensures 0.0 <= Normalize(xs)[k] <= 1.0 {
      RescaleBounds(xs[k], Min(xs), Max(xs));
    }
  }

  /** A constant list normalises to zeros; otherwise its minimum goes to 0 and its
      maximum to 1. */
  lemma NormalizeEndpoints(xs: seq<real>)
    requires |xs| > 0
    ensures Min(xs) == Max(xs) ==> forall k :: 0 <= k < |xs| ==> Normalize(xs)[k] == 0.0
    ensures Min(xs) != Max(xs) ==> forall k :: 0 <= k < |xs| && xs[k] == Min(xs) ==> Normalize(xs)[k] == 0.0
    ensures Min(xs) != Max(xs) ==> forall k :: 0 <= k < |xs| && xs[k] == Max(xs) ==> Normalize(xs)[k] == 1.0
  {
    var lo, hi := Min(xs), Max(xs);
    if lo != hi {
      RescaleEnds(lo, hi);
    }
  }

  /** Normalisation keeps the order of the values. */
  lemma NormalizeMonotone(xs: seq<real>, j: int, k: int)
    requires |xs| > 0 && 0 <= j < |xs| && 0 <= k < |xs| && xs[j] <= xs[k]
    ensures Normalize(xs)[j] <= Normalize(xs)[k]
  {
    RescaleMonotone(xs[j], xs[k], Min(xs), Max(xs));
  }

  /** A second normalisation changes nothing: the result is either all zeros or spans
      exactly [0, 1]. */
  lemma NormalizeIdempotent(xs: seq<real>)
    requires |xs| > 0
    ensures Normalize(Normalize(xs)) == Normalize(xs)
  {
    var ys := Normalize(xs);
    NormalizeInUnitInterval(xs);
    NormalizeEndpoints(xs);
    var i :| 0 <= i < |xs| && xs[i] == Min(xs);
    var j :| 0 <= j < |xs| && xs[j] == Max(xs);
    if Min(xs) == Max(xs) {
      assert Min(ys) == 0.0 && Max(ys) == 0.0;
    } else {
      assert ys[i] == 0.0 && ys[j] == 1.0;
      assert Min(ys) == 0.0 && Max(ys) == 1.0;
      assert forall k :: 0 <= k < |ys| ==> Normalize(ys)[k] == ys[k];
    }
  }

  // ---------------------------------------------------------------------------
  // The URL schedule's weighted energy

  const LengthWeight: real := 0.3
  const ExecutionTimeWeight: real := 0.2
  const CoverageWeight: real := 0.5

  /** The energy of one seed from its three normalised factors; with every factor in [0, 1]
      the energy is in [0, 1], since the weights sum to one. */
  function WeightedEnergy(length: real, executionTime: real, coverage: real): (e: real)
    ensures 0.0 <= length <= 1.0 && 0.0 <= executionTime <= 1.0 && 0.0 <= coverage <= 1.0 ==>
      0.0 <= e <= 1.0
    ensures length == 0.0 && executionTime == 0.0 && coverage == 0.0 ==> e == 0.0
  {
    length * LengthWeight + executionTime * ExecutionTimeWeight + coverage * CoverageWeight
  }

  /** The energy of each seed from its three factors, position by position; with every
      factor in [0, 1] every energy is in [0, 1]. */
  function WeightedEnergies(lengths: seq<real>, times: seq<real>, coverages: seq<real>): (r: seq<real>)
    requires |times| == |lengths| && |coverages| == |lengths|
    ensures |r| == |lengths|
    ensures (forall k :: 0 <= k < |lengths| ==>
               0.0 <= lengths[k] <= 1.0 && 0.0 <= times[k] <= 1.0 && 0.0 <= coverages[k] <= 1.0) ==>
            forall k :: 0 <= k < |r| ==> 0.0 <= r[k] <= 1.0
  {
    seq(|lengths|, k requires 0 <= k < |lengths| => WeightedEnergy(lengths[k], times[k], coverages[k]))
  }

  /** The energies `_assign_energy` gives a corpus with these raw columns. */
  function UrlEnergies(lengths: seq<real>, times: seq<real>, coverages: seq<real>): (r: seq<real>)
    requires |lengths| > 0 && |times| == |lengths| && |coverages| == |lengths|
    ensures |r| == |lengths| && forall k :: 0 <= k < |r| ==> 0.0 <= r[k] <= 1.0
  {
    NormalizeInUnitInterval(lengths);
    NormalizeInUnitInterval(times);
    NormalizeInUnitInterval(coverages);
    WeightedEnergies(Normalize(lengths), Normalize(times), Normalize(coverages))
  }

  /** When each factor is constant across the corpus, every energy is zero and the
      normalisation fails its assertion. */
  lemma ConstantFactorsFail(lengths: seq<real>, times: seq<real>, coverages: seq<real>)
    requires |lengths| > 0 && |times| == |lengths| && |coverages| == |lengths|
    requires Min(lengths) == Max(lengths) && Min(times) == Max(times) && Min(coverages) == Max(coverages)
    ensures forall k :: 0 <= k < |lengths| ==> UrlEnergies(lengths, times, coverages)[k] == 0.0
    ensures NormalizedEnergy(UrlEnergies(lengths, times, coverages)) == Failure(ZeroEnergy)
  {
    NormalizeEndpoints(lengths);
    NormalizeEndpoints(times);
    NormalizeEndpoints(coverages);
    SumZeros(UrlEnergies(lengths, times, coverages));
  }

  /** In particular a corpus of one seed always fails. */
  lemma SingleSeedFails(length: real, time: real, coverage: real)
    ensures NormalizedEnergy(UrlEnergies([length], [time], [coverage])) == Failure(ZeroEnergy)
  {
    ConstantFactorsFail([length], [time], [coverage]);
  }
}
