/** The weighting helpers of kickIT/convolve.py: min-max normalisation of one
    array or of two arrays on shared bounds, combination of several weight
    arrays, the inspiral-time weight clamp, the validation of the systemic
    velocity weighting, the offset window of the observation weighting and
    the lower clamp of population inspiral times.

    Probability densities and kernel density estimates are not modelled: they
    are passed in as functions. */
module Convolve {
  import opened Base
  import opened SeqMath

  /** The exceptions the weighting functions raise, plus `AllNaN` for the
      array of NaNs that min-max normalisation yields (with a warning, not an
      exception) when every entry is the same. */
  datatype WeightError = NameError | TypeError | ValueError | AllNaN

  // ---------------------------------------------------------------------
  // Real-arithmetic helpers
  // ---------------------------------------------------------------------

  /** Dividing by a positive number keeps order, in both directions. */
  lemma DivMonotone(a: real, b: real, d: real)
    requires d > 0.0
    ensures a <= b <==> a / d <= b / d
  {
    assert a == (a / d) * d && b == (b / d) * d;
    if a / d <= b / d {
      assert (a / d) * d <= (b / d) * d;
    }
  }

  /** Dividing and multiplying back by the same non-zero number. */
  lemma DivCancel(a: real, d: real)
    requires d != 0.0
    ensures (a / d) * d == a
  {
  }

  /** A share `a` of a positive whole `d` lies in `[0, 1]`, is 0 only for
      `a == 0` and 1 only for `a == d`. */
  lemma DivUnit(a: real, d: real)
    requires d > 0.0 && 0.0 <= a <= d
    ensures 0.0 <= a / d <= 1.0
    ensures a / d == 0.0 <==> a == 0.0
    ensures a / d == 1.0 <==> a == d
  {
    DivMonotone(a, d, d);
    DivMonotone(0.0, a, d);
    assert a == (a / d) * d;
  }

  /** `(x - lo) / (hi - lo)`: where `x` lies between `lo` and `hi`. */
  function Scale(x: real, lo: real, hi: real): real
    requires lo < hi
  {
    (x - lo) / (hi - lo)
  }

  /** `Scale` entry by entry. */
  function Rescale(v: seq<real>, lo: real, hi: real): (r: seq<real>)
    requires lo < hi
    ensures |r| == |v|
    ensures forall i :: 0 <= i < |v| ==> r[i] == Scale(v[i], lo, hi)
  {
    seq(|v|, i requires 0 <= i < |v| => Scale(v[i], lo, hi))
  }

  /** Rescaling distributes over concatenation. */
  lemma RescaleConcat(s: seq<real>, t: seq<real>, lo: real, hi: real)
    requires lo < hi
    ensures Rescale(s, lo, hi) + Rescale(t, lo, hi) == Rescale(s + t, lo, hi)
  {
  }

  /** A value in `[0, 1]` scaled back to `[lo, hi]`. */
  function Denormalize(x: real, lo: real, hi: real): real
  {
    lo + x * (hi - lo)
  }

  /** Rescaled values are undone by scaling back. */
  lemma RescaleRoundTrip(v: seq<real>, lo: real, hi: real, i: nat)
    requires lo < hi && i < |v|
    ensures Denormalize(Rescale(v, lo, hi)[i], lo, hi) == v[i]
  {
    DivCancel(v[i] - lo, hi - lo);
  }

  /** A lower bound that is attained is the minimum. */
  lemma SeqMinIs(s: seq<real>, m: real, k: nat)
    requires k < |s| && s[k] == m
    requires forall i :: 0 <= i < |s| ==> m <= s[i]
    ensures SeqMin(s) == m
  {
  }

  /** An upper bound that is attained is the maximum. */
  lemma SeqMaxIs(s: seq<real>, m: real, k: nat)
    requires k < |s| && s[k] == m
    requires forall i :: 0 <= i < |s| ==> s[i] <= m
    ensures SeqMax(s) == m
  {
  }

  /** An array whose minimum is its maximum is constant. */
  predicate Constant(w: seq<real>)
  {
    forall i :: 0 <= i < |w| ==> w[i] == w[0]
  }

  /** Rescaling to `[lo, hi]` where every entry lies in that interval: the
      result lies in `[0, 1]`, with 0 exactly at `lo`, 1 exactly at `hi`, and
      the order of any two entries kept in both directions. */
  lemma RescaleFacts(v: seq<real>, lo: real, hi: real)
    requires lo < hi
    requires forall i :: 0 <= i < |v| ==> lo <= v[i] <= hi
    ensures var r := Rescale(v, lo, hi);
      forall i :: 0 <= i < |v| ==>
        && 0.0 <= r[i] <= 1.0
        && (r[i] == 0.0 <==> v[i] == lo)
        && (r[i] == 1.0 <==> v[i] == hi)
    ensures var r := Rescale(v, lo, hi);
      forall i, j :: 0 <= i < |v| && 0 <= j < |v| ==> (v[i] <= v[j] <==> r[i] <= r[j])
  {
    var r := Rescale(v, lo, hi);
    forall i | 0 <= i < |v|
      ensures 0.0 <= r[i] <= 1.0
      ensures r[i] == 0.0 <==> v[i] == lo
      ensures r[i] == 1.0 <==> v[i] == hi
    {
      DivUnit(v[i] - lo, hi - lo);
    }
    forall i, j | 0 <= i < |v| && 0 <= j < |v|
      ensures v[i] <= v[j] <==> r[i] <= r[j]
    {
      DivMonotone(v[i] - lo, v[j] - lo, hi - lo);
    }
  }

  // ---------------------------------------------------------------------
  // normalize_weights
  // ---------------------------------------------------------------------

  /** `normalize_weights`: `(w - w.min()) / (w.max() - w.min())`. An empty
      array makes `min` raise `ValueError`; a constant one divides 0 by 0. */
  function NormalizeWeights(w: seq<real>): (r: Result<seq<real>, WeightError>)
    ensures r == Failure(ValueError) <==> |w| == 0
    ensures r == Failure(AllNaN) <==> |w| > 0 && Constant(w)
    ensures r.Failure? ==> r.error == ValueError || r.error == AllNaN
    ensures r.Success? ==> |r.value| == |w|
  {
    if |w| == 0 then Failure(ValueError)
    else
      var lo := SeqMin(w);
      var hi := SeqMax(w);
      MinEqMaxIffConstant(w);
      if lo == hi then Failure(AllNaN) else Success(Rescale(w, lo, hi))
  }

  /** Successful normalisation rescales by the array's own bounds. */
  lemma NormalizeWeightsIsRescale(w: seq<real>)
    requires NormalizeWeights(w).Success?
    ensures SeqMin(w) < SeqMax(w)
    ensures NormalizeWeights(w).value == Rescale(w, SeqMin(w), SeqMax(w))
  {
  }

  /** For a non-constant array every normalised weight lies in `[0, 1]`,
      exactly the minimal entries map to 0 and exactly the maximal ones to
      1. */
  lemma NormalizeWeightsRange(w: seq<real>)
    requires |w| > 0 && !Constant(w)
    ensures var r := NormalizeWeights(w);
      && r.Success?
      && forall i :: 0 <= i < |w| ==>
        && 0.0 <= r.value[i] <= 1.0
        && (r.value[i] == 0.0 <==> w[i] == SeqMin(w))
        && (r.value[i] == 1.0 <==> w[i] == SeqMax(w))
  {
    MinEqMaxIffConstant(w);
    RescaleFacts(w, SeqMin(w), SeqMax(w));
  }

  /** Normalisation keeps the order of any two weights, in both
      directions. */
  lemma NormalizeWeightsMonotone(w: seq<real>, i: nat, j: nat)
    requires i < |w| && j < |w|
    requires NormalizeWeights(w).Success?
    ensures w[i] <= w[j] <==> NormalizeWeights(w).value[i] <= NormalizeWeights(w).value[j]
  {
    RescaleFacts(w, SeqMin(w), SeqMax(w));
  }

  /** The original weights are recovered from the normalised ones and the
      two bounds. */
  lemma NormalizeWeightsRoundTrip(w: seq<real>, i: nat)
    requires i < |w|
    requires NormalizeWeights(w).Success?
    ensures Denormalize(NormalizeWeights(w).value[i], SeqMin(w), SeqMax(w)) == w[i]
  {
    NormalizeWeightsIsRescale(w);
    RescaleRoundTrip(w, SeqMin(w), SeqMax(w), i);
  }

  /** Normalised weights have minimum 0 and maximum 1. */
  lemma NormalizedBounds(w: seq<real>)
    requires NormalizeWeights(w).Success?
    ensures var r := NormalizeWeights(w).value;
      |r| > 0 && SeqMin(r) == 0.0 && SeqMax(r) == 1.0
  {
    var r := NormalizeWeights(w).value;
    NormalizeWeightsRange(w);
    var kmin :| 0 <= kmin < |w| && w[kmin] == SeqMin(w);
    var kmax :| 0 <= kmax < |w| && w[kmax] == SeqMax(w);
    SeqMinIs(r, 0.0, kmin);
    SeqMaxIs(r, 1.0, kmax);
  }

  /** Normalising normalised weights changes nothing. */
  lemma NormalizeWeightsIdempotent(w: seq<real>)
    requires NormalizeWeights(w).Success?
    ensures NormalizeWeights(NormalizeWeights(w).value) == NormalizeWeights(w)
  {
    var r := NormalizeWeights(w).value;
    NormalizedBounds(w);
    assert NormalizeWeights(r) == Success(Rescale(r, 0.0, 1.0)) by {
      MinEqMaxIffConstant(r);
    }
    assert Rescale(r, 0.0, 1.0) == r;
  }

  // ---------------------------------------------------------------------
  // normalize_data
  // ---------------------------------------------------------------------

  function Min(a: real, b: real): real { if a <= b then a else b }
  function Max(a: real, b: real): real { if a <= b then b else a }

  /** `normalize_data`: both arrays rescaled by the minimum and maximum over
      the two together. `np.max` of an empty array raises `ValueError`. */
  function NormalizeData(samps: seq<real>, tracers: seq<real>): (r: Result<(seq<real>, seq<real>), WeightError>)
    ensures r == Failure(ValueError) <==> |samps| == 0 || |tracers| == 0
    ensures r.Failure? ==> r.error == ValueError || r.error == AllNaN
    ensures r.Success? ==> |r.value.0| == |samps| && |r.value.1| == |tracers|
  {
    if |samps| == 0 || |tracers| == 0 then Failure(ValueError)
    else
      var lo := Min(SeqMin(samps), SeqMin(tracers));
      var hi := Max(SeqMax(samps), SeqMax(tracers));
      if lo == hi then Failure(AllNaN) else Success((Rescale(samps, lo, hi), Rescale(tracers, lo, hi)))
  }

  /** A bound on both parts bounds their concatenation. */
  lemma ConcatBounded(s: seq<real>, t: seq<real>, lo: real, hi: real)
    requires forall i :: 0 <= i < |s| ==> lo <= s[i] <= hi
    requires forall i :: 0 <= i < |t| ==> lo <= t[i] <= hi
    ensures forall i :: 0 <= i < |s + t| ==> lo <= (s + t)[i] <= hi
  {
    forall i | 0 <= i < |s + t|
      ensures lo <= (s + t)[i] <= hi
    {
      if i < |s| { assert (s + t)[i] == s[i]; } else { assert (s + t)[i] == t[i - |s|]; }
    }
  }

  /** A position of the concatenation holding the smaller of the two
      minima. */
  lemma ConcatMinWitness(s: seq<real>, t: seq<real>) returns (k: nat)
    requires |s| > 0 && |t| > 0
    ensures k < |s + t| && (s + t)[k] == Min(SeqMin(s), SeqMin(t))
  {
    if SeqMin(s) <= SeqMin(t) {
      k :| k < |s| && s[k] == SeqMin(s);
      assert (s + t)[k] == s[k];
    } else {
      var j: nat :| j < |t| && t[j] == SeqMin(t);
      k := |s| + j;
      assert (s + t)[k] == t[j];
    }
  }

  /** A position of the concatenation holding the larger of the two
      maxima. */
  lemma ConcatMaxWitness(s: seq<real>, t: seq<real>) returns (k: nat)
    requires |s| > 0 && |t| > 0
    ensures k < |s + t| && (s + t)[k] == Max(SeqMax(s), SeqMax(t))
  {
    if SeqMax(s) >= SeqMax(t) {
      k :| k < |s| && s[k] == SeqMax(s);
      assert (s + t)[k] == s[k];
    } else {
      var j: nat :| j < |t| && t[j] == SeqMax(t);
      k := |s| + j;
      assert (s + t)[k] == t[j];
    }
  }

  /** The minimum of a concatenation. */
  lemma ConcatMin(s: seq<real>, t: seq<real>)
    requires |s| > 0 && |t| > 0
    ensures SeqMin(s + t) == Min(SeqMin(s), SeqMin(t))
  {
    var m := Min(SeqMin(s), SeqMin(t));
    ConcatBounded(s, t, m, Max(SeqMax(s), SeqMax(t)));
    var k := ConcatMinWitness(s, t);
    SeqMinIs(s + t, m, k);
  }

  /** The maximum of a concatenation. */
  lemma ConcatMax(s: seq<real>, t: seq<real>)
    requires |s| > 0 && |t| > 0
    ensures SeqMax(s + t) == Max(SeqMax(s), SeqMax(t))
  {
    var m := Max(SeqMax(s), SeqMax(t));
    ConcatBounded(s, t, Min(SeqMin(s), SeqMin(t)), m);
    var k := ConcatMaxWitness(s, t);
    SeqMaxIs(s + t, m, k);
  }

  /** Shared-bounds normalisation is normalisation of the concatenated data,
      cut back into its two parts. */
  lemma NormalizeDataIsJointNormalization(samps: seq<real>, tracers: seq<real>)
    requires |samps| > 0 && |tracers| > 0
    ensures var joint := NormalizeWeights(samps + tracers);
      var r := NormalizeData(samps, tracers);
      && (r.Success? <==> joint.Success?)
      && (r.Failure? ==> r.error == joint.error)
      && (r.Success? ==> r.value.0 + r.value.1 == joint.value)
  {
    ConcatMin(samps, tracers);
    ConcatMax(samps, tracers);
    var st := samps + tracers;
    var lo := Min(SeqMin(samps), SeqMin(tracers));
    var hi := Max(SeqMax(samps), SeqMax(tracers));
    if lo == hi {
      assert NormalizeData(samps, tracers) == Failure(AllNaN);
      assert NormalizeWeights(st) == Failure(AllNaN);
    } else {
      assert NormalizeData(samps, tracers) == Success((Rescale(samps, lo, hi), Rescale(tracers, lo, hi)));
      assert NormalizeWeights(st) == Success(Rescale(st, lo, hi));
      RescaleConcat(samps, tracers, lo, hi);
    }
  }

  /** Both normalised arrays lie in `[0, 1]`; an entry is 0 exactly when it
      is the joint minimum and 1 exactly when it is the joint maximum. */
  lemma NormalizeDataRange(samps: seq<real>, tracers: seq<real>)
    requires NormalizeData(samps, tracers).Success?
    ensures var lo := Min(SeqMin(samps), SeqMin(tracers));
      var hi := Max(SeqMax(samps), SeqMax(tracers));
      var r := NormalizeData(samps, tracers).value;
      && (forall i :: 0 <= i < |samps| ==>
            0.0 <= r.0[i] <= 1.0 && (r.0[i] == 0.0 <==> samps[i] == lo) && (r.0[i] == 1.0 <==> samps[i] == hi))
      && (forall i :: 0 <= i < |tracers| ==>
            0.0 <= r.1[i] <= 1.0 && (r.1[i] == 0.0 <==> tracers[i] == lo) && (r.1[i] == 1.0 <==> tracers[i] == hi))
  {
    var lo := Min(SeqMin(samps), SeqMin(tracers));
    var hi := Max(SeqMax(samps), SeqMax(tracers));
    RescaleFacts(samps, lo, hi);
    RescaleFacts(tracers, lo, hi);
  }

  // ---------------------------------------------------------------------
  // normalize_data on a pandas Series
  // ---------------------------------------------------------------------

  /** The numbers of a Series in order: pandas' `min` and `max` skip NaN. */
  function Numbers(s: seq<Float>): (ns: seq<real>)
    ensures |ns| <= |s|
    ensures |ns| == 0 <==> forall i :: 0 <= i < |s| ==> s[i].NaN?
  {
    if |s| == 0 then []
    else
      var init := Numbers(s[..|s| - 1]);
      assert forall i :: 0 <= i < |s| - 1 ==> s[..|s| - 1][i] == s[i];
      init + (if s[|s| - 1].Num? then [s[|s| - 1].v] else [])
  }

  /** A NaN-free array seen as a Series. */
  function Lift(t: seq<real>): (s: seq<Float>)
    ensures |s| == |t|
    ensures forall i :: 0 <= i < |t| ==> s[i] == Num(t[i])
  {
    seq(|t|, i requires 0 <= i < |t| => Num(t[i]))
  }

  /** Skipping NaN in a NaN-free array changes nothing. */
  lemma {:induction false} NumbersOfLift(t: seq<real>)
    ensures Numbers(Lift(t)) == t
  {
    if |t| > 0 {
      var n := |t| - 1;
      assert Lift(t)[..n] == Lift(t[..n]);
      NumbersOfLift(t[..n]);
      assert t == t[..n] + [t[n]];
    }
  }

  /** Elementwise arithmetic on a Series: NaN entries stay NaN. */
  function RescaleSeries(t: seq<Float>, lo: real, hi: real): (r: seq<Float>)
    requires lo < hi
    ensures |r| == |t|
    ensures forall i :: 0 <= i < |t| ==> r[i] == (if t[i].Num? then Num(Scale(t[i].v, lo, hi)) else NaN)
  {
    seq(|t|, i requires 0 <= i < |t| => if t[i].Num? then Num(Scale(t[i].v, lo, hi)) else NaN)
  }

  /** The joint bounds of two non-empty arrays agree exactly when the two
      together are constant. */
  lemma JointBoundsMeet(s: seq<real>, t: seq<real>)
    requires |s| > 0 && |t| > 0
    ensures Min(SeqMin(s), SeqMin(t)) == Max(SeqMax(s), SeqMax(t)) <==> Constant(s + t)
  {
    ConcatMin(s, t);
    ConcatMax(s, t);
    MinEqMaxIffConstant(s + t);
  }

  /** `normalize_data(samps, tracers)` as every caller invokes it: `samps`
      an ndarray, `tracers` a Series such as `tracers['Vsys']` or
      `np.log10(tracers['Tinsp'])`. An empty `samps` makes `np.max` raise
      `ValueError`. The Series' bounds skip NaN, and a Series with no number
      has NaN bounds, which turn every output into NaN. */
  function NormalizeDataSeries(samps: seq<real>, tracers: seq<Float>): (r: Result<(seq<real>, seq<Float>), WeightError>)
    ensures r == Failure(ValueError) <==> |samps| == 0
    ensures r == Failure(AllNaN) <==>
      |samps| > 0 && (|Numbers(tracers)| == 0 || Constant(samps + Numbers(tracers)))
    ensures r.Failure? ==> r.error == ValueError || r.error == AllNaN
    ensures r.Success? ==> |r.value.0| == |samps| && |r.value.1| == |tracers|
    ensures r.Success? ==> forall i :: 0 <= i < |tracers| ==> (r.value.1[i].NaN? <==> tracers[i].NaN?)
  {
    if |samps| == 0 then Failure(ValueError)
    else
      var ts := Numbers(tracers);
      if |ts| == 0 then Failure(AllNaN)
      else
        var lo := Min(SeqMin(samps), SeqMin(ts));
        var hi := Max(SeqMax(samps), SeqMax(ts));
        JointBoundsMeet(samps, ts);
        if lo == hi then Failure(AllNaN) else Success((Rescale(samps, lo, hi), RescaleSeries(tracers, lo, hi)))
  }

  /** On a NaN-free, non-empty Series the result is that of the plain array
      version; an empty Series gives NaN where an empty array raises. */
  lemma NormalizeDataSeriesOnArrays(samps: seq<real>, t: seq<real>)
    ensures |t| > 0 ==>
      NormalizeDataSeries(samps, Lift(t)) ==
        (match NormalizeData(samps, t)
         case Failure(e) => Failure(e)
         case Success(p) => Success((p.0, Lift(p.1))))
    ensures |samps| > 0 && |t| == 0 ==>
      NormalizeDataSeries(samps, Lift(t)) == Failure(AllNaN) && NormalizeData(samps, t) == Failure(ValueError)
  {
    NumbersOfLift(t);
    if |samps| > 0 && |t| > 0 {
      var lo := Min(SeqMin(samps), SeqMin(t));
      var hi := Max(SeqMax(samps), SeqMax(t));
      if lo != hi {
        assert RescaleSeries(Lift(t), lo, hi) == Lift(Rescale(t, lo, hi));
      }
    }
  }

  /** A NaN tracer is skipped: appending one changes neither the bounds nor
      any other output, and its own output is NaN. */
  lemma NormalizeDataSeriesSkipsNaN(samps: seq<real>, tracers: seq<Float>)
    ensures var r := NormalizeDataSeries(samps, tracers);
      var r' := NormalizeDataSeries(samps, tracers + [NaN]);
      && (r.Failure? ==> r' == r)
      && (r.Success? ==> r' == Success((r.value.0, r.value.1 + [NaN])))
  {
    assert (tracers + [NaN])[..|tracers|] == tracers;
    var ts := Numbers(tracers);
    assert Numbers(tracers + [NaN]) == ts;
    if |samps| > 0 && |ts| > 0 {
      var lo := Min(SeqMin(samps), SeqMin(ts));
      var hi := Max(SeqMax(samps), SeqMax(ts));
      if lo != hi {
        assert RescaleSeries(tracers + [NaN], lo, hi) == RescaleSeries(tracers, lo, hi) + [NaN];
      }
    }
  }

  // ---------------------------------------------------------------------
  // combine_weights
  // ---------------------------------------------------------------------

  /** Every row of the weight matrix has the same length, and there is at
      least one row. */
  predicate Rectangular(w: seq<seq<real>>)
  {
    |w| > 0 && forall i :: 0 <= i < |w| ==> |w[i]| == |w[0]|
  }

  /** `np.prod(weights, axis=0)` at column `j`. */
  function ColumnProduct(w: seq<seq<real>>, j: nat): real
    requires forall i :: 0 <= i < |w| ==> j < |w[i]|
  {
    if |w| == 0 then 1.0 else ColumnProduct(w[..|w| - 1], j) * w[|w| - 1][j]
  }

  /** `np.sum(weights**2, axis=0)` at column `j`. */
  function ColumnSumSquares(w: seq<seq<real>>, j: nat): real
    requires forall i :: 0 <= i < |w| ==> j < |w[i]|
  {
    if |w| == 0 then 0.0 else ColumnSumSquares(w[..|w| - 1], j) + w[|w| - 1][j] * w[|w| - 1][j]
  }

  /** A combination result: one weight per tracer, or the unchanged matrix
      when the method name is neither `'add'` nor `'multiply'`. */
  datatype Combined = Flat(values: seq<real>) | Matrix(rows: seq<seq<real>>)

  /** All entries of a matrix, row after row. */
  function Flatten(w: seq<seq<real>>): seq<real>
  {
    if |w| == 0 then [] else Flatten(w[..|w| - 1]) + w[|w| - 1]
  }

  /** `normalize_weights` of a matrix: every entry rescaled by the minimum
      and maximum over all entries. */
  function NormalizeMatrix(w: seq<seq<real>>): (r: Result<seq<seq<real>>, WeightError>)
    ensures r == Failure(ValueError) <==> |Flatten(w)| == 0
    ensures r == Failure(AllNaN) <==> |Flatten(w)| > 0 && Constant(Flatten(w))
    ensures r.Success? ==> |r.value| == |w| && forall i :: 0 <= i < |w| ==> |r.value[i]| == |w[i]|
  {
    match NormalizeWeights(Flatten(w))
    case Failure(e) => Failure(e)
    case Success(_) =>
      var lo := SeqMin(Flatten(w));
      var hi := SeqMax(Flatten(w));
      Success(seq(|w|, i requires 0 <= i < |w| => Rescale(w[i], lo, hi)))
  }

  /** `np.prod(weights, axis=0)`: one product per column. */
  function ColumnProducts(w: seq<seq<real>>): (v: seq<real>)
    requires Rectangular(w)
    ensures |v| == |w[0]|
    ensures forall j :: 0 <= j < |v| ==> v[j] == ColumnProduct(w, j)
  {
    seq(|w[0]|, j requires 0 <= j < |w[0]| => ColumnProduct(w, j))
  }

  /** `np.sqrt(np.sum(weights**2, axis=0))`: one root-sum-square per
      column. */
  function ColumnNorms(w: seq<seq<real>>, sqrt: real -> real): (v: seq<real>)
    requires Rectangular(w)
    ensures |v| == |w[0]|
    ensures forall j :: 0 <= j < |v| ==> v[j] == sqrt(ColumnSumSquares(w, j))
  {
    seq(|w[0]|, j requires 0 <= j < |w[0]| => sqrt(ColumnSumSquares(w, j)))
  }

  /** A normalised one-dimensional result, or the error normalisation
      raised. */
  function FlatNormalized(v: seq<real>): Result<Combined, WeightError>
  {
    match NormalizeWeights(v)
    case Success(n) => Success(Flat(n))
    case Failure(e) => Failure(e)
  }

  /** `combine_weights(weights, combine_method, normalize)`, with `sqrt`
      standing for `np.sqrt`. With `normalize` the combined column values
      are passed through `normalize_weights`, so they span [0, 1]. */
  function CombineWeights(w: seq<seq<real>>, combineMethod: string, normalize: bool, sqrt: real -> real): (r: Result<Combined, WeightError>)
    requires Rectangular(w)
    ensures !normalize ==> r.Success?
    ensures r.Success? && combineMethod == "add" ==>
      r.value.Flat? && |r.value.values| == |w[0]|
    ensures !normalize && combineMethod == "add" ==>
      forall j :: 0 <= j < |w[0]| ==> r.value.values[j] == sqrt(ColumnSumSquares(w, j))
    ensures normalize && combineMethod == "add" ==> r == FlatNormalized(ColumnNorms(w, sqrt))
    ensures r.Success? && combineMethod == "multiply" ==>
      r.value.Flat? && |r.value.values| == |w[0]|
    ensures !normalize && combineMethod == "multiply" ==>
      forall j :: 0 <= j < |w[0]| ==> r.value.values[j] == ColumnProduct(w, j)
    ensures normalize && combineMethod == "multiply" ==> r == FlatNormalized(ColumnProducts(w))
    ensures combineMethod != "add" && combineMethod != "multiply" ==>
      r == (if normalize then match NormalizeMatrix(w) case Success(m) => Success(Matrix(m)) case Failure(e) => Failure(e)
            else Success(Matrix(w)))
  {
    var combined :=
      if combineMethod == "add" then Flat(ColumnNorms(w, sqrt))
      else if combineMethod == "multiply" then Flat(ColumnProducts(w))
      else Matrix(w);
    if !normalize then Success(combined)
    else
      match combined
      case Flat(v) => FlatNormalized(v)
      case Matrix(m) => (match NormalizeMatrix(m) case Success(n) => Success(Matrix(n)) case Failure(e) => Failure(e))
  }

  /** With normalisation, a successful 'multiply' or 'add' combination is
      the column values rescaled onto [0, 1]: the weakest column gets 0, the
      strongest 1, and the order between columns is kept. It fails, with
      the division 0/0, exactly when all columns combine to the same
      value. */
  lemma NormalizedCombination(w: seq<seq<real>>, combineMethod: string, sqrt: real -> real)
    requires Rectangular(w)
    requires combineMethod == "add" || combineMethod == "multiply"
    ensures var v := if combineMethod == "add" then ColumnNorms(w, sqrt) else ColumnProducts(w);
      var r := CombineWeights(w, combineMethod, true, sqrt);
      && (r == Failure(ValueError) <==> |w[0]| == 0)
      && (r == Failure(AllNaN) <==> |w[0]| > 0 && Constant(v))
      && (r.Success? ==>
            && r.value == Flat(Rescale(v, SeqMin(v), SeqMax(v)))
            && forall j :: 0 <= j < |v| ==> 0.0 <= r.value.values[j] <= 1.0)
  {
    var v := if combineMethod == "add" then ColumnNorms(w, sqrt) else ColumnProducts(w);
    if |v| > 0 && !Constant(v) {
      NormalizeWeightsIsRescale(v);
      NormalizeWeightsRange(v);
    }
  }

  lemma MulZero(p: real, x: real)
    ensures p * x == 0.0 <==> p == 0.0 || x == 0.0
  {
    if p != 0.0 && x != 0.0 {
      assert (p * x) / x == p;
    }
  }

  lemma MulNonNeg(a: real, b: real)
    requires a >= 0.0 && b >= 0.0
    ensures a * b >= 0.0
  {
  }

  lemma MulUnit(p: real, x: real)
    requires 0.0 <= p <= 1.0 && 0.0 <= x <= 1.0
    ensures 0.0 <= p * x <= 1.0
  {
    MulNonNeg(p, x);
    MulNonNeg(p, 1.0 - x);
  }

  /** The product of weights that each lie in `[0, 1]` lies in `[0, 1]`, and
      it is 0 exactly when one of them is. */
  lemma ColumnProductUnit(w: seq<seq<real>>, j: nat)
    requires forall i :: 0 <= i < |w| ==> j < |w[i]| && 0.0 <= w[i][j] <= 1.0
    ensures 0.0 <= ColumnProduct(w, j) <= 1.0
    ensures ColumnProduct(w, j) == 0.0 <==> exists i :: 0 <= i < |w| && w[i][j] == 0.0
  {
    ColumnProductInUnit(w, j);
    ColumnProductZero(w, j);
  }

  lemma {:induction false} ColumnProductInUnit(w: seq<seq<real>>, j: nat)
    requires forall i :: 0 <= i < |w| ==> j < |w[i]| && 0.0 <= w[i][j] <= 1.0
    ensures 0.0 <= ColumnProduct(w, j) <= 1.0
  {
    if |w| > 0 {
      var n := |w| - 1;
      ColumnProductInUnit(w[..n], j);
      MulUnit(ColumnProduct(w[..n], j), w[n][j]);
    }
  }

  lemma {:induction false} ColumnProductZero(w: seq<seq<real>>, j: nat)
    requires forall i :: 0 <= i < |w| ==> j < |w[i]|
    ensures ColumnProduct(w, j) == 0.0 <==> exists i :: 0 <= i < |w| && w[i][j] == 0.0
  {
    if |w| > 0 {
      var n := |w| - 1;
      var front := w[..n];
      ColumnProductZero(front, j);
      MulZero(ColumnProduct(front, j), w[n][j]);
      if exists i :: 0 <= i < n && front[i][j] == 0.0 {
        var i :| 0 <= i < n && front[i][j] == 0.0;
        assert w[i][j] == 0.0;
      }
      if exists i :: 0 <= i < |w| && w[i][j] == 0.0 {
        var i :| 0 <= i < |w| && w[i][j] == 0.0;
        if i < n { assert front[i][j] == 0.0; }
      }
    }
  }

  /** Combining by multiplication without normalising gives one weight per
      tracer in `[0, 1]` when every input weight lies in `[0, 1]`, zero
      exactly where some input weight is zero; a single weight array comes
      back unchanged. */
  lemma MultiplyCombination(w: seq<seq<real>>, sqrt: real -> real)
    requires Rectangular(w)
    requires forall i, j :: 0 <= i < |w| && 0 <= j < |w[i]| ==> 0.0 <= w[i][j] <= 1.0
    ensures var v := CombineWeights(w, "multiply", false, sqrt).value.values;
      forall j :: 0 <= j < |w[0]| ==>
        && 0.0 <= v[j] <= 1.0
        && (v[j] == 0.0 <==> exists i :: 0 <= i < |w| && w[i][j] == 0.0)
    ensures |w| == 1 ==> CombineWeights(w, "multiply", false, sqrt).value.values == w[0]
  {
    var v := CombineWeights(w, "multiply", false, sqrt).value.values;
    forall j | 0 <= j < |w[0]|
      ensures 0.0 <= v[j] <= 1.0
      ensures v[j] == 0.0 <==> exists i :: 0 <= i < |w| && w[i][j] == 0.0
    {
      ColumnProductUnit(w, j);
    }
    if |w| == 1 {
      forall j | 0 <= j < |w[0]|
        ensures v[j] == w[0][j]
      {
        assert w[..0] == [];
        assert ColumnProduct(w, j) == ColumnProduct(w[..0], j) * w[0][j];
      }
    }
  }

  /** Combining in quadrature takes the root of a non-negative sum. */
  lemma {:induction false} ColumnSumSquaresNonNegative(w: seq<seq<real>>, j: nat)
    requires forall i :: 0 <= i < |w| ==> j < |w[i]|
    ensures ColumnSumSquares(w, j) >= 0.0
  {
    if |w| > 0 {
      ColumnSumSquaresNonNegative(w[..|w| - 1], j);
    }
  }

  // ---------------------------------------------------------------------
  // weight_tracers_by_tinsp
  // ---------------------------------------------------------------------

  /** `weights.loc[weights > 1.0] = 1.0`: weights above 1 become 1; NaN
      compares false and stays. */
  function ClampAtOne(raw: seq<Float>): (w: seq<Float>)
    ensures |w| == |raw|
    ensures forall i :: 0 <= i < |w| ==> (w[i].Num? <==> raw[i].Num?)
    ensures forall i :: 0 <= i < |w| && w[i].Num? ==> w[i].v <= 1.0
    ensures forall i :: 0 <= i < |w| && raw[i].Num? && raw[i].v <= 1.0 ==> w[i] == raw[i]
    ensures forall i :: 0 <= i < |w| && raw[i].Num? && raw[i].v > 1.0 ==> w[i] == Num(1.0)
  {
    seq(|raw|, i requires 0 <= i < |raw| => if raw[i].Num? && raw[i].v > 1.0 then Num(1.0) else raw[i])
  }

  /** Clamping twice is clamping once. */
  lemma ClampAtOneIdempotent(raw: seq<Float>)
    ensures ClampAtOne(ClampAtOne(raw)) == ClampAtOne(raw)
  {
  }

  /** `m / x` for positive `x` is at least 1 when `x <= m` and strictly
      between 0 and 1 otherwise. */
  lemma ReciprocalWeight(x: real, m: real)
    requires m > 0.0
    ensures x > 0.0 && x <= m ==> m / x >= 1.0
    ensures x > m ==> 0.0 < m / x < 1.0
  {
    if x > 0.0 {
      DivMonotone(x, m, x);
      if x > m {
        DivUnit(m, x);
      }
    }
  }

  /** The clamped weight of one inspiral time for the default power-law
      index -1: `min_tinsp / Tinsp`, capped at 1. A zero inspiral time gives
      an infinite raw weight, which the cap turns into 1; NaN (a disrupted
      system) stays NaN. */
  function DefaultTinspWeight(t: Float, minTinsp: real): (w: Float)
    requires minTinsp > 0.0
    ensures t.NaN? <==> w.NaN?
    ensures t.Num? && t.v > 0.0 && t.v <= minTinsp ==> w == Num(1.0)
    ensures t.Num? && t.v > minTinsp ==> w == Num(minTinsp / t.v) && 0.0 < w.v < 1.0
    ensures t == Num(0.0) ==> w == Num(1.0)
    ensures t.Num? && t.v < 0.0 ==> w == Num(minTinsp / t.v) && w.v < 0.0
    ensures w.Num? ==> w.v <= 1.0
  {
    match t
    case NaN => NaN
    case Num(x) =>
      if x == 0.0 then Num(1.0)
      else
        var raw := minTinsp / x;
        ReciprocalWeight(x, minTinsp);
        if raw > 1.0 then Num(1.0) else Num(raw)
  }

  /** `weight_tracers_by_tinsp` without normalisation for the default index:
      the raw weights `min_tinsp / Tinsp` passed through the cap at 1. */
  function WeightTracersByTinsp(tinsp: seq<Float>, minTinsp: real): (w: seq<Float>)
    requires minTinsp > 0.0
    ensures |w| == |tinsp|
    ensures forall i :: 0 <= i < |w| ==> w[i] == DefaultTinspWeight(tinsp[i], minTinsp)
  {
    seq(|tinsp|, i requires 0 <= i < |tinsp| => DefaultTinspWeight(tinsp[i], minTinsp))
  }

  /** For non-zero inspiral times the default weights are exactly the raw
      power-law weights `min_tinsp / Tinsp` with the general cap applied. */
  lemma DefaultTinspWeightsAreClamped(tinsp: seq<Float>, minTinsp: real)
    requires minTinsp > 0.0
    requires forall i :: 0 <= i < |tinsp| ==> tinsp[i] != Num(0.0)
    ensures WeightTracersByTinsp(tinsp, minTinsp) ==
      ClampAtOne(seq(|tinsp|, i requires 0 <= i < |tinsp| => if tinsp[i].Num? then Num(minTinsp / tinsp[i].v) else NaN))
  {
  }

  /** `m / x` shrinks as a positive `x` grows. */
  lemma ReciprocalAntitone(m: real, t1: real, t2: real)
    requires m > 0.0 && 0.0 < t1 <= t2
    ensures m / t2 <= m / t1
  {
    var q := m / t1;
    DivCancel(m, t1);
    assert q * t1 <= q * t2;
    DivMonotone(m, q * t2, t2);
    DivCancel(q, t2);
    assert (q * t2) / t2 == q;
  }

  /** A longer inspiral never earns a larger weight. */
  lemma DefaultTinspWeightAntitone(t1: real, t2: real, minTinsp: real)
    requires minTinsp > 0.0 && 0.0 < t1 <= t2
    ensures DefaultTinspWeight(Num(t2), minTinsp).v <= DefaultTinspWeight(Num(t1), minTinsp).v
  {
    if t1 > minTinsp {
      ReciprocalAntitone(minTinsp, t1, t2);
    }
  }

  // ---------------------------------------------------------------------
  // weight_tracers_by_vsys
  // ---------------------------------------------------------------------

  /** The `param` argument: a single number (the default 265.0) or a
      tuple. */
  datatype Param = Scalar(x: real) | Tuple(xs: seq<real>)

  predicate KnownVsysMethod(m: string)
  {
    m == "flat_in_log" || m == "maxwellian" || m == "gaussian"
  }

  /** `weight_tracers_by_vsys`, with `pdf` standing for the density the
      method and parameters select. An unknown method raises `NameError`;
      for `'gaussian'`, `len(param)` of a number raises `TypeError` and a
      tuple of the wrong length `ValueError`. */
  function WeightTracersByVsys(vsys: seq<real>, vsysMethod: string, param: Param, pdf: real -> real, normalize: bool): (r: Result<seq<real>, WeightError>)
    ensures r == Failure(NameError) <==> !KnownVsysMethod(vsysMethod)
    ensures r == Failure(TypeError) <==> vsysMethod == "gaussian" && param.Scalar?
    ensures vsysMethod == "gaussian" && param.Tuple? && |param.xs| != 2 ==> r == Failure(ValueError)
    ensures KnownVsysMethod(vsysMethod) && !(vsysMethod == "gaussian" && (param.Scalar? || |param.xs| != 2)) ==>
      var raw := seq(|vsys|, i requires 0 <= i < |vsys| => pdf(vsys[i]));
      r == if normalize then NormalizeWeights(raw) else Success(raw)
  {
    if !KnownVsysMethod(vsysMethod) then Failure(NameError)
    else if vsysMethod == "gaussian" && param.Scalar? then Failure(TypeError)
    else if vsysMethod == "gaussian" && |param.xs| != 2 then Failure(ValueError)
    else
      var raw := seq(|vsys|, i requires 0 <= i < |vsys| => pdf(vsys[i]));
      if normalize then NormalizeWeights(raw) else Success(raw)
  }

  // ---------------------------------------------------------------------
  // weight_tracers_from_observations
  // ---------------------------------------------------------------------

  /** A projected offset within ten standard errors of the observed one. NaN
      fails both comparisons. */
  predicate InWindow(r: Float, offset: real, sigma: real)
  {
    r.Num? && offset - 10.0 * sigma <= r.v <= offset + 10.0 * sigma
  }

  /** The weights of `weight_tracers_from_observations` before
      normalisation: the density at tracers inside the window, 0 elsewhere. */
  function ObservationWeights(rproj: seq<Float>, offset: real, sigma: real, pdf: real -> real): (w: seq<real>)
    ensures |w| == |rproj|
    ensures forall i :: 0 <= i < |w| && !InWindow(rproj[i], offset, sigma) ==> w[i] == 0.0
    ensures forall i :: 0 <= i < |w| && InWindow(rproj[i], offset, sigma) ==> w[i] == pdf(rproj[i].v)
  {
    seq(|rproj|, i requires 0 <= i < |rproj| => if InWindow(rproj[i], offset, sigma) then pdf(rproj[i].v) else 0.0)
  }

  /** `weight_tracers_from_observations`. */
  function WeightTracersFromObservations(rproj: seq<Float>, offset: real, sigma: real, pdf: real -> real, normalize: bool): (r: Result<seq<real>, WeightError>)
    ensures !normalize ==> r == Success(ObservationWeights(rproj, offset, sigma, pdf))
    ensures normalize ==> r == NormalizeWeights(ObservationWeights(rproj, offset, sigma, pdf))
  {
    var w := ObservationWeights(rproj, offset, sigma, pdf);
    if normalize then NormalizeWeights(w) else Success(w)
  }

  /** With a density that is positive everywhere, a tracer has a non-zero
      raw weight exactly when its offset is inside the window. */
  lemma ObservationWeightSupport(rproj: seq<Float>, offset: real, sigma: real, pdf: real -> real, i: nat)
    requires i < |rproj|
    requires forall x :: pdf(x) > 0.0
    ensures ObservationWeights(rproj, offset, sigma, pdf)[i] != 0.0 <==> InWindow(rproj[i], offset, sigma)
  {
  }

  /** When no tracer lands inside the window every raw weight is 0, so
      normalisation divides 0 by 0. */
  lemma NoTracerInWindow(rproj: seq<Float>, offset: real, sigma: real, pdf: real -> real)
    requires |rproj| > 0
    requires forall i :: 0 <= i < |rproj| ==> !InWindow(rproj[i], offset, sigma)
    ensures WeightTracersFromObservations(rproj, offset, sigma, pdf, true) == Failure(AllNaN)
  {
    var w := ObservationWeights(rproj, offset, sigma, pdf);
    assert Constant(w);
  }

  /** With a non-negative density, a tracer outside the window keeps weight
      0 after normalisation too: the zero it gets is the minimum. */
  lemma OutsideWindowStaysZero(rproj: seq<Float>, offset: real, sigma: real, pdf: real -> real, i: nat)
    requires i < |rproj| && !InWindow(rproj[i], offset, sigma)
    requires forall x :: pdf(x) >= 0.0
    requires WeightTracersFromObservations(rproj, offset, sigma, pdf, true).Success?
    ensures WeightTracersFromObservations(rproj, offset, sigma, pdf, true).value[i] == 0.0
  {
    var w := ObservationWeights(rproj, offset, sigma, pdf);
    SeqMinIs(w, 0.0, i);
    NormalizeWeightsIsRescale(w);
    assert NormalizeWeights(w).value[i] == Scale(0.0, 0.0, SeqMax(w));
  }

  // ---------------------------------------------------------------------
  // The Tinsp_min clamp of the sample weightings
  // ---------------------------------------------------------------------

  /** The default `Tinsp_min` of the two sample weightings, in Gyr. */
  const DefaultTinspMin: real := 0.000001

  /** `Tinsp_samps[Tinsp_samps < Tinsp_min] = Tinsp_min`. */
  function ClampTinsp(samps: seq<real>, tmin: real): (r: seq<real>)
    ensures |r| == |samps|
    ensures forall i :: 0 <= i < |r| ==> r[i] >= tmin
    ensures forall i :: 0 <= i < |r| && samps[i] >= tmin ==> r[i] == samps[i]
    ensures forall i :: 0 <= i < |r| && samps[i] < tmin ==> r[i] == tmin
  {
    seq(|samps|, i requires 0 <= i < |samps| => if samps[i] < tmin then tmin else samps[i])
  }

  /** With the default `Tinsp_min` every clamped sample is positive, so the
      `np.log10` taken of the samples right after the clamp is finite. */
  lemma DefaultClampAllowsLog(samps: seq<real>)
    ensures forall i :: 0 <= i < |samps| ==> ClampTinsp(samps, DefaultTinspMin)[i] > 0.0
  {
  }

  /** Clamping an already clamped array changes nothing. */
  lemma ClampTinspIdempotent(samps: seq<real>, tmin: real)
    ensures ClampTinsp(ClampTinsp(samps, tmin), tmin) == ClampTinsp(samps, tmin)
  {
  }

  /** The clamp as the source performs it: in place, on the caller's
      array. */
  method ClampTinspInPlace(a: array<real>, tmin: real)
    modifies a
    ensures a[..] == ClampTinsp(old(a[..]), tmin)
  {
    var i := 0;
    while i < a.Length
      invariant 0 <= i <= a.Length
      invariant a[..i] == ClampTinsp(old(a[..]), tmin)[..i]
      invariant forall j :: i <= j < a.Length ==> a[j] == old(a[j])
    {
      if a[i] < tmin {
        a[i] := tmin;
      }
      i := i + 1;
    }
  }
}
