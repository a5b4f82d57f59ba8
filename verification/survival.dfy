/** The survival classifier and the inspiral-time bookkeeping of
    `Systems.check_survival` and `Systems.inspiral_time` (kickIT/system.py).

    The closed-form supernova physics is not modelled: the post-kick
    separation, eccentricity and relative speed of each binary, the square
    root that check 3 uses and the check-4 bound `max_val` are inputs. */
module Survival {
  import opened Base

  /** One binary just after the supernova, in the code's units (masses in
      solar masses, separations in km, speeds in km/s). `epost` is NaN when
      the kick leaves `1 - x` negative under the square root. `massLossRoot`
      is `sqrt(2 * Mtot_post / Mtot_pre)`. */
  datatype Binary = Binary(
    mns: real, mcomp: real, mhe: real,
    apre: real, apost: real, epost: Float,
    vkick: real, vr: real, massLossRoot: real)

  function MtotPre(b: Binary): real { b.mhe + b.mcomp }
  function MtotPost(b: Binary): real { b.mns + b.mcomp }

  /** What the kick physics guarantees of its outputs: positive masses and
      pre-kick separation, a finite non-zero post-kick separation, a positive
      relative speed, and `massLossRoot` the square root it names. */
  predicate WellFormed(b: Binary)
  {
    && b.mns > 0.0 && b.mcomp > 0.0 && b.mhe > 0.0
    && b.apre > 0.0 && b.apost != 0.0 && b.vr > 0.0 && b.vkick >= 0.0
    && b.massLossRoot >= 0.0
    && b.massLossRoot * b.massLossRoot == 2.0 * MtotPost(b) / MtotPre(b)
  }

  /** Check 1: the new orbit passes through the pre-supernova position. A NaN
      eccentricity fails every comparison. */
  predicate Check1(b: Binary)
    requires WellFormed(b)
  {
    var ratio := b.apre / b.apost;
    b.epost.Num? && 1.0 - b.epost.v <= ratio && ratio <= 1.0 + b.epost.v
  }

  /** Check 2: the orbital contraction or expansion stays inside the band
      allowed by the mass loss and the kick. */
  predicate Check2(b: Binary)
    requires WellFormed(b)
  {
    var ratio := b.apre / b.apost;
    var massRatio := MtotPre(b) / MtotPost(b);
    var u := b.vkick / b.vr;
    && ratio < 2.0 - massRatio * ((u - 1.0) * (u - 1.0))
    && ratio > 2.0 - massRatio * ((u + 1.0) * (u + 1.0))
  }

  /** Check 3: the kick is below the unbinding speed and, when more than half
      the mass is lost, above the minimum that keeps the binary bound. */
  predicate Check3(b: Binary)
    requires WellFormed(b)
  {
    var u := b.vkick / b.vr;
    && u < 1.0 + b.massLossRoot
    && (MtotPost(b) / MtotPre(b) > 0.5 || u > 1.0 - b.massLossRoot)
  }

  /** The subset on which the code evaluates the check-4 quadratic. */
  predicate BoundEccentricity(b: Binary)
  {
    b.epost.Num? && b.epost.v <= 1.0
  }

  /** Check 4: the eccentricity is at most 1 and the helium-star mass is below
      the bound `maxVal`. The bound is a partial function defined only on
      bound eccentricities, so the verifier confirms that it is never
      evaluated for the other binaries. */
  predicate Check4(b: Binary, maxVal: Binary --> real)
    requires BoundEccentricity(b) ==> maxVal.requires(b)
  {
    BoundEccentricity(b) && b.mhe <= maxVal(b)
  }

  predicate Survives(b: Binary, maxVal: Binary --> real)
    requires WellFormed(b)
    requires BoundEccentricity(b) ==> maxVal.requires(b)
  {
    Check1(b) && Check2(b) && Check3(b) && Check4(b, maxVal)
  }

  /** A count over a positive total is a fraction in [0, 1]. */
  lemma Ratio(part: nat, total: nat)
    requires 0 < total && part <= total
    ensures 0.0 <= part as real / total as real <= 1.0
  {
  }

  datatype SurvivalReport = SurvivalReport(survive: seq<bool>, fraction: real)

  /** `float(...)/float(len(...))` on an empty ensemble. */
  datatype SurvivalError = ZeroDivisionError

  /** `check_survival`: the per-system `SNsurvive` flags and the surviving
      fraction of the ensemble. */
  function CheckSurvival(bs: seq<Binary>, maxVal: Binary --> real): (r: Result<SurvivalReport, SurvivalError>)
    requires forall i :: 0 <= i < |bs| ==> WellFormed(bs[i])
    requires forall b :: BoundEccentricity(b) ==> maxVal.requires(b)
    ensures r.Failure? <==> |bs| == 0
    ensures r.Success? ==> |r.value.survive| == |bs|
    ensures r.Success? ==> forall i :: 0 <= i < |bs| ==>
      (r.value.survive[i] <==> Check1(bs[i]) && Check2(bs[i]) && Check3(bs[i]) && Check4(bs[i], maxVal))
    ensures r.Success? ==> forall i :: 0 <= i < |bs| ==>
      r.value.survive[i] ==> BoundEccentricity(bs[i]) && bs[i].mhe <= maxVal(bs[i])
    ensures r.Success? ==> 0.0 <= r.value.fraction <= 1.0
    ensures r.Success? ==> r.value.fraction == CountTrue(r.value.survive) as real / |bs| as real
  {
    if |bs| == 0 then Failure(ZeroDivisionError)
    else
      var flags := seq(|bs|, i requires 0 <= i < |bs| => Survives(bs[i], maxVal));
      var n := CountTrue(flags);
      Ratio(n, |bs|);
      Success(SurvivalReport(flags, n as real / |bs| as real))
  }

  /** A binary left on an unbound orbit (eccentricity above 1 or NaN) never
      survives, whatever the other checks say. */
  lemma UnboundNeverSurvives(bs: seq<Binary>, maxVal: Binary --> real, i: nat)
    requires forall j :: 0 <= j < |bs| ==> WellFormed(bs[j])
    requires forall b :: BoundEccentricity(b) ==> maxVal.requires(b)
    requires i < |bs|
    requires bs[i].epost == NaN || bs[i].epost.v > 1.0
    ensures !CheckSurvival(bs, maxVal).value.survive[i]
  {
  }

  /** The classifier looks at each binary alone: replacing another binary of
      the ensemble leaves this one's flag unchanged. */
  lemma SurvivalIsPerSystem(bs: seq<Binary>, maxVal: Binary --> real, j: nat, other: Binary)
    requires forall i :: 0 <= i < |bs| ==> WellFormed(bs[i])
    requires forall b :: BoundEccentricity(b) ==> maxVal.requires(b)
    requires j < |bs| && WellFormed(other)
    ensures forall i :: 0 <= i < |bs| && i != j ==>
      CheckSurvival(bs[j := other], maxVal).value.survive[i] == CheckSurvival(bs, maxVal).value.survive[i]
  {
  }

  // ---------------------------------------------------------------------
  // inspiral_time
  // ---------------------------------------------------------------------

  /** Per-system inspiral times (NaN for disrupted binaries) and the fraction
      of survivors merging within `Tinsp_max`. */
  datatype InspiralReport = InspiralReport(tinsp: seq<Float>, fastFraction: real)

  function FastMask(survive: seq<bool>, peters: seq<real>, tinspMax: real): (m: seq<bool>)
    requires |peters| == |survive|
    ensures |m| == |survive|
    ensures forall i :: 0 <= i < |m| ==> (m[i] <==> survive[i] && peters[i] < tinspMax)
  {
    seq(|survive|, i requires 0 <= i < |survive| => survive[i] && peters[i] < tinspMax)
  }

  /** `inspiral_time`: `peters[i]` is `inspiral_time_peters` evaluated on system
      `i`'s post-kick orbit; it is consulted only for survivors. */
  function InspiralTimes(survive: seq<bool>, peters: seq<real>, tinspMax: real): (r: InspiralReport)
    requires |peters| == |survive|
    ensures |r.tinsp| == |survive|
    ensures forall i :: 0 <= i < |survive| ==> (r.tinsp[i] == NaN <==> !survive[i])
    ensures forall i :: 0 <= i < |survive| ==> survive[i] ==> r.tinsp[i] == Num(peters[i])
    ensures 0.0 <= r.fastFraction <= 1.0
    ensures CountTrue(survive) == 0 ==> r.fastFraction == 0.0
    ensures CountTrue(survive) > 0 ==>
      r.fastFraction == CountTrue(FastMask(survive, peters, tinspMax)) as real / CountTrue(survive) as real
  {
    var times := seq(|survive|, i requires 0 <= i < |survive| => if survive[i] then Num(peters[i]) else NaN);
    var fast := FastMask(survive, peters, tinspMax);
    var survivors := CountTrue(survive);
    CountTrueSubset(fast, survive);
    if survivors == 0 then InspiralReport(times, 0.0)
    else
      Ratio(CountTrue(fast), survivors);
      InspiralReport(times, CountTrue(fast) as real / survivors as real)
  }

  /** Raising `Tinsp_max` never lowers the fraction of fast mergers: every
      survivor counted under the smaller threshold is counted under the
      larger one. */
  lemma FastFractionMonotone(survive: seq<bool>, peters: seq<real>, t1: real, t2: real)
    requires |peters| == |survive|
    requires t1 <= t2
    ensures InspiralTimes(survive, peters, t1).fastFraction <= InspiralTimes(survive, peters, t2).fastFraction
  {
    var f1 := FastMask(survive, peters, t1);
    var f2 := FastMask(survive, peters, t2);
    CountTrueSubset(f1, f2);
    var n := CountTrue(survive);
    if n > 0 {
      QuotientMonotone(CountTrue(f1) as real, CountTrue(f2) as real, n as real);
    }
  }

  lemma QuotientMonotone(a: real, b: real, n: real)
    requires a <= b && n > 0.0
    ensures a / n <= b / n
  {
    assert b / n - a / n == (b - a) / n;
  }
}
