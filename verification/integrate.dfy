/** The per-system epoch walk of `integrate_orbits` (kickIT/system.py).

    A surviving tracer is integrated through one epoch interval of the
    galaxy's time grid after another, starting at its birth epoch `t0`. After
    each interval it stops on the first of three conditions, checked in this
    order: the binary merges inside the interval (the interval is shortened
    to end at the inspiral time), the interval was the last one, or the
    wall-clock budget is spent.

    The galpy orbit integrator, `transform_orbits` (with its random viewing
    angles), the cosmology's age-to-redshift conversion and the wall clock
    are not modelled; they are the fields of an `Env`. */
module Integrate {
  import opened Base
  import opened Utils

  /** The galaxy model's epoch grid (`gal.times`, Gyr) and the
      `fixed_potential` setting (`None` for the default `False`). */
  datatype Config = Config(times: seq<real>, fixedPotential: Option<nat>)

  /** One entry of `systems_info`: index, birth epoch, survival flag,
      inspiral time (Gyr), birth radius (kpc) and post-kick galactic-frame
      velocity (km/s). */
  datatype SystemInfo = SystemInfo(
    idx: nat, t0: nat, survive: bool, tinsp: real,
    r: real, vpx: real, vpy: real, vpz: real)

  /** The final Cartesian position and velocity and the true and projected
      offsets that `transform_orbits` reports for the last orbit point. */
  datatype Snapshot = Snapshot(
    x: real, y: real, z: real, vx: real, vy: real, vz: real,
    rOffset: real, rProjOffset: real)

  /** The collaborators the walk consults.
      - `integrate(seed, dt, pot)`: galpy's `Orbit.integrate` from `seed`
        (physical units) for `dt` in potential number `pot`; `None` when it
        raises `ZeroDivisionError`, otherwise the last orbit point in galpy's
        natural units.
      - `snapshot(idx, last)`: `transform_orbits` of system `idx`'s final
        orbit.
      - `tageToZ(age)`: the cosmology's `tage_to_z`.
      - `overBudget(idx, tt)`: whether system `idx` has used more than
        `Tint_max` seconds of wall time after integrating interval `tt`. */
  datatype Env = Env(
    integrate: (OrbitElems, real, nat) -> Option<OrbitElems>,
    snapshot: (nat, OrbitElems) -> Snapshot,
    tageToZ: real -> real,
    overBudget: (nat, nat) -> bool)

  /** The potential used for interval `tt`: the fixed one when
      `fixed_potential` is truthy, so a fixed index of 0 counts as not fixed. */
  function PotentialIndex(fixed: Option<nat>, tt: nat): (p: nat)
    ensures fixed.Some? && fixed.value != 0 ==> p == fixed.value
    ensures fixed.None? || fixed.value == 0 ==> p == tt
  {
    if fixed.Some? && fixed.value != 0 then fixed.value else tt
  }

  /** Fixing the potential at epoch 0 is the same as not fixing it. */
  lemma FixedPotentialZeroIsNotFixed(tt: nat)
    ensures PotentialIndex(Some(0), tt) == PotentialIndex(None, tt) == tt
  {
  }

  /** The seed of the first interval: the tracer starts on the x axis at its
      birth radius with azimuth 0, and galpy's `vT` is `R * vPhi`. */
  function BirthOrbit(sys: SystemInfo): (o: OrbitElems)
    requires sys.r > 0.0
    ensures o == OrbitElems(sys.r, sys.vpx, sys.vpy, 0.0, sys.vpz, 0.0)
  {
    var c := CartesianToCylindricalOnXAxisAtan2(sys.r, 0.0, sys.vpx, sys.vpy, sys.vpz).value;
    assert c.r * c.vPhi == sys.vpy;
    OrbitElems(c.r, c.vR, c.r * c.vPhi, c.z, c.vZ, c.phi)
  }

  // ---------------------------------------------------------------------
  // The walk
  // ---------------------------------------------------------------------

  /** Why the walk ended: merged at redshift `redz`, ran out of epochs
      (`merger_redz = 0`), over the wall-clock budget (`merger_redz = -1`),
      or the integrator raised `ZeroDivisionError`. */
  datatype Stop = Merged(redz: real) | Exhausted | TimedOut | IntegratorFailed

  /** One call of the integrator: seed, duration and potential index. */
  datatype Segment = Segment(seed: OrbitElems, dt: real, pot: nat)

  /** A finished walk: why it stopped, the epoch index `last` of the final
      interval, the elapsed time `T_elapsed` after the final update, every
      integrator call in order, and the final orbit point. */
  datatype Walk = Walk(stop: Stop, last: nat, elapsed: real, segments: seq<Segment>, final: Option<OrbitElems>)

  /** The interval starting at epoch `j` ends past the inspiral time. */
  predicate Crosses(c: Config, sys: SystemInfo, j: nat)
    requires sys.t0 < |c.times| && j + 1 < |c.times|
  {
    c.times[j + 1] - c.times[sys.t0] > sys.tinsp
  }

  /** Some stopping condition holds after the interval starting at `j`. */
  predicate Halts(c: Config, env: Env, sys: SystemInfo, j: nat)
    requires sys.t0 < |c.times| && j + 1 < |c.times|
  {
    Crosses(c, sys, j) || j == |c.times| - 2 || env.overBudget(sys.idx, j)
  }

  /** `segs` are the integrator calls of consecutive intervals from `tt`:
      each is made in the potential of its interval, and every call but the
      last covers its whole interval, succeeds, and seeds the next call with
      its final point converted back to physical units. */
  ghost predicate Chained(c: Config, env: Env, tt: nat, segs: seq<Segment>)
    decreases |segs|
  {
    && |segs| > 0
    && tt + |segs| < |c.times|
    && segs[0].pot == PotentialIndex(c.fixedPotential, tt)
    && (|segs| > 1 ==>
      && segs[0].dt == c.times[tt + 1] - c.times[tt]
      && env.integrate(segs[0].seed, segs[0].dt, segs[0].pot).Some?
      && segs[1].seed == OrbitNatToPhys(env.integrate(segs[0].seed, segs[0].dt, segs[0].pot).value)
      && Chained(c, env, tt + 1, segs[1..]))
  }

  /** The same chain, call by call. */
  lemma {:induction false} ChainedCalls(c: Config, env: Env, tt: nat, segs: seq<Segment>)
    requires Chained(c, env, tt, segs)
    decreases |segs|
    ensures tt + |segs| < |c.times|
    ensures forall k :: 0 <= k < |segs| ==> segs[k].pot == PotentialIndex(c.fixedPotential, tt + k)
    ensures forall k :: 0 <= k < |segs| - 1 ==>
      && segs[k].dt == c.times[tt + k + 1] - c.times[tt + k]
      && env.integrate(segs[k].seed, segs[k].dt, segs[k].pot).Some?
      && segs[k + 1].seed == OrbitNatToPhys(env.integrate(segs[k].seed, segs[k].dt, segs[k].pot).value)
  {
    if |segs| > 1 {
      var rest := segs[1..];
      ChainedCalls(c, env, tt + 1, rest);
      forall k | 1 <= k < |segs|
        ensures segs[k].pot == PotentialIndex(c.fixedPotential, tt + k)
      {
        assert segs[k] == rest[k - 1];
      }
      forall k | 1 <= k < |segs| - 1
        ensures segs[k].dt == c.times[tt + k + 1] - c.times[tt + k]
        ensures env.integrate(segs[k].seed, segs[k].dt, segs[k].pot).Some?
        ensures segs[k + 1].seed == OrbitNatToPhys(env.integrate(segs[k].seed, segs[k].dt, segs[k].pot).value)
      {
        assert segs[k] == rest[k - 1] && segs[k + 1] == rest[k];
      }
    }
  }

  /** One pass of the inner loop: either the walk ends after this interval
      or it goes on to the next interval from the converted final point. */
  datatype Step = Halt(walk: Walk) | Next(seg: Segment, next: OrbitElems)

  /** Why and where a walk stops, given its stop reason, last interval,
      elapsed time, final orbit and last integrator call: at a halting
      interval unless the integrator raised; merged exactly when that
      interval crosses the inspiral time, with the final call shortened to
      end at it; out of epochs only at the final interval; timed out only
      before it. */
  predicate StoppedAt(c: Config, env: Env, sys: SystemInfo, stop: Stop, last: nat, elapsed: real,
                      final: Option<OrbitElems>, s: Segment)
    requires sys.t0 <= last < |c.times| - 1
  {
    && final == env.integrate(s.seed, s.dt, s.pot)
    && (stop.IntegratorFailed? <==> final.None?)
    && (!stop.IntegratorFailed? ==> Halts(c, env, sys, last))
    && (!stop.IntegratorFailed? ==> (stop.Merged? <==> Crosses(c, sys, last)))
    && (Crosses(c, sys, last) ==> s.dt == sys.tinsp - (c.times[last] - c.times[sys.t0]))
    && (!Crosses(c, sys, last) ==> s.dt == c.times[last + 1] - c.times[last])
    && (stop.Merged? ==> stop.redz == env.tageToZ(c.times[sys.t0] + sys.tinsp) && elapsed == sys.tinsp)
    && (stop.Exhausted? ==> last == |c.times| - 2)
    && (stop.TimedOut? ==> last < |c.times| - 2 && env.overBudget(sys.idx, last))
    && (stop.Exhausted? || stop.TimedOut? ==> elapsed == c.times[last + 1] - c.times[sys.t0])
  }

  /** Interval `tt` of the loop, entered with the elapsed time
      `times[tt] - times[t0]` and the seed `seed`. */
  function StepAt(c: Config, env: Env, sys: SystemInfo, tt: nat, elapsed: real, seed: OrbitElems): (s: Step)
    requires sys.t0 <= tt < |c.times| - 1
    requires elapsed == c.times[tt] - c.times[sys.t0]
    ensures var pot := PotentialIndex(c.fixedPotential, tt);
      var dt := c.times[tt + 1] - c.times[tt];
      && (s.Next? <==> !Halts(c, env, sys, tt) && env.integrate(seed, dt, pot).Some?)
      && (s.Next? ==> s.seg == Segment(seed, dt, pot) && s.next == OrbitNatToPhys(env.integrate(seed, dt, pot).value))
    ensures s.Halt? ==>
      var w := s.walk;
      && w.last == tt
      && |w.segments| == 1
      && w.segments[0].seed == seed
      && w.segments[0].pot == PotentialIndex(c.fixedPotential, tt)
      && StoppedAt(c, env, sys, w.stop, tt, w.elapsed, w.final, w.segments[0])
  {
    var pot := PotentialIndex(c.fixedPotential, tt);
    var dt := c.times[tt + 1] - c.times[tt];
    if elapsed + dt > sys.tinsp then
      var short := sys.tinsp - elapsed;
      match env.integrate(seed, short, pot)
      case None => Halt(Walk(IntegratorFailed, tt, elapsed, [Segment(seed, short, pot)], None))
      case Some(o) =>
        Halt(Walk(Merged(env.tageToZ(c.times[sys.t0] + sys.tinsp)), tt, elapsed + short, [Segment(seed, short, pot)], Some(o)))
    else
      match env.integrate(seed, dt, pot)
      case None => Halt(Walk(IntegratorFailed, tt, elapsed, [Segment(seed, dt, pot)], None))
      case Some(o) =>
        if tt == |c.times| - 2 then Halt(Walk(Exhausted, tt, elapsed + dt, [Segment(seed, dt, pot)], Some(o)))
        else if env.overBudget(sys.idx, tt) then Halt(Walk(TimedOut, tt, elapsed + dt, [Segment(seed, dt, pot)], Some(o)))
        else Next(Segment(seed, dt, pot), OrbitNatToPhys(o))
  }

  /** The loop of `integrate_orbits` from interval `tt`. */
  function WalkFrom(c: Config, env: Env, sys: SystemInfo, tt: nat, elapsed: real, seed: OrbitElems): (w: Walk)
    requires sys.t0 <= tt < |c.times| - 1
    requires elapsed == c.times[tt] - c.times[sys.t0]
    decreases |c.times| - tt
    ensures tt <= w.last <= |c.times| - 2
    ensures |w.segments| == w.last - tt + 1
    ensures w.segments[0].seed == seed
  {
    match StepAt(c, env, sys, tt, elapsed, seed)
    case Halt(w) => w
    case Next(seg, next) =>
      var rest := WalkFrom(c, env, sys, tt + 1, elapsed + seg.dt, next);
      rest.(segments := [seg] + rest.segments)
  }

  /** Every walk stops as `StoppedAt` describes, its last call being the
      last segment. */
  lemma {:induction false} WalkStop(c: Config, env: Env, sys: SystemInfo, tt: nat, elapsed: real, seed: OrbitElems)
    requires sys.t0 <= tt < |c.times| - 1
    requires elapsed == c.times[tt] - c.times[sys.t0]
    decreases |c.times| - tt
    ensures var w := WalkFrom(c, env, sys, tt, elapsed, seed);
      StoppedAt(c, env, sys, w.stop, w.last, w.elapsed, w.final, w.segments[|w.segments| - 1])
  {
    var w := WalkFrom(c, env, sys, tt, elapsed, seed);
    match StepAt(c, env, sys, tt, elapsed, seed)
    case Halt(_) =>
    case Next(seg, next) =>
      var rest := WalkFrom(c, env, sys, tt + 1, elapsed + seg.dt, next);
      WalkStop(c, env, sys, tt + 1, elapsed + seg.dt, next);
      assert w == rest.(segments := [seg] + rest.segments);
      assert w.segments[|w.segments| - 1] == rest.segments[|rest.segments| - 1];
  }

  /** No stopping condition holds before the interval at which a walk
      stops. */
  lemma {:induction false} WalkHaltsFirst(c: Config, env: Env, sys: SystemInfo, tt: nat, elapsed: real, seed: OrbitElems)
    requires sys.t0 <= tt < |c.times| - 1
    requires elapsed == c.times[tt] - c.times[sys.t0]
    decreases |c.times| - tt
    ensures var w := WalkFrom(c, env, sys, tt, elapsed, seed);
      forall j :: tt <= j < w.last ==> !Halts(c, env, sys, j)
  {
    match StepAt(c, env, sys, tt, elapsed, seed)
    case Halt(_) =>
    case Next(seg, next) =>
      WalkHaltsFirst(c, env, sys, tt + 1, elapsed + seg.dt, next);
  }

  /** The integrator calls of a walk form a chain. */
  lemma {:induction false} WalkChained(c: Config, env: Env, sys: SystemInfo, tt: nat, elapsed: real, seed: OrbitElems)
    requires sys.t0 <= tt < |c.times| - 1
    requires elapsed == c.times[tt] - c.times[sys.t0]
    decreases |c.times| - tt
    ensures Chained(c, env, tt, WalkFrom(c, env, sys, tt, elapsed, seed).segments)
  {
    var w := WalkFrom(c, env, sys, tt, elapsed, seed);
    match StepAt(c, env, sys, tt, elapsed, seed)
    case Halt(_) =>
    case Next(seg, next) =>
      var rest := WalkFrom(c, env, sys, tt + 1, elapsed + seg.dt, next);
      WalkChained(c, env, sys, tt + 1, elapsed + seg.dt, next);
      assert w.segments[1..] == rest.segments;
  }

  // ---------------------------------------------------------------------
  // integrate_orbits
  // ---------------------------------------------------------------------

  /** How a call of `integrate_orbits` goes: a disrupted system returns at
      once; a survivor born at or after the last epoch never enters
      the inner loop, so the outer `while FINISHED_EVOLVING==False` loop spins
      forever; every other survivor walks the epochs. */
  datatype Run = Disrupted | Stuck | Ran(walk: Walk)

  function IntegrateOrbits(c: Config, env: Env, sys: SystemInfo): (run: Run)
    requires sys.survive ==> sys.r > 0.0
    ensures run.Disrupted? <==> !sys.survive
    ensures run.Stuck? <==> sys.survive && sys.t0 >= |c.times| - 1
    ensures run.Ran? ==> sys.t0 < |c.times| - 1
    ensures run.Ran? ==> sys.t0 <= run.walk.last <= |c.times| - 2
    ensures run.Ran? ==> |run.walk.segments| == run.walk.last - sys.t0 + 1
    ensures run.Ran? ==> run.walk.segments[0].seed == OrbitElems(sys.r, sys.vpx, sys.vpy, 0.0, sys.vpz, 0.0)
    ensures run.Ran? ==> |run.walk.segments| <= |c.times| - 1 - sys.t0
  {
    if !sys.survive then Disrupted
    else if sys.t0 >= |c.times| - 1 then Stuck
    else Ran(WalkFrom(c, env, sys, sys.t0, 0.0, BirthOrbit(sys)))
  }

  /** What `integrate_orbits` returns: the final snapshot (`None` standing for
      eight NaNs) and `merger_redz`. */
  datatype Report = Report(state: Option<Snapshot>, mergerRedz: Float)

  /** The all-zero tuple returned after a `ZeroDivisionError`. */
  const ZeroSnapshot: Snapshot := Snapshot(0.0, 0.0, 0.0, 0.0, 0.0, 0.0, 0.0, 0.0)

  /** The tuple `integrate_orbits` returns, or `None` when it never returns. */
  function IntegrateOrbitsReport(c: Config, env: Env, sys: SystemInfo): (r: Option<Report>)
    requires sys.survive ==> sys.r > 0.0
    ensures r.None? <==> IntegrateOrbits(c, env, sys).Stuck?
    ensures !sys.survive ==> r == Some(Report(None, NaN))
    ensures r.Some? && sys.survive ==> r.value.state.Some? && r.value.mergerRedz.Num?
  {
    match IntegrateOrbits(c, env, sys)
    case Disrupted => Some(Report(None, NaN))
    case Stuck => None
    case Ran(w) =>
      WalkStop(c, env, sys, sys.t0, 0.0, BirthOrbit(sys));
      match w.stop
      case IntegratorFailed => Some(Report(Some(ZeroSnapshot), Num(0.0)))
      case Merged(z) => Some(Report(Some(env.snapshot(sys.idx, w.final.value)), Num(z)))
      case Exhausted => Some(Report(Some(env.snapshot(sys.idx, w.final.value)), Num(0.0)))
      case TimedOut => Some(Report(Some(env.snapshot(sys.idx, w.final.value)), Num(-1.0)))
  }

  // ---------------------------------------------------------------------
  // Properties of the walk
  // ---------------------------------------------------------------------

  /** The integrator never raises. */
  ghost predicate IntegratorTotal(env: Env)
  {
    forall o, dt, p :: env.integrate(o, dt, p).Some?
  }

  /** The walk of a survivor born before the last interval, with the facts
      the lemmas below rely on: it starts from the birth orbit, no stopping
      condition holds before its last interval, and it stops as `WalkStop`
      describes. */
  lemma RanWalk(c: Config, env: Env, sys: SystemInfo)
    requires sys.r > 0.0 && sys.survive
    requires sys.t0 < |c.times| - 1
    ensures IntegrateOrbits(c, env, sys) == Ran(WalkFrom(c, env, sys, sys.t0, 0.0, BirthOrbit(sys)))
    ensures var w := IntegrateOrbits(c, env, sys).walk;
      var s := w.segments[|w.segments| - 1];
      && (forall j :: sys.t0 <= j < w.last ==> !Halts(c, env, sys, j))
      && w.final == env.integrate(s.seed, s.dt, s.pot)
      && (w.stop.IntegratorFailed? <==> w.final.None?)
      && (!w.stop.IntegratorFailed? ==> Halts(c, env, sys, w.last))
      && (!w.stop.IntegratorFailed? ==> (w.stop.Merged? <==> Crosses(c, sys, w.last)))
      && (Crosses(c, sys, w.last) ==> s.dt == sys.tinsp - (c.times[w.last] - c.times[sys.t0]))
      && (!Crosses(c, sys, w.last) ==> s.dt == c.times[w.last + 1] - c.times[w.last])
      && (w.stop.Merged? ==> w.stop.redz == env.tageToZ(c.times[sys.t0] + sys.tinsp) && w.elapsed == sys.tinsp)
      && (w.stop.Exhausted? ==> w.last == |c.times| - 2)
      && (w.stop.TimedOut? ==> w.last < |c.times| - 2 && env.overBudget(sys.idx, w.last))
      && (w.stop.Exhausted? || w.stop.TimedOut? ==> w.elapsed == c.times[w.last + 1] - c.times[sys.t0])
  {
    WalkStop(c, env, sys, sys.t0, 0.0, BirthOrbit(sys));
    WalkHaltsFirst(c, env, sys, sys.t0, 0.0, BirthOrbit(sys));
  }

  /** The shortened merger interval is no longer than the interval it
      replaces, and not negative when the inspiral time is not. */
  lemma MergeSegmentBounds(c: Config, env: Env, sys: SystemInfo)
    requires sys.r > 0.0
    requires IntegrateOrbits(c, env, sys).Ran?
    requires IntegrateOrbits(c, env, sys).walk.stop.Merged?
    requires sys.tinsp >= 0.0
    ensures var w := IntegrateOrbits(c, env, sys).walk;
      0.0 <= w.segments[|w.segments| - 1].dt < c.times[w.last + 1] - c.times[w.last]
  {
    RanWalk(c, env, sys);
    var w := IntegrateOrbits(c, env, sys).walk;
    if w.last > sys.t0 {
      assert !Halts(c, env, sys, w.last - 1);
    }
  }

  /** With an integrator that never raises, the walk stops at the first
      interval after which some stopping condition holds, and the reported
      `merger_redz` follows the order of the checks: merger first, then the
      last epoch, then the budget. */
  lemma StopsAtFirstHalt(c: Config, env: Env, sys: SystemInfo)
    requires sys.r > 0.0 && sys.survive
    requires sys.t0 < |c.times| - 1
    requires IntegratorTotal(env)
    ensures var w := IntegrateOrbits(c, env, sys).walk;
      && Halts(c, env, sys, w.last)
      && (forall j :: sys.t0 <= j < w.last ==> !Halts(c, env, sys, j))
      && IntegrateOrbitsReport(c, env, sys).value.mergerRedz ==
           if Crosses(c, sys, w.last) then Num(env.tageToZ(c.times[sys.t0] + sys.tinsp))
           else if w.last == |c.times| - 2 then Num(0.0)
           else Num(-1.0)
  {
    RanWalk(c, env, sys);
    var w := IntegrateOrbits(c, env, sys).walk;
    var s := w.segments[|w.segments| - 1];
    assert env.integrate(s.seed, s.dt, s.pot).Some?;
  }

  /** A system that does not halt before the final interval and crosses its
      inspiral time there reports a real merger redshift, not the sentinel,
      even when the wall-clock budget has also run out. */
  lemma FinalIntervalMergerIsReal(c: Config, env: Env, sys: SystemInfo)
    requires sys.r > 0.0 && sys.survive
    requires sys.t0 < |c.times| - 1
    requires IntegratorTotal(env)
    requires forall j :: sys.t0 <= j < |c.times| - 2 ==> !Halts(c, env, sys, j)
    requires Crosses(c, sys, |c.times| - 2)
    ensures IntegrateOrbitsReport(c, env, sys).value.mergerRedz == Num(env.tageToZ(c.times[sys.t0] + sys.tinsp))
  {
    StopsAtFirstHalt(c, env, sys);
  }

  /** At the final interval, running out of epochs wins over the wall-clock
      budget: the sentinel is 0, never -1. */
  lemma ExhaustionBeatsTimeout(c: Config, env: Env, sys: SystemInfo)
    requires sys.r > 0.0 && sys.survive
    requires sys.t0 < |c.times| - 1
    requires IntegratorTotal(env)
    requires forall j :: sys.t0 <= j < |c.times| - 2 ==> !Halts(c, env, sys, j)
    requires !Crosses(c, sys, |c.times| - 2)
    requires env.overBudget(sys.idx, |c.times| - 2)
    ensures IntegrateOrbitsReport(c, env, sys).value.mergerRedz == Num(0.0)
  {
    StopsAtFirstHalt(c, env, sys);
  }

  ghost predicate NonDecreasing(times: seq<real>)
  {
    forall i, j :: 0 <= i <= j < |times| ==> times[i] <= times[j]
  }

  /** A survivor whose inspiral time outlasts the remaining epochs and whose
      budget never trips before the final interval runs out of epochs: it
      reports `merger_redz = 0` after exactly `times[-1] - times[t0]`. */
  lemma LongInspiralExhausts(c: Config, env: Env, sys: SystemInfo)
    requires sys.r > 0.0 && sys.survive
    requires sys.t0 < |c.times| - 1
    requires NonDecreasing(c.times)
    requires IntegratorTotal(env)
    requires sys.tinsp >= c.times[|c.times| - 1] - c.times[sys.t0]
    requires forall j :: sys.t0 <= j < |c.times| - 2 ==> !env.overBudget(sys.idx, j)
    ensures IntegrateOrbits(c, env, sys).walk.stop == Exhausted
    ensures IntegrateOrbits(c, env, sys).walk.elapsed == c.times[|c.times| - 1] - c.times[sys.t0]
    ensures IntegrateOrbitsReport(c, env, sys).value.mergerRedz == Num(0.0)
  {
    RanWalk(c, env, sys);
    StopsAtFirstHalt(c, env, sys);
    var w := IntegrateOrbits(c, env, sys).walk;
    assert !Crosses(c, sys, w.last) by {
      assert c.times[w.last + 1] <= c.times[|c.times| - 1];
    }
    assert w.last == |c.times| - 2;
    var s := w.segments[|w.segments| - 1];
    assert env.integrate(s.seed, s.dt, s.pot).Some?;
  }

  /** A survivor whose inspiral time ends inside its first interval merges in
      that interval, after integrating exactly the inspiral time; with a
      cosmology in which redshift falls as the universe ages, it merges at a
      lower redshift than that of its birth epoch. */
  lemma ShortInspiralMergesFirst(c: Config, env: Env, sys: SystemInfo)
    requires sys.r > 0.0 && sys.survive
    requires sys.t0 < |c.times| - 1
    requires IntegratorTotal(env)
    requires 0.0 < sys.tinsp < c.times[sys.t0 + 1] - c.times[sys.t0]
    requires forall a, b :: a < b ==> env.tageToZ(b) < env.tageToZ(a)
    ensures var w := IntegrateOrbits(c, env, sys).walk;
      && w.stop.Merged?
      && w.last == sys.t0
      && w.segments == [Segment(OrbitElems(sys.r, sys.vpx, sys.vpy, 0.0, sys.vpz, 0.0), sys.tinsp, PotentialIndex(c.fixedPotential, sys.t0))]
      && w.stop.redz < env.tageToZ(c.times[sys.t0])
  {
    RanWalk(c, env, sys);
    WalkChained(c, env, sys, sys.t0, 0.0, BirthOrbit(sys));
    var w := IntegrateOrbits(c, env, sys).walk;
    assert Halts(c, env, sys, sys.t0);
    var s := w.segments[0];
    assert env.integrate(s.seed, s.dt, s.pot).Some?;
  }
}
