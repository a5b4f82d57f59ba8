/** Array and unit helpers of kickIT/utils.py: annulus areas and shell volumes
    with the inner-bin reset, reverse enumeration, the natural/physical orbit
    scaling, Euler rotations, the on-axis Cartesian-to-cylindrical transform
    and the circular branch of the Peters inspiral time.

    Trigonometric values are inputs: an angle is handed over as the pair
    (cos, sin) that numpy would compute for it. */
module Utils {
  import opened Base
  import opened SeqMath

  /** numpy's `np.pi`, written out to the digits of the double it denotes. */
  const Pi: real := 3.141592653589793
  const TwoPi: real := 2.0 * Pi

  // ---------------------------------------------------------------------
  // annulus_areas / shell_volumes
  // ---------------------------------------------------------------------

  /** Why an array helper produces no finite array: an index past the end
      (`IndexError`) or a result holding inf/NaN from a division by zero. */
  datatype ArrayError = IndexError | NonFinite

  /** The radius used for bin `i`: the raw radius, or the radius relative to
      the innermost one when `relative` is set. */
  function RelRadius(rads: seq<real>, relative: bool, i: nat): real
    requires i < |rads|
    requires relative ==> rads[0] != 0.0
  {
    if relative then rads[i] / rads[0] else rads[i]
  }

  function Square(x: real): real { x * x }
  function Cube(x: real): real { x * x * x }

  /** `area[1] / (area[2] / area[1])` under IEEE division. A zero bin 2
      makes the inner quotient a signed zero, so the outer division gives an
      infinity (bin 1 non-zero) or NaN (bin 1 zero as well): no finite
      value. A zero bin 1 alone makes the inner quotient infinite and the
      outer one zero. */
  function InnerReset(d1: real, d2: real): Option<real>
  {
    if d2 == 0.0 then None
    else if d1 == 0.0 then Some(0.0)
    else Some(d1 / (d2 / d1))
  }

  /** The reset inner bin continues bins 1 and 2 geometrically
      (`a0 / a1 == a1 / a2`, written without division), and there is a
      finite value exactly when bin 2 is non-zero. */
  lemma InnerResetGeometric(d1: real, d2: real)
    ensures InnerReset(d1, d2).None? <==> d2 == 0.0
    ensures InnerReset(d1, d2).Some? ==> InnerReset(d1, d2).value * d2 == d1 * d1
  {
    if d1 != 0.0 && d2 != 0.0 {
      var t := d2 / d1;
      assert t * d1 == d2;
      var a0 := d1 / t;
      assert a0 * t == d1;
      calc {
        a0 * d2;
        a0 * (t * d1);
        (a0 * t) * d1;
        d1 * d1;
      }
    }
  }

  /** The radii as the code uses them: divided by the innermost radius when
      `relative` is set. */
  function ScaledRadii(rads: seq<real>, relative: bool): (rr: seq<real>)
    requires relative ==> |rads| > 0 && rads[0] != 0.0
    ensures |rr| == |rads|
    ensures forall i :: 0 <= i < |rads| ==> rr[i] == RelRadius(rads, relative, i)
  {
    if relative then seq(|rads|, i requires 0 <= i < |rads| => rads[i] / rads[0]) else rads
  }

  /** The enclosed area or volume at every radius. */
  function Enclosed(rr: seq<real>, shape: real -> real): (e: seq<real>)
    ensures |e| == |rr|
    ensures forall i :: 0 <= i < |rr| ==> e[i] == shape(rr[i])
  {
    seq(|rr|, i requires 0 <= i < |rr| => shape(rr[i]))
  }

  /** Bin 0 continues bins 1 and 2 geometrically (`a0 / a1 == a1 / a2`),
      bin 2 being non-zero; a zero bin 1 thus forces a zero bin 0. */
  predicate GeometricInner(v: seq<real>)
    requires |v| >= 3
  {
    v[2] != 0.0 && v[0] * v[2] == v[1] * v[1]
  }

  /** The differenced profile before any inner-bin reset: bin 0 holds the
      whole enclosed amount, bin `i` the amount between radii `i - 1` and
      `i`. */
  function RawProfile(rads: seq<real>, relative: bool, shape: real -> real): (d: seq<real>)
    requires relative ==> |rads| > 0 && rads[0] != 0.0
    ensures |d| == |rads|
    ensures |rads| > 0 ==> d[0] == shape(RelRadius(rads, relative, 0))
    ensures forall i :: 1 <= i < |rads| ==>
      d[i] == shape(RelRadius(rads, relative, i)) - shape(RelRadius(rads, relative, i - 1))
  {
    Differences(Enclosed(ScaledRadii(rads, relative), shape))
  }

  /** `area[0] = area[1] / (area[2] / area[1])`: only bin 0 changes, and it
      becomes the geometric continuation of bins 1 and 2; the infinity or
      NaN a zero bin 2 produces there is reported as no result. */
  function ResetInner(d: seq<real>): (r: Option<seq<real>>)
    requires |d| >= 3
    ensures r.None? <==> d[2] == 0.0
    ensures r.Some? ==> |r.value| == |d| && GeometricInner(r.value)
    ensures r.Some? ==> forall i :: 1 <= i < |d| ==> r.value[i] == d[i]
  {
    match InnerReset(d[1], d[2])
    case None => None
    case Some(a0) =>
      InnerResetGeometric(d[1], d[2]);
      Some(d[0 := a0])
  }

  /** Whether the profile has no finite value although no index is out of
      range: `relative` with a zero innermost radius (every scaled radius is
      infinite or NaN), or the reset with equal enclosed amounts at radii 1
      and 2 (bin 2 is zero). */
  predicate NonFiniteProfile(rads: seq<real>, relative: bool, resetInner: bool, shape: real -> real)
  {
    && !(relative && |rads| == 0) && !(resetInner && |rads| < 3)
    && ((relative && rads[0] == 0.0)
        || (resetInner && shape(RelRadius(rads, relative, 2)) == shape(RelRadius(rads, relative, 1))))
  }

  /** The common body of `annulus_areas` and `shell_volumes`: scale the
      radii, map them through `shape` (the area or volume of the enclosed
      disc or ball), difference adjacent bins, then optionally replace the
      inner bin by the geometric continuation of bins 1 and 2. Errors appear
      in the order the code raises them. */
  function BinProfile(rads: seq<real>, relative: bool, resetInner: bool, shape: real -> real)
    : (r: Result<seq<real>, ArrayError>)
    ensures r == Failure(IndexError) <==> (relative && |rads| == 0) || (resetInner && |rads| < 3)
    ensures r.Success? ==> |r.value| == |rads| && (relative ==> rads[0] != 0.0)
    ensures r.Success? ==>
      forall i :: 1 <= i < |rads| ==>
        r.value[i] == shape(RelRadius(rads, relative, i)) - shape(RelRadius(rads, relative, i - 1))
    ensures r.Success? && !resetInner && |rads| > 0 ==> r.value[0] == shape(RelRadius(rads, relative, 0))
    ensures r == Failure(NonFinite) <==> NonFiniteProfile(rads, relative, resetInner, shape)
    ensures r.Success? && resetInner ==> |r.value| >= 3 && GeometricInner(r.value)
  {
    if relative && |rads| == 0 then Failure(IndexError)
    else if resetInner && |rads| < 3 then Failure(IndexError)
    else if relative && rads[0] == 0.0 then Failure(NonFinite)
    else
      var d := RawProfile(rads, relative, shape);
      if !resetInner then Success(d)
      else
        match ResetInner(d)
        case None => Failure(NonFinite)
        case Some(e) => Success(e)
  }

  function DiscArea(x: real): real { Pi * Square(x) }
  function BallVolume(x: real): real { (4.0 / 3.0) * Pi * Cube(x) }

  /** A non-zero factor can be cancelled from both sides of an equation. */
  lemma CancelFactor(k: real, x: real, y: real)
    requires k != 0.0
    ensures k * x == k * y <==> x == y
  {
    if k * x == k * y {
      assert k * (x - y) == 0.0;
    }
  }

  /** For a shape that is a non-zero multiple of `power`, bins 1 and 2
      enclose equal amounts exactly when `power` agrees at radii 1 and 2. */
  lemma OuterBinsFlat(rads: seq<real>, relative: bool, resetInner: bool, k: real,
                      power: real -> real, shape: real -> real)
    requires k != 0.0
    requires forall x :: shape(x) == k * power(x)
    ensures resetInner && |rads| >= 3 && !(relative && rads[0] == 0.0) ==>
      (shape(RelRadius(rads, relative, 2)) == shape(RelRadius(rads, relative, 1))
       <==> power(RelRadius(rads, relative, 2)) == power(RelRadius(rads, relative, 1)))
  {
    if resetInner && |rads| >= 3 && !(relative && rads[0] == 0.0) {
      CancelFactor(k, power(RelRadius(rads, relative, 2)), power(RelRadius(rads, relative, 1)));
    }
  }

  /** `annulus_areas`: the area of each annulus between consecutive radii. */
  function AnnulusAreas(rads: seq<real>, relative: bool, resetInner: bool): (r: Result<seq<real>, ArrayError>)
    ensures r == Failure(IndexError) <==> (relative && |rads| == 0) || (resetInner && |rads| < 3)
    ensures r.Success? ==> |r.value| == |rads| && (relative ==> rads[0] != 0.0)
    ensures r.Success? ==>
      forall i :: 1 <= i < |rads| ==>
        r.value[i] == DiscArea(RelRadius(rads, relative, i)) - DiscArea(RelRadius(rads, relative, i - 1))
    ensures r.Success? && !resetInner && |rads| > 0 ==> r.value[0] == DiscArea(RelRadius(rads, relative, 0))
    ensures r.Success? && relative && !resetInner ==> r.value[0] == Pi
    ensures r.Success? && resetInner ==> |r.value| >= 3 && GeometricInner(r.value)
    ensures r == Failure(NonFinite) <==>
      && !(relative && |rads| == 0) && !(resetInner && |rads| < 3)
      && ((relative && rads[0] == 0.0)
          || (resetInner && Square(RelRadius(rads, relative, 2)) == Square(RelRadius(rads, relative, 1))))
  {
    var r := BinProfile(rads, relative, resetInner, DiscArea);
    OuterBinsFlat(rads, relative, resetInner, Pi, Square, DiscArea);
    if r.Success? && relative then
      assert RelRadius(rads, relative, 0) == 1.0;
      r
    else r
  }

  /** `shell_volumes`: the volume of each spherical shell between consecutive
      radii. */
  function ShellVolumes(rads: seq<real>, relative: bool, resetInner: bool): (r: Result<seq<real>, ArrayError>)
    ensures r == Failure(IndexError) <==> (relative && |rads| == 0) || (resetInner && |rads| < 3)
    ensures r.Success? ==> |r.value| == |rads| && (relative ==> rads[0] != 0.0)
    ensures r.Success? ==>
      forall i :: 1 <= i < |rads| ==>
        r.value[i] == BallVolume(RelRadius(rads, relative, i)) - BallVolume(RelRadius(rads, relative, i - 1))
    ensures r.Success? && !resetInner && |rads| > 0 ==> r.value[0] == BallVolume(RelRadius(rads, relative, 0))
    ensures r.Success? && relative && !resetInner ==> r.value[0] == (4.0 / 3.0) * Pi
    ensures r.Success? && resetInner ==> |r.value| >= 3 && GeometricInner(r.value)
    ensures r == Failure(NonFinite) <==>
      && !(relative && |rads| == 0) && !(resetInner && |rads| < 3)
      && ((relative && rads[0] == 0.0)
          || (resetInner && Cube(RelRadius(rads, relative, 2)) == Cube(RelRadius(rads, relative, 1))))
  {
    var r := BinProfile(rads, relative, resetInner, BallVolume);
    OuterBinsFlat(rads, relative, resetInner, (4.0 / 3.0) * Pi, Cube, BallVolume);
    if r.Success? && relative then
      assert RelRadius(rads, relative, 0) == 1.0;
      r
    else r
  }

  /** Radii 1, 2, 2 with `relative` and the reset: bin 2 is empty, so the
      reset divides by zero and the inner bin is infinite. */
  lemma FlatOuterBinHasNoFiniteReset()
    ensures AnnulusAreas([1.0, 2.0, 2.0], true, true) == Failure(NonFinite)
    ensures ShellVolumes([1.0, 2.0, 2.0], true, true) == Failure(NonFinite)
  {
    var rads := [1.0, 2.0, 2.0];
    assert RelRadius(rads, true, 2) == RelRadius(rads, true, 1) == 2.0;
  }

  predicate StrictlyIncreasingPositive(rads: seq<real>)
  {
    && (|rads| > 0 ==> rads[0] > 0.0)
    && forall i :: 1 <= i < |rads| ==> rads[i - 1] < rads[i]
  }

  lemma CubeStrictlyMonotone(a: real, b: real)
    requires 0.0 < a < b
    ensures Cube(a) < Cube(b)
  {
    assert a * a < b * b by {
      assert a * a < a * b;
      assert a * b < b * b;
    }
    assert a * a * a < b * b * a;
    assert b * b * a < b * b * b;
  }

  lemma SquareStrictlyMonotone(a: real, b: real)
    requires 0.0 < a < b
    ensures Square(a) < Square(b)
  {
    assert a * a < a * b;
    assert a * b < b * b;
  }

  lemma {:induction false} RelRadiusIncreasing(rads: seq<real>, relative: bool, i: nat)
    requires StrictlyIncreasingPositive(rads)
    requires 1 <= i < |rads|
    ensures 0.0 < RelRadius(rads, relative, i - 1) < RelRadius(rads, relative, i)
  {
    if i > 1 {
      RelRadiusIncreasing(rads, relative, i - 1);
    }
    if relative {
      var r0 := rads[0];
      assert rads[i - 1] / r0 < rads[i] / r0 by {
        assert rads[i - 1] * (1.0 / r0) < rads[i] * (1.0 / r0);
      }
    }
  }

  /** For strictly increasing positive radii every shell beyond the inner
      one has positive volume. */
  lemma ShellVolumesPositive(rads: seq<real>, relative: bool, resetInner: bool)
    requires StrictlyIncreasingPositive(rads)
    requires ShellVolumes(rads, relative, resetInner).Success?
    ensures forall i :: 1 <= i < |rads| ==> ShellVolumes(rads, relative, resetInner).value[i] > 0.0
  {
    var v := ShellVolumes(rads, relative, resetInner).value;
    forall i | 1 <= i < |rads|
      ensures v[i] > 0.0
    {
      RelRadiusIncreasing(rads, relative, i);
      CubeStrictlyMonotone(RelRadius(rads, relative, i - 1), RelRadius(rads, relative, i));
    }
  }

  /** The same for annulus areas. */
  lemma AnnulusAreasPositive(rads: seq<real>, relative: bool, resetInner: bool)
    requires StrictlyIncreasingPositive(rads)
    requires AnnulusAreas(rads, relative, resetInner).Success?
    ensures forall i :: 1 <= i < |rads| ==> AnnulusAreas(rads, relative, resetInner).value[i] > 0.0
  {
    var a := AnnulusAreas(rads, relative, resetInner).value;
    forall i | 1 <= i < |rads|
      ensures a[i] > 0.0
    {
      RelRadiusIncreasing(rads, relative, i);
      SquareStrictlyMonotone(RelRadius(rads, relative, i - 1), RelRadius(rads, relative, i));
    }
  }

  /** Without the inner reset the annuli tile the disc: the first `k` areas
      add up to the area of the disc out to radius `k - 1`. */
  lemma AnnulusAreasTileDisc(rads: seq<real>, relative: bool, k: nat)
    requires 0 < k <= |rads|
    requires AnnulusAreas(rads, relative, false).Success?
    ensures Sum(AnnulusAreas(rads, relative, false).value[..k]) == DiscArea(RelRadius(rads, relative, k - 1))
  {
    var disc := Enclosed(ScaledRadii(rads, relative), DiscArea);
    assert AnnulusAreas(rads, relative, false).value == Differences(disc);
    assert disc[k - 1] == DiscArea(RelRadius(rads, relative, k - 1));
    DifferencesTelescope(disc, k);
  }

  // ---------------------------------------------------------------------
  // renumerate
  // ---------------------------------------------------------------------

  /** `enumerate(arr)`: each entry paired with its index. */
  function Enumerate<T>(arr: seq<T>): (r: seq<(nat, T)>)
    ensures |r| == |arr|
  {
    seq(|arr|, i requires 0 <= i < |arr| => (i as nat, arr[i]))
  }

  /** `renumerate(arr)`: the entries from last to first, each still paired
      with its original index. */
  function Renumerate<T>(arr: seq<T>): (r: seq<(nat, T)>)
    ensures |r| == |arr|
    ensures forall k :: 0 <= k < |arr| ==> r[k].0 == |arr| - 1 - k && r[k].1 == arr[r[k].0]
  {
    if |arr| == 0 then []
    else [((|arr| - 1) as nat, arr[|arr| - 1])] + Renumerate(arr[..|arr| - 1])
  }

  /** Reverse enumeration is enumeration read backwards. */
  lemma RenumerateReversesEnumerate<T>(arr: seq<T>)
    ensures forall k :: 0 <= k < |arr| ==> Renumerate(arr)[k] == Enumerate(arr)[|arr| - 1 - k]
  {
  }

  // ---------------------------------------------------------------------
  // orbit_phys_to_nat / orbit_nat_to_phys
  // ---------------------------------------------------------------------

  /** galpy's reference length (kpc) and velocity (km/s), the defaults of the
      conversion helpers. */
  const Ro: real := 8.0
  const Vo: real := 220.0

  /** The orbital elements galpy integrates, in its order R, vR, vT, Z, vZ,
      Phi. */
  datatype OrbitElems = OrbitElems(r: real, vR: real, vT: real, z: real, vZ: real, phi: real)

  /** Python's float `phi % (2*np.pi)`: the remainder with the sign of the
      divisor, i.e. `phi` minus the largest multiple of 2*pi not above it. */
  function Mod2Pi(phi: real): (m: real)
    ensures 0.0 <= m < TwoPi
  {
    phi - TwoPi * ((phi / TwoPi).Floor as real)
  }

  lemma FloorShift(y: real, k: int)
    ensures (y + k as real).Floor == y.Floor + k
  {
  }

  /** The reduction ignores whole turns. */
  lemma Mod2PiPeriodic(phi: real, k: int)
    ensures Mod2Pi(phi + (k as real) * TwoPi) == Mod2Pi(phi)
  {
    var y := phi / TwoPi;
    var q := (phi + (k as real) * TwoPi) / TwoPi;
    assert q * TwoPi == (y + k as real) * TwoPi;
    CancelFactor(TwoPi, q, y + k as real);
    FloorShift(y, k);
    assert q.Floor == y.Floor + k;
    calc {
      Mod2Pi(phi + (k as real) * TwoPi);
      (phi + (k as real) * TwoPi) - TwoPi * (q.Floor as real);
      (phi + (k as real) * TwoPi) - TwoPi * ((y.Floor + k) as real);
      phi - TwoPi * (y.Floor as real);
      Mod2Pi(phi);
    }
  }

  /** The reduction leaves angles already in [0, 2*pi) alone, and only those. */
  lemma Mod2PiFixesRange(phi: real)
    ensures Mod2Pi(phi) == phi <==> 0.0 <= phi < TwoPi
  {
    if 0.0 <= phi < TwoPi {
      assert 0.0 <= phi / TwoPi < 1.0;
      assert (phi / TwoPi).Floor == 0;
    }
  }

  /** `orbit_phys_to_nat`: lengths over `Ro`, velocities over `Vo`, angle
      unchanged. */
  function OrbitPhysToNat(o: OrbitElems): (n: OrbitElems)
    ensures n.r * Ro == o.r && n.z * Ro == o.z
    ensures n.vR * Vo == o.vR && n.vT * Vo == o.vT && n.vZ * Vo == o.vZ
    ensures n.phi == o.phi
  {
    OrbitElems(o.r / Ro, o.vR / Vo, o.vT / Vo, o.z / Ro, o.vZ / Vo, o.phi)
  }

  /** `orbit_nat_to_phys`: lengths times `Ro`, velocities times `Vo`, angle
      reduced into [0, 2*pi). */
  function OrbitNatToPhys(n: OrbitElems): (o: OrbitElems)
    ensures o.r / Ro == n.r && o.z / Ro == n.z
    ensures o.vR / Vo == n.vR && o.vT / Vo == n.vT && o.vZ / Vo == n.vZ
    ensures 0.0 <= o.phi < TwoPi
  {
    OrbitElems(n.r * Ro, n.vR * Vo, n.vT * Vo, n.z * Ro, n.vZ * Vo, Mod2Pi(n.phi))
  }

  /** Physical to natural and back returns every element exactly, with the
      angle reduced modulo 2*pi. */
  lemma OrbitScalingRoundTrip(o: OrbitElems)
    ensures OrbitNatToPhys(OrbitPhysToNat(o)) == o.(phi := Mod2Pi(o.phi))
  {
  }

  /** Natural to physical and back does the same on the natural side. */
  lemma OrbitScalingRoundTripNat(n: OrbitElems)
    ensures OrbitPhysToNat(OrbitNatToPhys(n)) == n.(phi := Mod2Pi(n.phi))
  {
  }

  // ---------------------------------------------------------------------
  // euler_rot
  // ---------------------------------------------------------------------

  datatype Vec3 = Vec3(x: real, y: real, z: real)

  /** An angle as the pair (cos, sin) numpy computes for it. */
  datatype Angle = Angle(cos: real, sin: real)

  /** The rotation by the opposite angle. */
  function Opposite(a: Angle): Angle { Angle(a.cos, -a.sin) }

  predicate IsUnit(a: Angle) { a.cos * a.cos + a.sin * a.sin == 1.0 }

  datatype Axis = AxisX | AxisY | AxisZ

  /** The `ValueError` raised for an axis name other than 'X', 'Y', 'Z'. */
  datatype RotationError = UnknownAxis(name: string)

  function ParseAxis(name: string): (r: Result<Axis, RotationError>)
    ensures r.Success? <==> name == "X" || name == "Y" || name == "Z"
    ensures r.Failure? ==> r.error == UnknownAxis(name)
  {
    if name == "X" then Success(AxisX)
    else if name == "Y" then Success(AxisY)
    else if name == "Z" then Success(AxisZ)
    else Failure(UnknownAxis(name))
  }

  /** The matrix of `euler_rot` for one angle applied to one vector. */
  function Rotate(v: Vec3, axis: Axis, a: Angle): (w: Vec3)
    ensures axis == AxisX ==> w.x == v.x
    ensures axis == AxisY ==> w.y == v.y
    ensures axis == AxisZ ==> w.z == v.z
  {
    match axis
    case AxisX => Vec3(v.x, a.cos * v.y - a.sin * v.z, a.sin * v.y + a.cos * v.z)
    case AxisY => Vec3(a.cos * v.x + a.sin * v.z, v.y, a.cos * v.z - a.sin * v.x)
    case AxisZ => Vec3(a.cos * v.x - a.sin * v.y, a.sin * v.x + a.cos * v.y, v.z)
  }

  function NormSq(v: Vec3): real { v.x * v.x + v.y * v.y + v.z * v.z }

  /** Rotating two coordinates (p, q) by a unit (c, s) to (u, w) keeps their
      squared length. */
  lemma PlaneRotationPreservesNorm(p: real, q: real, c: real, s: real, u: real, w: real)
    requires c * c + s * s == 1.0
    requires u == c * p - s * q && w == s * p + c * q
    ensures u * u + w * w == p * p + q * q
  {
    calc {
      u * u + w * w;
      (c * p - s * q) * (c * p - s * q) + (s * p + c * q) * (s * p + c * q);
      (c * c + s * s) * (p * p) + (c * c + s * s) * (q * q);
      p * p + q * q;
    }
  }

  /** Rotating (p, q) by (c, s) to (u, w) and then by (c, s') with s' = -s
      restores (p, q). */
  lemma PlaneRotationInverse(p: real, q: real, c: real, s: real, s': real, u: real, w: real)
    requires c * c + s * s == 1.0 && s' == -s
    requires u == c * p - s * q && w == s * p + c * q
    ensures c * u - s' * w == p
    ensures s' * u + c * w == q
  {
    assert s' * w == -(s * w);
    assert s' * u == -(s * u);
    calc {
      c * u + s * w;
      c * (c * p - s * q) + s * (s * p + c * q);
      (c * c + s * s) * p;
      p;
    }
    calc {
      c * w - s * u;
      c * (s * p + c * q) - s * (c * p - s * q);
      (c * c + s * s) * q;
      q;
    }
  }

  /** With cos^2 + sin^2 = 1 every rotation keeps the squared norm. */
  lemma RotatePreservesNorm(v: Vec3, axis: Axis, a: Angle)
    requires IsUnit(a)
    ensures NormSq(Rotate(v, axis, a)) == NormSq(v)
  {
    match axis
    case AxisX => RotateXPreservesNorm(v, a);
    case AxisY => RotateYPreservesNorm(v, a);
    case AxisZ => RotateZPreservesNorm(v, a);
  }

  lemma RotateXPreservesNorm(v: Vec3, a: Angle)
    requires IsUnit(a)
    ensures NormSq(Rotate(v, AxisX, a)) == NormSq(v)
  {
    var w := Rotate(v, AxisX, a);
    PlaneRotationPreservesNorm(v.y, v.z, a.cos, a.sin, w.y, w.z);
  }

  lemma RotateYPreservesNorm(v: Vec3, a: Angle)
    requires IsUnit(a)
    ensures NormSq(Rotate(v, AxisY, a)) == NormSq(v)
  {
    var w := Rotate(v, AxisY, a);
    PlaneRotationPreservesNorm(v.z, v.x, a.cos, a.sin, w.z, w.x);
  }

  lemma RotateZPreservesNorm(v: Vec3, a: Angle)
    requires IsUnit(a)
    ensures NormSq(Rotate(v, AxisZ, a)) == NormSq(v)
  {
    var w := Rotate(v, AxisZ, a);
    PlaneRotationPreservesNorm(v.x, v.y, a.cos, a.sin, w.x, w.y);
  }

  /** Rotating by an angle and then by its opposite about the same axis is
      the identity. */
  lemma RotateInverse(v: Vec3, axis: Axis, a: Angle)
    requires IsUnit(a)
    ensures Rotate(Rotate(v, axis, a), axis, Opposite(a)) == v
  {
    match axis
    case AxisX => RotateInverseX(v, a);
    case AxisY => RotateInverseY(v, a);
    case AxisZ => RotateInverseZ(v, a);
  }

  lemma RotateInverseX(v: Vec3, a: Angle)
    requires IsUnit(a)
    ensures Rotate(Rotate(v, AxisX, a), AxisX, Opposite(a)) == v
  {
    var w := Rotate(v, AxisX, a);
    var r := Rotate(w, AxisX, Opposite(a));
    var c, s := a.cos, a.sin;
    PlaneRotationInverse(v.y, v.z, c, s, -s, w.y, w.z);
    assert r.y == c * w.y - (-s) * w.z;
    assert r.z == (-s) * w.y + c * w.z;
  }

  lemma RotateInverseY(v: Vec3, a: Angle)
    requires IsUnit(a)
    ensures Rotate(Rotate(v, AxisY, a), AxisY, Opposite(a)) == v
  {
    var w := Rotate(v, AxisY, a);
    var r := Rotate(w, AxisY, Opposite(a));
    var c, s := a.cos, a.sin;
    PlaneRotationInverse(v.z, v.x, c, s, -s, w.z, w.x);
    assert r.x == c * w.x + (-s) * w.z;
    assert r.z == c * w.z - (-s) * w.x;
  }

  lemma RotateInverseZ(v: Vec3, a: Angle)
    requires IsUnit(a)
    ensures Rotate(Rotate(v, AxisZ, a), AxisZ, Opposite(a)) == v
  {
    var w := Rotate(v, AxisZ, a);
    var r := Rotate(w, AxisZ, Opposite(a));
    var c, s := a.cos, a.sin;
    PlaneRotationInverse(v.x, v.y, c, s, -s, w.x, w.y);
    assert r.x == c * w.x - (-s) * w.y;
    assert r.y == (-s) * w.x + c * w.y;
  }

  /** `euler_rot`: one rotation per (vector, angle) pair about the named axis.
      `zip` stops at the shorter of the two arrays. */
  function EulerRot(vectors: seq<Vec3>, angles: seq<Angle>, axis: string): (r: Result<seq<Vec3>, RotationError>)
    ensures r.Failure? <==> axis != "X" && axis != "Y" && axis != "Z"
    ensures r.Failure? ==> r.error == UnknownAxis(axis)
    ensures r.Success? ==> |r.value| == if |vectors| <= |angles| then |vectors| else |angles|
    ensures r.Success? && axis == "X" ==> forall i :: 0 <= i < |r.value| ==> r.value[i].x == vectors[i].x
    ensures r.Success? && axis == "Y" ==> forall i :: 0 <= i < |r.value| ==> r.value[i].y == vectors[i].y
    ensures r.Success? && axis == "Z" ==> forall i :: 0 <= i < |r.value| ==> r.value[i].z == vectors[i].z
  {
    match ParseAxis(axis)
    case Failure(e) => Failure(e)
    case Success(ax) =>
      var n := if |vectors| <= |angles| then |vectors| else |angles|;
      Success(seq(n, i requires 0 <= i < n => Rotate(vectors[i], ax, angles[i])))
  }

  /** Rotating every vector by its angle and then by the opposite angles
      about the same axis gives the vectors back, each with its norm kept
      on the way. */
  lemma EulerRotInverse(vectors: seq<Vec3>, angles: seq<Angle>, axis: string)
    requires |vectors| == |angles|
    requires axis == "X" || axis == "Y" || axis == "Z"
    requires forall i :: 0 <= i < |angles| ==> IsUnit(angles[i])
    ensures EulerRot(vectors, angles, axis).Success?
    ensures forall i :: 0 <= i < |vectors| ==> NormSq(EulerRot(vectors, angles, axis).value[i]) == NormSq(vectors[i])
    ensures EulerRot(EulerRot(vectors, angles, axis).value, seq(|angles|, i requires 0 <= i < |angles| => Opposite(angles[i])), axis)
            == Success(vectors)
  {
    var ax := ParseAxis(axis).value;
    var once := EulerRot(vectors, angles, axis).value;
    var back := seq(|angles|, i requires 0 <= i < |angles| => Opposite(angles[i]));
    forall i | 0 <= i < |vectors|
      ensures NormSq(once[i]) == NormSq(vectors[i])
      ensures Rotate(once[i], ax, back[i]) == vectors[i]
    {
      RotatePreservesNorm(vectors[i], ax, angles[i]);
      RotateInverse(vectors[i], ax, angles[i]);
    }
    assert EulerRot(once, back, axis).value == vectors;
  }

  // ---------------------------------------------------------------------
  // cartesian_to_cylindrical / cylindrical_to_cartesian
  // ---------------------------------------------------------------------

  datatype Cartesian = Cartesian(x: real, y: real, z: real, vx: real, vy: real, vz: real)
  datatype Cylindrical = Cylindrical(r: real, phi: real, z: real, vR: real, vPhi: real, vZ: real)

  function Abs(x: real): real { if x < 0.0 then -x else x }

  /** `cartesian_to_cylindrical` for a point with y = 0, the case the orbit
      seeding uses: `sqrt(x^2)` is |x| and `arctan(0/x)` is 0. At x = 0 the
      quotients giving Phi, vR and vPhi are 0/0, so those three are NaN while
      R = 0, Z and vZ stay finite; `None` stands for that partly NaN
      result. */
  function CartesianToCylindricalOnXAxis(x: real, z: real, vx: real, vy: real, vz: real): (c: Option<Cylindrical>)
    ensures c.None? <==> x == 0.0
    ensures c.Some? ==> c.value.r == Abs(x) && c.value.phi == 0.0 && c.value.z == z && c.value.vZ == vz
    ensures x > 0.0 ==> c.Some? && c.value.vR == vx && c.value.vPhi * x == vy
  {
    if x == 0.0 then None
    else Some(Cylindrical(Abs(x), 0.0, z, (x * vx) / Abs(x), (x * vy) / (x * x), vz))
  }

  /** `cylindrical_to_cartesian`, with cos(Phi) and sin(Phi) supplied. */
  function CylindricalToCartesian(c: Cylindrical, phi: Angle): (p: Cartesian)
    ensures p.z == c.z && p.vz == c.vZ
  {
    Cartesian(c.r * phi.cos, c.r * phi.sin, c.z,
              c.vR * phi.cos - c.r * phi.sin * c.vPhi,
              c.vR * phi.sin + c.r * phi.cos * c.vPhi,
              c.vZ)
  }

  /** cos and sin at the two azimuths a point on the x axis can have. */
  function AxisAngle(phi: real): Angle
    requires phi == 0.0 || phi == Pi
  {
    if phi == 0.0 then Angle(1.0, 0.0) else Angle(-1.0, 0.0)
  }

  /** On the positive x axis the transform round-trips. */
  lemma OnXAxisRoundTrip(x: real, z: real, vx: real, vy: real, vz: real)
    requires x > 0.0
    ensures CylindricalToCartesian(CartesianToCylindricalOnXAxis(x, z, vx, vy, vz).value, AxisAngle(0.0))
            == Cartesian(x, 0.0, z, vx, vy, vz)
  {
    var c := CartesianToCylindricalOnXAxis(x, z, vx, vy, vz).value;
    assert c.r * c.vPhi == vy by {
      assert c.r == x;
    }
  }

  /** As written, a point on the negative x axis comes back mirrored: the
      azimuth from `arctan(y/x)` is 0 instead of pi. */
  lemma OnNegativeXAxisMirrored(x: real, z: real, vx: real, vy: real, vz: real)
    requires x < 0.0
    ensures CylindricalToCartesian(CartesianToCylindricalOnXAxis(x, z, vx, vy, vz).value, AxisAngle(0.0)).x == -x
    ensures CylindricalToCartesian(CartesianToCylindricalOnXAxis(x, z, vx, vy, vz).value, AxisAngle(0.0))
            != Cartesian(x, 0.0, z, vx, vy, vz)
  {
  }

  /** The transform with the quadrant-aware `arctan2(y, x)`: azimuth pi on the
      negative x axis. */
  function CartesianToCylindricalOnXAxisAtan2(x: real, z: real, vx: real, vy: real, vz: real): (c: Option<Cylindrical>)
    ensures c.None? <==> x == 0.0
    ensures c.Some? ==> c.value.r == Abs(x) && c.value.z == z && c.value.vZ == vz
    ensures c.Some? ==> (c.value.phi == 0.0 <==> x > 0.0) && (c.value.phi == Pi <==> x < 0.0)
  {
    if x == 0.0 then None
    else Some(Cylindrical(Abs(x), if x > 0.0 then 0.0 else Pi, z, (x * vx) / Abs(x), (x * vy) / (x * x), vz))
  }

  /** With `arctan2` the on-axis transform round-trips on both half-axes. */
  lemma OnXAxisAtan2RoundTrip(x: real, z: real, vx: real, vy: real, vz: real)
    requires x != 0.0
    ensures var c := CartesianToCylindricalOnXAxisAtan2(x, z, vx, vy, vz).value;
            CylindricalToCartesian(c, AxisAngle(c.phi)) == Cartesian(x, 0.0, z, vx, vy, vz)
  {
    var c := CartesianToCylindricalOnXAxisAtan2(x, z, vx, vy, vz).value;
    if x > 0.0 {
      assert c.r * c.vPhi == vy;
    } else {
      assert c.r == -x;
      assert c.vR == -vx;
      assert c.r * c.vPhi == -vy by {
        assert c.vPhi == (x * vy) / (x * x);
        assert c.vPhi * x == vy;
      }
    }
  }

  /** On the positive x axis, where every orbit is seeded, the corrected
      transform agrees with the original one. */
  lemma OnXAxisAtan2AgreesWhenPositive(x: real, z: real, vx: real, vy: real, vz: real)
    requires x > 0.0
    ensures CartesianToCylindricalOnXAxisAtan2(x, z, vx, vy, vz) == CartesianToCylindricalOnXAxis(x, z, vx, vy, vz)
  {
  }

  // ---------------------------------------------------------------------
  // inspiral_time_peters, circular branch
  // ---------------------------------------------------------------------

  /** G^3 / c^5 in AU, Gyr and solar-mass units (6.086768e-11). */
  const PetersCoef: real := 0.00000000006086768

  /** Peters' beta = (64/5) G^3 m1 m2 (m1 + m2) / c^5. */
  function Beta(m1: real, m2: real): real
  {
    (64.0 / 5.0) * PetersCoef * m1 * m2 * (m1 + m2)
  }

  lemma BetaPositive(m1: real, m2: real)
    requires m1 > 0.0 && m2 > 0.0
    ensures Beta(m1, m2) > 0.0
  {
    var k := (64.0 / 5.0) * PetersCoef;
    assert k > 0.0;
    MulPositive(k, m1);
    MulPositive(k * m1, m2);
    MulPositive(k * m1 * m2, m1 + m2);
  }

  lemma MulPositive(a: real, b: real)
    requires a > 0.0 && b > 0.0
    ensures a * b > 0.0
  {
  }

  function Pow4(x: real): real { x * x * x * x }

  /** `inspiral_time_peters(a0, 0, m1, m2, af)` in Gyr: for a circular orbit the
      merger time solves `4 * beta * t = a0^4`; a non-zero target separation
      is not supported and yields 0 (after an error message). */
  function InspiralTimeCircular(a0: real, m1: real, m2: real, af: real): (t: real)
    requires m1 > 0.0 && m2 > 0.0
    ensures af != 0.0 ==> t == 0.0
    ensures af == 0.0 ==> 4.0 * Beta(m1, m2) * t == Pow4(a0)
    ensures t >= 0.0
  {
    BetaPositive(m1, m2);
    if af != 0.0 then 0.0 else Pow4(a0) / (4.0 * Beta(m1, m2))
  }

  /** A wider circular binary takes longer to merge. */
  lemma InspiralTimeCircularMonotone(a: real, b: real, m1: real, m2: real)
    requires m1 > 0.0 && m2 > 0.0
    requires 0.0 <= a <= b
    ensures InspiralTimeCircular(a, m1, m2, 0.0) <= InspiralTimeCircular(b, m1, m2, 0.0)
  {
    BetaPositive(m1, m2);
    var k := 4.0 * Beta(m1, m2);
    assert a * a <= b * b;
    assert a * a * a <= b * b * b by {
      assert a * a * a <= b * b * a;
    }
    assert Pow4(a) <= Pow4(b) by {
      assert a * a * a * a <= b * b * b * a;
    }
    assert Pow4(a) / k <= Pow4(b) / k;
  }

  /** Doubling the separation multiplies the circular inspiral time by 16. */
  lemma InspiralTimeCircularScaling(a0: real, m1: real, m2: real)
    requires m1 > 0.0 && m2 > 0.0
    ensures InspiralTimeCircular(2.0 * a0, m1, m2, 0.0) == 16.0 * InspiralTimeCircular(a0, m1, m2, 0.0)
  {
    BetaPositive(m1, m2);
    assert Pow4(2.0 * a0) == 16.0 * Pow4(a0);
  }
}
