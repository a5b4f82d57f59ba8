# kickIT in Dafny: the epoch walk, survival bookkeeping, array helpers and tracer weights

kickIT follows compact binaries after the second supernova. Each binary is born at a radius in its host galaxy and gets a kick. kickIT decides whether the binary survives. It then integrates the binary's galactic orbit through the epochs of the galaxy's history until the binary merges, the epochs run out, or a wall-clock budget is spent. Finally it weights tracer particles against observations.

This project models the discrete logic around that physics. Physical quantities are `real`. Libraries (galpy, the cosmology, scipy densities, the wall clock) become oracle parameters.

- `base.dfy` (module `Base`): `Option`, `Result`, the NaN-or-number `Float`, and `CountTrue` (numpy's `np.sum` of a mask).
- `seqmath.dfy` (module `SeqMath`): the minimum, maximum, sum and adjacent differencing of real arrays.
- `utils.dfy` (module `Utils`), covering helpers from `kickIT/utils.py`:
  - annulus areas and shell volumes, with the inner-bin reset;
  - reverse enumeration;
  - the natural/physical orbit scaling, with the azimuth reduced modulo 2π;
  - Euler rotations, with each angle given as its (cos, sin) pair;
  - the on-axis Cartesian-to-cylindrical transform that seeds every orbit;
  - the circular branch of the Peters inspiral time.
- `survival.dfy` (module `Survival`): `check_survival` (the conjunction of the four supernova checks and the surviving fraction) and `inspiral_time` (NaN for disrupted systems and the fraction merging within `Tinsp_max`).
- `integrate.dfy` (module `Integrate`): `integrate_orbits`.
  - `StepAt` is one pass of the inner loop and `WalkFrom` is the loop.
  - In each interval the checks run in a fixed order: merger (the interval is shortened to end at the inspiral time), then the last epoch (`merger_redz = 0`), then the wall-clock budget (`merger_redz = -1`).
  - A disrupted system returns NaN at once. A `ZeroDivisionError` from the integrator gives the all-zero tuple.
  - A survivor born at or after the last epoch never enters the inner loop, so the outer loop spins forever. The model reports this as `Stuck`.
- `evolve.dfy` (module `Evolve`): `Systems.evolve`. It builds `systems_info` and collects the nine returned values into columns, either through `pool.map` and a transpose (`EvolvePool`) or in the serial loop (`EvolveSerial`). The two paths are proved to agree on every non-empty ensemble. On an empty one the pool path raises `IndexError` (see Findings).
- `convolve.dfy` (module `Convolve`), covering functions in `kickIT/convolve.py`:
  - min-max normalisation, for one array, for two arrays with shared bounds (also with the second a pandas Series whose bounds skip NaN), and for a matrix;
  - `combine_weights`;
  - the inspiral-time weights with their cap at 1;
  - the validation in `weight_tracers_by_vsys`;
  - the offset window of `weight_tracers_from_observations`;
  - the `Tinsp_min` clamp of the two sample weightings.

IEEE special values appear only where the code can produce them. A division by zero is an explicit error constructor: `NonFinite` for an array helper whose result would hold an infinity or NaN, `AllNaN` for a normalisation whose every output would be NaN. A NaN result is `Float.NaN`. The wall clock is `Env.overBudget(idx, tt)`: whether system `idx` has spent more than `Tint_max` seconds after interval `tt`.

## Model

| member | source | states |
|---|---|---|
| Base.CountTrue | kickIT/system.py:252 | `np.sum(mask)` is between 0 and the length. It is 0 exactly when no flag is set and equals the length exactly when every flag is set. |
| Base.CountTrueSubset | kickIT/system.py:284-295 | A mask set only where another is set never counts more. |
| SeqMath.SeqMin | kickIT/convolve.py:29 | `min` is a lower bound of the array and is one of its entries. |
| SeqMath.SeqMax | kickIT/convolve.py:29 | `max` is an upper bound of the array and is one of its entries. |
| SeqMath.Differences | kickIT/utils.py:37 | `v[1:] = v[1:] - v[:-1]` keeps entry 0. Every later entry becomes its increase over the original predecessor. |
| SeqMath.DifferencesTelescope | kickIT/utils.py:37 | A running sum undoes the differencing: the first k differences add up to the k-th original value. |
| Utils.InnerResetGeometric | kickIT/utils.py:40 | `area[1]/(area[2]/area[1])` has a finite value exactly when bin 2 is non-zero (a zero bin 2 gives an infinity, or NaN when bin 1 is zero too). That value continues bins 1 and 2 geometrically: `a0 * a2 == a1 * a1`, so it is 0 when bin 1 is 0. |
| Utils.ResetInner | kickIT/utils.py:39-40 | Only bin 0 changes. It becomes the geometric continuation of bins 1 and 2. There is no finite result exactly when bin 2 is 0. |
| Utils.BinProfile | kickIT/utils.py:31-42 | IndexError exactly for empty radii with `relative`, or fewer than three radii with `reset_inner`. Otherwise there is no finite result exactly when `relative` meets a zero innermost radius, or the reset meets equal enclosed amounts at radii 1 and 2. A result has the input length, the bin differences and the reset rule. |
| Utils.AnnulusAreas | kickIT/utils.py:31-42 | `area[i] = π(rr[i]² − rr[i−1]²)` for i ≥ 1. With `relative` and no reset, `area[0] = π`. With the reset, bin 0 is geometric, and there is no finite result exactly when `rr[2]² == rr[1]²` (or the innermost radius is 0 with `relative`). IndexError as for `BinProfile`. |
| Utils.ShellVolumes | kickIT/utils.py:45-56 | `vol[i] = (4/3)π(rr[i]³ − rr[i−1]³)` for i ≥ 1. With `relative` and no reset, `vol[0] = 4π/3`. With the reset, bin 0 is geometric, and there is no finite result exactly when `rr[2]³ == rr[1]³` (or the innermost radius is 0 with `relative`). IndexError as for areas. |
| Utils.FlatOuterBinHasNoFiniteReset | kickIT/utils.py:31-56 | Radii 1, 2, 2 with `relative` and the reset give no finite areas or volumes: bin 2 is empty, so bin 0 is infinite. |
| Utils.RelRadiusIncreasing | kickIT/utils.py:32-34 | Dividing by the positive first radius keeps strictly increasing radii positive and strictly increasing. |
| Utils.AnnulusAreasPositive | kickIT/utils.py:31-37 | For strictly increasing positive radii, every annulus beyond the first has positive area. |
| Utils.ShellVolumesPositive | kickIT/utils.py:45-51 | For strictly increasing positive radii, every shell beyond the first has positive volume. |
| Utils.AnnulusAreasTileDisc | kickIT/utils.py:36-37 | Without the reset, the first k annuli add up to the disc out to radius k-1. |
| Utils.Renumerate | kickIT/utils.py:257-260 | Entry k is `(len−1−k, arr[len−1−k])`. |
| Utils.RenumerateReversesEnumerate | kickIT/utils.py:257-260 | Reverse enumeration is `enumerate` read backwards. |
| Utils.Mod2Pi | kickIT/utils.py:248 | Python's `phi % (2π)` lies in [0, 2π). |
| Utils.Mod2PiPeriodic | kickIT/utils.py:248 | The reduction ignores whole turns. |
| Utils.Mod2PiFixesRange | kickIT/utils.py:248 | The reduction leaves an angle unchanged exactly when it already lies in [0, 2π). |
| Utils.OrbitPhysToNat | kickIT/utils.py:225-236 | Lengths are divided by 8 kpc, velocities by 220 km/s, and the angle is kept. |
| Utils.OrbitNatToPhys | kickIT/utils.py:239-250 | Lengths are multiplied by 8 kpc and velocities by 220 km/s. The angle is reduced into [0, 2π). |
| Utils.OrbitScalingRoundTrip | kickIT/utils.py:225-250 | Physical to natural and back returns R, vR, vT, Z and vZ exactly, and Phi modulo 2π. |
| Utils.OrbitScalingRoundTripNat | kickIT/utils.py:225-250 | Natural to physical and back does the same on the natural side. |
| Utils.ParseAxis | kickIT/utils.py:64-71 | Only 'X', 'Y' and 'Z' are accepted. Any other name raises the ValueError that carries the name. |
| Utils.Rotate | kickIT/utils.py:64-69 | Each rotation matrix leaves the component along its own axis unchanged. |
| Utils.RotatePreservesNorm | kickIT/utils.py:64-73 | With cos² + sin² = 1, every rotation keeps the squared norm. |
| Utils.RotateInverse | kickIT/utils.py:64-73 | Rotating by (c, s) and then by (c, −s) about the same axis is the identity. |
| Utils.EulerRot | kickIT/utils.py:58-74 | An unknown axis is an error. Otherwise there is one rotated vector per zipped pair, with the own-axis component kept. |
| Utils.EulerRotInverse | kickIT/utils.py:58-74 | For unit angles every vector keeps its norm, and rotating back by the opposite angles restores the input. |
| Utils.CartesianToCylindricalOnXAxis | kickIT/utils.py:135-142 | With y = 0: R = \|x\|, Phi = 0, Z = z and vZ = vz. For x > 0, also vR = vx and vPhi·x = vy. At x = 0, Phi, vR and vPhi are 0/0; `None` stands for that partly NaN result. |
| Utils.CylindricalToCartesian | kickIT/utils.py:153-160 | z and vz pass through unchanged. |
| Utils.OnXAxisRoundTrip | kickIT/utils.py:135-160 | On the positive x axis, Cartesian to cylindrical and back is the identity. |
| Utils.OnNegativeXAxisMirrored | kickIT/utils.py:138 | As written, `arctan(y/x)` sends a point on the negative x axis to azimuth 0, so the round trip returns −x. |
| Utils.CartesianToCylindricalOnXAxisAtan2 | kickIT/utils.py:138 | With `arctan2`, the azimuth is 0 exactly for x > 0 and π exactly for x < 0. |
| Utils.OnXAxisAtan2RoundTrip | kickIT/utils.py:135-160 | With `arctan2`, the on-axis transform round-trips on both half-axes. |
| Utils.OnXAxisAtan2AgreesWhenPositive | kickIT/system.py:561 | At the positive birth radius, where every orbit is seeded, the corrected transform equals the original. |
| Utils.BetaPositive | kickIT/utils.py:95-96 | β = (64/5)·6.086768e-11·m1·m2·(m1+m2) is positive for positive masses. |
| Utils.InspiralTimeCircular | kickIT/utils.py:98-102 | For e0 = 0 and af = 0, 4βt = a0⁴. For af ≠ 0 the result is 0. The time is never negative. |
| Utils.InspiralTimeCircularMonotone | kickIT/utils.py:102 | A wider circular binary takes at least as long to merge. |
| Utils.InspiralTimeCircularScaling | kickIT/utils.py:102 | Doubling the separation multiplies the inspiral time by 16. |
| Survival.CheckSurvival | kickIT/system.py:221-252 | An empty ensemble raises ZeroDivisionError. Otherwise flag i is the conjunction of checks 1–4 on binary i, and the fraction is the count of survivors over Nsys, in [0, 1]. |
| Survival.UnboundNeverSurvives | kickIT/system.py:233-245 | A binary with `epost > 1` or NaN fails check 4, so it never survives. |
| Survival.SurvivalIsPerSystem | kickIT/system.py:221-249 | Replacing one binary leaves every other binary's flag unchanged. |
| Survival.FastMask | kickIT/system.py:284-285 | Flag i is set exactly for a survivor with `Tinsp < Tinsp_max`. |
| Survival.InspiralTimes | kickIT/system.py:264-295 | Tinsp is NaN exactly for disrupted systems and the Peters time for survivors. The fraction is 0 without survivors, otherwise fast survivors over survivors, in [0, 1]. |
| Survival.FastFractionMonotone | kickIT/system.py:284-295 | Raising `Tinsp_max` never lowers the fast-merger fraction. |
| Integrate.PotentialIndex | kickIT/system.py:553-556 | The potential is `fixed_potential` when it is truthy, otherwise `tt`. |
| Integrate.FixedPotentialZeroIsNotFixed | kickIT/system.py:553-556 | `fixed_potential = 0` behaves as not fixed. |
| Integrate.BirthOrbit | kickIT/system.py:559-562 | The first seed is (R, vR, vT, Z, vZ, Phi) = (r, vpx, vpy, 0, vpz, 0), with vT = R·vPhi. |
| Integrate.StepAt | kickIT/system.py:552-687 | One loop pass. It continues exactly when no stopping condition holds and the integrator succeeds, seeding the next interval with the converted final point. Otherwise it stops with the merger, exhaustion and budget checks in that order. |
| Integrate.WalkFrom | kickIT/system.py:545-687 | From `tt` with `T_elapsed = times[tt] − times[t0]`, the walk ends at an interval between `tt` and `len−2`, with one integrator call per interval and the first call from the given seed. |
| Integrate.ChainedCalls | kickIT/system.py:553-622 | Each integrator call uses its interval's potential. Each call but the last covers its whole interval, succeeds, and seeds the next. |
| Integrate.WalkStop | kickIT/system.py:580-693 | The final orbit is the last call's result. A merger happens exactly at a crossing interval, with dt shortened to `Tinsp − T_elapsed`, redshift `tage_to_z(times[t0] + Tinsp)` and final `T_elapsed = Tinsp`. Exhaustion happens only at `len−2`, timeout only before it. |
| Integrate.WalkHaltsFirst | kickIT/system.py:550-687 | No stopping condition holds before the interval at which the walk stops. |
| Integrate.WalkChained | kickIT/system.py:553-622 | The integrator calls of a walk form a chain. |
| Integrate.IntegrateOrbits | kickIT/system.py:532-550 | Disrupted exactly when `SNsurvive` is false. It never returns exactly for a survivor born at or after `len−1`. Otherwise the walk starts at the birth orbit and makes at most `len−1−t0` calls. |
| Integrate.IntegrateOrbitsReport | kickIT/system.py:494-744 | There is no result exactly when the call never returns. A disrupted system gives eight NaNs and NaN `merger_redz`. A survivor always gets a state and a numeric `merger_redz`. |
| Integrate.RanWalk | kickIT/system.py:545-693 | The walk of a survivor starts at the birth orbit, no halt precedes its last interval, and it stops as `WalkStop` states. |
| Integrate.MergeSegmentBounds | kickIT/system.py:580-583 | When `Tinsp ≥ 0`, the shortened merger segment satisfies 0 ≤ dt < the full interval. |
| Integrate.StopsAtFirstHalt | kickIT/system.py:580-654 | With an integrator that never raises, the walk stops at the first halting interval. `merger_redz` is the merger redshift, else 0 at the last epoch, else −1. |
| Integrate.FinalIntervalMergerIsReal | kickIT/system.py:580-606 | A merger in the final interval reports the real redshift, not 0, even when the budget has also run out. |
| Integrate.ExhaustionBeatsTimeout | kickIT/system.py:629-654 | At the final interval, exhaustion (0) wins over the budget (−1). |
| Integrate.LongInspiralExhausts | kickIT/system.py:629-693 | With `Tinsp ≥ times[−1] − times[t0]` and no budget trip, the walk ends exhausted with `merger_redz = 0` and `T_elapsed = times[−1] − times[t0]`. |
| Integrate.ShortInspiralMergesFirst | kickIT/system.py:579-599 | An inspiral shorter than the first interval merges there, with one call of length Tinsp from the birth orbit, at a lower redshift than birth when the redshift falls with age. |
| Evolve.SystemsInfo | kickIT/system.py:375-377 | Entry i of `systems_info` carries `idx = i` and the i-th entry of every per-system array. |
| Evolve.RowOf | kickIT/system.py:504-541 | Eight NaNs stand in for a missing state. Otherwise the state's values are copied. `merger_redz` is copied unchanged. |
| Evolve.Transpose | kickIT/system.py:410-411 | `np.transpose`: column entry i is field i's value in row i. |
| Evolve.Rows | kickIT/system.py:406 | `pool.map` keeps order: row i is the result for system i. |
| Evolve.EvolvePool | kickIT/system.py:395-411 | As written: it never returns exactly when some call never returns. Otherwise an empty ensemble raises `IndexError` at `results[0]`, and a non-empty one gives the transposed rows as columns. |
| Evolve.EvolveColumns | kickIT/system.py:395-436 | The intended result of either path: it never raises, it never returns exactly when some call never returns, and its columns are the transposed rows. |
| Evolve.PoolAgreesUnlessEmpty | kickIT/system.py:406-411 | The pool path equals the intended result on every non-empty ensemble. On an empty one it raises `IndexError` where nine empty columns are intended. |
| Evolve.ColumnsOfAppend | kickIT/system.py:425-433 | Appending one returned tuple field by field keeps the columns in step with the rows. |
| Evolve.EvolveSerial | kickIT/system.py:417-436 | The serial loop yields the intended columns: the pool path's result for every non-empty ensemble, and nine empty columns for an empty one. |
| Evolve.OutputAligned | kickIT/system.py:375-433 | Entry i of the output columns is what `integrate_orbits` returns for system i. |
| Evolve.DisruptedRowsAreNaN | kickIT/system.py:504-541 | A disrupted system gets NaN in every column. A survivor gets numbers. |
| Evolve.EvolveReturnsIff | kickIT/system.py:532-550 | `evolve` returns exactly when no survivor is born at or after the last epoch (`t0 ≥ len−1`). The pool path also needs at least one system. |
| Convolve.RescaleConcat | kickIT/convolve.py:40-41 | Rescaling two arrays with the same bounds equals rescaling their concatenation. |
| Convolve.RescaleRoundTrip | kickIT/convolve.py:29 | `lo + r·(hi − lo)` recovers the entry. |
| Convolve.RescaleFacts | kickIT/convolve.py:29 | Within [lo, hi], rescaling lands in [0, 1], maps exactly lo to 0 and exactly hi to 1, and keeps order both ways. |
| Convolve.NormalizeWeights | kickIT/convolve.py:23-31 | An empty array raises ValueError. A constant array gives 0/0 (AllNaN). Otherwise the output has the input length. |
| Convolve.NormalizeWeightsIsRescale | kickIT/convolve.py:29 | Success means min < max and rescaling by the array's own bounds. |
| Convolve.NormalizeWeightsRange | kickIT/convolve.py:23-31 | For a non-constant array every weight lies in [0, 1]. Exactly the minima map to 0 and exactly the maxima to 1. |
| Convolve.NormalizeWeightsMonotone | kickIT/convolve.py:29 | `w[i] ≤ w[j]` exactly when `out[i] ≤ out[j]`. |
| Convolve.NormalizeWeightsRoundTrip | kickIT/convolve.py:29 | The input is recovered from the output and the two bounds. |
| Convolve.NormalizedBounds | kickIT/convolve.py:29 | Normalised weights have minimum 0 and maximum 1. |
| Convolve.NormalizeWeightsIdempotent | kickIT/convolve.py:23-31 | Normalising normalised weights changes nothing. |
| Convolve.NormalizeData | kickIT/convolve.py:33-43 | For two plain arrays: ValueError exactly when either is empty. Otherwise both outputs keep their lengths. |
| Convolve.ConcatMin | kickIT/convolve.py:38 | The minimum of the two arrays together is the smaller of their minima. |
| Convolve.ConcatMax | kickIT/convolve.py:37 | The maximum of the two arrays together is the larger of their maxima. |
| Convolve.NormalizeDataIsJointNormalization | kickIT/convolve.py:33-43 | Shared-bounds normalisation is `normalize_weights` of the concatenation, cut back into the two parts, and it fails in the same way. |
| Convolve.NormalizeDataRange | kickIT/convolve.py:37-41 | Both outputs lie in [0, 1]. Exactly the joint minimum maps to 0 and exactly the joint maximum to 1. |
| Convolve.NormalizeDataSeries | kickIT/convolve.py:33-43 | With `tracers` a Series, as every caller passes it: ValueError exactly when `samps` is empty. An all-NaN or empty Series, or constant numbers, make every output NaN. Otherwise NaN tracers stay NaN and the rest are rescaled. |
| Convolve.NormalizeDataSeriesOnArrays | kickIT/convolve.py:33-43 | On a non-empty Series without NaN the result is the plain-array result. An empty Series gives NaN where an empty array raises. |
| Convolve.NormalizeDataSeriesSkipsNaN | kickIT/convolve.py:37-38 | Appending a NaN tracer changes no bound and no other output, and its own output is NaN. |
| Convolve.NumbersOfLift | kickIT/convolve.py:37-38 | Skipping NaN in a NaN-free Series keeps every value, in order. |
| Convolve.NormalizeMatrix | kickIT/convolve.py:61-62 | A matrix is normalised with its global bounds, keeping its shape. It fails like the flattened array. |
| Convolve.CombineWeights | kickIT/convolve.py:45-64 | 'add' gives the root of the column sums of squares and 'multiply' the column products. With normalisation, either is passed through `normalize_weights` with its errors. Any other name combines nothing: the matrix itself, normalised with its global bounds on request. Without normalisation there is no error. |
| Convolve.NormalizedCombination | kickIT/convolve.py:45-64 | With normalisation, 'add' and 'multiply' raise ValueError exactly for zero columns and fail with 0/0 exactly when every column combines to the same value. Otherwise they give the column values rescaled by their own bounds, all in [0, 1]. |
| Convolve.ColumnProductUnit | kickIT/convolve.py:59 | A product of weights in [0, 1] lies in [0, 1] and is 0 exactly when one factor is 0. |
| Convolve.ColumnProductInUnit | kickIT/convolve.py:59 | A product of weights in [0, 1] lies in [0, 1]. |
| Convolve.ColumnProductZero | kickIT/convolve.py:59 | A column product is 0 exactly when one of its factors is 0. |
| Convolve.MultiplyCombination | kickIT/convolve.py:57-59 | Unnormalised 'multiply' of weights in [0, 1] gives one weight per tracer in [0, 1], 0 exactly where some input is 0. A single weight array comes back unchanged. |
| Convolve.ColumnSumSquaresNonNegative | kickIT/convolve.py:56 | The sum of squares under the root is never negative. |
| Convolve.ClampAtOne | kickIT/convolve.py:90 | Weights above 1 become 1, others are kept, and NaN stays NaN. |
| Convolve.ClampAtOneIdempotent | kickIT/convolve.py:90 | Capping twice is capping once. |
| Convolve.ReciprocalWeight | kickIT/convolve.py:84-87 | `m/x` is at least 1 for 0 < x ≤ m and strictly between 0 and 1 for x > m. |
| Convolve.DefaultTinspWeight | kickIT/convolve.py:84-90 | For index −1: NaN stays NaN. `0 ≤ Tinsp ≤ min_tinsp` gives 1, where Tinsp = 0 gives an infinite raw weight that is capped. A longer inspiral gives `min_tinsp/Tinsp` in (0, 1). A negative Tinsp gives the negative `min_tinsp/Tinsp`. No weight exceeds 1. |
| Convolve.WeightTracersByTinsp | kickIT/convolve.py:81-90 | One capped weight per tracer, in order. |
| Convolve.DefaultTinspWeightsAreClamped | kickIT/convolve.py:84-90 | For non-zero times, the weights are the raw power-law weights passed through the general cap. |
| Convolve.DefaultTinspWeightAntitone | kickIT/convolve.py:87-90 | A longer inspiral never earns a larger weight. |
| Convolve.WeightTracersByVsys | kickIT/convolve.py:111-159 | NameError exactly for an unknown method. TypeError exactly for 'gaussian' with a scalar parameter. ValueError for a tuple whose length is not 2. Otherwise the density values, normalised on request. |
| Convolve.ObservationWeights | kickIT/convolve.py:214-217 | A tracer outside [offset − 10σ, offset + 10σ], or with a NaN offset, gets 0. One inside gets the density. |
| Convolve.WeightTracersFromObservations | kickIT/convolve.py:206-223 | The windowed weights, normalised on request. |
| Convolve.ObservationWeightSupport | kickIT/convolve.py:214-217 | For a positive density, a weight is non-zero exactly inside the window. |
| Convolve.OutsideWindowStaysZero | kickIT/convolve.py:214-221 | With a non-negative density, a tracer outside the window still has weight 0 after normalisation, because its zero is the minimum that normalisation subtracts. |
| Convolve.NoTracerInWindow | kickIT/convolve.py:214-221 | With no tracer in the window, normalisation divides 0 by 0. |
| Convolve.ClampTinsp | kickIT/convolve.py:177 | Every entry is at least `Tinsp_min`. Entries already at least `Tinsp_min` are unchanged, and smaller ones become `Tinsp_min`. |
| Convolve.ClampTinspIdempotent | kickIT/convolve.py:245 | Clamping a clamped array changes nothing. |
| Convolve.DefaultClampAllowsLog | kickIT/convolve.py:177-179 | With the default `Tinsp_min = 1e-6`, every clamped sample is positive, so the `np.log10` taken right after is finite. |
| Convolve.ClampTinspInPlace | kickIT/convolve.py:245 | The in-place clamp leaves the caller's array equal to the clamped copy. |

## Left out

- galpy: orbit integration, potentials, `vcirc`, `escape_velocity`, `galactic_velocity` and `transform_orbits` (with its random viewing angles) are foreign library calls. They are the oracle fields of `Integrate.Env`.
- The cosmology's `tage_to_z` is an oracle (`Env.tageToZ`).
- The closed-form supernova physics of `Systems.SN` (Kalogera formulas, square roots, arccos) is not modelled. `Apost`, `epost`, `Vr`, `sqrt(2 Mtot_post / Mtot_pre)` and the check-4 bound `max_val` are inputs of `Survival.Binary`.
- Survival.CheckSurvival: check 4's `max_val` is a partial function defined on bound eccentricities. Its algebra (kickIT/system.py:237-243) is not modelled.
- Utils.InspiralTimeCircular: only the circular (`e0 == 0`) branch is modelled. The eccentric branch needs the quad integral and the lsoda ODE.
- scipy densities and estimators (Maxwellian and Gaussian pdfs, `gaussian_kde`) are oracle functions. The `flat_in_log` histogram and interpolation, `Outlier`/`OutlierND` and `interp_1d`/`log_interp_1d` are not modelled.
- Convolve.WeightTracersByVsys: the 'flat_in_log' weights are an oracle density like the other two methods, because they come from a histogram interpolation.
- Convolve.WeightTracersByTinsp: only the default index −1 is modelled in closed form, and only before normalisation. A general real power needs real exponentiation. Pandas `min`/`max` skip NaN when normalising a Series. `NormalizeWeights` works on NaN-free arrays and does not model that skipping. `ClampAtOne` covers the cap for any raw weights.
- The sample weightings `weight_tracers_from_samples` and `weight_samples_from_tracers`: only the `Tinsp_min` clamp and `normalize_data` are modelled. The `log10`, the KDE, the 5σ pre-filter and the chunked evaluation are not.
- Convolve.ObservationWeights: indexes tracers by position. The source writes `weights[close.index]`, which equals the position only for a default integer index.
- Random sampling: the angle draws in `Systems.__init__` and the random projections of `transform_orbits`.
- Concurrency and wall time: `multiprocessing.Pool` is modelled by its result (`pool.map` keeps order), and `time.time() - start_time > Tint_max` is the oracle `Env.overBudget`.
- I/O: trajectory CSV/HDF files, `save_traj`, `downsample`, `write()` and every print.
- `Mphys_to_nat`, `Mnat_to_phys`, `Rnat_to_phys`, `Tphys_to_nat`, `Tnat_to_phys`: they reference undefined names (`km`, `kpc`, `Gyr`, `Msun`) and fail when called.
- `galactic_frame` and `decompose_Vsys`: frame transformations of the kick physics.
- Units (astropy) are dropped. Lengths are kpc, speeds km/s and times Gyr, as the code converts them.
- The general Cartesian-to-cylindrical transform: only the y = 0 case is modelled, which is the only one orbit seeding uses.
- Integrate.IntegrateOrbits: requires a positive birth radius for survivors. At r = 0 the on-axis transform divides 0 by 0.
- Integrate.BirthOrbit: uses the `arctan2` transform. It equals the original for the positive radius it receives (`Utils.OnXAxisAtan2AgreesWhenPositive`).
- Evolve.EvolveSerial: a call that never returns makes the whole of `evolve` never return. Both paths report this as `NeverReturns`.
- Convolve.NormalizeData: takes both arguments as NaN-free ndarrays. The Series that every caller passes as `tracers` is modelled by `Convolve.NormalizeDataSeries`. `samps` is taken to be NaN-free, because `np.max` of an ndarray would propagate a NaN.
- Floating point: reals stand for doubles. Rounding is not modelled. Division by zero appears only where the code can reach it. There it is an explicit error, `NonFinite` or `AllNaN`, standing for the infinity or NaN that IEEE arithmetic yields.

## Findings

| source | as written | input that shows it | evidently intended | confidence | as-written member | corrected member |
|---|---|---|---|---|---|---|
| kickIT/utils.py:138 | `Phi = np.arctan(y/x)` yields an azimuth in (−π/2, π/2), so the quadrant is lost | x = −1, y = 0: Phi = 0, and `cylindrical_to_cartesian` returns x = +1 | `np.arctan2(y, x)`, giving Phi = π and a round trip back to x = −1 | not executed; orbit seeding only passes x = R > 0, where the two agree | Utils.OnNegativeXAxisMirrored | Utils.OnXAxisAtan2RoundTrip |
| kickIT/system.py:406-411 | `results = np.transpose(results)` then `results[0]`; for an empty ensemble `pool.map` returns `[]`, whose transpose is a one-dimensional empty array | Nsys = 0 with `multiproc` set: `results[0]` raises `IndexError`, while the serial path returns nine empty arrays | nine empty output arrays on either path | not executed; numpy semantics of `np.transpose([])` | Evolve.PoolAgreesUnlessEmpty | Evolve.EvolveColumns |
