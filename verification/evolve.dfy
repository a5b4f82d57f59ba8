/** `Systems.evolve` (kickIT/system.py): the per-system argument lists handed
    to `integrate_orbits`, and the collection of the nine returned values into
    output columns, either in a serial loop or through `pool.map`. */
module Evolve {
  import opened Base
  import opened Integrate

  /** The per-system arrays `evolve` reads: birth epoch, survival flag,
      inspiral time, birth radius and post-kick velocity components. */
  datatype Population = Population(
    t0: seq<nat>, survive: seq<bool>, tinsp: seq<real>,
    r: seq<real>, vpx: seq<real>, vpy: seq<real>, vpz: seq<real>)

  /** All arrays describe the same `Nsys` systems. */
  predicate Aligned(p: Population)
  {
    && |p.survive| == |p.t0| && |p.tinsp| == |p.t0| && |p.r| == |p.t0|
    && |p.vpx| == |p.t0| && |p.vpy| == |p.t0| && |p.vpz| == |p.t0|
  }

  /** Every surviving system was born at a positive radius. */
  predicate SurvivorsOffCentre(p: Population)
    requires Aligned(p)
  {
    forall i :: 0 <= i < |p.t0| && p.survive[i] ==> p.r[i] > 0.0
  }

  /** `systems_info`: one argument list per system, in index order. */
  function SystemsInfo(p: Population): (infos: seq<SystemInfo>)
    requires Aligned(p)
    ensures |infos| == |p.t0|
    ensures forall i :: 0 <= i < |infos| ==>
      infos[i] == SystemInfo(i, p.t0[i], p.survive[i], p.tinsp[i], p.r[i], p.vpx[i], p.vpy[i], p.vpz[i])
  {
    seq(|p.t0|, i requires 0 <= i < |p.t0| =>
      SystemInfo(i, p.t0[i], p.survive[i], p.tinsp[i], p.r[i], p.vpx[i], p.vpy[i], p.vpz[i]))
  }

  /** The nine values one call of `integrate_orbits` returns. */
  datatype Row = Row(
    x: Float, y: Float, z: Float, vx: Float, vy: Float, vz: Float,
    rOffset: Float, rProjOffset: Float, mergerRedz: Float)

  function RowOf(rep: Report): (row: Row)
    ensures rep.state.None? ==> row == Row(NaN, NaN, NaN, NaN, NaN, NaN, NaN, NaN, rep.mergerRedz)
    ensures rep.state.Some? ==>
      var s := rep.state.value;
      row == Row(Num(s.x), Num(s.y), Num(s.z), Num(s.vx), Num(s.vy), Num(s.vz), Num(s.rOffset), Num(s.rProjOffset), rep.mergerRedz)
  {
    match rep.state
    case None => Row(NaN, NaN, NaN, NaN, NaN, NaN, NaN, NaN, rep.mergerRedz)
    case Some(s) => Row(Num(s.x), Num(s.y), Num(s.z), Num(s.vx), Num(s.vy), Num(s.vz), Num(s.rOffset), Num(s.rProjOffset), rep.mergerRedz)
  }

  /** The output arrays `X, Y, Z, vX, vY, vZ, R_offset, Rproj_offset,
      merger_redz`. */
  datatype Columns = Columns(
    xs: seq<Float>, ys: seq<Float>, zs: seq<Float>,
    vxs: seq<Float>, vys: seq<Float>, vzs: seq<Float>,
    rOffsets: seq<Float>, rProjOffsets: seq<Float>, mergerRedzs: seq<Float>)

  /** Every column has `n` entries and entry `i` of each is field `i` of
      `rows[i]`. */
  ghost predicate ColumnsOf(cols: Columns, rows: seq<Row>, n: nat)
    requires n <= |rows|
  {
    && |cols.xs| == n && |cols.ys| == n && |cols.zs| == n
    && |cols.vxs| == n && |cols.vys| == n && |cols.vzs| == n
    && |cols.rOffsets| == n && |cols.rProjOffsets| == n && |cols.mergerRedzs| == n
    && forall i :: 0 <= i < n ==>
      && cols.xs[i] == rows[i].x && cols.ys[i] == rows[i].y && cols.zs[i] == rows[i].z
      && cols.vxs[i] == rows[i].vx && cols.vys[i] == rows[i].vy && cols.vzs[i] == rows[i].vz
      && cols.rOffsets[i] == rows[i].rOffset && cols.rProjOffsets[i] == rows[i].rProjOffset
      && cols.mergerRedzs[i] == rows[i].mergerRedz
  }

  /** `np.transpose` of the list of returned tuples. */
  function Transpose(rows: seq<Row>): (cols: Columns)
    ensures ColumnsOf(cols, rows, |rows|)
  {
    Columns(
      seq(|rows|, i requires 0 <= i < |rows| => rows[i].x),
      seq(|rows|, i requires 0 <= i < |rows| => rows[i].y),
      seq(|rows|, i requires 0 <= i < |rows| => rows[i].z),
      seq(|rows|, i requires 0 <= i < |rows| => rows[i].vx),
      seq(|rows|, i requires 0 <= i < |rows| => rows[i].vy),
      seq(|rows|, i requires 0 <= i < |rows| => rows[i].vz),
      seq(|rows|, i requires 0 <= i < |rows| => rows[i].rOffset),
      seq(|rows|, i requires 0 <= i < |rows| => rows[i].rProjOffset),
      seq(|rows|, i requires 0 <= i < |rows| => rows[i].mergerRedz))
  }

  /** Columns are determined by their rows. */
  lemma ColumnsOfUnique(a: Columns, b: Columns, rows: seq<Row>)
    requires ColumnsOf(a, rows, |rows|) && ColumnsOf(b, rows, |rows|)
    ensures a == b
  {
    assert a.xs == b.xs && a.ys == b.ys && a.zs == b.zs;
    assert a.vxs == b.vxs && a.vys == b.vys && a.vzs == b.vzs;
    assert a.rOffsets == b.rOffsets && a.rProjOffsets == b.rProjOffsets && a.mergerRedzs == b.mergerRedzs;
  }

  /** Whether every call of `integrate_orbits` returns. */
  predicate AllReturn(c: Config, env: Env, infos: seq<SystemInfo>)
    requires forall i :: 0 <= i < |infos| ==> infos[i].survive ==> infos[i].r > 0.0
  {
    forall i :: 0 <= i < |infos| ==> IntegrateOrbitsReport(c, env, infos[i]).Some?
  }

  /** The rows of all systems, in `systems_info` order. */
  function Rows(c: Config, env: Env, infos: seq<SystemInfo>): (rows: seq<Row>)
    requires forall i :: 0 <= i < |infos| ==> infos[i].survive ==> infos[i].r > 0.0
    requires AllReturn(c, env, infos)
    ensures |rows| == |infos|
    ensures forall i :: 0 <= i < |infos| ==> rows[i] == RowOf(IntegrateOrbitsReport(c, env, infos[i]).value)
  {
    seq(|infos|, i requires 0 <= i < |infos| => RowOf(IntegrateOrbitsReport(c, env, infos[i]).value))
  }

  /** How `evolve` ends: a call of `integrate_orbits` that never returns,
      the `IndexError` of `results[0]`, or the nine output columns. */
  datatype Evolved = NeverReturns | EmptyIndexError | Returned(cols: Columns)

  /** The `multiproc` path as written: `pool.map` over `systems_info`, then a
      transpose. For an empty ensemble `pool.map` gives `[]`, whose transpose
      is a one-dimensional empty array, so `results[0]` raises `IndexError`. */
  function EvolvePool(c: Config, env: Env, p: Population): (r: Evolved)
    requires Aligned(p) && SurvivorsOffCentre(p)
    ensures r.NeverReturns? <==> !AllReturn(c, env, SystemsInfo(p))
    ensures r.EmptyIndexError? <==> |p.t0| == 0
    ensures r.Returned? ==> ColumnsOf(r.cols, Rows(c, env, SystemsInfo(p)), |p.t0|)
  {
    var infos := SystemsInfo(p);
    if !AllReturn(c, env, infos) then NeverReturns
    else if |infos| == 0 then EmptyIndexError
    else Returned(Transpose(Rows(c, env, infos)))
  }

  /** What `evolve` evidently intends on either path: one column entry per
      system, so nine empty columns for an empty ensemble. */
  function EvolveColumns(c: Config, env: Env, p: Population): (r: Evolved)
    requires Aligned(p) && SurvivorsOffCentre(p)
    ensures !r.EmptyIndexError?
    ensures r.NeverReturns? <==> !AllReturn(c, env, SystemsInfo(p))
    ensures r.Returned? ==> ColumnsOf(r.cols, Rows(c, env, SystemsInfo(p)), |p.t0|)
  {
    var infos := SystemsInfo(p);
    if !AllReturn(c, env, infos) then NeverReturns
    else Returned(Transpose(Rows(c, env, infos)))
  }

  /** The pool path is the intended result whenever there is at least one
      system; for none it raises where nine empty columns were meant. */
  lemma PoolAgreesUnlessEmpty(c: Config, env: Env, p: Population)
    requires Aligned(p) && SurvivorsOffCentre(p)
    ensures |p.t0| > 0 ==> EvolvePool(c, env, p) == EvolveColumns(c, env, p)
    ensures |p.t0| == 0 ==>
      && EvolvePool(c, env, p) == EmptyIndexError
      && EvolveColumns(c, env, p) == Returned(Columns([], [], [], [], [], [], [], [], []))
  {
    if |p.t0| == 0 {
      var e := EvolveColumns(c, env, p);
      assert e.Returned?;
      ColumnsOfUnique(e.cols, Columns([], [], [], [], [], [], [], [], []), []);
    }
  }

  /** Appending one returned tuple to the columns, one field per column. */
  function AppendRow(cols: Columns, row: Row): Columns
  {
    Columns(cols.xs + [row.x], cols.ys + [row.y], cols.zs + [row.z],
      cols.vxs + [row.vx], cols.vys + [row.vy], cols.vzs + [row.vz],
      cols.rOffsets + [row.rOffset], cols.rProjOffsets + [row.rProjOffset], cols.mergerRedzs + [row.mergerRedz])
  }

  /** Appending the next row keeps the columns in step with the rows. */
  lemma ColumnsOfAppend(cols: Columns, rows: seq<Row>, row: Row)
    requires ColumnsOf(cols, rows, |rows|)
    ensures ColumnsOf(AppendRow(cols, row), rows + [row], |rows| + 1)
  {
    var n := |rows|;
    var a := AppendRow(cols, row);
    var rs := rows + [row];
    forall i | 0 <= i < n + 1
      ensures a.xs[i] == rs[i].x && a.ys[i] == rs[i].y && a.zs[i] == rs[i].z
      ensures a.vxs[i] == rs[i].vx && a.vys[i] == rs[i].vy && a.vzs[i] == rs[i].vz
      ensures a.rOffsets[i] == rs[i].rOffset && a.rProjOffsets[i] == rs[i].rProjOffset
      ensures a.mergerRedzs[i] == rs[i].mergerRedz
    {
      if i < n { assert rs[i] == rows[i]; } else { assert rs[i] == row; }
    }
  }

  /** The serial path: one call per system in order, each returned value
      appended to its column. It yields the intended columns, so it agrees
      with the pool path except on an empty ensemble. */
  method EvolveSerial(c: Config, env: Env, p: Population) returns (r: Evolved)
    requires Aligned(p) && SurvivorsOffCentre(p)
    ensures r == EvolveColumns(c, env, p)
    ensures |p.t0| > 0 ==> r == EvolvePool(c, env, p)
    ensures |p.t0| == 0 ==> r == Returned(Columns([], [], [], [], [], [], [], [], []))
  {
    var infos := SystemsInfo(p);
    var acc := Columns([], [], [], [], [], [], [], [], []);
    ghost var done: seq<Row> := [];
    var i := 0;
    while i < |infos|
      invariant 0 <= i <= |infos| && |done| == i
      invariant forall k :: 0 <= k < i ==> IntegrateOrbitsReport(c, env, infos[k]).Some?
      invariant forall k :: 0 <= k < i ==> done[k] == RowOf(IntegrateOrbitsReport(c, env, infos[k]).value)
      invariant ColumnsOf(acc, done, i)
    {
      var rep := IntegrateOrbitsReport(c, env, infos[i]);
      if rep.None? {
        // `integrate_orbits` never returns for this system.
        return NeverReturns;
      }
      var row := RowOf(rep.value);
      ColumnsOfAppend(acc, done, row);
      acc := AppendRow(acc, row);
      done := done + [row];
      i := i + 1;
    }
    var rows := Rows(c, env, infos);
    assert done == rows;
    r := Returned(acc);
    ColumnsOfUnique(acc, Transpose(rows), rows);
    PoolAgreesUnlessEmpty(c, env, p);
  }

  /** Entry `i` of every output column describes system `i`: it is what
      `integrate_orbits` returns for the `i`-th entries of the input arrays. */
  lemma OutputAligned(c: Config, env: Env, p: Population, i: nat)
    requires Aligned(p) && SurvivorsOffCentre(p)
    requires EvolveColumns(c, env, p).Returned?
    requires i < |p.t0|
    ensures var cols := EvolveColumns(c, env, p).cols;
      var rep := IntegrateOrbitsReport(c, env, SystemInfo(i, p.t0[i], p.survive[i], p.tinsp[i], p.r[i], p.vpx[i], p.vpy[i], p.vpz[i])).value;
      && cols.mergerRedzs[i] == rep.mergerRedz
      && (rep.state.Some? ==> cols.xs[i] == Num(rep.state.value.x) && cols.rOffsets[i] == Num(rep.state.value.rOffset))
  {
    var infos := SystemsInfo(p);
    assert infos[i] == SystemInfo(i, p.t0[i], p.survive[i], p.tinsp[i], p.r[i], p.vpx[i], p.vpy[i], p.vpz[i]);
  }

  /** A system disrupted by its supernova gets NaN in every column, and a
      surviving one never gets NaN in `merger_redz`. */
  lemma DisruptedRowsAreNaN(c: Config, env: Env, p: Population, i: nat)
    requires Aligned(p) && SurvivorsOffCentre(p)
    requires EvolveColumns(c, env, p).Returned?
    requires i < |p.t0|
    ensures var cols := EvolveColumns(c, env, p).cols;
      && (!p.survive[i] ==> cols.xs[i] == NaN && cols.rProjOffsets[i] == NaN && cols.mergerRedzs[i] == NaN)
      && (p.survive[i] ==> cols.mergerRedzs[i].Num? && cols.xs[i].Num?)
  {
    var infos := SystemsInfo(p);
    assert infos[i].survive == p.survive[i];
  }

  /** `evolve` returns exactly when no surviving system is born at or after
      the last epoch; the pool path additionally needs a system to exist. */
  lemma EvolveReturnsIff(c: Config, env: Env, p: Population)
    requires Aligned(p) && SurvivorsOffCentre(p)
    ensures EvolveColumns(c, env, p).Returned? <==>
      forall i :: 0 <= i < |p.t0| && p.survive[i] ==> p.t0[i] < |c.times| - 1
    ensures EvolvePool(c, env, p).Returned? <==>
      |p.t0| > 0 && forall i :: 0 <= i < |p.t0| && p.survive[i] ==> p.t0[i] < |c.times| - 1
  {
    var infos := SystemsInfo(p);
    if forall i :: 0 <= i < |p.t0| && p.survive[i] ==> p.t0[i] < |c.times| - 1 {
      forall i | 0 <= i < |infos|
        ensures IntegrateOrbitsReport(c, env, infos[i]).Some?
      {
        assert infos[i].survive == p.survive[i] && infos[i].t0 == p.t0[i];
      }
    } else {
      var i :| 0 <= i < |p.t0| && p.survive[i] && p.t0[i] >= |c.times| - 1;
      assert infos[i].survive && infos[i].t0 == p.t0[i];
      assert IntegrateOrbitsReport(c, env, infos[i]).None?;
    }
    PoolAgreesUnlessEmpty(c, env, p);
  }
}
