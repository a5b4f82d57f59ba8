/** Reductions over real-valued arrays: numpy's `min`, `max`, `sum` and the
    adjacent differencing `v[1:] - v[:-1]`. */
module SeqMath {

  /** `np.min` of a non-empty array. */
  function SeqMin(s: seq<real>): (m: real)
    requires |s| > 0
    ensures forall i :: 0 <= i < |s| ==> m <= s[i]
    ensures exists i :: 0 <= i < |s| && s[i] == m
  {
    if |s| == 1 then s[0]
    else
      var rest := SeqMin(s[1..]);
      assert forall i :: 1 <= i < |s| ==> s[i] == s[1..][i - 1];
      if s[0] <= rest then s[0] else rest
  }

  /** `np.max` of a non-empty array. */
  function SeqMax(s: seq<real>): (m: real)
    requires |s| > 0
    ensures forall i :: 0 <= i < |s| ==> s[i] <= m
    ensures exists i :: 0 <= i < |s| && s[i] == m
  {
    if |s| == 1 then s[0]
    else
      var rest := SeqMax(s[1..]);
      assert forall i :: 1 <= i < |s| ==> s[i] == s[1..][i - 1];
      if rest <= s[0] then s[0] else rest
  }

  /** An array's minimum equals its maximum exactly when all entries agree. */
  lemma MinEqMaxIffConstant(s: seq<real>)
    requires |s| > 0
    ensures SeqMin(s) == SeqMax(s) <==> forall i :: 0 <= i < |s| ==> s[i] == s[0]
  {
  }

  function Sum(s: seq<real>): real
  {
    if |s| == 0 then 0.0 else Sum(s[..|s| - 1]) + s[|s| - 1]
  }

  /** `v` with every entry after the first replaced by its increase over its
      predecessor, as `v[1:] = v[1:] - v[:-1]` does: numpy evaluates the
      right-hand side before assigning, so each difference uses the original
      values. */
  function Differences(v: seq<real>): (d: seq<real>)
    ensures |d| == |v|
    ensures |v| > 0 ==> d[0] == v[0]
    ensures forall i :: 1 <= i < |v| ==> d[i] == v[i] - v[i - 1]
  {
    seq(|v|, i requires 0 <= i < |v| => if i == 0 then v[0] else v[i] - v[i - 1])
  }

  /** Differencing is undone by a running sum: the first `k` entries of the
      differenced array add up to the `k`-th original value. */
  lemma {:induction false} DifferencesTelescope(v: seq<real>, k: nat)
    requires 0 < k <= |v|
    ensures Sum(Differences(v)[..k]) == v[k - 1]
  {
    var d := Differences(v);
    if k == 1 {
      assert d[..1][..0] == [];
    } else {
      DifferencesTelescope(v, k - 1);
      assert d[..k][..k - 1] == d[..k - 1];
    }
  }
}
