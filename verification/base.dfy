/** Shared value types: optional values, results carrying the error a Python
    call would raise, and a float that may be NaN. */
module Base {

  datatype Option<+T> = None | Some(value: T)

  /** The outcome of a call that either returns a value or raises `error`. */
  datatype Result<+R, +E> = Success(value: R) | Failure(error: E)

  /** A float as the simulation stores it: a finite value or NaN.  Infinities
      never survive to a stored result in the modelled code, so they have no
      constructor here. */
  datatype Float = NaN | Num(v: real)

  /** Number of `true` entries of a boolean mask (numpy's `np.sum(mask)`). */
  function CountTrue(mask: seq<bool>): (n: nat)
    ensures n <= |mask|
    ensures n == 0 <==> forall i :: 0 <= i < |mask| ==> !mask[i]
    ensures n == |mask| <==> forall i :: 0 <= i < |mask| ==> mask[i]
  {
    if |mask| == 0 then 0
    else CountTrue(mask[..|mask| - 1]) + (if mask[|mask| - 1] then 1 else 0)
  }

  /** Appending one flag adds one exactly when the flag is set. */
  lemma {:induction false} CountTrueAppend(mask: seq<bool>, b: bool)
    ensures CountTrue(mask + [b]) == CountTrue(mask) + (if b then 1 else 0)
  {
    assert (mask + [b])[..|mask + [b]| - 1] == mask;
  }

  /** A mask that is set only where another is set counts no more. */
  lemma {:induction false} CountTrueSubset(a: seq<bool>, b: seq<bool>)
    requires |a| == |b|
    requires forall i :: 0 <= i < |a| ==> a[i] ==> b[i]
    ensures CountTrue(a) <= CountTrue(b)
  {
    if |a| > 0 {
      var n := |a| - 1;
      CountTrueSubset(a[..n], b[..n]);
    }
  }
}
