/**
 * Small helpers of neosr/archs/arch_util.py: `_ntuple` and the last steps of
 * the truncated-normal fill.
 */
module InitHelpers {

  // ---------------------------------------------------------------------
  // _ntuple

  /** A Python argument as `_ntuple` sees it: an iterable (a tuple, list,
      string, ...) given by its items, or anything else. */
  datatype Arg<T> = Scalar(value: T) | Iterable(items: seq<T>)

  /** `_ntuple(n)(x)`: an iterable is returned unchanged, anything else becomes
      the tuple of `n` copies of it (empty when `n <= 0`, as `repeat` gives). */
  function NTuple<T>(n: int, x: Arg<T>): (r: Arg<T>)
    ensures x.Iterable? ==> r == x
    ensures x.Scalar? ==>
      && r.Iterable?
      && |r.items| == (if n > 0 then n else 0)
      && forall i :: 0 <= i < |r.items| ==> r.items[i] == x.value
  {
    match x
    case Iterable(_) => x
    case Scalar(v) => Iterable(seq(if n > 0 then n else 0, _ => v))
  }

  /** Parsing twice is parsing once. */
  lemma NTupleIdempotent<T>(n: int, x: Arg<T>)
    ensures NTuple(n, NTuple(n, x)) == NTuple(n, x)
  {
  }

  // ---------------------------------------------------------------------
  // _no_grad_trunc_normal_

  /** The condition of the warning: `mean` lies more than two standard
      deviations outside `[a, b]`. */
  predicate MeanFarOutside(mean: real, std: real, a: real, b: real) {
    mean < a - 2.0 * std || mean > b + 2.0 * std
  }

  /** `clamp(v, min=a, max=b)`: `min(max(v, a), b)`, so `b` wins when `a > b`. */
  function Clamp(v: real, a: real, b: real): (r: real)
    ensures r <= b
    ensures a <= b ==> a <= r
    ensures a <= v <= b ==> r == v
  {
    var lifted := if v < a then a else v;
    if lifted > b then b else lifted
  }

  /** A standard draw moved to mean `mean` and spread `spread`. */
  function Affine(z: real, mean: real, spread: real): real {
    z * spread + mean
  }

  /** The fill after the inverse error function: each standard draw `z` is
      scaled by `std * sqrt(2)` (given as `spread`), shifted by `mean` and
      clamped to `[a, b]`.  Returns the warning flag and the values. */
  function TruncNormalFinish(z: seq<real>, mean: real, std: real, spread: real, a: real, b: real)
    : (r: (bool, seq<real>))
    ensures r.0 <==> MeanFarOutside(mean, std, a, b)
    ensures |r.1| == |z|
    ensures a <= b ==> forall i :: 0 <= i < |z| ==> a <= r.1[i] <= b
    ensures forall i :: 0 <= i < |z| && a <= Affine(z[i], mean, spread) <= b ==> r.1[i] == Affine(z[i], mean, spread)
  {
    (MeanFarOutside(mean, std, a, b), seq(|z|, i requires 0 <= i < |z| => Clamp(Affine(z[i], mean, spread), a, b)))
  }
}
