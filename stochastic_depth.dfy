/**
 * Stochastic depth: `drop_path` and the `DropPath` module
 * (neosr/archs/arch_util.py).
 *
 * A tensor of any rank is its shape and, per sample along the batch axis,
 * the sample's elements in row-major order.  The Bernoulli draws of
 * `bernoulli_(keep_prob)` are an input: `keep[n]` says whether sample `n`
 * survived.  Values are mathematical reals.
 */
module StochasticDepth {
  import opened Wrappers

  datatype Activations = Activations(shape: seq<nat>, samples: seq<seq<real>>)

  function Product(dims: seq<nat>): nat {
    if dims == [] then 1 else dims[0] * Product(dims[1..])
  }

  /** The samples have the sizes the shape says; a 0-dimensional tensor holds
      one scalar. */
  predicate WellFormed(x: Activations) {
    if x.shape == [] then |x.samples| == 1 && |x.samples[0]| == 1
    else
      && |x.samples| == x.shape[0]
      && forall n :: 0 <= n < |x.samples| ==> |x.samples[n]| == Product(x.shape[1..])
  }

  /** `x.shape[0]` fails on a 0-dimensional tensor; `bernoulli_` rejects a
      probability outside `[0, 1]`. */
  datatype DropPathError = IndexError | InvalidProbability(p: real)

  /** `(x.shape[0],) + (1,) * (x.ndim - 1)`. */
  function MaskShape(shape: seq<nat>): (m: seq<nat>)
    requires shape != []
  {
    [shape[0]] + seq(|shape| - 1, _ => 1)
  }

  lemma {:induction false} ProductOfOnes(dims: seq<nat>)
    requires forall i :: 0 <= i < |dims| ==> dims[i] == 1
    ensures Product(dims) == 1
  {
    if dims != [] {
      ProductOfOnes(dims[1..]);
    }
  }

  /** The factor sample `n` is multiplied by: its Bernoulli outcome, divided by
      `keep_prob` when `scale_by_keep` and `keep_prob > 0`. */
  function Multiplier(keep: bool, keepProb: real, scaleByKeep: bool): real {
    var outcome := if keep then 1.0 else 0.0;
    if keepProb > 0.0 && scaleByKeep then outcome / keepProb else outcome
  }

  /** `random_tensor`: one multiplier per sample, broadcast over every other axis. */
  function RandomTensor(shape: seq<nat>, keep: seq<bool>, keepProb: real, scaleByKeep: bool): (m: Activations)
    requires shape != [] && |keep| == shape[0]
    ensures WellFormed(m) && m.shape == MaskShape(shape)
  {
    var sh := MaskShape(shape);
    ProductOfOnes(sh[1..]);
    Activations(sh, seq(|keep|, n requires 0 <= n < |keep| => [Multiplier(keep[n], keepProb, scaleByKeep)]))
  }

  /** `x * random_tensor` for a mask of shape `(batch, 1, ..., 1)`. */
  function BroadcastMul(x: Activations, mask: Activations): (r: Activations)
    requires WellFormed(x) && x.shape != [] && WellFormed(mask) && mask.shape == MaskShape(x.shape)
    ensures WellFormed(r) && r.shape == x.shape
  {
    ProductOfOnes(mask.shape[1..]);
    Activations(x.shape,
      seq(|x.samples|, n requires 0 <= n < |x.samples| =>
        seq(|x.samples[n]|, k requires 0 <= k < |x.samples[n]| => x.samples[n][k] * mask.samples[n][0])))
  }

  /** `drop_path(x, drop_prob, training, scale_by_keep)` with the Bernoulli
      outcomes given as `keep`. */
  function DropPath(x: Activations, dropProb: real, training: bool, scaleByKeep: bool, keep: seq<bool>)
    : (r: Result<Activations, DropPathError>)
    requires WellFormed(x) && (x.shape != [] ==> |keep| == x.shape[0])
    ensures dropProb == 0.0 || !training ==> r == Ok(x)
    ensures r.Ok? ==> WellFormed(r.value) && r.value.shape == x.shape
    ensures r.Err? ==> (r.error == IndexError <==> x.shape == [])
    ensures training && dropProb != 0.0 ==> (r == Err(IndexError) <==> x.shape == [])
    ensures training && dropProb != 0.0 && x.shape != [] ==> (r.Ok? <==> 0.0 <= dropProb <= 1.0)
    ensures r.Err? && r.error.InvalidProbability? ==> r.error.p == 1.0 - dropProb
  {
    if dropProb == 0.0 || !training then Ok(x)
    else if x.shape == [] then Err(IndexError)
    else
      var keepProb := 1.0 - dropProb;
      if !(0.0 <= keepProb <= 1.0) then Err(InvalidProbability(keepProb))
      else Ok(BroadcastMul(x, RandomTensor(x.shape, keep, keepProb, scaleByKeep)))
  }

  /** `drop_path(x)` with its default arguments (`drop_prob=0.0`,
      `training=False`, `scale_by_keep=True`) returns its input. */
  function DropPathWithDefaults(x: Activations): (r: Result<Activations, DropPathError>)
    requires WellFormed(x)
    ensures r == Ok(x)
  {
    var noDraws: seq<bool> := if x.shape == [] then [] else seq(x.shape[0], _ => true);
    DropPath(x, 0.0, false, true, noDraws)
  }

  /** Outcomes that `bernoulli_(keep_prob)` can produce: none survives when
      `keep_prob` is 0 and all survive when it is 1. */
  predicate PossibleOutcomes(keep: seq<bool>, keepProb: real) {
    && (keepProb == 0.0 ==> forall n :: 0 <= n < |keep| ==> !keep[n])
    && (keepProb == 1.0 ==> forall n :: 0 <= n < |keep| ==> keep[n])
  }

  /** In training with `0 < drop_prob <= 1`, each sample is dropped or kept as a
      whole: a dropped sample is all zeros, and a kept one is `x / keep_prob`
      when `scale_by_keep` and `x` otherwise.  With `drop_prob == 1` every
      sample is dropped. */
  lemma DropPathPerSample(x: Activations, dropProb: real, scaleByKeep: bool, keep: seq<bool>)
    requires WellFormed(x) && x.shape != [] && |keep| == x.shape[0]
    requires 0.0 < dropProb <= 1.0 && PossibleOutcomes(keep, 1.0 - dropProb)
    ensures var r := DropPath(x, dropProb, true, scaleByKeep, keep);
      && r.Ok?
      && forall n, k :: 0 <= n < |x.samples| && 0 <= k < |x.samples[n]| ==>
           r.value.samples[n][k] ==
             if !keep[n] then 0.0
             else if scaleByKeep then x.samples[n][k] / (1.0 - dropProb)
             else x.samples[n][k]
  {
    var keepProb := 1.0 - dropProb;
    var mask := RandomTensor(x.shape, keep, keepProb, scaleByKeep);
    var r := DropPath(x, dropProb, true, scaleByKeep, keep);
    assert r == Ok(BroadcastMul(x, mask));
    forall n, k | 0 <= n < |x.samples| && 0 <= k < |x.samples[n]|
      ensures r.value.samples[n][k] ==
        if !keep[n] then 0.0
        else if scaleByKeep then x.samples[n][k] / keepProb
        else x.samples[n][k]
    {
      if keep[n] {
        assert keepProb > 0.0;
      }
      assert r.value.samples[n][k] == x.samples[n][k] * mask.samples[n][0];
      assert mask.samples[n][0] == Multiplier(keep[n], keepProb, scaleByKeep);
    }
  }

  /** Inverted-dropout scaling keeps the expectation: weighting the kept and the
      dropped output of an element by their probabilities gives the element back. */
  lemma DropPathKeepsExpectation(v: real, keepProb: real)
    requires 0.0 < keepProb <= 1.0
    ensures keepProb * (v * Multiplier(true, keepProb, true)) + (1.0 - keepProb) * (v * Multiplier(false, keepProb, true)) == v
  {
    assert keepProb * (1.0 / keepProb) == 1.0;
  }

  /** The `DropPath` module.  `training` is fixed when the module is built, from
      the run configuration that `net_opt` returned, and is not read again. */
  class DropPathModule {
    const dropProb: real
    const scaleByKeep: bool
    const training: bool

    constructor (dropProb: real, scaleByKeep: bool, runConfig: (int, bool))
      ensures this.dropProb == dropProb && this.scaleByKeep == scaleByKeep
      ensures training == runConfig.1
    {
      this.dropProb := dropProb;
      this.scaleByKeep := scaleByKeep;
      training := runConfig.1;
    }

    /** `DropPath()` with its default arguments `drop_prob=0.0` and
        `scale_by_keep=True`. */
    constructor WithDefaults(runConfig: (int, bool))
      ensures dropProb == 0.0 && scaleByKeep
      ensures training == runConfig.1
    {
      dropProb := 0.0;
      scaleByKeep := true;
      training := runConfig.1;
    }

    /** `forward(x)`: `drop_path` with the module's fixed settings; a module
        built outside training is the identity. */
    function Forward(x: Activations, keep: seq<bool>): (r: Result<Activations, DropPathError>)
      requires WellFormed(x) && (x.shape != [] ==> |keep| == x.shape[0])
      ensures r == DropPath(x, dropProb, training, scaleByKeep, keep)
      ensures !training ==> r == Ok(x)
    {
      DropPath(x, dropProb, training, scaleByKeep, keep)
    }
  }
}
