/**
 * Layer stacks built by neosr/archs/arch_util.py: the stage plan of
 * `Upsample.__init__` and `make_layer`.
 *
 * Torch modules are descriptors (`Layer`); a module list is the sequence of
 * descriptors that `nn.Sequential` is given.
 */
module Layers {
  import opened Wrappers
  import opened Arithmetic

  // ---------------------------------------------------------------------
  // Python's `&` on unbounded integers.

  function Abs(a: int): nat {
    if a < 0 then -a else a
  }

  /** Python's `a & b`: integers are infinite two's-complement bit strings, so
      `-1` is all ones.  Halving is floor division, which for divisor 2 is
      Dafny's `/`. */
  function BitAnd(a: int, b: int): int
    decreases Abs(a) + Abs(b)
  {
    if a == 0 || b == 0 then 0
    else if a == -1 then b
    else if b == -1 then a
    else 2 * BitAnd(a / 2, b / 2) + (if a % 2 == 1 && b % 2 == 1 then 1 else 0)
  }

  /** `n` is `2^k` for some `k >= 0`. */
  predicate IsPowerOfTwo(n: int)
    decreases Abs(n)
  {
    n == 1 || (n > 1 && n % 2 == 0 && IsPowerOfTwo(n / 2))
  }

  function Pow(base: int, k: nat): int {
    if k == 0 then 1 else base * Pow(base, k - 1)
  }

  /** `int(math.log2(n))` for a power of two: the exponent. */
  function Log2(n: int): (k: nat)
    requires IsPowerOfTwo(n)
    ensures Pow(2, k) == n
    decreases Abs(n)
  {
    if n == 1 then 0 else 1 + Log2(n / 2)
  }

  lemma {:induction false} BitAndSelf(a: int)
    ensures BitAnd(a, a) == a
    decreases Abs(a)
  {
    if a != 0 && a != -1 {
      BitAndSelf(a / 2);
    }
  }

  lemma {:induction false} BitAndOfNegatives(a: int, b: int)
    requires a < 0 && b < 0
    ensures BitAnd(a, b) < 0
    decreases Abs(a) + Abs(b)
  {
    if a != -1 && b != -1 {
      BitAndOfNegatives(a / 2, b / 2);
    }
  }

  /** The test `(scale & (scale - 1)) == 0` at the top of `Upsample.__init__`
      holds exactly for zero and the powers of two. */
  lemma {:induction false} PowerOfTwoTest(n: int)
    ensures BitAnd(n, n - 1) == 0 <==> n == 0 || IsPowerOfTwo(n)
    decreases Abs(n)
  {
    if n < 0 {
      BitAndOfNegatives(n, n - 1);
    } else if n > 1 {
      if n % 2 == 0 {
        // n = 2m and n - 1 = 2(m - 1) + 1
        assert (n - 1) / 2 == n / 2 - 1;
        PowerOfTwoTest(n / 2);
      } else {
        // n = 2m + 1 and n - 1 = 2m with m >= 1
        assert (n - 1) / 2 == n / 2;
        BitAndSelf(n / 2);
      }
    }
  }

  // ---------------------------------------------------------------------
  // Layer descriptors.

  /** `nn.Conv2d(in, out, kernel, stride, padding)` and `nn.PixelShuffle(factor)`. */
  datatype Layer =
    | Conv2d(inChannels: int, outChannels: int, kernelSize: int, stride: int, padding: int)
    | PixelShuffle(factor: int)

  /** The `ValueError`s of an `Upsample` construction: `math.log2(0)` is outside
      the logarithm's domain, and any scale that is neither `2^n` nor 3 is
      rejected. */
  datatype UpsampleError = MathDomainError | UnsupportedScale(scale: int)

  /** One stage: a 3x3 convolution multiplying the channels by `factor^2`,
      followed by a pixel shuffle by `factor`. */
  function Stage(numFeat: int, factor: int): seq<Layer> {
    [Conv2d(numFeat, factor * factor * numFeat, 3, 1, 1), PixelShuffle(factor)]
  }

  /** `k` identical stages. */
  function Stages(k: nat, numFeat: int, factor: int): seq<Layer> {
    if k == 0 then [] else Stage(numFeat, factor) + Stages(k - 1, numFeat, factor)
  }

  lemma {:induction false} StagesAppend(k: nat, numFeat: int, factor: int)
    ensures Stages(k, numFeat, factor) + Stage(numFeat, factor) == Stages(k + 1, numFeat, factor)
  {
    if k > 0 {
      StagesAppend(k - 1, numFeat, factor);
    }
  }

  /** The layers `Upsample(scale, num_feat)` holds when it is constructed. */
  function UpsampleLayers(scale: int, numFeat: int): seq<Layer>
    requires IsPowerOfTwo(scale) || scale == 3
  {
    if scale == 3 then Stages(1, numFeat, 3) else Stages(Log2(scale), numFeat, 2)
  }

  /** `Upsample.__init__(scale, num_feat)`: the module list handed to `nn.Sequential`. */
  method Upsample(scale: int, numFeat: int) returns (r: Result<seq<Layer>, UpsampleError>)
    ensures r.Ok? <==> IsPowerOfTwo(scale) || scale == 3
    ensures r.Ok? ==> r.value == UpsampleLayers(scale, numFeat)
    ensures scale == 0 ==> r == Err(MathDomainError)
    ensures r.Err? && scale != 0 ==> r == Err(UnsupportedScale(scale))
  {
    var m: seq<Layer> := [];
    PowerOfTwoTest(scale);
    if BitAnd(scale, scale - 1) == 0 {
      if scale == 0 {
        return Err(MathDomainError);
      }
      var k := Log2(scale);
      var i := 0;
      assert 4 * numFeat == 2 * 2 * numFeat;
      while i < k
        invariant 0 <= i <= k
        invariant m == Stages(i, numFeat, 2)
      {
        StagesAppend(i, numFeat, 2);
        m := m + [Conv2d(numFeat, 4 * numFeat, 3, 1, 1)];
        m := m + [PixelShuffle(2)];
        i := i + 1;
      }
    } else if scale == 3 {
      m := m + [Conv2d(numFeat, 9 * numFeat, 3, 1, 1)];
      m := m + [PixelShuffle(3)];
      assert m == Stages(1, numFeat, 3);
    } else {
      return Err(UnsupportedScale(scale));
    }
    return Ok(m);
  }

  // ---------------------------------------------------------------------
  // What a layer stack does to channels and resolution.

  /** The channel count after running `layers` on a `channels`-channel input,
      or `None` when some layer does not accept what it is given: a
      convolution needs its declared input channels, a pixel shuffle by `f`
      needs a positive `f` and a channel count divisible by `f*f`. */
  function OutChannels(channels: int, layers: seq<Layer>): Option<int>
    decreases |layers|
  {
    if layers == [] then Some(channels)
    else match layers[0]
      case Conv2d(i, o, _, _, _) =>
        if i == channels then OutChannels(o, layers[1..]) else None
      case PixelShuffle(f) =>
        if f > 0 && channels % (f * f) == 0 then OutChannels(channels / (f * f), layers[1..]) else None
  }

  /** The factor by which `layers` enlarge height and width. */
  function Magnification(layers: seq<Layer>): int {
    if layers == [] then 1
    else match layers[0]
      case Conv2d(_, _, _, _, _) => Magnification(layers[1..])
      case PixelShuffle(f) => f * Magnification(layers[1..])
  }

  lemma {:induction false} StagesPreserveChannels(k: nat, numFeat: int, factor: int)
    requires factor > 0
    ensures OutChannels(numFeat, Stages(k, numFeat, factor)) == Some(numFeat)
    ensures Magnification(Stages(k, numFeat, factor)) == Pow(factor, k)
  {
    if k > 0 {
      var st := Stages(k, numFeat, factor);
      var rest := Stages(k - 1, numFeat, factor);
      var grown := factor * factor * numFeat;
      assert st == [Conv2d(numFeat, grown, 3, 1, 1), PixelShuffle(factor)] + rest;
      assert st[1..] == [PixelShuffle(factor)] + rest;
      assert st[1..][1..] == rest;
      assert grown % (factor * factor) == 0 && grown / (factor * factor) == numFeat by {
        MulAtLeast(factor, factor);
        DivModUnique(grown, factor * factor, numFeat, 0);
      }
      StagesPreserveChannels(k - 1, numFeat, factor);
      assert OutChannels(numFeat, st) == OutChannels(grown, st[1..]);
      assert OutChannels(grown, st[1..]) == OutChannels(numFeat, rest);
      assert Magnification(st) == factor * Magnification(rest);
    }
  }

  /** An `Upsample` is consistent: each convolution receives the channels the
      previous layer produces, the stack ends with `num_feat` channels again,
      and it enlarges height and width by exactly `scale`. */
  lemma UpsampleMagnifiesByScale(scale: int, numFeat: int)
    requires IsPowerOfTwo(scale) || scale == 3
    ensures OutChannels(numFeat, UpsampleLayers(scale, numFeat)) == Some(numFeat)
    ensures Magnification(UpsampleLayers(scale, numFeat)) == scale
  {
    if scale == 3 {
      StagesPreserveChannels(1, numFeat, 3);
    } else {
      StagesPreserveChannels(Log2(scale), numFeat, 2);
    }
  }

  // ---------------------------------------------------------------------
  // make_layer.

  /** One call `basic_block(**kwarg)`. */
  datatype BlockCall<B, V> = BlockCall(block: B, kwargs: map<string, V>)

  /** `make_layer(basic_block, num_basic_block, **kwarg)`: the list of blocks
      handed to `nn.Sequential`. */
  method MakeLayer<B, V>(basicBlock: B, numBasicBlock: int, kwarg: map<string, V>) returns (layers: seq<BlockCall<B, V>>)
    ensures |layers| == if numBasicBlock > 0 then numBasicBlock else 0
    ensures forall i :: 0 <= i < |layers| ==> layers[i] == BlockCall(basicBlock, kwarg)
  {
    layers := [];
    var i := 0;
    while i < numBasicBlock
      invariant 0 <= i <= (if numBasicBlock > 0 then numBasicBlock else 0)
      invariant |layers| == i
      invariant forall j :: 0 <= j < i ==> layers[j] == BlockCall(basicBlock, kwarg)
    {
      layers := layers + [BlockCall(basicBlock, kwarg)];
      i := i + 1;
    }
  }
}
