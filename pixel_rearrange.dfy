/**
 * `pixel_unshuffle` (neosr/archs/arch_util.py) and its inverse, the
 * pixel-shuffle rearrangement that `Upsample` stacks.
 *
 * A 4-D tensor is its shape `(b, c, h, w)` and its elements as nested
 * sequences indexed `[n][ch][y][x]`.  The reshape/permute pipeline of the
 * source is modelled by the index map it computes: output channel
 * `ch*s*s + i*s + j` at `(y, x)` holds input channel `ch` at
 * `(y*s + i, x*s + j)`.
 */
module PixelRearrange {
  import opened Wrappers
  import opened Arithmetic

  datatype Shape = Shape(b: nat, c: nat, h: nat, w: nat)

  datatype Tensor<T> = Tensor(shape: Shape, data: seq<seq<seq<seq<T>>>>)

  /** The nested sequences have the lengths the shape says. */
  predicate WellShaped<T>(t: Tensor<T>) {
    && |t.data| == t.shape.b
    && (forall n :: 0 <= n < |t.data| ==> |t.data[n]| == t.shape.c)
    && (forall n, ch :: 0 <= n < |t.data| && 0 <= ch < |t.data[n]| ==> |t.data[n][ch]| == t.shape.h)
    && (forall n, ch, y :: 0 <= n < |t.data| && 0 <= ch < |t.data[n]| && 0 <= y < |t.data[n][ch]| ==>
          |t.data[n][ch][y]| == t.shape.w)
  }

  /** A position `[n][c][y][x]` of a tensor. */
  datatype Pos = Pos(n: int, c: int, y: int, x: int)

  predicate InShape(p: Pos, sh: Shape) {
    0 <= p.n < sh.b && 0 <= p.c < sh.c && 0 <= p.y < sh.h && 0 <= p.x < sh.w
  }

  function At<T>(t: Tensor<T>, p: Pos): T
    requires WellShaped(t) && InShape(p, t.shape)
  {
    t.data[p.n][p.c][p.y][p.x]
  }

  /** The number of elements of a tensor of this shape. */
  function Count(sh: Shape): nat {
    sh.b * sh.c * sh.h * sh.w
  }

  // ---------------------------------------------------------------------
  // Shapes and the position maps.

  /** Both spatial sizes are multiples of `s`. */
  predicate Divisible(sh: Shape, s: int) {
    s != 0 && sh.h % s == 0 && sh.w % s == 0
  }

  /** `(b, c*s*s, h/s, w/s)`, the shape `pixel_unshuffle` returns. */
  function UnshuffledShape(sh: Shape, s: nat): Shape
    requires s > 0
  {
    Shape(sh.b, sh.c * (s * s), sh.h / s, sh.w / s)
  }

  /** `(b, c/(s*s), h*s, w*s)`, the shape a pixel shuffle returns. */
  function ShuffledShape(sh: Shape, s: nat): Shape
    requires s > 0
  {
    Shape(sh.b, sh.c / (s * s), sh.h * s, sh.w * s)
  }

  /** Where `pixel_unshuffle` puts the input element at `p`. */
  function UnshufflePos(p: Pos, s: nat): Pos
    requires s > 0
  {
    Pos(p.n, p.c * (s * s) + (p.y % s) * s + p.x % s, p.y / s, p.x / s)
  }

  /** Which input element `pixel_unshuffle` puts at output position `q`. */
  function ShufflePos(q: Pos, s: nat): Pos
    requires s > 0
  {
    Pos(q.n, q.c / (s * s), q.y * s + (q.c % (s * s)) / s, q.x * s + q.c % s)
  }

  /** The offset `i*s + j` of a position inside its `s`-by-`s` block, as a channel offset. */
  lemma BlockOffset(i: int, j: int, s: int)
    requires s > 0 && 0 <= i < s && 0 <= j < s
    ensures 0 <= i * s + j < s * s
    ensures (i * s + j) / s == i && (i * s + j) % s == j
  {
    BelowNextMultiple(i, j, s, s);
    DivModUnique(i * s + j, s, i, j);
  }

  /** `y*s + i` stays below `h` when `y` is below `h/s` and `i` below `s`. */
  lemma ScaledIndexBelow(y: int, i: int, s: int, h: int)
    requires s > 0 && h % s == 0 && 0 <= y < h / s && 0 <= i < s
    ensures 0 <= y * s + i < h
  {
    BelowNextMultiple(y, i, s, h / s);
    ExactMultiple(h, s);
  }

  /** Channel `c*s*s + i*s + j` splits back into `c`, `i` and `j`. */
  lemma ChannelSplit(c: int, i: int, j: int, s: int)
    requires s > 0 && 0 <= i < s && 0 <= j < s
    ensures (c * (s * s) + i * s + j) / (s * s) == c
    ensures ((c * (s * s) + i * s + j) % (s * s)) / s == i
    ensures (c * (s * s) + i * s + j) % s == j
  {
    var oc := c * (s * s) + i * s + j;
    BlockOffset(i, j, s);
    DivModUnique(oc, s * s, c, i * s + j);
    assert oc == (c * s + i) * s + j;
    DivModUnique(oc, s, c * s + i, j);
  }

  /** Channel `c` is rebuilt from its block index and its offsets in the block. */
  lemma ChannelJoin(c: int, s: int)
    requires s > 0
    ensures (c / (s * s)) * (s * s) + ((c % (s * s)) / s) * s + c % s == c
    ensures 0 <= (c % (s * s)) / s < s
  {
    var k := c / (s * s);
    var m := c % (s * s);
    DivBelow(m, s, s);
    assert c == k * (s * s) + m;
    assert m == (m / s) * s + m % s;
    assert c == (k * s + m / s) * s + m % s;
    DivModUnique(c, s, k * s + m / s, m % s);
  }

  lemma ShufflePosInShape(q: Pos, sh: Shape, s: nat)
    requires s > 0 && Divisible(sh, s) && InShape(q, UnshuffledShape(sh, s))
    ensures InShape(ShufflePos(q, s), sh)
  {
    DivBelow(q.c, s * s, sh.c);
    ChannelJoin(q.c, s);
    ScaledIndexBelow(q.y, (q.c % (s * s)) / s, s, sh.h);
    ScaledIndexBelow(q.x, q.c % s, s, sh.w);
  }

  lemma UnshufflePosInShape(p: Pos, sh: Shape, s: nat)
    requires s > 0 && Divisible(sh, s) && InShape(p, sh)
    ensures InShape(UnshufflePos(p, s), UnshuffledShape(sh, s))
  {
    BlockOffset(p.y % s, p.x % s, s);
    BelowNextMultiple(p.c, (p.y % s) * s + p.x % s, s * s, sh.c);
    ExactMultiple(sh.h, s);
    ExactMultiple(sh.w, s);
    DivBelow(p.y, s, sh.h / s);
    DivBelow(p.x, s, sh.w / s);
  }

  lemma ShuffleAfterUnshufflePos(p: Pos, s: nat)
    requires s > 0
    ensures ShufflePos(UnshufflePos(p, s), s) == p
  {
    ChannelSplit(p.c, p.y % s, p.x % s, s);
  }

  lemma UnshuffleAfterShufflePos(q: Pos, s: nat)
    requires s > 0
    ensures UnshufflePos(ShufflePos(q, s), s) == q
  {
    var i := (q.c % (s * s)) / s;
    ChannelJoin(q.c, s);
    DivModUnique(q.y * s + i, s, q.y, i);
    DivModUnique(q.x * s + q.c % s, s, q.x, q.c % s);
  }

  /** Shuffling undoes unshuffling on shapes, and the other way round. */
  lemma ShapeRoundTrip(sh: Shape, s: nat)
    requires s > 0
    ensures Divisible(sh, s) ==> ShuffledShape(UnshuffledShape(sh, s), s) == sh
    ensures sh.c % (s * s) == 0 ==> UnshuffledShape(ShuffledShape(sh, s), s) == sh
  {
    DivModUnique(sh.c * (s * s), s * s, sh.c, 0);
    DivModUnique(sh.h * s, s, sh.h, 0);
    DivModUnique(sh.w * s, s, sh.w, 0);
  }

  // ---------------------------------------------------------------------
  // The tensor operations.

  /** The exceptions `pixel_unshuffle` raises: `hh % 0` divides by zero, the
      assert at the top rejects sizes that `scale` does not divide, and a
      negative `scale` gives `view` a negative size. */
  datatype UnshuffleError = ZeroDivisionError | AssertionError | InvalidViewError

  function UnshuffleElement<T>(t: Tensor<T>, s: nat, q: Pos): T
    requires s > 0 && WellShaped(t) && Divisible(t.shape, s) && InShape(q, UnshuffledShape(t.shape, s))
  {
    ShufflePosInShape(q, t.shape, s);
    At(t, ShufflePos(q, s))
  }

  /** The rearrangement itself, for a positive `s` that divides both spatial sizes. */
  function Unshuffled<T>(t: Tensor<T>, s: nat): (r: Tensor<T>)
    requires s > 0 && WellShaped(t) && Divisible(t.shape, s)
    ensures WellShaped(r) && r.shape == UnshuffledShape(t.shape, s)
  {
    var sh := UnshuffledShape(t.shape, s);
    Tensor(sh,
      seq(sh.b, n requires 0 <= n < sh.b =>
        seq(sh.c, ch requires 0 <= ch < sh.c =>
          seq(sh.h, y requires 0 <= y < sh.h =>
            seq(sh.w, x requires 0 <= x < sh.w => UnshuffleElement(t, s, Pos(n, ch, y, x)))))))
  }

  /** `pixel_unshuffle(x, scale)`. */
  function PixelUnshuffle<T>(t: Tensor<T>, s: int): (r: Result<Tensor<T>, UnshuffleError>)
    requires WellShaped(t)
    ensures r.Ok? <==> s > 0 && Divisible(t.shape, s)
    ensures r.Ok? ==> WellShaped(r.value) && r.value.shape == UnshuffledShape(t.shape, s)
    ensures s == 0 ==> r == Err(ZeroDivisionError)
    ensures s != 0 && !Divisible(t.shape, s) ==> r == Err(AssertionError)
    ensures s < 0 && Divisible(t.shape, s) ==> r == Err(InvalidViewError)
  {
    if s == 0 then Err(ZeroDivisionError)
    else if !(t.shape.h % s == 0 && t.shape.w % s == 0) then Err(AssertionError)
    else if s < 0 then Err(InvalidViewError)
    else Ok(Unshuffled(t, s))
  }

  function ShuffleElement<T>(t: Tensor<T>, s: nat, p: Pos): T
    requires s > 0 && WellShaped(t) && t.shape.c % (s * s) == 0 && InShape(p, ShuffledShape(t.shape, s))
  {
    ShapeRoundTrip(t.shape, s);
    assert Divisible(ShuffledShape(t.shape, s), s) by {
      DivModUnique(t.shape.h * s, s, t.shape.h, 0);
      DivModUnique(t.shape.w * s, s, t.shape.w, 0);
    }
    UnshufflePosInShape(p, ShuffledShape(t.shape, s), s);
    At(t, UnshufflePos(p, s))
  }

  /** The pixel shuffle of `torch.nn.PixelShuffle(s)` (what `Upsample` stacks):
      output channel `ch` at `(y*s + i, x*s + j)` holds input channel
      `ch*s*s + i*s + j` at `(y, x)`. */
  function PixelShuffle<T>(t: Tensor<T>, s: nat): (r: Tensor<T>)
    requires s > 0 && WellShaped(t) && t.shape.c % (s * s) == 0
    ensures WellShaped(r) && r.shape == ShuffledShape(t.shape, s)
  {
    var sh := ShuffledShape(t.shape, s);
    Tensor(sh,
      seq(sh.b, n requires 0 <= n < sh.b =>
        seq(sh.c, ch requires 0 <= ch < sh.c =>
          seq(sh.h, y requires 0 <= y < sh.h =>
            seq(sh.w, x requires 0 <= x < sh.w => ShuffleElement(t, s, Pos(n, ch, y, x)))))))
  }

  // ---------------------------------------------------------------------
  // Properties.

  /** Two tensors of one shape with the same element at every position are equal. */
  lemma TensorExt<T>(a: Tensor<T>, b: Tensor<T>)
    requires WellShaped(a) && WellShaped(b) && a.shape == b.shape
    requires forall p :: InShape(p, a.shape) ==> At(a, p) == At(b, p)
    ensures a == b
  {
    forall n | 0 <= n < a.shape.b ensures a.data[n] == b.data[n] {
      forall ch | 0 <= ch < a.shape.c ensures a.data[n][ch] == b.data[n][ch] {
        forall y | 0 <= y < a.shape.h ensures a.data[n][ch][y] == b.data[n][ch][y] {
          forall x | 0 <= x < a.shape.w ensures a.data[n][ch][y][x] == b.data[n][ch][y][x] {
            assert At(a, Pos(n, ch, y, x)) == At(b, Pos(n, ch, y, x));
          }
        }
      }
    }
  }

  /** The index formula: output `[n][ch*s*s + i*s + j][y][x]` is input
      `[n][ch][y*s + i][x*s + j]`. */
  lemma UnshuffleIndexFormula<T>(t: Tensor<T>, s: nat, n: nat, ch: nat, i: nat, j: nat, y: nat, x: nat)
    requires s > 0 && WellShaped(t) && Divisible(t.shape, s)
    requires n < t.shape.b && ch < t.shape.c && i < s && j < s && y < t.shape.h / s && x < t.shape.w / s
    ensures 0 <= ch * (s * s) + i * s + j < t.shape.c * (s * s)
    ensures 0 <= y * s + i < t.shape.h && 0 <= x * s + j < t.shape.w
    ensures PixelUnshuffle(t, s).value.data[n][ch * (s * s) + i * s + j][y][x] == t.data[n][ch][y * s + i][x * s + j]
  {
    var p := Pos(n, ch, y * s + i, x * s + j);
    DivModUnique(y * s + i, s, y, i);
    DivModUnique(x * s + j, s, x, j);
    BelowNextMultiple(y, i, s, t.shape.h / s);
    BelowNextMultiple(x, j, s, t.shape.w / s);
    assert InShape(p, t.shape);
    UnshufflePosInShape(p, t.shape, s);
    ShuffleAfterUnshufflePos(p, s);
    assert UnshufflePos(p, s) == Pos(n, ch * (s * s) + i * s + j, y, x);
  }

  /** Every input element is carried to the position `UnshufflePos` names. */
  lemma UnshuffleMovesEachElement<T>(t: Tensor<T>, s: nat, p: Pos)
    requires s > 0 && WellShaped(t) && Divisible(t.shape, s) && InShape(p, t.shape)
    ensures InShape(UnshufflePos(p, s), UnshuffledShape(t.shape, s))
    ensures At(Unshuffled(t, s), UnshufflePos(p, s)) == At(t, p)
  {
    UnshufflePosInShape(p, t.shape, s);
    ShuffleAfterUnshufflePos(p, s);
  }

  /** `pixel_unshuffle` moves elements by a bijection between the input's and
      the output's positions: no two input positions meet, and every output
      position is filled from one input position. */
  lemma UnshufflePosBijective(sh: Shape, s: nat)
    requires s > 0 && Divisible(sh, s)
    ensures forall p, p' :: InShape(p, sh) && InShape(p', sh) && UnshufflePos(p, s) == UnshufflePos(p', s) ==> p == p'
    ensures forall q :: InShape(q, UnshuffledShape(sh, s)) ==>
      InShape(ShufflePos(q, s), sh) && UnshufflePos(ShufflePos(q, s), s) == q
  {
    forall p, p' | InShape(p, sh) && InShape(p', sh) && UnshufflePos(p, s) == UnshufflePos(p', s)
      ensures p == p'
    {
      ShuffleAfterUnshufflePos(p, s);
      ShuffleAfterUnshufflePos(p', s);
    }
    forall q | InShape(q, UnshuffledShape(sh, s))
      ensures InShape(ShufflePos(q, s), sh) && UnshufflePos(ShufflePos(q, s), s) == q
    {
      ShufflePosInShape(q, sh, s);
      UnshuffleAfterShufflePos(q, s);
    }
  }

  /** No element is lost or created: the element count is unchanged. */
  lemma UnshuffleKeepsCount(sh: Shape, s: nat)
    requires s > 0 && Divisible(sh, s)
    ensures Count(UnshuffledShape(sh, s)) == Count(sh)
  {
    var h, w := sh.h / s, sh.w / s;
    assert sh.h == h * s && sh.w == w * s;
    calc {
      Count(UnshuffledShape(sh, s));
      sh.b * (sh.c * (s * s)) * h * w;
      sh.b * sh.c * (h * s) * (w * s);
      Count(sh);
    }
  }

  lemma ShuffleUnshuffleAt<T>(t: Tensor<T>, s: nat, p: Pos)
    requires s > 0 && WellShaped(t) && Divisible(t.shape, s) && InShape(p, t.shape)
    ensures (Unshuffled(t, s).shape.c) % (s * s) == 0
    ensures PixelShuffle(Unshuffled(t, s), s).shape == t.shape
    ensures At(PixelShuffle(Unshuffled(t, s), s), p) == At(t, p)
  {
    DivModUnique(t.shape.c * (s * s), s * s, t.shape.c, 0);
    ShapeRoundTrip(t.shape, s);
    UnshuffleMovesEachElement(t, s, p);
  }

  /** A pixel shuffle undoes `pixel_unshuffle`. */
  lemma ShuffleUndoesUnshuffle<T>(t: Tensor<T>, s: nat)
    requires s > 0 && WellShaped(t) && Divisible(t.shape, s)
    ensures PixelUnshuffle(t, s).Ok? && PixelUnshuffle(t, s).value.shape.c % (s * s) == 0
    ensures PixelShuffle(PixelUnshuffle(t, s).value, s) == t
  {
    var u := Unshuffled(t, s);
    DivModUnique(t.shape.c * (s * s), s * s, t.shape.c, 0);
    var r := PixelShuffle(u, s);
    ShapeRoundTrip(t.shape, s);
    forall p | InShape(p, t.shape) ensures At(r, p) == At(t, p) {
      ShuffleUnshuffleAt(t, s, p);
    }
    TensorExt(r, t);
  }

  /** `pixel_unshuffle` undoes a pixel shuffle. */
  lemma UnshuffleUndoesShuffle<T>(t: Tensor<T>, s: nat)
    requires s > 0 && WellShaped(t) && t.shape.c % (s * s) == 0
    ensures PixelUnshuffle(PixelShuffle(t, s), s).Ok?
    ensures PixelUnshuffle(PixelShuffle(t, s), s).value == t
  {
    var v := PixelShuffle(t, s);
    DivModUnique(t.shape.h * s, s, t.shape.h, 0);
    DivModUnique(t.shape.w * s, s, t.shape.w, 0);
    assert Divisible(v.shape, s);
    var r := Unshuffled(v, s);
    ShapeRoundTrip(t.shape, s);
    forall q | InShape(q, r.shape) ensures At(r, q) == At(t, q) {
      ShufflePosInShape(q, v.shape, s);
      UnshuffleAfterShufflePos(q, s);
    }
    TensorExt(r, t);
  }
}
