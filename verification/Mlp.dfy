/** The integer network: what every implementation computes, and how the element widths agree. */
module Mlp {
  import opened MachineInts
  import opened Simd

  const INPUT_SIZE: nat := 784
  const HIDDEN_SIZE: nat := 32
  const OUTPUT_SIZE: nat := 10

  /** The activation: negative sums give 0, large ones the largest element. */
  function Clamp(x: int, top: nat): int {
    if x < 0 then 0 else if x > top then top else x
  }

  const TOP_B: nat := 127
  const TOP_H: nat := 32767
  const TOP_W: nat := 0x7FFF_FFFF

  /** The activation is the nearest element that is not negative, at each width. */
  lemma ClampNearest(x: int, y: int)
    ensures 0 <= Clamp(x, TOP_B) <= 127 && (0 <= y <= 127 ==> Abs(x - Clamp(x, TOP_B)) <= Abs(x - y))
    ensures 0 <= Clamp(x, TOP_H) <= 32767 && (0 <= y <= 32767 ==> Abs(x - Clamp(x, TOP_H)) <= Abs(x - y))
    ensures -TWO31 <= x < TWO31 ==>
              0 <= Clamp(x, TOP_W) && (0 <= y ==> Abs(x - Clamp(x, TOP_W)) <= Abs(x - y))
  {
  }

  function Abs(x: int): nat {
    if x < 0 then -x else x
  }

  /** The 32-bit accumulator of one neuron. */
  function Sum(x: seq<int>, w: seq<int>): i32
    requires |x| == |w|
  {
    Wrap32(Dot(x, w, |x|))
  }

  predicate Rectangular(w: seq<seq<int>>, n: nat) {
    forall j | 0 <= j < |w| :: |w[j]| == n
  }

  /** A layer: one row of weights for each neuron. */
  function Layer(x: seq<int>, w: seq<seq<int>>, top: nat): seq<int>
    requires Rectangular(w, |x|)
  {
    seq(|w|, j requires 0 <= j < |w| => Clamp(Sum(x, w[j]), top))
  }

  /** The first position of the largest element. */
  predicate IsFirstMax(s: seq<int>, k: int) {
    && 0 <= k < |s|
    && (forall i | 0 <= i < |s| :: s[i] <= s[k])
    && (forall i | 0 <= i < k :: s[i] < s[k])
  }

  lemma FirstMaxUnique(s: seq<int>, k: int, k': int)
    requires IsFirstMax(s, k) && IsFirstMax(s, k')
    ensures k == k'
  {
    assert s[k] == s[k'];
  }

  /** What a forward pass leaves in its arrays and returns. */
  predicate Forward(x: seq<int>, w1: seq<seq<int>>, w2: seq<seq<int>>, top: nat,
                    hidden: seq<int>, output: seq<int>, pred: int)
  {
    && Rectangular(w1, |x|) && Rectangular(w2, |w1|)
    && hidden == Layer(x, w1, top)
    && output == Layer(hidden, w2, top)
    && IsFirstMax(output, pred)
  }

  /** Forward passes of one element width agree, whatever instructions they use. */
  lemma ForwardUnique(x: seq<int>, w1: seq<seq<int>>, w2: seq<seq<int>>, top: nat,
                      hidden: seq<int>, output: seq<int>, pred: int,
                      hidden': seq<int>, output': seq<int>, pred': int)
    requires Forward(x, w1, w2, top, hidden, output, pred) && Forward(x, w1, w2, top, hidden', output', pred')
    ensures hidden == hidden' && output == output' && pred == pred'
  {
    FirstMaxUnique(output, pred, pred');
  }

  // Bounds.

  predicate Bounded(s: seq<int>, m: int) {
    forall i | 0 <= i < |s| :: -m <= s[i] <= m
  }

  lemma ProductBound(a: int, b: int, m: int, n: int)
    requires -m <= a <= m && -n <= b <= n
    ensures -(m * n) <= a * b <= m * n
  {
  }

  lemma {:induction false} DotBound(x: seq<int>, w: seq<int>, n: nat, m: nat, b: nat)
    requires n <= |x| && n <= |w| && Bounded(x, m) && Bounded(w, b)
    ensures -(n * (m * b)) <= Dot(x, w, n) <= n * (m * b)
  {
    if n == 0 {
    } else {
      DotBound(x, w, n - 1, m, b);
      ProductBound(x[n - 1], w[n - 1], m, b);
      assert n * (m * b) == (n - 1) * (m * b) + m * b;
    }
  }

  /** When the products cannot leave 32 bits the accumulator holds the exact sum. */
  lemma NoOverflow(x: seq<int>, w: seq<int>, m: nat, b: nat)
    requires |x| == |w| && Bounded(x, m) && Bounded(w, b) && |x| * (m * b) < TWO31
    ensures Sum(x, w) == Dot(x, w, |x|)
    ensures -(|x| * (m * b)) <= Sum(x, w) <= |x| * (m * b)
  {
    DotBound(x, w, |x|, m, b);
    WrapSmall(Dot(x, w, |x|));
  }

  /** 8-bit data never overflows, at no point of the loop: the sum of any number of products is at
      most 784 * 2^14 in magnitude. */
  lemma ByteLayerExact(x: seq<int>, w: seq<int>)
    requires |x| == |w| == INPUT_SIZE && Bounded(x, 128) && Bounded(w, 128)
    ensures Sum(x, w) == Dot(x, w, INPUT_SIZE)
    ensures forall n: nat | n <= INPUT_SIZE :: -784 * 0x4000 <= Dot(x, w, n) <= 784 * 0x4000
  {
    NoOverflow(x, w, 128, 128);
    forall n: nat | n <= INPUT_SIZE
      ensures -784 * 0x4000 <= Dot(x, w, n) <= 784 * 0x4000
    {
      DotBound(x, w, n, 128, 128);
    }
  }

  /** Layer 2 on 16-bit elements never overflows, at no point of the loop. */
  lemma HalfLayerExact(h: seq<int>, w: seq<int>)
    requires |h| == |w| == HIDDEN_SIZE && Bounded(h, TOP_H) && Bounded(w, 128)
    ensures Sum(h, w) == Dot(h, w, HIDDEN_SIZE)
    ensures forall n: nat | n <= HIDDEN_SIZE :: -TWO31 <= Dot(h, w, n) < TWO31
  {
    NoOverflow(h, w, TOP_H, 128);
    forall n: nat | n <= HIDDEN_SIZE
      ensures -TWO31 <= Dot(h, w, n) < TWO31
    {
      DotBound(h, w, n, TOP_H, 128);
    }
  }

  predicate Within(s: seq<int>, lo: int, hi: int) {
    forall i | 0 <= i < |s| :: lo <= s[i] <= hi
  }

  /** Layer 2 on 32-bit elements, for hidden values up to m and any 8-bit weights: no sum leaves 32
      bits at any point of the loop. */
  ghost predicate WideLayerSafe(m: nat) {
    forall h: seq<int>, w: seq<int>, n: nat
      | |h| == HIDDEN_SIZE && |w| == HIDDEN_SIZE && n <= HIDDEN_SIZE && Within(h, 0, m) && Within(w, -128, 127) ::
      -TWO31 <= Dot(h, w, n) < TWO31
  }

  lemma {:induction false} DotWithin(h: seq<int>, w: seq<int>, n: nat, m: nat)
    requires n <= |h| && n <= |w| && Within(h, 0, m) && Within(w, -128, 127)
    ensures -(n * (128 * m)) <= Dot(h, w, n) <= n * (127 * m)
  {
    if n == 0 {
    } else {
      DotWithin(h, w, n - 1, m);
      var a, b := h[n - 1], w[n - 1];
      assert -128 * m <= a * b <= 127 * m by {
        MulNonNegative(a, b + 128);
        MulNonNegative(a, 127 - b);
        assert a * (b + 128) == a * b + 128 * a;
        assert a * (127 - b) == 127 * a - a * b;
      }
      assert n * (128 * m) == (n - 1) * (128 * m) + 128 * m;
      assert n * (127 * m) == (n - 1) * (127 * m) + 127 * m;
    }
  }

  lemma {:induction false} ConstantDot(x: seq<int>, w: seq<int>, n: nat, a: int, b: int)
    requires n <= |x| && n <= |w| && forall i | 0 <= i < n :: x[i] == a && w[i] == b
    ensures Dot(x, w, n) == n * (a * b)
  {
    if n == 0 {
    } else {
      ConstantDot(x, w, n - 1, a, b);
      assert n * (a * b) == (n - 1) * (a * b) + a * b;
    }
  }

  /** No layer-2 sum on 32-bit elements overflows exactly when hidden values stay within 2^19. */
  lemma WideLayerExactly(m: nat)
    ensures WideLayerSafe(m) <==> m <= 0x8_0000
  {
    if m <= 0x8_0000 {
      forall h: seq<int>, w: seq<int>, n: nat
        | |h| == HIDDEN_SIZE && |w| == HIDDEN_SIZE && n <= HIDDEN_SIZE && Within(h, 0, m) && Within(w, -128, 127)
        ensures -TWO31 <= Dot(h, w, n) < TWO31
      {
        DotWithin(h, w, n, m);
        MulNonNegative(HIDDEN_SIZE - n, m);
      }
    } else {
      var h, w := seq(HIDDEN_SIZE, i => m), seq(HIDDEN_SIZE, i => -128);
      ConstantDot(h, w, HIDDEN_SIZE, m, -128);
      assert Within(h, 0, m) && Within(w, -128, 127);
      assert Dot(h, w, HIDDEN_SIZE) < -TWO31;
    }
  }
}
