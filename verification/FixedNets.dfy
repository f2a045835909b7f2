/** The two Q16.16 networks as they run, and how far their answers are from exact arithmetic. */
module FixedNets {
  import opened MachineInts
  import opened Mlp
  import opened MlpKernels
  import opened FixedPoint

  /** The value a 64-bit register keeps. */
  function Wrap64(x: int): i64 {
    (x + TWO63) % TWO64 - TWO63
  }

  // What the networks compute.

  /** The wide accumulator of one ReLU-network neuron. */
  function Accumulator(x: seq<int>, w: seq<int>, b: int): int
    requires |x| == |w|
  {
    TermSum(x, w, |x|) + b
  }

  predicate Layered(x: seq<int>, w: seq<seq<int>>, b: seq<int>) {
    Matrix(w, |b|, |x|)
  }

  /** Narrowed accumulators of a layer. */
  function Sums(x: seq<int>, w: seq<seq<int>>, b: seq<int>): (r: seq<int>)
    requires Layered(x, w, b)
    ensures |r| == |b|
  {
    seq(|b|, j requires 0 <= j < |b| => Wrap32(Accumulator(x, w[j], b[j])))
  }

  function ReluAll(s: seq<int>): (r: seq<int>)
    ensures |r| == |s|
  {
    seq(|s|, j requires 0 <= j < |s| => Relu(s[j]))
  }

  function SigmoidAll(s: seq<int>): (r: seq<int>)
    requires forall j | 0 <= j < |s| :: -TWO31 <= s[j] < TWO31
    ensures |r| == |s|
  {
    seq(|s|, j requires 0 <= j < |s| => Sigmoid(s[j]))
  }

  // The same networks in exact arithmetic.

  function ExactSums(x: seq<real>, w: seq<seq<int>>, b: seq<int>): (r: seq<real>)
    requires Matrix(w, |b|, |x|)
    ensures |r| == |b|
  {
    seq(|b|, j requires 0 <= j < |b| => ExactSum(x, w[j], |x|) + (b[j] as real))
  }

  function ReluReals(s: seq<real>): (r: seq<real>)
    ensures |r| == |s|
  {
    seq(|s|, j requires 0 <= j < |s| => ReluReal(s[j]))
  }

  function SigmoidReals(s: seq<real>): (r: seq<real>)
    ensures |r| == |s|
  {
    seq(|s|, j requires 0 <= j < |s| => SigmoidReal(s[j]))
  }

  /** The weights, one row for each neuron. */
  datatype Weights = Weights(w1: seq<seq<int>>, b1: seq<int>, w2: seq<seq<int>>, b2: seq<int>)

  predicate Shaped(n: Weights) {
    && |n.b1| == HIDDEN_SIZE && Matrix(n.w1, HIDDEN_SIZE, INPUT_SIZE)
    && |n.b2| == OUTPUT_SIZE && Matrix(n.w2, OUTPUT_SIZE, HIDDEN_SIZE)
  }

  function ReluLogits(x: seq<int>, n: Weights): seq<int>
    requires Shaped(n) && |x| == INPUT_SIZE
  {
    Sums(ReluAll(Sums(x, n.w1, n.b1)), n.w2, n.b2)
  }

  function ExactReluLogits(x: seq<int>, n: Weights): seq<real>
    requires Shaped(n) && |x| == INPUT_SIZE
  {
    ExactSums(ReluReals(ExactSums(Reals(x), n.w1, n.b1)), n.w2, n.b2)
  }

  function SigmoidLogits(x: seq<int>, n: Weights): seq<int>
    requires Shaped(n) && |x| == INPUT_SIZE
  {
    Sums(SigmoidAll(Sums(x, n.w1, n.b1)), n.w2, n.b2)
  }

  function ExactSigmoidLogits(x: seq<int>, n: Weights): seq<real>
    requires Shaped(n) && |x| == INPUT_SIZE
  {
    ExactSums(SigmoidReals(ExactSums(Reals(x), n.w1, n.b1)), n.w2, n.b2)
  }

  // Narrowing and rounding through one layer.

  /** Every accumulator of the layer fits 32 bits. */
  predicate Fits32(x: seq<int>, w: seq<seq<int>>, b: seq<int>)
    requires Layered(x, w, b)
  {
    forall j | 0 <= j < |b| :: -TWO31 <= Accumulator(x, w[j], b[j]) < TWO31
  }

  /** A layer's sums before activation: low by less than the number of inputs, never high. */
  lemma LayerError(x: seq<int>, w: seq<seq<int>>, b: seq<int>, j: nat)
    requires Layered(x, w, b) && Fits32(x, w, b) && j < |b| && |x| > 0
    ensures var exact := ExactSums(Reals(x), w, b)[j];
            (Sums(x, w, b)[j] as real) <= exact < (Sums(x, w, b)[j] as real) + (|x| as real)
  {
    var sum := TermSum(x, w[j], |x|);
    FlooredSum(x, w[j], |x|);
    WrapSmall(Accumulator(x, w[j], b[j]));
    assert ((sum + b[j]) as real) == (sum as real) + (b[j] as real);
  }

  /** The second layer on activations that are low by at most e. */
  lemma LogitError(h: seq<int>, exact: seq<real>, w: seq<seq<int>>, b: seq<int>, e: real, j: nat)
    requires Layered(h, w, b) && Fits32(h, w, b) && Above(exact, Reals(h), e) && j < |b|
    ensures var d := ExactSums(exact, w, b)[j] - (Sums(h, w, b)[j] as real);
            -Spread(w[j], |h|, e) <= d <= Spread(w[j], |h|, e) + (|h| as real)
  {
    var sum := TermSum(h, w[j], |h|);
    OutputError(exact, h, w[j], e);
    WrapSmall(Accumulator(h, w[j], b[j]));
    assert ((sum + b[j]) as real) == (sum as real) + (b[j] as real);
  }

  predicate SmallWeights(w: seq<seq<int>>, m: nat) {
    forall j | 0 <= j < |w| :: forall i | 0 <= i < |w[j]| :: Abs(w[j][i]) < m
  }

  predicate SmallBiases(b: seq<int>, m: nat) {
    forall j | 0 <= j < |b| :: Abs(b[j]) < m
  }

  predicate UnitInputs(x: seq<int>) {
    forall i | 0 <= i < |x| :: 0 <= x[i] <= 65536
  }

  /** The bounds the shipped ReLU weights meet, for pixels in [0, 1]. */
  predicate ReluRange(x: seq<int>, n: Weights) {
    && UnitInputs(x) && SmallWeights(n.w1, 0x8000) && SmallBiases(n.b1, 0x8000)
    && SmallWeights(n.w2, 0x2_0000) && SmallBiases(n.b2, 0x8000)
  }

  /** The activations of the ReLU network stay below 785 * 2^15. */
  lemma HiddenRange(x: seq<int>, n: Weights)
    requires Shaped(n) && |x| == INPUT_SIZE && ReluRange(x, n)
    ensures Fits32(x, n.w1, n.b1)
    ensures var h := ReluAll(Sums(x, n.w1, n.b1));
            forall j | 0 <= j < |h| :: 0 <= h[j] <= 785 * 0x8000
  {
    forall j | 0 <= j < |n.b1|
      ensures -785 * 0x8000 <= Accumulator(x, n.w1[j], n.b1[j]) <= 785 * 0x8000
    {
      UnitSumBound(x, n.w1[j], INPUT_SIZE, 0x8000);
    }
    forall j | 0 <= j < |n.b1|
      ensures 0 <= ReluAll(Sums(x, n.w1, n.b1))[j] <= 785 * 0x8000
    {
      WrapSmall(Accumulator(x, n.w1[j], n.b1[j]));
    }
  }

  /** Both narrowing casts keep the value, through both layers. */
  lemma NarrowingIsLossless(x: seq<int>, n: Weights)
    requires Shaped(n) && |x| == INPUT_SIZE && ReluRange(x, n)
    ensures Fits32(x, n.w1, n.b1) && Fits32(ReluAll(Sums(x, n.w1, n.b1)), n.w2, n.b2)
  {
    HiddenRange(x, n);
    var h := ReluAll(Sums(x, n.w1, n.b1));
    forall j | 0 <= j < |n.b2|
      ensures -TWO31 <= Accumulator(h, n.w2[j], n.b2[j]) < TWO31
    {
      WideSumBound(h, n.w2[j], HIDDEN_SIZE, 785 * 0x8000);
    }
  }

  // The ReLU network against exact arithmetic.

  lemma ReluHiddenError(x: seq<int>, n: Weights)
    requires Shaped(n) && |x| == INPUT_SIZE && Fits32(x, n.w1, n.b1)
    ensures Above(ReluReals(ExactSums(Reals(x), n.w1, n.b1)), Reals(ReluAll(Sums(x, n.w1, n.b1))), 784.0)
  {
    var exact, h := ReluReals(ExactSums(Reals(x), n.w1, n.b1)), ReluAll(Sums(x, n.w1, n.b1));
    forall j | 0 <= j < |h|
      ensures 0.0 <= exact[j] - Reals(h)[j] <= 784.0
    {
      LayerError(x, n.w1, n.b1, j);
    }
  }

  /** A logit is at most 784 * |w|_1 / 2^16 high, and at most that plus 32 low. */
  lemma ReluLogitError(x: seq<int>, n: Weights, k: nat)
    requires Shaped(n) && |x| == INPUT_SIZE && k < OUTPUT_SIZE
    requires Fits32(x, n.w1, n.b1) && Fits32(ReluAll(Sums(x, n.w1, n.b1)), n.w2, n.b2)
    ensures var d := ExactReluLogits(x, n)[k] - (ReluLogits(x, n)[k] as real);
            var spread := 784.0 * (Norm1(n.w2[k], HIDDEN_SIZE) as real) / 65536.0;
            -spread <= d <= spread + 32.0
  {
    var h := ReluAll(Sums(x, n.w1, n.b1));
    ReluHiddenError(x, n);
    LogitError(h, ReluReals(ExactSums(Reals(x), n.w1, n.b1)), n.w2, n.b2, 784.0, k);
    SpreadIsNorm(n.w2[k], HIDDEN_SIZE, 784.0);
  }

  const RELU_ERROR: real := 784.0 * 2.0 * 32.0 + 32.0

  /** For weights in the shipped range every logit is within 784 * 2 * 32 + 32 units. */
  lemma ReluLogitsNear(x: seq<int>, n: Weights)
    requires Shaped(n) && |x| == INPUT_SIZE && ReluRange(x, n)
    ensures Near(ReluLogits(x, n), ExactReluLogits(x, n), RELU_ERROR)
  {
    NarrowingIsLossless(x, n);
    forall k | 0 <= k < OUTPUT_SIZE
      ensures -RELU_ERROR <= ExactReluLogits(x, n)[k] - (ReluLogits(x, n)[k] as real) <= RELU_ERROR
    {
      ReluLogitError(x, n, k);
      NormBound(n.w2[k], HIDDEN_SIZE, 0x2_0000);
      assert (Norm1(n.w2[k], HIDDEN_SIZE) as real) <= 32.0 * 131072.0;
    }
  }

  /** If the exact network's winner leads by more than twice that, it is the class returned. */
  lemma ReluMargin(x: seq<int>, n: Weights, k: nat, pred: int)
    requires Shaped(n) && |x| == INPUT_SIZE && ReluRange(x, n)
    requires Leads(ExactReluLogits(x, n), k, 2.0 * RELU_ERROR)
    requires IsFirstMax(ReluLogits(x, n), pred)
    ensures pred == k
  {
    ReluLogitsNear(x, n);
    Margin(ReluLogits(x, n), ExactReluLogits(x, n), RELU_ERROR, k, pred);
  }

  // The sigmoid network against exact arithmetic.

  /** Bounds the shipped sigmoid weights meet with room to spare, for pixels in [0, 1]. */
  predicate SigmoidRange(x: seq<int>, n: Weights) {
    && UnitInputs(x) && SmallWeights(n.w1, 0x20_0000) && SmallBiases(n.b1, 0x1000_0000)
    && SmallWeights(n.w2, 0x20_0000) && SmallBiases(n.b2, 0x1000_0000)
  }

  /** The 32-bit accumulators of a layer start from the bias and fit at every point of the loop. */
  predicate AlwaysFits32(x: seq<int>, w: seq<seq<int>>, b: seq<int>)
    requires Layered(x, w, b)
  {
    forall j, m | 0 <= j < |b| && 0 <= m <= |x| :: -TWO31 <= b[j] + TermSum(x, w[j], m) < TWO31
  }

  lemma UnitLayerFits(x: seq<int>, w: seq<seq<int>>, b: seq<int>)
    requires Layered(x, w, b) && |x| <= INPUT_SIZE && UnitInputs(x)
    requires SmallWeights(w, 0x20_0000) && SmallBiases(b, 0x1000_0000)
    ensures AlwaysFits32(x, w, b) && Fits32(x, w, b)
  {
    forall j, m | 0 <= j < |b| && 0 <= m <= |x|
      ensures -TWO31 <= b[j] + TermSum(x, w[j], m) < TWO31
    {
      UnitSumBound(x, w[j], m, 0x20_0000);
    }
    forall j | 0 <= j < |b|
      ensures -TWO31 <= Accumulator(x, w[j], b[j]) < TWO31
    {
      assert -TWO31 <= b[j] + TermSum(x, w[j], |x|) < TWO31;
    }
  }

  /** No 32-bit sum of the sigmoid network overflows, in either layer and at any point of its loop. */
  lemma SigmoidNoOverflow(x: seq<int>, n: Weights)
    requires Shaped(n) && |x| == INPUT_SIZE && SigmoidRange(x, n)
    ensures AlwaysFits32(x, n.w1, n.b1) && AlwaysFits32(SigmoidAll(Sums(x, n.w1, n.b1)), n.w2, n.b2)
    ensures Fits32(x, n.w1, n.b1) && Fits32(SigmoidAll(Sums(x, n.w1, n.b1)), n.w2, n.b2)
  {
    UnitLayerFits(x, n.w1, n.b1);
    var s := Sums(x, n.w1, n.b1);
    var h := SigmoidAll(s);
    forall j | 0 <= j < |h|
      ensures 0 <= h[j] <= 65536
    {
      SigmoidIsLinear(s[j]);
    }
    UnitLayerFits(h, n.w2, n.b2);
  }

  lemma SigmoidHiddenError(x: seq<int>, n: Weights)
    requires Shaped(n) && |x| == INPUT_SIZE && Fits32(x, n.w1, n.b1)
    ensures Above(SigmoidReals(ExactSums(Reals(x), n.w1, n.b1)), Reals(SigmoidAll(Sums(x, n.w1, n.b1))), 197.0)
  {
    var exact, h := SigmoidReals(ExactSums(Reals(x), n.w1, n.b1)), SigmoidAll(Sums(x, n.w1, n.b1));
    forall j | 0 <= j < |h|
      ensures 0.0 <= exact[j] - Reals(h)[j] <= 197.0
    {
      LayerError(x, n.w1, n.b1, j);
      SigmoidError(Sums(x, n.w1, n.b1)[j], ExactSums(Reals(x), n.w1, n.b1)[j]);
    }
  }

  /** The largest error of a logit over the classes' weights. */
  predicate SigmoidBound(n: Weights, e: real)
    requires Shaped(n)
  {
    forall k | 0 <= k < OUTPUT_SIZE :: 197.0 * (Norm1(n.w2[k], HIDDEN_SIZE) as real) / 65536.0 + 32.0 <= e
  }

  /** When no accumulator overflows, a lead of more than twice the error bound decides the class. */
  lemma SigmoidMargin(x: seq<int>, n: Weights, e: real, k: nat, pred: int)
    requires Shaped(n) && |x| == INPUT_SIZE && SigmoidBound(n, e)
    requires Fits32(x, n.w1, n.b1) && Fits32(SigmoidAll(Sums(x, n.w1, n.b1)), n.w2, n.b2)
    requires Leads(ExactSigmoidLogits(x, n), k, 2.0 * e)
    requires IsFirstMax(SigmoidLogits(x, n), pred)
    ensures Near(SigmoidLogits(x, n), ExactSigmoidLogits(x, n), e)
    ensures pred == k
  {
    var h := SigmoidAll(Sums(x, n.w1, n.b1));
    SigmoidHiddenError(x, n);
    forall j | 0 <= j < OUTPUT_SIZE
      ensures -e <= ExactSigmoidLogits(x, n)[j] - (SigmoidLogits(x, n)[j] as real) <= e
    {
      LogitError(h, SigmoidReals(ExactSums(Reals(x), n.w1, n.b1)), n.w2, n.b2, 197.0, j);
      SpreadIsNorm(n.w2[j], HIDDEN_SIZE, 197.0);
    }
    Margin(SigmoidLogits(x, n), ExactSigmoidLogits(x, n), e, k, pred);
  }
}
