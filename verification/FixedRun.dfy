/** The two Q16.16 inference routines, writing their activations in place. */
module FixedRun {
  import opened MachineInts
  import opened Mlp
  import opened MlpKernels
  import opened FixedPoint
  import opened FixedNets

  /** The weight tables, indexed by input and neuron. */
  datatype Tables = Tables(w1: seq<seq<i32>>, b1: seq<i32>, w2: seq<seq<i32>>, b2: seq<i32>)

  predicate TableShapes(t: Tables) {
    && Matrix(t.w1, INPUT_SIZE, HIDDEN_SIZE) && |t.b1| == HIDDEN_SIZE
    && Matrix(t.w2, HIDDEN_SIZE, OUTPUT_SIZE) && |t.b2| == OUTPUT_SIZE
  }

  function WeightsOf(t: Tables): (n: Weights)
    requires TableShapes(t)
    ensures Shaped(n) && n.b1 == t.b1 && n.b2 == t.b2
    ensures forall j, i | 0 <= j < HIDDEN_SIZE && 0 <= i < INPUT_SIZE :: n.w1[j][i] == t.w1[i][j]
    ensures forall j, i | 0 <= j < OUTPUT_SIZE && 0 <= i < HIDDEN_SIZE :: n.w2[j][i] == t.w2[i][j]
  {
    Weights(Columns(t.w1, HIDDEN_SIZE), t.b1, Columns(t.w2, OUTPUT_SIZE), t.b2)
  }

  class Activations {
    const hidden: array<i32>
    const output: array<i32>

    constructor ()
      ensures Valid() && fresh(hidden) && fresh(output)
    {
      hidden, output := new i32[HIDDEN_SIZE], new i32[OUTPUT_SIZE];
    }

    predicate Valid() {
      hidden.Length == HIDDEN_SIZE && output.Length == OUTPUT_SIZE && hidden != output
    }
  }

  // One neuron with a 64-bit accumulator.

  lemma WideTerm(a: i32, b: i32)
    ensures -TWO63 <= (a as int) * b < TWO63
    ensures -0x4000_0000_0000 <= Shift16((a as int) * b) <= 0x4000_0000_0000
  {
    ProductBound(a, b, TWO31, TWO31);
    ShiftBetween((a as int) * b, 0x4000_0000_0000);
  }

  lemma {:induction false} WideSum(x: seq<i32>, w: seq<i32>, n: nat)
    requires n <= |x| && n <= |w|
    ensures -0x4000_0000_0000 * n <= TermSum(x, w, n) <= 0x4000_0000_0000 * n
  {
    if n == 0 {
    } else {
      WideSum(x, w, n - 1);
      WideTerm(x[n - 1], w[n - 1]);
    }
  }

  lemma Wrap64Small(x: int)
    requires -TWO63 <= x < TWO63
    ensures Wrap64(x) == x
  {
  }

  /** The 64-bit accumulator never wraps: it holds the sum of the floored products and the bias. */
  method Accumulate64(x: seq<i32>, w: seq<i32>, b: i32) returns (acc: i64)
    requires |x| == |w| <= INPUT_SIZE
    ensures acc == Accumulator(x, w, b)
  {
    acc := 0;
    for i := 0 to |x|
      invariant acc == TermSum(x, w, i)
    {
      WideTerm(x[i], w[i]);
      WideSum(x, w, i + 1);
      var product := (x[i] as int) * w[i];
      Wrap64Small(product);
      Wrap64Small(TermSum(x, w, i + 1));
      acc := Wrap64(acc + Shift16(Wrap64(product)));
    }
    WideSum(x, w, |x|);
    Wrap64Small(acc + b);
    acc := Wrap64(acc + b);
  }

  // One neuron with a 32-bit accumulator.

  /** The fixed-point multiply: a 64-bit product, shifted and narrowed. */
  function FpMul(a: i32, b: i32): i32 {
    Wrap32(Shift16((a as int) * b))
  }

  /** The 32-bit accumulator starts from the bias and holds the wrapped sum. */
  method Accumulate32(x: seq<i32>, w: seq<i32>, b: i32) returns (acc: i32)
    requires |x| == |w|
    ensures acc == Wrap32(Accumulator(x, w, b))
  {
    acc := b;
    WrapSmall(b);
    for i := 0 to |x|
      invariant acc == Wrap32(TermSum(x, w, i) + b)
    {
      WrapAdd(TermSum(x, w, i) + b, Shift16((x[i] as int) * w[i]));
      acc := Wrap32(acc + FpMul(x[i], w[i]));
    }
  }

  /** Column j of a weight table. */
  function TableColumn(w: seq<seq<i32>>, j: nat): (r: seq<i32>)
    requires forall i | 0 <= i < |w| :: j < |w[i]|
    ensures r == Column(w, j)
  {
    seq(|w|, i requires 0 <= i < |w| => w[i][j])
  }

  // The ReLU network.

  /** Narrow the accumulator, then clamp negatives to zero. */
  method ReluLayer(x: seq<i32>, w: seq<seq<i32>>, b: seq<i32>, out: array<i32>)
    requires |x| <= INPUT_SIZE && Matrix(w, |x|, out.Length) && |b| == out.Length
    modifies out
    ensures out[..] == ReluAll(Sums(x, Columns(w, out.Length), b))
  {
    for j := 0 to out.Length
      invariant forall k | 0 <= k < j :: out[k] == Relu(Wrap32(Accumulator(x, Column(w, k), b[k])))
    {
      var acc := Accumulate64(x, TableColumn(w, j), b[j]);
      out[j] := Relu(Wrap32(acc));
    }
  }

  /** Narrow the accumulator. */
  method LogitLayer(x: seq<i32>, w: seq<seq<i32>>, b: seq<i32>, out: array<i32>)
    requires |x| <= INPUT_SIZE && Matrix(w, |x|, out.Length) && |b| == out.Length
    modifies out
    ensures out[..] == Sums(x, Columns(w, out.Length), b)
  {
    for j := 0 to out.Length
      invariant forall k | 0 <= k < j :: out[k] == Wrap32(Accumulator(x, Column(w, k), b[k]))
    {
      var acc := Accumulate64(x, TableColumn(w, j), b[j]);
      out[j] := Wrap32(acc);
    }
  }

  method PredictRelu(x: seq<i32>, t: Tables, act: Activations) returns (pred: int)
    requires TableShapes(t) && |x| == INPUT_SIZE && act.Valid()
    modifies act.hidden, act.output
    ensures act.hidden[..] == ReluAll(Sums(x, WeightsOf(t).w1, WeightsOf(t).b1))
    ensures act.output[..] == ReluLogits(x, WeightsOf(t))
    ensures IsFirstMax(ReluLogits(x, WeightsOf(t)), pred)
  {
    ReluLayer(x, t.w1, t.b1, act.hidden);
    LogitLayer(act.hidden[..], t.w2, t.b2, act.output);
    pred := ArgmaxValue(act.output[..]);
  }

  // The sigmoid network.

  method SigmoidLayer(x: seq<i32>, w: seq<seq<i32>>, b: seq<i32>, out: array<i32>)
    requires Matrix(w, |x|, out.Length) && |b| == out.Length
    modifies out
    ensures out[..] == SigmoidAll(Sums(x, Columns(w, out.Length), b))
  {
    for j := 0 to out.Length
      invariant forall k | 0 <= k < j :: out[k] == Sigmoid(Wrap32(Accumulator(x, Column(w, k), b[k])))
    {
      var acc := Accumulate32(x, TableColumn(w, j), b[j]);
      SigmoidMonotone(acc, acc);
      out[j] := Sigmoid(acc);
    }
  }

  method NarrowLogitLayer(x: seq<i32>, w: seq<seq<i32>>, b: seq<i32>, out: array<i32>)
    requires Matrix(w, |x|, out.Length) && |b| == out.Length
    modifies out
    ensures out[..] == Sums(x, Columns(w, out.Length), b)
  {
    for j := 0 to out.Length
      invariant forall k | 0 <= k < j :: out[k] == Wrap32(Accumulator(x, Column(w, k), b[k]))
    {
      var acc := Accumulate32(x, TableColumn(w, j), b[j]);
      out[j] := acc;
    }
  }

  method PredictSigmoid(x: seq<i32>, t: Tables, act: Activations) returns (pred: int)
    requires TableShapes(t) && |x| == INPUT_SIZE && act.Valid()
    modifies act.hidden, act.output
    ensures act.hidden[..] == SigmoidAll(Sums(x, WeightsOf(t).w1, WeightsOf(t).b1))
    ensures act.output[..] == SigmoidLogits(x, WeightsOf(t))
    ensures IsFirstMax(SigmoidLogits(x, WeightsOf(t)), pred)
  {
    SigmoidLayer(x, t.w1, t.b1, act.hidden);
    NarrowLogitLayer(act.hidden[..], t.w2, t.b2, act.output);
    pred := ArgmaxValue(act.output[..]);
  }
}
