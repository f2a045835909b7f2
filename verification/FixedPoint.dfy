/** Q16.16 arithmetic: floored products, narrowing, activations, and their distance from exact
    arithmetic on the same quantised data. */
module FixedPoint {
  import opened MachineInts
  import opened Mlp

  const ONE: int := 0x1_0000

  /** The arithmetic shift of a product: rounded down. */
  function Shift16(p: int): int {
    p / ONE
  }

  /** A sum of products, each rounded down on its own. */
  function TermSum(x: seq<int>, w: seq<int>, n: nat): int
    requires n <= |x| && n <= |w|
  {
    if n == 0 then 0 else TermSum(x, w, n - 1) + Shift16(x[n - 1] * w[n - 1])
  }

  /** The same sum without rounding. */
  function ExactSum(x: seq<real>, w: seq<int>, n: nat): real
    requires n <= |x| && n <= |w|
  {
    if n == 0 then 0.0 else ExactSum(x, w, n - 1) + x[n - 1] * (w[n - 1] as real) / 65536.0
  }

  function Reals(x: seq<int>): (r: seq<real>)
    ensures |r| == |x|
  {
    seq(|x|, i requires 0 <= i < |x| => x[i] as real)
  }

  lemma FlooredTerm(a: int, b: int)
    ensures var exact := (a as real) * (b as real) / 65536.0;
            (Shift16(a * b) as real) <= exact < (Shift16(a * b) as real) + 1.0
  {
  }

  /** Rounding each of n products down loses less than n units in all. */
  lemma {:induction false} FlooredSum(x: seq<int>, w: seq<int>, n: nat)
    requires n <= |x| && n <= |w|
    ensures var exact := ExactSum(Reals(x), w, n);
            (TermSum(x, w, n) as real) <= exact <= (TermSum(x, w, n) as real) + (n as real)
    ensures n > 0 ==> ExactSum(Reals(x), w, n) < (TermSum(x, w, n) as real) + (n as real)
  {
    if n == 0 {
    } else {
      FlooredSum(x, w, n - 1);
      FlooredTerm(x[n - 1], w[n - 1]);
    }
  }

  /** The sum of the magnitudes of the first n weights. */
  function Norm1(w: seq<int>, n: nat): nat
    requires n <= |w|
  {
    if n == 0 then 0 else Norm1(w, n - 1) + Abs(w[n - 1])
  }

  lemma {:induction false} NormBound(w: seq<int>, n: nat, m: nat)
    requires n <= |w| && forall i | 0 <= i < n :: Abs(w[i]) <= m
    ensures Norm1(w, n) <= n * m
  {
    if n == 0 {
    } else {
      NormBound(w, n - 1, m);
      assert n * m == (n - 1) * m + m;
    }
  }

  /** Each input is at most e above the other. */
  predicate Above(y: seq<real>, x: seq<real>, e: real) {
    |y| == |x| && forall i | 0 <= i < |x| :: 0.0 <= y[i] - x[i] <= e
  }

  /** What input errors of at most e can add up to in a sum with these weights. */
  function Spread(w: seq<int>, n: nat, e: real): real
    requires n <= |w|
  {
    if n == 0 then 0.0 else Spread(w, n - 1, e) + e * (Abs(w[n - 1]) as real) / 65536.0
  }

  lemma {:induction false} SpreadIsNorm(w: seq<int>, n: nat, e: real)
    requires n <= |w|
    ensures Spread(w, n, e) == e * (Norm1(w, n) as real) / 65536.0
  {
    if n == 0 {
    } else {
      SpreadIsNorm(w, n - 1, e);
      var a, b := Norm1(w, n - 1) as real, Abs(w[n - 1]) as real;
      assert (Norm1(w, n) as real) == a + b;
      assert e * (a + b) == e * a + e * b;
    }
  }

  lemma DifferenceTerm(y: real, x: real, w: int, e: real)
    requires 0.0 <= y - x <= e
    ensures var bound := e * (Abs(w) as real) / 65536.0;
            -bound <= y * (w as real) / 65536.0 - x * (w as real) / 65536.0 <= bound
  {
  }

  /** An input error of at most e is scaled by no more than the weights. */
  lemma {:induction false} InputError(y: seq<real>, x: seq<real>, w: seq<int>, n: nat, e: real)
    requires Above(y, x, e) && n <= |x| && n <= |w|
    ensures -Spread(w, n, e) <= ExactSum(y, w, n) - ExactSum(x, w, n) <= Spread(w, n, e)
  {
    if n == 0 {
    } else {
      InputError(y, x, w, n - 1, e);
      DifferenceTerm(y[n - 1], x[n - 1], w[n - 1], e);
      var p, q := y[n - 1] * (w[n - 1] as real) / 65536.0, x[n - 1] * (w[n - 1] as real) / 65536.0;
      var bound := e * (Abs(w[n - 1]) as real) / 65536.0;
      assert -bound <= p - q <= bound;
      assert ExactSum(y, w, n) == ExactSum(y, w, n - 1) + p;
      assert ExactSum(x, w, n) == ExactSum(x, w, n - 1) + q;
      assert Spread(w, n, e) == Spread(w, n - 1, e) + bound;
    }
  }

  /** A layer-2 sum over rounded inputs: the distance from the exact network. */
  lemma OutputError(exact: seq<real>, x: seq<int>, w: seq<int>, e: real)
    requires Above(exact, Reals(x), e) && |x| == |w|
    ensures -Spread(w, |w|, e) <= ExactSum(exact, w, |w|) - (TermSum(x, w, |w|) as real)
                               <= Spread(w, |w|, e) + (|w| as real)
  {
    InputError(exact, Reals(x), w, |w|, e);
    FlooredSum(x, w, |w|);
  }

  // ReLU.

  function Relu(x: int): int {
    if x > 0 then x else 0
  }

  function ReluReal(x: real): real {
    if x > 0.0 then x else 0.0
  }

  // The piecewise linear sigmoid.

  /** As coded: two guards, a linear part, two more guards. */
  function Sigmoid(x: i32): int {
    if x < -5 * ONE then 0
    else if x > 5 * ONE then ONE
    else
      var result := ONE / 2 + x / 4;
      if result < 0 then 0 else if result > ONE then ONE else result
  }

  function Cut(x: int, lo: int, hi: int): int {
    if x < lo then lo else if x > hi then hi else x
  }

  function SigmoidReal(x: real): real {
    var y := 32768.0 + x / 4.0;
    if y < 0.0 then 0.0 else if y > 65536.0 then 65536.0 else y
  }

  /** The outer guards never change the result. */
  lemma SigmoidIsLinear(x: i32)
    ensures Sigmoid(x) == Cut(32768 + x / 4, 0, 65536)
  {
  }

  lemma SigmoidMonotone(x: i32, y: i32)
    requires x <= y
    ensures 0 <= Sigmoid(x) <= Sigmoid(y) <= ONE
  {
  }

  /** An accumulator less than 784 units low gives an activation less than 197 units low. */
  lemma SigmoidError(x: i32, exact: real)
    requires (x as real) <= exact <= (x as real) + 784.0
    ensures 0.0 <= SigmoidReal(exact) - (Sigmoid(x) as real) < 197.0
  {
  }

  // The margin theorem.

  /** Every logit is within e of the exact one. */
  predicate Near(logits: seq<int>, exact: seq<real>, e: real) {
    |logits| == |exact| && forall k | 0 <= k < |logits| :: -e <= exact[k] - (logits[k] as real) <= e
  }

  /** The exact winner leads every other class by more than m. */
  predicate Leads(exact: seq<real>, k: nat, m: real) {
    k < |exact| && forall i | 0 <= i < |exact| && i != k :: exact[k] - exact[i] > m
  }

  /** A lead of more than twice the error survives rounding. */
  lemma Margin(logits: seq<int>, exact: seq<real>, e: real, k: nat, pred: int)
    requires Near(logits, exact, e) && Leads(exact, k, 2.0 * e) && IsFirstMax(logits, pred)
    ensures pred == k
  {
    forall i | 0 <= i < |logits| && i != k
      ensures logits[i] < logits[k]
    {
      assert exact[k] - exact[i] > 2.0 * e;
      assert (logits[i] as real) < (logits[k] as real);
    }
    assert logits[k] <= logits[pred];
  }

  // Narrowing.

  lemma ShiftBetween(p: int, m: int)
    requires -65536 * m <= p <= 65536 * m
    ensures -m <= Shift16(p) <= m
  {
  }

  lemma TermBound(a: int, b: int, m: int)
    requires 0 <= a <= 65536 && Abs(b) <= m
    ensures -m <= Shift16(a * b) <= m
  {
  }

  /** Inputs in [0, 1] cannot make a sum larger than its weights. */
  lemma {:induction false} UnitSumBound(x: seq<int>, w: seq<int>, n: nat, m: nat)
    requires n <= |x| && n <= |w|
    requires forall i | 0 <= i < n :: 0 <= x[i] <= 65536
    requires forall i | 0 <= i < n :: Abs(w[i]) <= m
    ensures -(n * m) <= TermSum(x, w, n) <= n * m
  {
    if n == 0 {
    } else {
      UnitSumBound(x, w, n - 1, m);
      TermBound(x[n - 1], w[n - 1], m);
      assert n * m == (n - 1) * m + m;
    }
  }

  lemma WideTermBound(a: int, b: int, h: nat)
    requires 0 <= a <= h && Abs(b) < 0x2_0000
    ensures -2 * h - 1 <= Shift16(a * b) <= 2 * h
  {
    MulNonNegative(a, b + 0x2_0000);
    MulNonNegative(a, 0x2_0000 - b);
    assert a * (b + 0x2_0000) == a * b + 0x2_0000 * a;
    assert a * (0x2_0000 - b) == 0x2_0000 * a - a * b;
    assert -0x2_0000 * h <= a * b <= 0x2_0000 * h;
  }

  lemma {:induction false} WideSumBound(x: seq<int>, w: seq<int>, n: nat, h: nat)
    requires n <= |x| && n <= |w|
    requires forall i | 0 <= i < n :: 0 <= x[i] <= h
    requires forall i | 0 <= i < n :: Abs(w[i]) < 0x2_0000
    ensures -(n * (2 * h + 1)) <= TermSum(x, w, n) <= n * (2 * h + 1)
  {
    if n == 0 {
    } else {
      WideSumBound(x, w, n - 1, h);
      WideTermBound(x[n - 1], w[n - 1], h);
      assert n * (2 * h + 1) == (n - 1) * (2 * h + 1) + (2 * h + 1);
    }
  }
}
