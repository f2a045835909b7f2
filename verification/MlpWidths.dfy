/** How the passes at different element widths agree, and exactly when they do not. */
module MlpWidths {
  import opened MachineInts
  import opened Simd
  import opened Mlp

  /** One vector is another cut off at c. */
  predicate CutAt(s: seq<int>, c: nat, t: seq<int>) {
    |s| == |t| && forall i | 0 <= i < |s| :: s[i] == if t[i] > c then c else t[i]
  }

  /** Three passes over sign-extended copies of the same data. When no layer-1 sum exceeds 127
      the outputs are cut-offs of one another too, the predicted classes are in order, and the
      widest prediction attains the maximum of all three output vectors. */
  lemma WidthsAgree(x: seq<int>, w1: seq<seq<int>>, w2: seq<seq<int>>,
                    hb: seq<int>, ob: seq<int>, pb: int,
                    hh: seq<int>, oh: seq<int>, ph: int,
                    hw: seq<int>, ow: seq<int>, pw: int)
    requires Forward(x, w1, w2, TOP_B, hb, ob, pb)
    requires Forward(x, w1, w2, TOP_H, hh, oh, ph)
    requires Forward(x, w1, w2, TOP_W, hw, ow, pw)
    ensures CutAt(hb, TOP_B, hh) && CutAt(hh, TOP_H, hw)
    ensures (forall j | 0 <= j < |w1| :: Sum(x, w1[j]) <= TOP_B) ==>
              && hb == hh == hw
              && CutAt(ob, TOP_B, oh) && CutAt(oh, TOP_H, ow)
              && pb <= ph <= pw
              && ob[pw] == ob[pb] && oh[pw] == oh[ph]
  {
  }

  // Exactly when the outputs of two widths are cut-offs of one another, whatever the second layer.

  /** Row of 8-bit weights of the second layer. */
  predicate IsRow(w: seq<int>) {
    |w| == HIDDEN_SIZE && Within(w, -128, 127)
  }

  predicate IsSecondLayer(w2: seq<seq<int>>) {
    |w2| == OUTPUT_SIZE && forall k | 0 <= k < |w2| :: IsRow(w2[k])
  }

  /** Hidden values of a narrow and a wide pass, with their largest elements. */
  predicate HiddenPair(hn: seq<int>, narrow: nat, hw: seq<int>, wide: nat) {
    && 0 < narrow <= TOP_H && narrow <= wide <= TOP_W
    && |hw| == HIDDEN_SIZE && Within(hw, 0, wide) && CutAt(hn, narrow, hw)
  }

  /** The narrow output of a neuron is the wide one cut off. */
  predicate RowAgrees(hn: seq<int>, narrow: nat, hw: seq<int>, wide: nat, w: seq<int>)
    requires |hn| == |hw| == |w|
  {
    Clamp(Sum(hn, w), narrow) == Clamp(Clamp(Sum(hw, w), wide), narrow)
  }

  /** A hidden value the narrow pass cuts off equals every positive hidden value. */
  predicate Uniform(h: seq<int>, top: nat) {
    forall i, j | 0 <= i < |h| && 0 <= j < |h| && h[i] > top && h[j] > 0 :: h[i] == h[j]
  }

  function Total(h: seq<int>, n: nat): int
    requires n <= |h|
  {
    if n == 0 then 0 else Total(h, n - 1) + h[n - 1]
  }

  /** The largest sum of hidden values that no row of 8-bit weights takes past 32 bits. */
  const TOTAL_MAX: nat := 0x100_0000

  lemma {:induction false} DotTotal(h: seq<int>, w: seq<int>, n: nat)
    requires n <= |h| && n <= |w| && (forall i | 0 <= i < |h| :: h[i] >= 0) && Within(w, -128, 127)
    ensures -128 * Total(h, n) <= Dot(h, w, n) <= 127 * Total(h, n) && Total(h, n) >= 0
  {
    if n == 0 {
    } else {
      DotTotal(h, w, n - 1);
      var a, b := h[n - 1], w[n - 1];
      MulNonNegative(a, b + 128);
      MulNonNegative(a, 127 - b);
      assert a * (b + 128) == a * b + 128 * a && a * (127 - b) == 127 * a - a * b;
    }
  }

  lemma {:induction false} TotalBound(h: seq<int>, n: nat, top: nat)
    requires n <= |h| && forall i | 0 <= i < |h| :: h[i] <= top
    ensures Total(h, n) <= n * top
  {
    if n == 0 {
    } else {
      TotalBound(h, n - 1, top);
      assert n * top == (n - 1) * top + top;
    }
  }

  /** The weights of the neurons that fire. */
  function Chosen(h: seq<int>, w: seq<int>, n: nat): int
    requires n <= |h| && n <= |w|
  {
    if n == 0 then 0 else Chosen(h, w, n - 1) + if h[n - 1] > 0 then w[n - 1] else 0
  }

  function Firing(h: seq<int>, n: nat): nat
    requires n <= |h|
  {
    if n == 0 then 0 else Firing(h, n - 1) + if h[n - 1] > 0 then 1 else 0
  }

  /** All neurons that fire have the value c. */
  predicate Level(h: seq<int>, c: int) {
    forall i | 0 <= i < |h| :: h[i] == 0 || h[i] == c
  }

  lemma {:induction false} LevelDot(h: seq<int>, w: seq<int>, n: nat, c: int)
    requires n <= |h| && n <= |w| && c > 0 && Level(h, c)
    ensures Dot(h, w, n) == c * Chosen(h, w, n) && Total(h, n) == c * Firing(h, n)
  {
    if n == 0 {
    } else {
      LevelDot(h, w, n - 1, c);
      assert c * Chosen(h, w, n) == c * Chosen(h, w, n - 1) + if h[n - 1] > 0 then c * w[n - 1] else 0;
      assert c * Firing(h, n) == c * Firing(h, n - 1) + if h[n - 1] > 0 then c else 0;
    }
  }

  lemma {:induction false} SameChosen(h: seq<int>, h': seq<int>, w: seq<int>, n: nat)
    requires n <= |h| && n <= |h'| && n <= |w| && forall i | 0 <= i < n :: h[i] > 0 <==> h'[i] > 0
    ensures Chosen(h, w, n) == Chosen(h', w, n) && Firing(h, n) == Firing(h', n) <= n
  {
    if n == 0 {
    } else {
      SameChosen(h, h', w, n - 1);
    }
  }

  /** Both hidden vectors are level when the wide one is uniform and above the narrow range. */
  lemma BothLevel(hn: seq<int>, narrow: nat, hw: seq<int>, wide: nat, w: seq<int>, c: int)
    requires HiddenPair(hn, narrow, hw, wide) && IsRow(w) && c > narrow && Level(hw, c)
    ensures Dot(hw, w, HIDDEN_SIZE) == c * Chosen(hw, w, HIDDEN_SIZE)
    ensures Sum(hn, w) == narrow * Chosen(hw, w, HIDDEN_SIZE)
  {
    LevelDot(hw, w, HIDDEN_SIZE, c);
    LevelDot(hn, w, HIDDEN_SIZE, narrow);
    SameChosen(hn, hw, w, HIDDEN_SIZE);
    NoOverflow(hn, w, TOP_H, 128);
  }

  /** Uniform hidden values: a neuron is positive in both passes or in neither. */
  lemma UniformAgrees(hn: seq<int>, narrow: nat, hw: seq<int>, wide: nat, w: seq<int>)
    requires HiddenPair(hn, narrow, hw, wide) && IsRow(w)
    requires Uniform(hw, narrow) && Total(hw, HIDDEN_SIZE) <= TOTAL_MAX
    ensures RowAgrees(hn, narrow, hw, wide, w)
  {
    if i :| 0 <= i < |hw| && hw[i] > narrow {
      var c := hw[i];
      BothLevel(hn, narrow, hw, wide, w, c);
      DotTotal(hw, w, HIDDEN_SIZE);
      WrapSmall(Dot(hw, w, HIDDEN_SIZE));
      SameSign(narrow, c, Chosen(hw, w, HIDDEN_SIZE));
    } else {
      assert hn == hw;
    }
  }

  lemma SameSign(t: nat, c: nat, s: int)
    requires 0 < t < c
    ensures s <= 0 ==> t * s <= 0 && c * s <= 0
    ensures s > 0 ==> t * s >= t && c * s >= c
  {
    if s <= 0 {
      MulNonNegative(t, -s);
      MulNonNegative(c, -s);
    } else {
      MulAtLeast(t, s);
      MulAtLeast(c, s);
    }
  }

  /** One weight at p, minus one at q. */
  function Difference(p: nat, q: nat): (w: seq<int>)
    ensures IsRow(w)
  {
    seq(HIDDEN_SIZE, i => if i == p then 1 else if i == q then -1 else 0)
  }

  lemma {:induction false} DifferenceDot(h: seq<int>, p: nat, q: nat, n: nat)
    requires n <= |h| == HIDDEN_SIZE && p != q && p < |h| && q < |h|
    ensures Dot(h, Difference(p, q), n) == (if p < n then h[p] else 0) - (if q < n then h[q] else 0)
  {
    if n == 0 {
    } else {
      DifferenceDot(h, p, q, n - 1);
    }
  }

  lemma DifferenceDisagrees(hn: seq<int>, narrow: nat, hw: seq<int>, wide: nat, p: nat, q: nat)
    requires HiddenPair(hn, narrow, hw, wide) && p < |hw| && q < |hw|
    requires hw[p] > hw[q] > 0 && hw[p] > narrow
    ensures !RowAgrees(hn, narrow, hw, wide, Difference(p, q))
  {
    DifferenceDot(hn, p, q, HIDDEN_SIZE);
    DifferenceDot(hw, p, q, HIDDEN_SIZE);
    WrapSmall(hn[p] - hn[q]);
    WrapSmall(hw[p] - hw[q]);
  }

  /** A row of weights that takes m from the neurons that fire. */
  function Spend(h: seq<int>, n: nat, m: nat): (w: seq<int>)
    requires n <= |h|
    ensures |w| == n && Within(w, -128, 0)
  {
    if n == 0 then []
    else
      var d := if h[n - 1] <= 0 then 0 else if m < 128 then m else 128;
      Spend(h, n - 1, m - d) + [-d]
  }

  lemma {:induction false} ChosenPrefix(h: seq<int>, w: seq<int>, b: int, n: nat)
    requires n <= |h| && n <= |w|
    ensures Chosen(h, w + [b], n) == Chosen(h, w, n)
  {
    if n == 0 {
    } else {
      ChosenPrefix(h, w, b, n - 1);
    }
  }

  lemma {:induction false} SpendChosen(h: seq<int>, n: nat, m: nat)
    requires n <= |h| && m <= 128 * Firing(h, n)
    ensures Chosen(h, Spend(h, n, m), n) == -(m as int)
  {
    if n == 0 {
    } else {
      var d := if h[n - 1] <= 0 then 0 else if m < 128 then m else 128;
      SpendChosen(h, n - 1, m - d);
      ChosenPrefix(h, Spend(h, n - 1, m - d), -d, n - 1);
    }
  }

  /** The smallest number of times c that exceeds 2^31. */
  lemma FirstOverflow(c: nat, k: nat) returns (m: nat)
    requires 0 < c < TWO31 && c * k > TOTAL_MAX
    ensures TWO31 < c * m <= TWO31 + c && m <= 128 * k
  {
    m := TWO31 / c + 1;
    Quotient(TWO31, c);
    assert c * m == TWO31 / c * c + c;
    if m > 128 * k {
      assert c * (m - 1 - 128 * k) == c * m - c - 128 * (c * k);
      MulNonNegative(c, m - 1 - 128 * k);
    }
  }

  lemma LargeValue(h: seq<int>) returns (i: nat)
    requires |h| == HIDDEN_SIZE && Total(h, HIDDEN_SIZE) > TOTAL_MAX
    ensures i < |h| && h[i] > TOP_H
  {
    if i': int :| 0 <= i' < |h| && h[i'] > TOP_H {
      i := i';
    } else {
      TotalBound(h, HIDDEN_SIZE, TOP_H);
      assert false;
    }
  }

  /** A sum just below the 32-bit range comes out positive. */
  lemma WrapsUp(p: int)
    requires TWO31 < p < TWO32
    ensures Wrap32(-p) > 0
  {
    ModUnique(-p + TWO31, -1, -p + TWO31 + TWO32, TWO32);
  }

  lemma Negated(a: nat, m: nat)
    ensures a * -(m as int) == -(a * m) <= 0
  {
    MulNonNegative(a, m);
  }

  /** Uniform hidden values whose sum is too large: some row overflows below and comes out positive. */
  lemma OverflowDisagrees(hn: seq<int>, narrow: nat, hw: seq<int>, wide: nat) returns (w: seq<int>)
    requires HiddenPair(hn, narrow, hw, wide) && Uniform(hw, narrow) && Total(hw, HIDDEN_SIZE) > TOTAL_MAX
    ensures IsRow(w) && !RowAgrees(hn, narrow, hw, wide, w)
  {
    var i := LargeValue(hw);
    var c := hw[i];
    assert Level(hw, c);
    LevelDot(hw, hw, HIDDEN_SIZE, c);
    var m := FirstOverflow(c, Firing(hw, HIDDEN_SIZE));
    w := OverflowRow(hn, narrow, hw, wide, c, m);
  }

  lemma OverflowRow(hn: seq<int>, narrow: nat, hw: seq<int>, wide: nat, c: nat, m: nat) returns (w: seq<int>)
    requires HiddenPair(hn, narrow, hw, wide) && narrow < c < TWO31 && Level(hw, c)
    requires m <= 128 * Firing(hw, HIDDEN_SIZE) && TWO31 < c * m <= TWO31 + c
    ensures IsRow(w) && !RowAgrees(hn, narrow, hw, wide, w)
  {
    w := Spend(hw, HIDDEN_SIZE, m);
    SpendChosen(hw, HIDDEN_SIZE, m);
    BothLevel(hn, narrow, hw, wide, w, c);
    Negated(narrow, m);
    Negated(c, m);
    WrapsUp(c * m);
    assert Sum(hn, w) <= 0 < Sum(hw, w);
  }

  /** For two widths and any hidden values: every row of 8-bit weights gives a narrow output that is
      the wide one cut off if and only if every value the narrow pass cuts off equals every positive
      one, and the wide sums cannot overflow. */
  lemma RowsAgreeExactly(hn: seq<int>, narrow: nat, hw: seq<int>, wide: nat)
    requires HiddenPair(hn, narrow, hw, wide)
    ensures (forall w | IsRow(w) :: RowAgrees(hn, narrow, hw, wide, w)) <==>
              Uniform(hw, narrow) && Total(hw, HIDDEN_SIZE) <= TOTAL_MAX
  {
    if Uniform(hw, narrow) && Total(hw, HIDDEN_SIZE) <= TOTAL_MAX {
      forall w | IsRow(w)
        ensures RowAgrees(hn, narrow, hw, wide, w)
      {
        UniformAgrees(hn, narrow, hw, wide, w);
      }
    } else {
      var w := Disagreeing(hn, narrow, hw, wide);
    }
  }

  lemma Disagreeing(hn: seq<int>, narrow: nat, hw: seq<int>, wide: nat) returns (w: seq<int>)
    requires HiddenPair(hn, narrow, hw, wide)
    requires !(Uniform(hw, narrow) && Total(hw, HIDDEN_SIZE) <= TOTAL_MAX)
    ensures IsRow(w) && !RowAgrees(hn, narrow, hw, wide, w)
  {
    if Uniform(hw, narrow) {
      w := OverflowDisagrees(hn, narrow, hw, wide);
    } else {
      var i, j :| 0 <= i < |hw| && 0 <= j < |hw| && hw[i] > narrow && hw[j] > 0 && hw[i] != hw[j];
      var p, q := if hw[i] > hw[j] then i else j, if hw[i] > hw[j] then j else i;
      w := Difference(p, q);
      DifferenceDisagrees(hn, narrow, hw, wide, p, q);
    }
  }

  /** The outputs of the two passes, for every second layer. */
  ghost predicate AlwaysCut(hn: seq<int>, narrow: nat, hw: seq<int>, wide: nat)
    requires |hn| == |hw| == HIDDEN_SIZE
  {
    forall w2 | IsSecondLayer(w2) :: CutAt(Layer(hn, w2, narrow), narrow, Layer(hw, w2, wide))
  }

  lemma LayerCut(hn: seq<int>, narrow: nat, hw: seq<int>, wide: nat, w2: seq<seq<int>>)
    requires |hn| == |hw| == HIDDEN_SIZE && IsSecondLayer(w2)
    ensures CutAt(Layer(hn, w2, narrow), narrow, Layer(hw, w2, wide)) <==>
              forall k | 0 <= k < |w2| :: RowAgrees(hn, narrow, hw, wide, w2[k])
  {
    var a, b := Layer(hn, w2, narrow), Layer(hw, w2, wide);
    if CutAt(a, narrow, b) {
      forall k | 0 <= k < |w2|
        ensures RowAgrees(hn, narrow, hw, wide, w2[k])
      {
        assert a[k] == if b[k] > narrow then narrow else b[k];
      }
    }
  }

  lemma AlwaysCutByRows(hn: seq<int>, narrow: nat, hw: seq<int>, wide: nat)
    requires |hn| == |hw| == HIDDEN_SIZE
    ensures AlwaysCut(hn, narrow, hw, wide) <==> forall w | IsRow(w) :: RowAgrees(hn, narrow, hw, wide, w)
  {
    forall w2 | IsSecondLayer(w2)
      ensures CutAt(Layer(hn, w2, narrow), narrow, Layer(hw, w2, wide)) <==>
                forall k | 0 <= k < |w2| :: RowAgrees(hn, narrow, hw, wide, w2[k])
    {
      LayerCut(hn, narrow, hw, wide, w2);
    }
    if w :| IsRow(w) && !RowAgrees(hn, narrow, hw, wide, w) {
      var w2 := seq(OUTPUT_SIZE, k => w);
      assert IsSecondLayer(w2) && w2[0] == w;
    }
  }

  /** The same for whole networks: an input and a first layer give outputs that are cut-offs of one
      another, whatever the second layer, exactly under that condition on the wide hidden values. */
  lemma WidthsAgreeExactly(x: seq<int>, w1: seq<seq<int>>, narrow: nat, wide: nat)
    requires |w1| == HIDDEN_SIZE && Rectangular(w1, |x|)
    requires 0 < narrow <= TOP_H && narrow <= wide <= TOP_W
    ensures var hn, hw := Layer(x, w1, narrow), Layer(x, w1, wide);
            AlwaysCut(hn, narrow, hw, wide) <==> Uniform(hw, narrow) && Total(hw, HIDDEN_SIZE) <= TOTAL_MAX
  {
    var hn, hw := Layer(x, w1, narrow), Layer(x, w1, wide);
    AlwaysCutByRows(hn, narrow, hw, wide);
    RowsAgreeExactly(hn, narrow, hw, wide);
  }

  /** Between 8 and 16 bits nothing overflows, and the first half of the condition decides. */
  lemma ByteHalfAgreeExactly(x: seq<int>, w1: seq<seq<int>>)
    requires |w1| == HIDDEN_SIZE && Rectangular(w1, |x|)
    ensures var hb, hh := Layer(x, w1, TOP_B), Layer(x, w1, TOP_H);
            AlwaysCut(hb, TOP_B, hh, TOP_H) <==> Uniform(hh, TOP_B)
  {
    WidthsAgreeExactly(x, w1, TOP_B, TOP_H);
    TotalBound(Layer(x, w1, TOP_H), HIDDEN_SIZE, TOP_H);
  }

  // Networks that show it.

  lemma {:induction false} ZeroTail(x: seq<int>, w: seq<int>, m: nat, n: nat)
    requires m <= n <= |x| && n <= |w| && forall i | m <= i < n :: w[i] == 0
    ensures Dot(x, w, n) == Dot(x, w, m)
  {
    if m == n {
    } else {
      ZeroTail(x, w, m, n - 1);
    }
  }

  /** A vector that is zero from its third element on. */
  function Head(a: int, b: int, c: int, n: nat): (s: seq<int>)
    ensures |s| == n
  {
    seq(n, i => if i == 0 then a else if i == 1 then b else if i == 2 then c else 0)
  }

  lemma HeadSum(x: seq<int>, a: int, b: int, c: int)
    requires |x| >= 3 && -TWO31 <= x[0] * a + x[1] * b + x[2] * c < TWO31
    ensures Sum(x, Head(a, b, c, |x|)) == x[0] * a + x[1] * b + x[2] * c
  {
    var w := Head(a, b, c, |x|);
    ZeroTail(x, w, 3, |x|);
    assert Dot(x, w, 1) == x[0] * a;
    assert Dot(x, w, 2) == Dot(x, w, 1) + x[1] * b;
    WrapSmall(Dot(x, w, |x|));
  }

  function FirstRow(j: int): (w: seq<int>)
    ensures |w| == INPUT_SIZE && Within(w, -128, 127)
  {
    Head(if j == 0 then 127 else if j == 1 then 63 else if j == 2 then 25 else 0, 0, 0, INPUT_SIZE)
  }

  function SecondRow(k: int): (w: seq<int>)
    ensures IsRow(w)
  {
    if k == 0 then Head(1, -1, 0, HIDDEN_SIZE)
    else if k == 1 then Head(0, 0, 1, HIDDEN_SIZE)
    else Head(0, 0, 0, HIDDEN_SIZE)
  }

  lemma HeadOutputs(h: seq<int>)
    requires |h| == HIDDEN_SIZE && Within(h, 0, TOP_H)
    ensures forall k :: Sum(h, SecondRow(k)) == if k == 0 then h[0] - h[1] else if k == 1 then h[2] else 0
  {
    HeadSum(h, 1, -1, 0);
    HeadSum(h, 0, 0, 1);
    HeadSum(h, 0, 0, 0);
  }

  /** Neuron 0 sums to 254, neuron 1 to 126, neuron 2 to 50. Class 0 is their difference, class 1
      neuron 2. The 16-bit pass sees 128 against 50, the 8-bit pass 1 against 50. */
  lemma LargeSumsDisagree() returns (x: seq<int>, w1: seq<seq<int>>, w2: seq<seq<int>>,
                                     hb: seq<int>, ob: seq<int>, hh: seq<int>, oh: seq<int>)
    ensures |x| == INPUT_SIZE && |w1| == HIDDEN_SIZE && IsSecondLayer(w2)
    ensures Within(x, -128, 127) && forall j | 0 <= j < |w1| :: Within(w1[j], -128, 127)
    ensures Forward(x, w1, w2, TOP_B, hb, ob, 1)
    ensures Forward(x, w1, w2, TOP_H, hh, oh, 0)
    ensures !Uniform(hh, TOP_B) && !CutAt(ob, TOP_B, oh)
  {
    x := Head(2, 0, 0, INPUT_SIZE);
    w1 := seq(HIDDEN_SIZE, j => FirstRow(j));
    w2 := seq(OUTPUT_SIZE, k => SecondRow(k));
    HeadSum(x, 127, 0, 0);
    HeadSum(x, 63, 0, 0);
    HeadSum(x, 25, 0, 0);
    HeadSum(x, 0, 0, 0);
    hb, hh := Layer(x, w1, TOP_B), Layer(x, w1, TOP_H);
    HeadOutputs(hb);
    HeadOutputs(hh);
    ob, oh := Layer(hb, w2, TOP_B), Layer(hh, w2, TOP_H);
    assert hh[0] == 254 && hh[1] == 126;
    assert ob[0] == 1 && oh[0] == 128;
  }

  /** The bound of WideLayerExactly is sharp for networks too: here every hidden value of the 32-bit
      pass is 2^19 + 1. Only class 0 has a positive sum, but the others overflow to large outputs. */
  lemma WideSumsOverflow() returns (x: seq<int>, w1: seq<seq<int>>, w2: seq<seq<int>>,
                                    hidden: seq<int>, output: seq<int>)
    ensures |x| == INPUT_SIZE && |w1| == HIDDEN_SIZE && IsSecondLayer(w2)
    ensures Within(x, -128, 127) && forall j | 0 <= j < |w1| :: Within(w1[j], -128, 127)
    ensures Forward(x, w1, w2, TOP_W, hidden, output, 1)
    ensures hidden == seq(HIDDEN_SIZE, j => 0x8_0001)
    ensures Dot(hidden, w2[0], HIDDEN_SIZE) > 0
    ensures forall k | 1 <= k < OUTPUT_SIZE :: Dot(hidden, w2[k], HIDDEN_SIZE) < 0 < output[k]
  {
    x := seq(INPUT_SIZE, i => if i < 32 then -128 else if i == 32 then 1 else 0);
    var row := x;
    w1 := seq(HIDDEN_SIZE, j => row);
    w2 := seq(OUTPUT_SIZE, k => seq(HIDDEN_SIZE, j => if k == 0 then 1 else -128));
    ConstantDot(x, x, 32, -128, -128);
    assert Dot(x, x, 33) == 0x8_0001;
    ZeroTail(x, x, 33, INPUT_SIZE);
    hidden, output := Layer(x, w1, TOP_W), Layer(Layer(x, w1, TOP_W), w2, TOP_W);
    ConstantDot(hidden, w2[0], HIDDEN_SIZE, 0x8_0001, 1);
    forall k | 1 <= k < OUTPUT_SIZE
      ensures Dot(hidden, w2[k], HIDDEN_SIZE) == -0x8000_1000
    {
      ConstantDot(hidden, w2[k], HIDDEN_SIZE, 0x8_0001, -128);
    }
    assert output[0] == 0x100_0020;
    assert forall k | 1 <= k < OUTPUT_SIZE :: output[k] == 0x7FFF_F000;
  }
}
