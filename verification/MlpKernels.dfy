/** The inner loops: one neuron, with each of the instruction sets. */
module MlpKernels {
  import opened MachineInts
  import opened Simd
  import opened Mlp

  function Row<T>(a: array2<T>, j: nat): (r: seq<T>)
    requires j < a.Length0
    reads a
    ensures |r| == a.Length1
  {
    seq(a.Length1, i requires 0 <= i < a.Length1 reads a => a[j, i])
  }

  function Rows<T>(a: array2<T>): (r: seq<seq<T>>)
    reads a
    ensures |r| == a.Length0 && forall j | 0 <= j < |r| :: r[j] == Row(a, j)
  {
    seq(a.Length0, j requires 0 <= j < a.Length0 reads a => Row(a, j))
  }

  /** A matrix given by its rows. */
  predicate Matrix(w: seq<seq<int>>, rows: nat, columns: nat) {
    |w| == rows && forall i | 0 <= i < |w| :: |w[i]| == columns
  }

  function Column(w: seq<seq<int>>, j: nat): (r: seq<int>)
    requires forall i | 0 <= i < |w| :: j < |w[i]|
    ensures |r| == |w|
  {
    seq(|w|, i requires 0 <= i < |w| => w[i][j])
  }

  /** The transpose, one sequence for each column. */
  function Columns(w: seq<seq<int>>, columns: nat): (r: seq<seq<int>>)
    requires Matrix(w, |w|, columns)
    ensures |r| == columns && forall j | 0 <= j < columns :: |r[j]| == |w|
  {
    seq(columns, j requires 0 <= j < columns => Column(w, j))
  }

  /** One accumulation step over n lanes keeps the accumulator the wrapped sum so far. */
  lemma AddChunk(x: seq<int>, w: seq<int>, i: nat, a: seq<int>, b: seq<int>, n: nat, acc: int)
    requires i + n <= |x| && i + n <= |w| && n <= |a| && n <= |b|
    requires forall k | 0 <= k < n :: a[k] == x[i + k]
    requires forall k | 0 <= k < n :: b[k] == w[i + k]
    requires acc == Wrap32(Dot(x, w, i))
    ensures Wrap32(acc + Wrap32(Dot(a, b, n))) == Wrap32(Dot(x, w, i + n))
  {
    ChunkDot(x, w, i, a, b, n);
    WrapAdd(Dot(x, w, i), Dot(a, b, n));
  }

  lemma PackedChunk(x: seq<int>, w: seq<int>, i: nat, xs: u32, ws: u32, acc: int)
    requires i + 4 <= |x| && i + 4 <= |w| && acc == Wrap32(Dot(x, w, i))
    requires WordLanes(xs) == [x[i], x[i + 1], x[i + 2], x[i + 3]]
    requires WordLanes(ws) == [w[i], w[i + 1], w[i + 2], w[i + 3]]
    ensures Wrap32(acc + Pvmac(xs, ws)) == Wrap32(Dot(x, w, i + 4))
  {
    var a, b := WordLanes(xs), WordLanes(ws);
    assert a[0] == x[i] && a[1] == x[i + 1] && a[2] == x[i + 2] && a[3] == x[i + 3];
    assert b[0] == w[i] && b[1] == w[i + 1] && b[2] == w[i + 2] && b[3] == w[i + 3];
    AddChunk(x, w, i, a, b, 4, acc);
  }

  lemma ChunkB(x: seq<i8>, w: seq<i8>, i: nat, a: Register, b: Register, acc: int)
    requires i + 8 <= |x| == |w| && acc == Wrap32(Dot(x, w, i))
    requires a == EightAt(Bytes8(x), i) && b == EightAt(Bytes8(w), i)
    ensures Wrap32(acc + Wrap32(Dot(Lanes8(a), Lanes8(b), 8))) == Wrap32(Dot(x, w, i + 8))
  {
    LoadedLanes8(x, i);
    LoadedLanes8(w, i);
    AddChunk(x, w, i, Lanes8(a), Lanes8(b), 8, acc);
  }

  lemma ChunkH(x: seq<i16>, w: seq<i16>, i: nat, a: Register, b: Register, acc: int)
    requires i + 4 <= |x| == |w| && acc == Wrap32(Dot(x, w, i))
    requires a == EightAt(Bytes16(x), 2 * i) && b == EightAt(Bytes16(w), 2 * i)
    ensures Wrap32(acc + Wrap32(Dot(Lanes16(a), Lanes16(b), 4))) == Wrap32(Dot(x, w, i + 4))
  {
    LoadedLanes16(x, i);
    LoadedLanes16(w, i);
    AddChunk(x, w, i, Lanes16(a), Lanes16(b), 4, acc);
  }

  lemma ChunkW(x: seq<i32>, w: seq<i32>, i: nat, a: Register, b: Register, acc: int)
    requires i + 2 <= |x| == |w| && acc == Wrap32(Dot(x, w, i))
    requires a == EightAt(Bytes32(x), 4 * i) && b == EightAt(Bytes32(w), 4 * i)
    ensures Wrap32(acc + Wrap32(Dot(Lanes32(a), Lanes32(b), 2))) == Wrap32(Dot(x, w, i + 2))
  {
    LoadedLanes32(x, i);
    LoadedLanes32(w, i);
    AddChunk(x, w, i, Lanes32(a), Lanes32(b), 2, acc);
  }

  method NeuronScalar(x: seq<i8>, w: seq<i8>) returns (acc: i32)
    requires |x| == |w|
    ensures acc == Sum(x, w)
  {
    acc := 0;
    for i := 0 to |x|
      invariant acc == Wrap32(Dot(x, w, i))
    {
      var product := (x[i] as int) * w[i];
      ProductBound(x[i], w[i], 128, 128);
      WrapSmall(product);
      WrapAdd(Dot(x, w, i), product);
      acc := Wrap32(acc + product);
    }
  }

  /** One pass of the loop: two 32-bit loads and a packed multiply-accumulate. */
  method MacWords(x: seq<i8>, w: seq<i8>, i: nat, acc: i32) returns (acc': i32)
    requires i + 4 <= |x| == |w| && acc == Wrap32(Dot(x, w, i))
    ensures acc' == Wrap32(Dot(x, w, i + 4))
  {
    var xs, ws := WordIn(Bytes8(x), i), WordIn(Bytes8(w), i);
    LoadedWord(x, i);
    LoadedWord(w, i);
    PackedLanes(x[i], x[i + 1], x[i + 2], x[i + 3]);
    PackedLanes(w[i], w[i + 1], w[i + 2], w[i + 3]);
    PackedChunk(x, w, i, xs, ws, acc);
    acc' := Wrap32(acc + Pvmac(xs, ws));
  }

  method NeuronPvmac(x: seq<i8>, w: seq<i8>) returns (acc: i32)
    requires |x| == |w| && |x| % 4 == 0
    ensures acc == Sum(x, w)
  {
    acc := 0;
    ghost var m, c := |x| / 4, 0;
    var i := 0;
    while i < |x|
      invariant 0 <= c <= m && i == 4 * c && |x| == 4 * m
      invariant acc == Wrap32(Dot(x, w, i))
    {
      acc := MacWords(x, w, i, acc);
      i, c := i + 4, c + 1;
    }
  }

  /** One pass of the loop: two loads and a multiply-accumulate. */
  method MacB(unit: VectorUnit, x: seq<i8>, w: seq<i8>, i: nat, acc: i32) returns (acc': i32)
    requires i + 8 <= |x| == |w| && acc == Wrap32(Dot(x, w, i))
    modifies unit
    ensures acc' == Wrap32(Dot(x, w, i + 8))
  {
    unit.Vld1(Bytes8(x), i);
    unit.Vld2(Bytes8(w), i);
    var sum := unit.VmacB();
    ChunkB(x, w, i, unit.v1, unit.v2, acc);
    acc' := Wrap32(acc + sum);
  }

  method NeuronVmacB(unit: VectorUnit, x: seq<i8>, w: seq<i8>) returns (acc: i32)
    requires |x| == |w| && |x| % 8 == 0
    modifies unit
    ensures acc == Sum(x, w)
  {
    acc := 0;
    ghost var m, c := |x| / 8, 0;
    var i := 0;
    while i < |x|
      invariant 0 <= c <= m && i == 8 * c && |x| == 8 * m
      invariant acc == Wrap32(Dot(x, w, i))
    {
      acc := MacB(unit, x, w, i, acc);
      i, c := i + 8, c + 1;
    }
  }

  /** One pass of the loop: two loads and a multiply-accumulate. */
  method MacH(unit: VectorUnit, x: seq<i16>, w: seq<i16>, i: nat, acc: i32) returns (acc': i32)
    requires i + 4 <= |x| == |w| && acc == Wrap32(Dot(x, w, i))
    modifies unit
    ensures acc' == Wrap32(Dot(x, w, i + 4))
  {
    unit.Vld1(Bytes16(x), 2 * i);
    unit.Vld2(Bytes16(w), 2 * i);
    var sum := unit.VmacH();
    ChunkH(x, w, i, unit.v1, unit.v2, acc);
    acc' := Wrap32(acc + sum);
  }

  method NeuronVmacH(unit: VectorUnit, x: seq<i16>, w: seq<i16>) returns (acc: i32)
    requires |x| == |w| && |x| % 4 == 0
    modifies unit
    ensures acc == Sum(x, w)
  {
    acc := 0;
    ghost var m, c := |x| / 4, 0;
    var i := 0;
    while i < |x|
      invariant 0 <= c <= m && i == 4 * c && |x| == 4 * m
      invariant acc == Wrap32(Dot(x, w, i))
    {
      acc := MacH(unit, x, w, i, acc);
      i, c := i + 4, c + 1;
    }
  }

  /** One pass of the loop: two loads and a multiply-accumulate. */
  method MacW(unit: VectorUnit, x: seq<i32>, w: seq<i32>, i: nat, acc: i32) returns (acc': i32)
    requires i + 2 <= |x| == |w| && acc == Wrap32(Dot(x, w, i))
    modifies unit
    ensures acc' == Wrap32(Dot(x, w, i + 2))
  {
    unit.Vld1(Bytes32(x), 4 * i);
    unit.Vld2(Bytes32(w), 4 * i);
    ghost var a, b := unit.v1, unit.v2;
    var sum := unit.VmacW();
    ChunkW(x, w, i, a, b, acc);
    acc' := Wrap32(acc + sum);
  }

  method NeuronVmacW(unit: VectorUnit, x: seq<i32>, w: seq<i32>) returns (acc: i32)
    requires |x| == |w| && |x| % 2 == 0
    modifies unit
    ensures acc == Sum(x, w)
  {
    acc := 0;
    ghost var m, c := |x| / 2, 0;
    var i := 0;
    while i < |x|
      invariant 0 <= c <= m && i == 2 * c && |x| == 2 * m
      invariant acc == Wrap32(Dot(x, w, i))
    {
      acc := MacW(unit, x, w, i, acc);
      i, c := i + 2, c + 1;
    }
  }

  /** One pass of the loop: pack four inputs and four weights of a column, and accumulate. */
  method MacPacked(x: seq<i8>, w: seq<seq<i8>>, i: nat, j: nat, acc: i32) returns (acc': i32)
    requires |x| == |w| && (forall k | 0 <= k < |w| :: j < |w[k]|) && i + 4 <= |x|
    requires acc == Wrap32(Dot(x, Column(w, j), i))
    ensures acc' == Wrap32(Dot(x, Column(w, j), i + 4))
  {
    var inputVec := Pack4(x[i], x[i + 1], x[i + 2], x[i + 3]);
    var weightVec := Pack4(w[i][j], w[i + 1][j], w[i + 2][j], w[i + 3][j]);
    PackedLanes(x[i], x[i + 1], x[i + 2], x[i + 3]);
    PackedLanes(w[i][j], w[i + 1][j], w[i + 2][j], w[i + 3][j]);
    PackedChunk(x, Column(w, j), i, inputVec, weightVec, acc);
    acc' := Wrap32(acc + Pvmac(inputVec, weightVec));
  }

  /** Column j of untransposed weights, packed four at a time. */
  method NeuronPack4(x: seq<i8>, w: seq<seq<i8>>, j: nat) returns (acc: i32)
    requires |x| == |w| && (forall k | 0 <= k < |w| :: j < |w[k]|) && |x| % 4 == 0
    ensures acc == Sum(x, Column(w, j))
  {
    acc := 0;
    ghost var m, c := |x| / 4, 0;
    var i := 0;
    while i < |x|
      invariant 0 <= c <= m && i == 4 * c && |x| == 4 * m
      invariant acc == Wrap32(Dot(x, Column(w, j), i))
    {
      acc := MacPacked(x, w, i, j, acc);
      i, c := i + 4, c + 1;
    }
  }

  /** Load two 8-byte temporaries and accumulate. */
  method VecMac8(unit: VectorUnit, input: array<i8>, weight: array<i8>) returns (sum: i32)
    requires input.Length == weight.Length == 8
    modifies unit
    ensures sum == Wrap32(Dot(input[..], weight[..], 8))
  {
    unit.Vld1(Bytes8(input[..]), 0);
    unit.Vld2(Bytes8(weight[..]), 0);
    sum := unit.VmacB();
    ChunkB(input[..], weight[..], 0, unit.v1, unit.v2, 0);
    WrapAdd(0, Dot(Lanes8(unit.v1), Lanes8(unit.v2), 8));
  }

  /** Eight elements of the input and of a weight column, copied into temporaries. */
  method Gather8(x: seq<i8>, w: seq<seq<i8>>, i: nat, j: nat, inputVec: array<i8>, weightVec: array<i8>)
    requires |x| == |w| && (forall k | 0 <= k < |w| :: j < |w[k]|) && i + 8 <= |x|
    requires inputVec.Length == weightVec.Length == 8 && inputVec != weightVec
    modifies inputVec, weightVec
    ensures forall k | 0 <= k < 8 :: inputVec[k] == x[i + k]
    ensures forall k | 0 <= k < 8 :: weightVec[k] == w[i + k][j]
  {
    for k := 0 to 8
      invariant forall m | 0 <= m < k :: inputVec[m] == x[i + m]
      invariant forall m | 0 <= m < k :: weightVec[m] == w[i + m][j]
    {
      inputVec[k] := x[i + k];
      weightVec[k] := w[i + k][j];
    }
  }

  /** One pass of the loop: gather, load both temporaries, accumulate. */
  method MacGathered(unit: VectorUnit, x: seq<i8>, w: seq<seq<i8>>, i: nat, j: nat, acc: i32) returns (acc': i32)
    requires |x| == |w| && (forall k | 0 <= k < |w| :: j < |w[k]|) && i + 8 <= |x|
    requires acc == Wrap32(Dot(x, Column(w, j), i))
    modifies unit
    ensures acc' == Wrap32(Dot(x, Column(w, j), i + 8))
  {
    var inputVec, weightVec := new i8[8], new i8[8];
    Gather8(x, w, i, j, inputVec, weightVec);
    var sum := VecMac8(unit, inputVec, weightVec);
    AddChunk(x, Column(w, j), i, inputVec[..], weightVec[..], 8, acc);
    acc' := Wrap32(acc + sum);
  }

  /** Column j of untransposed weights, gathered eight at a time into temporaries. */
  method NeuronGather8(unit: VectorUnit, x: seq<i8>, w: seq<seq<i8>>, j: nat) returns (acc: i32)
    requires |x| == |w| && (forall k | 0 <= k < |w| :: j < |w[k]|) && |x| % 8 == 0
    modifies unit
    ensures acc == Sum(x, Column(w, j))
  {
    acc := 0;
    ghost var m, c := |x| / 8, 0;
    var i := 0;
    while i < |x|
      invariant 0 <= c <= m && i == 8 * c && |x| == 8 * m
      invariant acc == Wrap32(Dot(x, Column(w, j), i))
    {
      acc := MacGathered(unit, x, w, i, j, acc);
      i, c := i + 8, c + 1;
    }
  }

  /** The first position of the largest output. */
  method Argmax(output: seq<int>) returns (pred: int)
    requires output != []
    ensures IsFirstMax(output, pred)
  {
    pred := 0;
    for i := 1 to |output|
      invariant 0 <= pred < i
      invariant forall k | 0 <= k < i :: output[k] <= output[pred]
      invariant forall k | 0 <= k < pred :: output[k] < output[pred]
    {
      if output[i] > output[pred] {
        pred := i;
      }
    }
  }

  /** The same with the maximum kept in a variable. */
  method ArgmaxValue(output: seq<int>) returns (pred: int)
    requires output != []
    ensures IsFirstMax(output, pred)
  {
    pred := 0;
    var maxVal := output[0];
    for i := 1 to |output|
      invariant 0 <= pred < i && maxVal == output[pred]
      invariant forall k | 0 <= k < i :: output[k] <= maxVal
      invariant forall k | 0 <= k < pred :: output[k] < maxVal
    {
      if output[i] > maxVal {
        maxVal := output[i];
        pred := i;
      }
    }
  }
}
