/** The forward passes: weights prepared once, hidden and output arrays written in place. */
module MlpForward {
  import opened MachineInts
  import opened Simd
  import opened Mlp
  import opened MlpKernels

  // One layer, for each instruction set.

  method LayerScalar(x: seq<i8>, w: seq<seq<i8>>, out: array<i8>)
    requires Matrix(w, out.Length, |x|)
    modifies out
    ensures out[..] == Layer(x, w, TOP_B)
  {
    for j := 0 to out.Length
      invariant forall k | 0 <= k < j :: out[k] == Clamp(Sum(x, w[k]), TOP_B)
    {
      var acc := NeuronScalar(x, w[j]);
      out[j] := Clamp(acc, TOP_B);
    }
  }

  method LayerPvmac(x: seq<i8>, w: seq<seq<i8>>, out: array<i8>)
    requires Matrix(w, out.Length, |x|) && |x| % 4 == 0
    modifies out
    ensures out[..] == Layer(x, w, TOP_B)
  {
    for j := 0 to out.Length
      invariant forall k | 0 <= k < j :: out[k] == Clamp(Sum(x, w[k]), TOP_B)
    {
      var acc := NeuronPvmac(x, w[j]);
      out[j] := Clamp(acc, TOP_B);
    }
  }

  method LayerVmacB(unit: VectorUnit, x: seq<i8>, w: seq<seq<i8>>, out: array<i8>)
    requires Matrix(w, out.Length, |x|) && |x| % 8 == 0
    modifies unit, out
    ensures out[..] == Layer(x, w, TOP_B)
  {
    for j := 0 to out.Length
      invariant forall k | 0 <= k < j :: out[k] == Clamp(Sum(x, w[k]), TOP_B)
    {
      var acc := NeuronVmacB(unit, x, w[j]);
      out[j] := Clamp(acc, TOP_B);
    }
  }

  method LayerVmacH(unit: VectorUnit, x: seq<i16>, w: seq<seq<i16>>, out: array<i16>)
    requires Matrix(w, out.Length, |x|) && |x| % 4 == 0
    modifies unit, out
    ensures out[..] == Layer(x, w, TOP_H)
  {
    for j := 0 to out.Length
      invariant forall k | 0 <= k < j :: out[k] == Clamp(Sum(x, w[k]), TOP_H)
    {
      var acc := NeuronVmacH(unit, x, w[j]);
      out[j] := if acc < 0 then 0 else if acc > 32767 then 32767 else acc;
    }
  }

  method LayerVmacW(unit: VectorUnit, x: seq<i32>, w: seq<seq<i32>>, out: array<i32>)
    requires Matrix(w, out.Length, |x|) && |x| % 2 == 0
    modifies unit, out
    ensures out[..] == Layer(x, w, TOP_W)
  {
    for j := 0 to out.Length
      invariant forall k | 0 <= k < j :: out[k] == Clamp(Sum(x, w[k]), TOP_W)
    {
      var acc := NeuronVmacW(unit, x, w[j]);
      out[j] := if acc < 0 then 0 else acc;
    }
  }

  method LayerPack4(x: seq<i8>, w: seq<seq<i8>>, out: array<i8>)
    requires Matrix(w, |x|, out.Length) && |x| % 4 == 0
    modifies out
    ensures out[..] == Layer(x, Columns(w, out.Length), TOP_B)
  {
    for j := 0 to out.Length
      invariant forall k | 0 <= k < j :: out[k] == Clamp(Sum(x, Column(w, k)), TOP_B)
    {
      var acc := NeuronPack4(x, w, j);
      out[j] := Clamp(acc, TOP_B);
    }
  }

  method LayerGather8(unit: VectorUnit, x: seq<i8>, w: seq<seq<i8>>, out: array<i8>)
    requires Matrix(w, |x|, out.Length) && |x| % 8 == 0
    modifies unit, out
    ensures out[..] == Layer(x, Columns(w, out.Length), TOP_B)
  {
    for j := 0 to out.Length
      invariant forall k | 0 <= k < j :: out[k] == Clamp(Sum(x, Column(w, k)), TOP_B)
    {
      var acc := NeuronGather8(unit, x, w, j);
      out[j] := Clamp(acc, TOP_B);
    }
  }

  // The constant weights, indexed by input and neuron, and their packed transposes.

  predicate Shapes(w1: seq<seq<i8>>, w2: seq<seq<i8>>) {
    Matrix(w1, INPUT_SIZE, HIDDEN_SIZE) && Matrix(w2, HIDDEN_SIZE, OUTPUT_SIZE)
  }

  /** Transpose one matrix into its packed copies at the three widths. */
  method Transpose(w: seq<seq<i8>>, packed: array2<i8>, packedH: array2<i16>, packedW: array2<i32>)
    requires Matrix(w, packed.Length1, packed.Length0)
    requires packed.Length0 == packedH.Length0 == packedW.Length0
    requires packed.Length1 == packedH.Length1 == packedW.Length1
    modifies packed, packedH, packedW
    ensures forall j, i | 0 <= j < packed.Length0 && 0 <= i < packed.Length1 ::
              packed[j, i] == w[i][j] && packedH[j, i] == w[i][j] && packedW[j, i] == w[i][j]
  {
    for j := 0 to packed.Length0
      invariant forall k, i | 0 <= k < j && 0 <= i < packed.Length1 ::
                  packed[k, i] == w[i][k] && packedH[k, i] == w[i][k] && packedW[k, i] == w[i][k]
    {
      for i := 0 to packed.Length1
        invariant forall k, m | 0 <= k < j && 0 <= m < packed.Length1 ::
                    packed[k, m] == w[m][k] && packedH[k, m] == w[m][k] && packedW[k, m] == w[m][k]
        invariant forall m | 0 <= m < i ::
                    packed[j, m] == w[m][j] && packedH[j, m] == w[m][j] && packedW[j, m] == w[m][j]
      {
        packed[j, i] := w[i][j];
        packedH[j, i] := w[i][j];
        packedW[j, i] := w[i][j];
      }
    }
  }

  lemma TransposedRows(rows: seq<seq<int>>, w: seq<seq<int>>, columns: nat)
    requires Matrix(w, |w|, columns) && Matrix(rows, columns, |w|)
    requires forall j, i | 0 <= j < columns && 0 <= i < |w| :: rows[j][i] == w[i][j]
    ensures rows == Columns(w, columns)
  {
    forall j | 0 <= j < columns
      ensures rows[j] == Columns(w, columns)[j]
    {
    }
  }

  class Network {
    const w1: seq<seq<i8>>
    const w2: seq<seq<i8>>
    const w1Packed: array2<i8>
    const w2Packed: array2<i8>
    const w1PackedH: array2<i16>
    const w2PackedH: array2<i16>
    const w1PackedW: array2<i32>
    const w2PackedW: array2<i32>
    const unit: VectorUnit

    ghost predicate Valid() {
      && Shapes(w1, w2)
      && w1Packed.Length0 == w1PackedH.Length0 == w1PackedW.Length0 == HIDDEN_SIZE
      && w1Packed.Length1 == w1PackedH.Length1 == w1PackedW.Length1 == INPUT_SIZE
      && w2Packed.Length0 == w2PackedH.Length0 == w2PackedW.Length0 == OUTPUT_SIZE
      && w2Packed.Length1 == w2PackedH.Length1 == w2PackedW.Length1 == HIDDEN_SIZE
      && w1Packed != w2Packed && w1PackedH != w2PackedH && w1PackedW != w2PackedW
    }

    /** The packed copies hold the transposes of the weights. */
    ghost predicate Prepared()
      requires Valid()
      reads w1Packed, w2Packed, w1PackedH, w2PackedH, w1PackedW, w2PackedW
    {
      && Rows(w1Packed) == Columns(w1, HIDDEN_SIZE) && Rows(w2Packed) == Columns(w2, OUTPUT_SIZE)
      && Rows(w1PackedH) == Columns(w1, HIDDEN_SIZE) && Rows(w2PackedH) == Columns(w2, OUTPUT_SIZE)
      && Rows(w1PackedW) == Columns(w1, HIDDEN_SIZE) && Rows(w2PackedW) == Columns(w2, OUTPUT_SIZE)
    }

    constructor (w1: seq<seq<i8>>, w2: seq<seq<i8>>)
      requires Shapes(w1, w2)
      ensures Valid() && this.w1 == w1 && this.w2 == w2
      ensures fresh(w1Packed) && fresh(w2Packed) && fresh(w1PackedH) && fresh(w2PackedH)
      ensures fresh(w1PackedW) && fresh(w2PackedW) && fresh(unit)
    {
      this.w1, this.w2 := w1, w2;
      w1Packed, w2Packed := new i8[HIDDEN_SIZE, INPUT_SIZE], new i8[OUTPUT_SIZE, HIDDEN_SIZE];
      w1PackedH, w2PackedH := new i16[HIDDEN_SIZE, INPUT_SIZE], new i16[OUTPUT_SIZE, HIDDEN_SIZE];
      w1PackedW, w2PackedW := new i32[HIDDEN_SIZE, INPUT_SIZE], new i32[OUTPUT_SIZE, HIDDEN_SIZE];
      unit := new VectorUnit();
    }

    method PrepareWeights()
      requires Valid()
      modifies w1Packed, w2Packed, w1PackedH, w2PackedH, w1PackedW, w2PackedW
      ensures Prepared()
    {
      Transpose(w1, w1Packed, w1PackedH, w1PackedW);
      Transpose(w2, w2Packed, w2PackedH, w2PackedW);
      TransposedRows(Rows(w1Packed), w1, HIDDEN_SIZE);
      TransposedRows(Rows(w1PackedH), w1, HIDDEN_SIZE);
      TransposedRows(Rows(w1PackedW), w1, HIDDEN_SIZE);
      TransposedRows(Rows(w2Packed), w2, OUTPUT_SIZE);
      TransposedRows(Rows(w2PackedH), w2, OUTPUT_SIZE);
      TransposedRows(Rows(w2PackedW), w2, OUTPUT_SIZE);
    }

    method ForwardScalar(input: array<i8>, hidden: array<i8>, output: array<i8>) returns (pred: int)
      requires Valid() && Buffers(input, hidden, output)
      modifies hidden, output
      ensures Forward(old(input[..]), Rows(w1Packed), Rows(w2Packed), TOP_B, hidden[..], output[..], pred)
    {
      LayerScalar(input[..], Rows(w1Packed), hidden);
      LayerScalar(hidden[..], Rows(w2Packed), output);
      pred := Argmax(output[..]);
    }

    method ForwardPvmac(input: array<i8>, hidden: array<i8>, output: array<i8>) returns (pred: int)
      requires Valid() && Buffers(input, hidden, output)
      modifies hidden, output
      ensures Forward(old(input[..]), Rows(w1Packed), Rows(w2Packed), TOP_B, hidden[..], output[..], pred)
    {
      LayerPvmac(input[..], Rows(w1Packed), hidden);
      LayerPvmac(hidden[..], Rows(w2Packed), output);
      pred := Argmax(output[..]);
    }

    method ForwardVmacB(input: array<i8>, hidden: array<i8>, output: array<i8>) returns (pred: int)
      requires Valid() && Buffers(input, hidden, output)
      modifies unit, hidden, output
      ensures Forward(old(input[..]), Rows(w1Packed), Rows(w2Packed), TOP_B, hidden[..], output[..], pred)
    {
      LayerVmacB(unit, input[..], Rows(w1Packed), hidden);
      LayerVmacB(unit, hidden[..], Rows(w2Packed), output);
      pred := Argmax(output[..]);
    }

    method ForwardVmacH(input: array<i16>, hidden: array<i16>, output: array<i16>) returns (pred: int)
      requires Valid() && Buffers(input, hidden, output)
      modifies unit, hidden, output
      ensures Forward(old(input[..]), Rows(w1PackedH), Rows(w2PackedH), TOP_H, hidden[..], output[..], pred)
    {
      LayerVmacH(unit, input[..], Rows(w1PackedH), hidden);
      LayerVmacH(unit, hidden[..], Rows(w2PackedH), output);
      pred := Argmax(output[..]);
    }

    method ForwardVmacW(input: array<i32>, hidden: array<i32>, output: array<i32>) returns (pred: int)
      requires Valid() && Buffers(input, hidden, output)
      modifies unit, hidden, output
      ensures Forward(old(input[..]), Rows(w1PackedW), Rows(w2PackedW), TOP_W, hidden[..], output[..], pred)
    {
      LayerVmacW(unit, input[..], Rows(w1PackedW), hidden);
      LayerVmacW(unit, hidden[..], Rows(w2PackedW), output);
      pred := Argmax(output[..]);
    }

    /** The version that packs four weights of a column on the fly. */
    method ForwardPack4(input: array<i8>, hidden: array<i8>, output: array<i8>) returns (pred: int)
      requires Valid() && Buffers(input, hidden, output)
      modifies hidden, output
      ensures Forward(old(input[..]), Columns(w1, HIDDEN_SIZE), Columns(w2, OUTPUT_SIZE), TOP_B,
                      hidden[..], output[..], pred)
    {
      LayerPack4(input[..], w1, hidden);
      LayerPack4(hidden[..], w2, output);
      pred := ArgmaxValue(output[..]);
    }

    /** The version that gathers eight weights of a column on the fly. */
    method ForwardGather8(input: array<i8>, hidden: array<i8>, output: array<i8>) returns (pred: int)
      requires Valid() && Buffers(input, hidden, output)
      modifies unit, hidden, output
      ensures Forward(old(input[..]), Columns(w1, HIDDEN_SIZE), Columns(w2, OUTPUT_SIZE), TOP_B,
                      hidden[..], output[..], pred)
    {
      LayerGather8(unit, input[..], w1, hidden);
      LayerGather8(unit, hidden[..], w2, output);
      pred := ArgmaxValue(output[..]);
    }
  }

  predicate Buffers<T>(input: array<T>, hidden: array<T>, output: array<T>) {
    && input.Length == INPUT_SIZE && hidden.Length == HIDDEN_SIZE && output.Length == OUTPUT_SIZE
    && input != hidden && input != output && hidden != output
  }

  /** What one forward pass leaves behind. */
  datatype Pass = Pass(hidden: seq<int>, output: seq<int>, pred: int)

  predicate Computes(p: Pass, x: seq<int>, w1: seq<seq<int>>, w2: seq<seq<int>>, top: nat) {
    Forward(x, w1, w2, top, p.hidden, p.output, p.pred)
  }

  lemma SamePass(p: Pass, q: Pass, x: seq<int>, w1: seq<seq<int>>, w2: seq<seq<int>>, top: nat)
    requires Computes(p, x, w1, w2, top) && Computes(q, x, w1, w2, top)
    ensures p == q
  {
    ForwardUnique(x, w1, w2, top, p.hidden, p.output, p.pred, q.hidden, q.output, q.pred);
  }

  /** All 8-bit passes on the same buffers: over transposed weights and over columns gathered or
      packed on the fly, hidden values, outputs and predicted class are identical. */
  method RunBytes(net: Network, input: array<i8>, hidden: array<i8>, output: array<i8>)
    returns (scalar: Pass, pvmac: Pass, vmacB: Pass, pack4: Pass, gather8: Pass)
    requires net.Valid() && net.Prepared() && Buffers(input, hidden, output)
    modifies net.unit, hidden, output
    ensures Computes(scalar, old(input[..]), Columns(net.w1, HIDDEN_SIZE), Columns(net.w2, OUTPUT_SIZE), TOP_B)
    ensures scalar == pvmac == vmacB == pack4 == gather8
  {
    ghost var x, w1, w2 := input[..], Columns(net.w1, HIDDEN_SIZE), Columns(net.w2, OUTPUT_SIZE);
    var pred := net.ForwardScalar(input, hidden, output);
    scalar := Pass(hidden[..], output[..], pred);
    pred := net.ForwardPvmac(input, hidden, output);
    pvmac := Pass(hidden[..], output[..], pred);
    SamePass(scalar, pvmac, x, w1, w2, TOP_B);
    pred := net.ForwardVmacB(input, hidden, output);
    vmacB := Pass(hidden[..], output[..], pred);
    SamePass(scalar, vmacB, x, w1, w2, TOP_B);
    pred := net.ForwardPack4(input, hidden, output);
    pack4 := Pass(hidden[..], output[..], pred);
    SamePass(scalar, pack4, x, w1, w2, TOP_B);
    pred := net.ForwardGather8(input, hidden, output);
    gather8 := Pass(hidden[..], output[..], pred);
    SamePass(scalar, gather8, x, w1, w2, TOP_B);
  }

  /** Sign-extend an 8-bit input to the two wider buffers. */
  method Widen(input: array<i8>, inputH: array<i16>, inputW: array<i32>)
    requires input.Length == inputH.Length == inputW.Length
    modifies inputH, inputW
    ensures input[..] == old(input[..])
    ensures inputH[..] == input[..] && inputW[..] == input[..]
  {
    for i := 0 to input.Length
      invariant forall k | 0 <= k < i :: inputH[k] == input[k] && inputW[k] == input[k]
    {
      inputH[i] := input[i];
      inputW[i] := input[i];
    }
  }

  /** One pass of each width on buffers of its own. */
  method RunB(net: Network, input: array<i8>) returns (p: Pass)
    requires net.Valid() && net.Prepared() && input.Length == INPUT_SIZE
    modifies net.unit
    ensures input[..] == old(input[..])
    ensures Computes(p, input[..], Columns(net.w1, HIDDEN_SIZE), Columns(net.w2, OUTPUT_SIZE), TOP_B)
  {
    var hidden, output := new i8[HIDDEN_SIZE], new i8[OUTPUT_SIZE];
    var pred := net.ForwardVmacB(input, hidden, output);
    p := Pass(hidden[..], output[..], pred);
  }

  method RunH(net: Network, input: array<i16>) returns (p: Pass)
    requires net.Valid() && net.Prepared() && input.Length == INPUT_SIZE
    modifies net.unit
    ensures input[..] == old(input[..])
    ensures Computes(p, input[..], Columns(net.w1, HIDDEN_SIZE), Columns(net.w2, OUTPUT_SIZE), TOP_H)
  {
    var hidden, output := new i16[HIDDEN_SIZE], new i16[OUTPUT_SIZE];
    var pred := net.ForwardVmacH(input, hidden, output);
    p := Pass(hidden[..], output[..], pred);
  }

  method RunW(net: Network, input: array<i32>) returns (p: Pass)
    requires net.Valid() && net.Prepared() && input.Length == INPUT_SIZE
    modifies net.unit
    ensures input[..] == old(input[..])
    ensures Computes(p, input[..], Columns(net.w1, HIDDEN_SIZE), Columns(net.w2, OUTPUT_SIZE), TOP_W)
  {
    var hidden, output := new i32[HIDDEN_SIZE], new i32[OUTPUT_SIZE];
    var pred := net.ForwardVmacW(input, hidden, output);
    p := Pass(hidden[..], output[..], pred);
  }

  /** The benchmark: the 8-bit input sign-extended to the two wider buffers, every width run. */
  method RunWidths(net: Network, input: array<i8>, inputH: array<i16>, inputW: array<i32>)
    returns (b: Pass, h: Pass, w: Pass)
    requires net.Valid() && net.Prepared()
    requires input.Length == inputH.Length == inputW.Length == INPUT_SIZE
    modifies net.unit, inputH, inputW
    ensures ghost var x, w1, w2 := input[..], Columns(net.w1, HIDDEN_SIZE), Columns(net.w2, OUTPUT_SIZE);
            Computes(b, x, w1, w2, TOP_B) && Computes(h, x, w1, w2, TOP_H) && Computes(w, x, w1, w2, TOP_W)
  {
    Widen(input, inputH, inputW);
    b := RunB(net, input);
    h := RunH(net, inputH);
    w := RunW(net, inputW);
  }
}
