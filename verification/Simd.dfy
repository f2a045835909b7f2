/** The vector extension: little-endian memory, 64-bit vector registers, and the
    multiply-accumulate instructions at each element width. */
module Simd {
  import opened MachineInts

  // Elements in memory, lowest byte first.

  function Low8(x: int): u8 {
    x % 0x100
  }

  function Bytes8(xs: seq<i8>): (r: seq<u8>)
    ensures |r| == |xs|
  {
    seq(|xs|, k requires 0 <= k < |xs| => Low8(xs[k]))
  }

  /** Byte j of a 16-bit element. */
  function Byte16(x: i16, j: nat): u8
    requires j < 2
  {
    if j == 0 then Low8(x) else Low8(x / 0x100)
  }

  function Bytes16(xs: seq<i16>): (r: seq<u8>)
    ensures |r| == 2 * |xs|
  {
    seq(2 * |xs|, k requires 0 <= k < 2 * |xs| => Byte16(xs[k / 2], k % 2))
  }

  /** Byte j of a 32-bit element. */
  function Byte32(x: i32, j: nat): u8
    requires j < 4
  {
    if j == 0 then Low8(x) else if j == 1 then Low8(x / 0x100)
    else if j == 2 then Low8(x / 0x1_0000) else Low8(x / 0x100_0000)
  }

  function Bytes32(xs: seq<i32>): (r: seq<u8>)
    ensures |r| == 4 * |xs|
  {
    seq(4 * |xs|, k requires 0 <= k < 4 * |xs| => Byte32(xs[k / 4], k % 4))
  }

  // Signed lanes of a group of bytes.

  function Signed8(b0: u8): i8 {
    if b0 < 0x80 then b0 else b0 - 0x100
  }

  function Signed16(b0: u8, b1: u8): i16 {
    var u := b0 + (0x100 as int) * b1;
    if u < 0x8000 then u else u - 0x1_0000
  }

  function Signed32(b0: u8, b1: u8, b2: u8, b3: u8): i32 {
    var u := Join(b0, b1, b2, b3);
    if u < TWO31 then u else u - TWO32
  }

  type Register = v: seq<u8> | |v| == 8 witness [0, 0, 0, 0, 0, 0, 0, 0]

  function Lanes8(v: Register): seq<int> {
    seq(8, k requires 0 <= k < 8 => Signed8(v[k]))
  }

  function Lanes16(v: Register): seq<int> {
    seq(4, k requires 0 <= k < 4 => Signed16(v[2 * k], v[2 * k + 1]))
  }

  function Lanes32(v: Register): seq<int> {
    seq(2, k requires 0 <= k < 2 => Signed32(v[4 * k], v[4 * k + 1], v[4 * k + 2], v[4 * k + 3]))
  }

  lemma SignedLow8(x: i8)
    ensures Signed8(Low8(x)) == x
  {
  }

  lemma Signed32Bytes(x: i32)
    ensures Signed32(Byte32(x, 0), Byte32(x, 1), Byte32(x, 2), Byte32(x, 3)) == x
  {
    var q1, r0 := x / 0x100, x % 0x100;
    var q2, r1 := q1 / 0x100, q1 % 0x100;
    var q3, r2 := q2 / 0x100, q2 % 0x100;
    assert x == 0x100 * q1 + r0 && q1 == 0x100 * q2 + r1 && q2 == 0x100 * q3 + r2;
    ModUnique(x, q2, 0x100 * r1 + r0, 0x1_0000);
    ModUnique(x, q3, 0x1_0000 * r2 + 0x100 * r1 + r0, 0x100_0000);
    assert -0x80 <= q3 < 0x80;
    ModUnique(q3, if q3 < 0 then -1 else 0, if q3 < 0 then q3 + 0x100 else q3, 0x100);
  }

  /** Eight bytes at an address. */
  function EightAt(mem: seq<u8>, addr: nat): Register
    requires addr + 8 <= |mem|
  {
    mem[addr..addr + 8]
  }

  /** A vector load at element i, seen through the lanes of its width, gives the elements. */
  lemma LoadedLanes8(xs: seq<i8>, i: nat)
    requires i + 8 <= |xs|
    ensures forall k | 0 <= k < 8 :: Lanes8(EightAt(Bytes8(xs), i))[k] == xs[i + k]
  {
  }

  lemma LoadedLanes16(xs: seq<i16>, i: nat)
    requires i + 4 <= |xs|
    ensures forall k | 0 <= k < 4 :: Lanes16(EightAt(Bytes16(xs), 2 * i))[k] == xs[i + k]
  {
  }

  lemma LoadedByte32(xs: seq<i32>, i: nat, k: nat, j: nat)
    requires i + 2 <= |xs| && k < 2 && j < 4
    ensures EightAt(Bytes32(xs), 4 * i)[4 * k + j] == Byte32(xs[i + k], j)
  {
  }

  lemma LoadedLanes32(xs: seq<i32>, i: nat)
    requires i + 2 <= |xs|
    ensures forall k | 0 <= k < 2 :: Lanes32(EightAt(Bytes32(xs), 4 * i))[k] == xs[i + k]
  {
    forall k | 0 <= k < 2
      ensures Lanes32(EightAt(Bytes32(xs), 4 * i))[k] == xs[i + k]
    {
      LoadedLane32(xs, i, k);
    }
  }

  lemma LoadedLane32(xs: seq<i32>, i: nat, k: nat)
    requires i + 2 <= |xs| && k < 2
    ensures Lanes32(EightAt(Bytes32(xs), 4 * i))[k] == xs[i + k]
  {
    LoadedByte32(xs, i, k, 0);
    LoadedByte32(xs, i, k, 1);
    LoadedByte32(xs, i, k, 2);
    LoadedByte32(xs, i, k, 3);
    Signed32Bytes(xs[i + k]);
  }

  // Sums of products.

  /** The first n products of two vectors. */
  function Dot(x: seq<int>, w: seq<int>, n: nat): int
    requires n <= |x| && n <= |w|
  {
    if n == 0 then 0 else Dot(x, w, n - 1) + x[n - 1] * w[n - 1]
  }

  /** What determines a sum of products: it picks the weight of the only input that is not zero, and it adds up
      when the inputs do. */
  lemma {:induction false} DotOneHot(x: seq<int>, w: seq<int>, n: nat, k: nat)
    requires k < n <= |x| && n <= |w| && forall i | 0 <= i < n && i != k :: x[i] == 0
    ensures Dot(x, w, n) == x[k] * w[k]
  {
    if k == n - 1 {
      DotZero(x, w, n - 1);
    } else {
      DotOneHot(x, w, n - 1, k);
    }
  }

  lemma {:induction false} DotZero(x: seq<int>, w: seq<int>, n: nat)
    requires n <= |x| && n <= |w| && forall i | 0 <= i < n :: x[i] == 0
    ensures Dot(x, w, n) == 0
  {
    if n == 0 {
    } else {
      DotZero(x, w, n - 1);
    }
  }

  lemma {:induction false} DotAdds(x: seq<int>, y: seq<int>, z: seq<int>, w: seq<int>, n: nat)
    requires n <= |x| && n <= |y| && n <= |z| && n <= |w| && forall i | 0 <= i < n :: z[i] == x[i] + y[i]
    ensures Dot(z, w, n) == Dot(x, w, n) + Dot(y, w, n)
  {
    if n == 0 {
    } else {
      DotAdds(x, y, z, w, n - 1);
      assert z[n - 1] * w[n - 1] == x[n - 1] * w[n - 1] + y[n - 1] * w[n - 1];
    }
  }

  /** A multiply-accumulate over n lanes adds the products of n consecutive elements. */
  lemma {:induction false} ChunkDot(x: seq<int>, w: seq<int>, i: nat, a: seq<int>, b: seq<int>, n: nat)
    requires i + n <= |x| && i + n <= |w| && n <= |a| && n <= |b|
    requires forall k | 0 <= k < n :: a[k] == x[i + k]
    requires forall k | 0 <= k < n :: b[k] == w[i + k]
    ensures Dot(x, w, i + n) == Dot(x, w, i) + Dot(a, b, n)
  {
    if n == 0 {
    } else {
      ChunkDot(x, w, i, a, b, n - 1);
    }
  }

  /** The vector unit. */
  class VectorUnit {
    var v1: Register
    var v2: Register

    constructor () {
      v1 := [0, 0, 0, 0, 0, 0, 0, 0];
      v2 := [0, 0, 0, 0, 0, 0, 0, 0];
    }

    method Vld1(mem: seq<u8>, addr: nat)
      requires addr + 8 <= |mem|
      modifies this`v1
      ensures v1 == EightAt(mem, addr)
    {
      v1 := EightAt(mem, addr);
    }

    method Vld2(mem: seq<u8>, addr: nat)
      requires addr + 8 <= |mem|
      modifies this`v2
      ensures v2 == EightAt(mem, addr)
    {
      v2 := EightAt(mem, addr);
    }

    method VmacB() returns (sum: i32)
      ensures sum == Wrap32(Dot(Lanes8(v1), Lanes8(v2), 8))
    {
      sum := Wrap32(Dot(Lanes8(v1), Lanes8(v2), 8));
    }

    method VmacH() returns (sum: i32)
      ensures sum == Wrap32(Dot(Lanes16(v1), Lanes16(v2), 4))
    {
      sum := Wrap32(Dot(Lanes16(v1), Lanes16(v2), 4));
    }

    method VmacW() returns (sum: i32)
      ensures sum == Wrap32(Dot(Lanes32(v1), Lanes32(v2), 2))
    {
      sum := Wrap32(Dot(Lanes32(v1), Lanes32(v2), 2));
    }
  }

  // Four 8-bit lanes in a 32-bit scalar register.

  function WordLanes(w: u32): seq<int> {
    [Signed8(Low8(w)), Signed8(Low8(w / 0x100)), Signed8(Low8(w / 0x1_0000)), Signed8(Low8(w / 0x100_0000))]
  }

  function Pvmac(a: u32, b: u32): i32 {
    Wrap32(Dot(WordLanes(a), WordLanes(b), 4))
  }

  function Pack4(a: i8, b: i8, c: i8, d: i8): u32 {
    Join(Low8(a), Low8(b), Low8(c), Low8(d))
  }

  /** Packing and the lanes of a word are inverse. */
  lemma PackedLanes(a: i8, b: i8, c: i8, d: i8)
    ensures WordLanes(Pack4(a, b, c, d)) == [a as int, b, c, d]
  {
    var w := Pack4(a, b, c, d);
    var a0, b0, c0, d0 := Low8(a), Low8(b), Low8(c), Low8(d);
    ModUnique(w, (0x1_0000 as int) * d0 + (0x100 as int) * c0 + b0, a0, 0x100);
    ModUnique(w, (0x100 as int) * d0 + c0, (0x100 as int) * b0 + a0, 0x1_0000);
    ModUnique(w, d0, (0x1_0000 as int) * c0 + (0x100 as int) * b0 + a0, 0x100_0000);
    ModUnique(w / 0x100, (0x100 as int) * d0 + c0, b0, 0x100);
    ModUnique(w / 0x1_0000, d0, c0, 0x100);
    SignedLow8(a);
    SignedLow8(b);
    SignedLow8(c);
    SignedLow8(d);
  }

  /** Loading four bytes of an int8 array at once packs them. */
  lemma LoadedWord(xs: seq<i8>, i: nat)
    requires i + 4 <= |xs|
    ensures WordIn(Bytes8(xs), i) == Pack4(xs[i], xs[i + 1], xs[i + 2], xs[i + 3])
  {
  }
}
