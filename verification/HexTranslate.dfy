/** The translator from byte images to word images. */
module HexTranslate {
  import opened MachineInts
  import opened HexText
  import opened HexPrint
  import opened HexLoader

  /** A parsed line: an address directive or data bytes. */
  datatype Record = At(addr: nat) | Data(bytes: seq<u8>)

  /** Consecutive bytes at an address. */
  datatype Segment = Segment(base: int, bytes: seq<u8>)

  function Zeros(n: int): (r: seq<u8>)
    ensures |r| == (if n <= 0 then 0 else n) && forall i | 0 <= i < |r| :: r[i] == 0
  {
    if n <= 0 then [] else Zeros(n - 1) + [0]
  }

  function Padding(n: nat): nat {
    (4 - n % 4) % 4
  }

  /** The segments written so far, the last one outermost. */
  datatype Written = Nothing | Then(before: Written, last: Segment)

  // The translator: the base of the pending segment, its bytes, and what is written.

  datatype Pending = Pending(ptr: int, data: seq<u8>, out: Written)

  const EMPTY: Pending := Pending(0, [], Nothing)

  function Flush(t: Pending): Written {
    if t.data == [] then t.out else Then(t.out, Segment(t.ptr, t.data + Zeros(Padding(|t.data|))))
  }

  predicate Flushes(t: Pending, addr: nat) {
    addr > t.ptr + 4
  }

  function Step(t: Pending, r: Record): Pending {
    match r
    case Data(bytes) => t.(data := t.data + bytes)
    case At(addr) =>
      if Flushes(t, addr) then Pending(addr - addr % 4, Zeros(addr % 4), Flush(t))
      else t.(data := t.data + Zeros(addr - t.ptr - |t.data|))
  }

  /** Which directives end the pending segment: those more than four bytes past its base. They start a new one
      at the word boundary below; the others leave it pending, filled with zeros up to the address. */
  lemma DirectiveEnds(t: Pending, addr: nat)
    ensures addr > t.ptr + 4 ==>
              && Step(t, At(addr)).out == Flush(t) && addr - 4 < Step(t, At(addr)).ptr <= addr
              && Step(t, At(addr)).ptr % 4 == 0
              && Step(t, At(addr)).ptr + |Step(t, At(addr)).data| == addr
    ensures addr <= t.ptr + 4 ==>
              && Step(t, At(addr)).out == t.out && Step(t, At(addr)).ptr == t.ptr
              && t.data <= Step(t, At(addr)).data
              && t.ptr + |Step(t, At(addr)).data| == if addr < t.ptr + |t.data| then t.ptr + |t.data| else addr
  {
  }

  /** The translator after the first n records. */
  function Run(rs: seq<Record>, n: nat): Pending
    requires n <= |rs|
  {
    if n == 0 then EMPTY else Step(Run(rs, n - 1), rs[n - 1])
  }

  function Translated(rs: seq<Record>): Written {
    Flush(Run(rs, |rs|))
  }

  // What the two images mean.

  /** The bytes a byte image defines, and the address after the last one. */
  datatype Image = Image(mem: Mem, cur: nat)

  function Place(i: Image, r: Record): Image {
    match r
    case At(addr) => i.(cur := addr)
    case Data(bytes) => Image(Poke(i.mem, i.cur, bytes), i.cur + |bytes|)
  }

  function Direct(rs: seq<Record>, n: nat): Image
    requires n <= |rs|
  {
    if n == 0 then Image(map[], 0) else Place(Direct(rs, n - 1), rs[n - 1])
  }

  /** The memory a byte image describes. */
  function ImageOf(rs: seq<Record>): Image {
    Direct(rs, |rs|)
  }

  /** The memory the written segments describe. */
  function SegMem(out: Written): Mem {
    if out.Nothing? then map[] else Poke(SegMem(out.before), out.last.base, out.last.bytes)
  }

  /** Every byte of the image is there, unchanged. */
  predicate Preserved(image: Mem, out: Mem) {
    forall a | a in image :: a in out && out[a] == image[a]
  }

  predicate OthersZero(image: Mem, out: Mem) {
    forall a | a in out && a !in image :: out[a] == 0
  }

  // Where the translator puts padding, and what it hides.

  /** Zeros behind the pending segment, up to a whole number of words. */
  predicate BackPads(t: Pending, a: int) {
    t.data != [] && t.ptr + |t.data| <= a < t.ptr + |t.data| + Padding(|t.data|)
  }

  /** The zeros a record makes the translator put at address a: behind the old segment and in front
      of the new one, or between the bytes of one segment. */
  predicate Pads(t: Pending, r: Record, a: int) {
    r.At? &&
    if Flushes(t, r.addr) then BackPads(t, a) || r.addr - r.addr % 4 <= a < r.addr
    else t.ptr + |t.data| <= a < r.addr
  }

  predicate Writes(i: Image, r: Record, a: int) {
    r.Data? && i.cur <= a < i.cur + |r.bytes|
  }

  /** Address a has been padded over since the last data record that writes it. */
  predicate Covered(rs: seq<Record>, n: nat, a: int)
    requires n <= |rs|
  {
    n > 0 && !Writes(Direct(rs, n - 1), rs[n - 1], a)
    && (Covered(rs, n - 1, a) || Pads(Run(rs, n - 1), rs[n - 1], a))
  }

  /** Address a is covered in the end. */
  predicate Hidden(rs: seq<Record>, a: int) {
    Covered(rs, |rs|, a) || BackPads(Run(rs, |rs|), a)
  }

  /** No byte of the image but zeros is covered in the end. */
  predicate Uncovered(rs: seq<Record>) {
    forall a | a in ImageOf(rs).mem && ImageOf(rs).mem[a] != 0 :: !Hidden(rs, a)
  }

  // Images the translator keeps up with.

  /** A directive that does not end the pending segment does not go back. */
  predicate OnTime(t: Pending, r: Record) {
    r.At? && !Flushes(t, r.addr) ==> r.addr >= t.ptr + |t.data|
  }

  predicate InOrder(rs: seq<Record>, n: nat)
    requires n <= |rs|
  {
    n == 0 || (InOrder(rs, n - 1) && OnTime(Run(rs, n - 1), rs[n - 1]))
  }

  /** The position of the translator is that of the image. */
  predicate InStep(t: Pending, i: Image) {
    t.ptr >= 0 && t.ptr % 4 == 0 && t.ptr + |t.data| == i.cur
  }

  lemma StepInStep(t: Pending, i: Image, r: Record)
    requires InStep(t, i) && OnTime(t, r)
    ensures InStep(Step(t, r), Place(i, r))
  {
  }

  lemma {:induction false} StaysInStep(rs: seq<Record>, n: nat)
    requires n <= |rs| && InOrder(rs, n)
    ensures InStep(Run(rs, n), Direct(rs, n))
  {
    if n == 0 {
    } else {
      StaysInStep(rs, n - 1);
      StepInStep(Run(rs, n - 1), Direct(rs, n - 1), rs[n - 1]);
    }
  }

  /** Everything written and the pending segment. */
  function AllMem(t: Pending): Mem {
    Poke(SegMem(t.out), t.ptr, t.data)
  }

  function Look(mem: Mem, a: int): Option<u8> {
    if a in mem then Some(mem[a]) else None
  }

  /** The translator puts a data byte of the record at address a, wherever the image has it. */
  predicate Lands(t: Pending, r: Record, a: int) {
    r.Data? && t.ptr + |t.data| <= a < t.ptr + |t.data| + |r.bytes|
  }

  lemma AppendAt(t: Pending, bytes: seq<u8>, a: int)
    ensures var end := t.ptr + |t.data|;
            Look(AllMem(t.(data := t.data + bytes)), a) ==
            if end <= a < end + |bytes| then Some(bytes[a - end]) else Look(AllMem(t), a)
  {
  }

  lemma FlushAt(t: Pending, a: int)
    ensures Look(SegMem(Flush(t)), a) == if BackPads(t, a) then Some(0) else Look(AllMem(t), a)
  {
  }

  lemma FrontAt(t: Pending, addr: nat, a: int)
    ensures Look(AllMem(Pending(addr - addr % 4, Zeros(addr % 4), Flush(t))), a) ==
            if BackPads(t, a) || addr - addr % 4 <= a < addr then Some(0) else Look(AllMem(t), a)
  {
    FlushAt(t, a);
  }

  /** What one record does at one address: data, padding or nothing. */
  predicate StepsTo(t: Pending, r: Record, t': Pending, a: int) {
    Look(AllMem(t'), a) ==
      if Lands(t, r, a) then Some(r.bytes[a - (t.ptr + |t.data|)])
      else if Pads(t, r, a) then Some(0)
      else Look(AllMem(t), a)
  }

  lemma DataAt(t: Pending, r: Record, t': Pending, a: int)
    requires r.Data? && t' == t.(data := t.data + r.bytes)
    ensures StepsTo(t, r, t', a)
  {
    AppendAt(t, r.bytes, a);
  }

  lemma NewSegmentAt(t: Pending, r: Record, t': Pending, a: int)
    requires r.At? && Flushes(t, r.addr)
    requires t' == Pending(r.addr - r.addr % 4, Zeros(r.addr % 4), Flush(t))
    ensures StepsTo(t, r, t', a)
  {
    FrontAt(t, r.addr, a);
  }

  lemma FillAt(t: Pending, r: Record, t': Pending, a: int)
    requires r.At? && !Flushes(t, r.addr)
    requires t' == t.(data := t.data + Zeros(r.addr - t.ptr - |t.data|))
    ensures StepsTo(t, r, t', a)
  {
    AppendAt(t, Zeros(r.addr - t.ptr - |t.data|), a);
  }

  lemma StepAt(t: Pending, r: Record, a: int)
    ensures StepsTo(t, r, Step(t, r), a)
  {
    if r.Data? {
      DataAt(t, r, Step(t, r), a);
    } else if Flushes(t, r.addr) {
      NewSegmentAt(t, r, Step(t, r), a);
    } else {
      FillAt(t, r, Step(t, r), a);
    }
  }

  /** At one address: the byte of the image, or zero where it is covered or the image has none. */
  predicate Shows(image: Mem, out: Mem, covered: bool, a: int) {
    && (a in image ==> a in out)
    && (a in out ==> out[a] == if a in image && !covered then image[a] else 0)
  }

  lemma PlaceAt(i: Image, r: Record, a: int)
    ensures Look(Place(i, r).mem, a) == if Writes(i, r, a) then Some(r.bytes[a - i.cur]) else Look(i.mem, a)
  {
  }

  lemma StepShows(t: Pending, i: Image, r: Record, covered: bool, a: int)
    requires InStep(t, i) && OnTime(t, r) && Shows(i.mem, AllMem(t), covered, a)
    ensures Shows(Place(i, r).mem, AllMem(Step(t, r)), !Writes(i, r, a) && (covered || Pads(t, r, a)), a)
  {
    StepAt(t, r, a);
    PlaceAt(i, r, a);
    assert Lands(t, r, a) <==> Writes(i, r, a);
    ShowsByLook(i.mem, AllMem(t), covered, a);
    ShowsByLook(Place(i, r).mem, AllMem(Step(t, r)), !Writes(i, r, a) && (covered || Pads(t, r, a)), a);
  }

  lemma ShowsByLook(image: Mem, out: Mem, covered: bool, a: int)
    ensures Shows(image, out, covered, a) <==>
              if Look(image, a).Some? then Look(out, a) == Some(if covered then 0 else image[a])
              else Look(out, a).Some? ==> Look(out, a) == Some(0)
  {
  }

  lemma FlushShows(t: Pending, image: Mem, covered: bool, a: int)
    requires Shows(image, AllMem(t), covered, a)
    ensures Shows(image, SegMem(Flush(t)), covered || BackPads(t, a), a)
  {
    FlushAt(t, a);
    ShowsByLook(image, AllMem(t), covered, a);
    ShowsByLook(image, SegMem(Flush(t)), covered || BackPads(t, a), a);
  }

  predicate ShowsAfter(rs: seq<Record>, n: nat, a: int)
    requires n <= |rs|
  {
    Shows(Direct(rs, n).mem, AllMem(Run(rs, n)), Covered(rs, n, a), a)
  }

  lemma {:induction false} RunShows(rs: seq<Record>, n: nat, a: int)
    requires n <= |rs| && InOrder(rs, n)
    ensures ShowsAfter(rs, n, a)
  {
    if n == 0 {
    } else {
      RunShows(rs, n - 1, a);
      StaysInStep(rs, n - 1);
      StepShows(Run(rs, n - 1), Direct(rs, n - 1), rs[n - 1], Covered(rs, n - 1, a), a);
    }
  }

  /** What the output has at any address. */
  lemma OutputShows(rs: seq<Record>, a: int)
    requires InOrder(rs, |rs|)
    ensures Shows(ImageOf(rs).mem, SegMem(Translated(rs)), Hidden(rs, a), a)
  {
    RunShows(rs, |rs|, a);
    FlushShows(Run(rs, |rs|), ImageOf(rs).mem, Covered(rs, |rs|, a), a);
  }

  /** An image the translator keeps up with survives exactly when no byte of it but zeros is covered
      by padding in the end; what else is written is zero. */
  lemma PreservedExactly(rs: seq<Record>)
    requires InOrder(rs, |rs|)
    ensures Preserved(ImageOf(rs).mem, SegMem(Translated(rs))) <==> Uncovered(rs)
    ensures OthersZero(ImageOf(rs).mem, SegMem(Translated(rs)))
  {
    forall a: int
      ensures Shows(ImageOf(rs).mem, SegMem(Translated(rs)), Hidden(rs, a), a)
    {
      OutputShows(rs, a);
    }
    PreservedWhere(ImageOf(rs).mem, SegMem(Translated(rs)), (a: int) => Hidden(rs, a));
  }

  lemma PreservedWhere(image: Mem, out: Mem, hidden: int -> bool)
    requires forall a: int :: Shows(image, out, hidden(a), a)
    ensures Preserved(image, out) <==> forall a | a in image && image[a] != 0 :: !hidden(a)
    ensures OthersZero(image, out)
  {
    if a: int :| a in image && image[a] != 0 && hidden(a) {
      assert Shows(image, out, hidden(a), a);
    } else {
      forall a | a in image
        ensures a in out && out[a] == image[a]
      {
        assert Shows(image, out, hidden(a), a);
      }
    }
    forall a | a in out && a !in image
      ensures out[a] == 0
    {
      assert Shows(image, out, hidden(a), a);
    }
  }

  // Ascending images: the same condition, seen at the directives.

  predicate Ahead(i: Image, r: Record) {
    r.At? ==> r.addr >= i.cur
  }

  /** No directive goes back. */
  predicate Ascending(rs: seq<Record>, n: nat)
    requires n <= |rs|
  {
    n == 0 || (Ascending(rs, n - 1) && Ahead(Direct(rs, n - 1), rs[n - 1]))
  }

  lemma {:induction false} AscendingInOrder(rs: seq<Record>, n: nat)
    requires n <= |rs| && Ascending(rs, n)
    ensures InOrder(rs, n)
  {
    if n == 0 {
    } else {
      AscendingInOrder(rs, n - 1);
      StaysInStep(rs, n - 1);
    }
  }

  /** All bytes lie behind the position. */
  predicate Behind(i: Image) {
    forall a | a in i.mem :: 0 <= a < i.cur
  }

  lemma {:induction false} StaysBehind(rs: seq<Record>, n: nat)
    requires n <= |rs| && Ascending(rs, n)
    ensures Behind(Direct(rs, n))
  {
    if n == 0 {
    } else {
      StaysBehind(rs, n - 1);
    }
  }

  /** A directive that ends the pending segment has no byte but zeros at or after the start of its
      word. */
  predicate Spares(t: Pending, i: Image, r: Record) {
    r.At? && Flushes(t, r.addr) ==> forall a | a in i.mem && a >= r.addr - r.addr % 4 :: i.mem[a] == 0
  }

  predicate Spared(rs: seq<Record>, n: nat)
    requires n <= |rs|
  {
    n == 0 || (Spared(rs, n - 1) && Spares(Run(rs, n - 1), Direct(rs, n - 1), rs[n - 1]))
  }

  /** The nonzero byte at `a` is behind the position of the image. */
  predicate Stored(i: Image, a: int) {
    a in i.mem && i.mem[a] != 0 && a < i.cur
  }

  lemma SparesStored(t: Pending, i: Image, r: Record, a: int)
    requires InStep(t, i) && Ahead(i, r) && Stored(i, a) && Spares(t, i, r)
    ensures !Pads(t, r, a)
  {
  }

  lemma {:induction false} SparedUncovered(rs: seq<Record>, n: nat, a: int)
    requires n <= |rs| && Ascending(rs, n) && Spared(rs, n)
    requires a in Direct(rs, n).mem && Direct(rs, n).mem[a] != 0
    ensures !Covered(rs, n, a)
  {
    if n == 0 || Writes(Direct(rs, n - 1), rs[n - 1], a) {
    } else {
      SparedUncovered(rs, n - 1, a);
      AscendingInOrder(rs, n - 1);
      StaysInStep(rs, n - 1);
      StaysBehind(rs, n - 1);
      SparesStored(Run(rs, n - 1), Direct(rs, n - 1), rs[n - 1], a);
    }
  }

  /** The byte a directive does not spare is covered. */
  lemma FirstCovered(t: Pending, i: Image, r: Record) returns (a: int)
    requires InStep(t, i) && Ahead(i, r) && !Spares(t, i, r) && Behind(i)
    ensures Stored(i, a) && Pads(t, r, a)
  {
    a :| a in i.mem && a >= r.addr - r.addr % 4 && i.mem[a] != 0;
  }

  /** It stays so: later data lies past it. */
  lemma StaysStored(i: Image, r: Record, a: int)
    requires Stored(i, a) && Ahead(i, r)
    ensures Stored(Place(i, r), a) && !Writes(i, r, a)
  {
  }

  lemma {:induction false} UnsparedCovered(rs: seq<Record>, n: nat) returns (a: int)
    requires n <= |rs| && Ascending(rs, n) && !Spared(rs, n)
    ensures Stored(Direct(rs, n), a) && Covered(rs, n, a)
  {
    if Spared(rs, n - 1) {
      AscendingInOrder(rs, n - 1);
      StaysInStep(rs, n - 1);
      StaysBehind(rs, n - 1);
      a := FirstCovered(Run(rs, n - 1), Direct(rs, n - 1), rs[n - 1]);
    } else {
      a := UnsparedCovered(rs, n - 1);
    }
    StaysStored(Direct(rs, n - 1), rs[n - 1], a);
  }

  /** An ascending image survives translation exactly when no directive finds a nonzero byte in
      the word it starts in. */
  lemma AscendingPreservedExactly(rs: seq<Record>)
    requires Ascending(rs, |rs|)
    ensures Preserved(ImageOf(rs).mem, SegMem(Translated(rs))) <==> Spared(rs, |rs|)
    ensures OthersZero(ImageOf(rs).mem, SegMem(Translated(rs)))
  {
    AscendingInOrder(rs, |rs|);
    StaysInStep(rs, |rs|);
    StaysBehind(rs, |rs|);
    PreservedExactly(rs);
    if Spared(rs, |rs|) {
      forall a | a in ImageOf(rs).mem && ImageOf(rs).mem[a] != 0
        ensures !Hidden(rs, a)
      {
        SparedUncovered(rs, |rs|, a);
      }
    } else {
      var a := UnsparedCovered(rs, |rs|);
    }
  }

  // Ascending images whose segments share no word.

  /** A directive that ends the pending segment starts in a later word than its last byte. */
  predicate Apart(t: Pending, r: Record) {
    r.At? && Flushes(t, r.addr) ==> r.addr - r.addr % 4 >= t.ptr + |t.data|
  }

  predicate Separated(rs: seq<Record>, n: nat)
    requires n <= |rs|
  {
    n == 0 || (Separated(rs, n - 1) && Apart(Run(rs, n - 1), rs[n - 1]))
  }

  /** Word-aligned, whole words, and each segment past the end of those before. */
  predicate WordSegments(out: Written, end: int) {
    if out.Nothing? then end >= 0
    else
      && out.last.base % 4 == 0 && |out.last.bytes| % 4 == 0 && out.last.base + |out.last.bytes| <= end
      && WordSegments(out.before, out.last.base)
  }

  lemma PaddingWhole(n: nat)
    ensures (n + Padding(n)) % 4 == 0 && Padding(n) < 4
  {
  }

  lemma FlushedSegments(t: Pending, end: nat)
    requires t.ptr >= 0 && t.ptr % 4 == 0 && end % 4 == 0 && t.ptr + |t.data| <= end
    requires WordSegments(t.out, t.ptr)
    ensures WordSegments(Flush(t), end)
  {
  }

  lemma StepSegments(t: Pending, r: Record)
    requires t.ptr >= 0 && t.ptr % 4 == 0 && WordSegments(t.out, t.ptr) && Apart(t, r)
    ensures WordSegments(Step(t, r).out, Step(t, r).ptr)
  {
    if r.At? && Flushes(t, r.addr) {
      FlushedSegments(t, r.addr - r.addr % 4);
    }
  }

  predicate NoneEmpty(out: Written) {
    out.Nothing? || (out.last.bytes != [] && NoneEmpty(out.before))
  }

  /** No segment without data is ever written. */
  lemma {:induction false} SegmentsHaveData(rs: seq<Record>, n: nat)
    requires n <= |rs|
    ensures NoneEmpty(Run(rs, n).out) && NoneEmpty(Flush(Run(rs, n)))
  {
    if n == 0 {
    } else {
      SegmentsHaveData(rs, n - 1);
      assert Run(rs, n).out == Run(rs, n - 1).out || Run(rs, n).out == Flush(Run(rs, n - 1));
    }
  }

  /** Segments that share no word keep their order and stay whole words. */
  lemma {:induction false} RunSegments(rs: seq<Record>, n: nat)
    requires n <= |rs| && InOrder(rs, n) && Separated(rs, n)
    ensures WordSegments(Run(rs, n).out, Run(rs, n).ptr)
  {
    if n == 0 {
    } else {
      RunSegments(rs, n - 1);
      StaysInStep(rs, n - 1);
      StepSegments(Run(rs, n - 1), rs[n - 1]);
    }
  }

  lemma FinalSegments(t: Pending, i: Image)
    requires InStep(t, i) && WordSegments(t.out, t.ptr)
    ensures WordSegments(Flush(t), i.cur + Padding(i.cur))
  {
    PaddingWhole(i.cur);
    FlushedSegments(t, i.cur + Padding(i.cur));
  }

  lemma ApartSpares(t: Pending, i: Image, r: Record)
    requires InStep(t, i) && Apart(t, r) && Behind(i)
    ensures Spares(t, i, r)
  {
  }

  lemma {:induction false} SeparatedSpared(rs: seq<Record>, n: nat)
    requires n <= |rs| && Ascending(rs, n) && Separated(rs, n)
    ensures Spared(rs, n)
  {
    if n == 0 {
    } else {
      SeparatedSpared(rs, n - 1);
      AscendingInOrder(rs, n - 1);
      StaysInStep(rs, n - 1);
      StaysBehind(rs, n - 1);
      ApartSpares(Run(rs, n - 1), Direct(rs, n - 1), rs[n - 1]);
    }
  }

  /** Translation keeps the meaning of an ascending image whose segments share no word: the same
      byte at every address it defines, zero at every other address written, and disjoint
      word-aligned segments of whole words. */
  lemma Preserves(rs: seq<Record>)
    requires Ascending(rs, |rs|) && Separated(rs, |rs|)
    ensures Preserved(ImageOf(rs).mem, SegMem(Translated(rs)))
    ensures OthersZero(ImageOf(rs).mem, SegMem(Translated(rs)))
    ensures WordSegments(Translated(rs), ImageOf(rs).cur + Padding(ImageOf(rs).cur))
  {
    SeparatedSpared(rs, |rs|);
    AscendingPreservedExactly(rs);
    AscendingInOrder(rs, |rs|);
    StaysInStep(rs, |rs|);
    RunSegments(rs, |rs|);
    FinalSegments(Run(rs, |rs|), ImageOf(rs));
  }
}
