/** From the text of a byte image, through the translator and the loader, to the words of SRAM. */
module HexPipeline {
  import opened MachineInts
  import opened HexText
  import opened HexLoader
  import opened HexTranslate
  import opened HexTranslator
  import opened HexFormats

  // Which images leave room for their padding.

  /** The image and its padding lie inside the memory. */
  predicate Inside(i: Image, size: nat) {
    i.cur + Padding(i.cur) <= size < TWO32
  }

  /** So it is after every record. */
  predicate Roomy(rs: seq<Record>, n: nat, size: nat)
    requires n <= |rs|
  {
    Inside(Direct(rs, n), size) && (n == 0 || Roomy(rs, n - 1, size))
  }

  lemma PaddingGrows(m: nat, n: nat)
    requires m <= n
    ensures m + Padding(m) <= n + Padding(n)
  {
  }

  lemma {:induction false} AscendingRoomy(rs: seq<Record>, n: nat, size: nat)
    requires n <= |rs| && Ascending(rs, n) && Inside(Direct(rs, n), size)
    ensures Roomy(rs, n, size)
  {
    if n == 0 {
    } else {
      PaddingGrows(Direct(rs, n - 1).cur, Direct(rs, n).cur);
      AscendingRoomy(rs, n - 1, size);
    }
  }

  lemma {:induction false} RoomyFits(rs: seq<Record>, n: nat, size: nat)
    requires n <= |rs| && Roomy(rs, n, size)
    ensures Fits(rs, n, size)
  {
    if n == 0 {
    } else {
      RoomyFits(rs, n - 1, size);
    }
  }

  lemma FlushStorable(t: Pending, i: Image, size: nat)
    requires InStep(t, i) && Storable(t.out, size) && Inside(i, size)
    ensures Storable(Flush(t), size)
  {
    PaddingWhole(|t.data|);
    assert Padding(|t.data|) == Padding(i.cur);
  }

  lemma {:induction false} RunStorable(rs: seq<Record>, n: nat, size: nat)
    requires n <= |rs| && InOrder(rs, n) && Roomy(rs, n, size)
    ensures Storable(Run(rs, n).out, size)
  {
    if n == 0 {
    } else {
      RunStorable(rs, n - 1, size);
      StaysInStep(rs, n - 1);
      FlushStorable(Run(rs, n - 1), Direct(rs, n - 1), size);
    }
  }

  lemma OutputStorable(rs: seq<Record>, size: nat)
    requires InOrder(rs, |rs|) && Roomy(rs, |rs|, size)
    ensures Storable(Translated(rs), size)
  {
    RunStorable(rs, |rs|, size);
    StaysInStep(rs, |rs|);
    FlushStorable(Run(rs, |rs|), ImageOf(rs), size);
  }

  /** What the loader makes of the word image. */
  lemma WordsLoaded(out: Written, size: nat)
    requires Storable(out, size) && size < TWO32
    ensures var words := LoadFile(Text(out), size);
            && words.mem == SegMem(out)
            && (words.error.Some? <==> words.mem == map[])
            && (forall a | a in words.mem :: 0 <= a < words.max <= size)
  {
    LoadsWords(out, size);
    LoadedTop(out, size);
  }

  /** What the loader makes of the byte image. */
  lemma BytesLoaded(lines: seq<string>, size: nat)
    requires ByteText(lines)
    ensures Parses(lines, |lines|)
    ensures var rs := Records(lines);
            Fits(rs, |rs|, size) && size < TWO32 ==>
              var direct := LoadFile(lines, size);
              direct.mem == ImageOf(rs).mem && (direct.error.Some? <==> direct.mem == map[])
  {
    LoadsBytes(lines, if size < TWO32 then size else 0);
    var rs := Records(lines);
    if Fits(rs, |rs|, size) {
      TopFits(rs, |rs|, size);
    }
  }

  /** The image and its translation fit the memory. */
  predicate Loadable(rs: seq<Record>, size: nat) {
    size < TWO32 && Fits(rs, |rs|, size) && Storable(Translated(rs), size)
  }

  lemma RoomyLoadable(rs: seq<Record>, size: nat)
    requires InOrder(rs, |rs|) && Roomy(rs, |rs|, size)
    ensures Loadable(rs, size)
  {
    RoomyFits(rs, |rs|, size);
    OutputStorable(rs, size);
  }

  lemma AscendingLoadable(rs: seq<Record>, size: nat)
    requires Ascending(rs, |rs|) && Inside(ImageOf(rs), size)
    ensures InOrder(rs, |rs|) && Loadable(rs, size)
  {
    AscendingRoomy(rs, |rs|, size);
    AscendingInOrder(rs, |rs|);
    RoomyLoadable(rs, size);
  }

  /** What the loader makes of a byte text and of its translation. */
  lemma BothLoaded(lines: seq<string>, size: nat)
    requires ByteText(lines)
    ensures Parses(lines, |lines|)
    ensures var rs := Records(lines);
            Loadable(rs, size) ==>
              var direct, words := LoadFile(lines, size), LoadFile(Text(Translated(rs)), size);
              && direct.mem == ImageOf(rs).mem && (direct.error.Some? <==> direct.mem == map[])
              && words.mem == SegMem(Translated(rs)) && (words.error.Some? <==> words.mem == map[])
  {
    BytesLoaded(lines, size);
    var rs := Records(lines);
    if Loadable(rs, size) {
      WordsLoaded(Translated(rs), size);
    }
  }

  // Loading the translated text against loading the byte text.

  /** Loading the translated text gives the same byte at every address the byte image defines and
      zero at every other address it writes, when no two segments share a word. */
  lemma TranslationLoadsTheSame(lines: seq<string>, size: nat)
    requires ByteText(lines)
    ensures Parses(lines, |lines|)
    ensures var rs := Records(lines);
            Ascending(rs, |rs|) && Separated(rs, |rs|) && Inside(ImageOf(rs), size) ==>
              var direct, words := LoadFile(lines, size), LoadFile(Text(Translated(rs)), size);
              && Preserved(direct.mem, words.mem) && OthersZero(direct.mem, words.mem)
              && (direct.error.None? ==> words.error.None?)
  {
    BothLoaded(lines, size);
    var rs := Records(lines);
    if Ascending(rs, |rs|) && Separated(rs, |rs|) && Inside(ImageOf(rs), size) {
      AscendingLoadable(rs, size);
      Preserves(rs);
      NonEmptyKept(ImageOf(rs).mem, SegMem(Translated(rs)));
    }
  }

  lemma NonEmptyKept(image: Mem, out: Mem)
    requires Preserved(image, out)
    ensures out == map[] ==> image == map[]
  {
    if out == map[] {
      assert forall a :: a !in image;
      assert image == map[];
    }
  }

  /** The exact condition, for every image the translator keeps up with: no byte but zeros is
      covered by padding in the end. */
  lemma TranslationLoadsTheSameExactly(lines: seq<string>, size: nat)
    requires ByteText(lines)
    ensures Parses(lines, |lines|)
    ensures var rs := Records(lines);
            InOrder(rs, |rs|) && Roomy(rs, |rs|, size) ==>
              var direct, words := LoadFile(lines, size).mem, LoadFile(Text(Translated(rs)), size).mem;
              (Preserved(direct, words) <==> Uncovered(rs)) && OthersZero(direct, words)
  {
    BothLoaded(lines, size);
    var rs := Records(lines);
    if InOrder(rs, |rs|) && Roomy(rs, |rs|, size) {
      RoomyLoadable(rs, size);
      PreservedExactly(rs);
    }
  }

  /** For an ascending image: no directive finds a nonzero byte in the word it starts in. */
  lemma AscendingLoadsTheSameExactly(lines: seq<string>, size: nat)
    requires ByteText(lines)
    ensures Parses(lines, |lines|)
    ensures var rs := Records(lines);
            Ascending(rs, |rs|) && Inside(ImageOf(rs), size) ==>
              (Preserved(LoadFile(lines, size).mem, LoadFile(Text(Translated(rs)), size).mem)
               <==> Spared(rs, |rs|))
  {
    BothLoaded(lines, size);
    var rs := Records(lines);
    if Ascending(rs, |rs|) && Inside(ImageOf(rs), size) {
      AscendingLoadable(rs, size);
      AscendingPreservedExactly(rs);
    }
  }

  // What can go wrong.

  /** Six bytes at 0 and one at 6: the second segment's front padding erases bytes 4 and 5. */
  lemma SharedWordLosesBytes()
    ensures var rs := [At(0), Data([1, 2, 3, 4, 5, 6]), At(6), Data([7])];
            && Ascending(rs, 4) && !Separated(rs, 4) && !Spared(rs, 4)
            && !Preserved(ImageOf(rs).mem, SegMem(Translated(rs)))
  {
    var rs := [At(0), Data([1, 2, 3, 4, 5, 6]), At(6), Data([7])];
    assert Run(rs, 1) == Pending(0, [], Nothing);
    assert Run(rs, 2) == Pending(0, [1, 2, 3, 4, 5, 6], Nothing);
    assert Direct(rs, 1).cur == 0;
    assert Direct(rs, 2).cur == 6;
    assert Direct(rs, 3).cur == 6;
    assert !Apart(Run(rs, 2), rs[2]);
    assert !Separated(rs, 3);
    assert Direct(rs, 2).mem[5] == 6;
    assert !Spares(Run(rs, 2), Direct(rs, 2), rs[2]);
    assert !Spared(rs, 3);
    AscendingPreservedExactly(rs);
  }

  /** Twelve bytes at 0, then back to 8 for three: the directive does end the segment and nothing
      lies in front of it, but the padding behind the second segment erases byte 11. */
  lemma BackPaddingLosesByte(rs: seq<Record>, first: seq<u8>, second: seq<u8>)
    requires |rs| == 3 && rs[0] == Data(first) && rs[1] == At(8) && rs[2] == Data(second)
    requires |first| == 12 && first[11] != 0 && |second| == 3
    ensures InOrder(rs, 3) && !Ascending(rs, 3)
    ensures 11 in ImageOf(rs).mem && ImageOf(rs).mem[11] == first[11]
    ensures !Uncovered(rs) && !Preserved(ImageOf(rs).mem, SegMem(Translated(rs)))
  {
    BackPaddingImage(rs, first, second);
    BackPaddingRun(rs, first, second);
    assert Hidden(rs, 11);
    PreservedExactly(rs);
  }

  lemma BackPaddingImage(rs: seq<Record>, first: seq<u8>, second: seq<u8>)
    requires |rs| == 3 && rs[0] == Data(first) && rs[1] == At(8) && rs[2] == Data(second)
    requires |first| == 12 && |second| == 3
    ensures !Ascending(rs, 3) && 11 in ImageOf(rs).mem && ImageOf(rs).mem[11] == first[11]
  {
    assert Direct(rs, 1) == Image(Poke(map[], 0, first), 12);
    assert Direct(rs, 2) == Image(Poke(map[], 0, first), 8);
    assert !Ascending(rs, 2);
  }

  lemma BackPaddingRun(rs: seq<Record>, first: seq<u8>, second: seq<u8>)
    requires |rs| == 3 && rs[0] == Data(first) && rs[1] == At(8) && rs[2] == Data(second)
    requires |first| == 12 && |second| == 3
    ensures InOrder(rs, 3) && BackPads(Run(rs, 3), 11)
  {
    assert Run(rs, 1).ptr == 0 && |Run(rs, 1).data| == 12;
    assert InOrder(rs, 1);
    assert Run(rs, 2).ptr == 8 && Run(rs, 2).data == [];
    assert InOrder(rs, 2);
  }

  /** A directive that goes back a little is ignored: the byte meant for address 0 lands at 1. */
  lemma BackwardDirectiveMisplaces()
    ensures var rs := [Data([5]), At(0), Data([9])];
            && !InOrder(rs, 3)
            && 0 in ImageOf(rs).mem && 0 in SegMem(Translated(rs))
            && ImageOf(rs).mem[0] == 9 && SegMem(Translated(rs))[0] == 5
  {
    var rs := [Data([5]), At(0), Data([9])];
    assert Run(rs, 1) == Pending(0, [5], Nothing);
    assert !InOrder(rs, 2);
  }

  /** Whether that shows depends on the bytes: at the same addresses two equal bytes do no harm. */
  lemma BackwardDirectiveUnnoticed()
    ensures var rs := [Data([7]), At(0), Data([7])];
            && !InOrder(rs, 3)
            && Preserved(ImageOf(rs).mem, SegMem(Translated(rs)))
  {
    var rs := [Data([7]), At(0), Data([7])];
    assert Run(rs, 1) == Pending(0, [7], Nothing);
    assert !InOrder(rs, 2);
    assert Run(rs, 3) == Pending(0, [7, 7], Nothing);
    assert Direct(rs, 1) == Image(Poke(map[], 0, [7]), 1);
    assert ImageOf(rs).mem == Poke(Poke(map[], 0, [7]), 0, [7]);
  }

  // Start-up.

  function Ebreaks(): seq<u8> {
    seq(IMEM_SIZE, k requires 0 <= k < IMEM_SIZE => ByteOf(EBREAK, k % 4))
  }

  /** The simulator's start-up: fill with ebreak, load the file, copy to SRAM. */
  method Boot(lines: seq<string>, imem: array<u8>, sram: array<u32>) returns (loaded: int)
    requires imem.Length == IMEM_SIZE && 4 * sram.Length == IMEM_SIZE
    modifies imem, sram
    ensures var l := LoadFile(lines, IMEM_SIZE);
            && loaded == (if l.error.Some? then -1 else l.max)
            && imem[..] == Overlay(Ebreaks(), l.mem)
            && forall k: nat | k < sram.Length ::
                 sram[k] == if 4 * k < loaded then WordIn(imem[..], 4 * k) else old(sram[k])
  {
    Init(imem);
    assert imem[..] == Ebreaks();
    ghost var l;
    loaded, l := ValidateAndLoad(lines, imem);
    if loaded < 0 {
      return;
    }
    CopyToSram(imem, loaded, sram);
  }

  predicate Covers(mem: Mem, k: nat) {
    4 * k in mem && 4 * k + 1 in mem && 4 * k + 2 in mem && 4 * k + 3 in mem
  }

  predicate Avoids(mem: Mem, k: nat) {
    4 * k !in mem && 4 * k + 1 !in mem && 4 * k + 2 !in mem && 4 * k + 3 !in mem
  }

  lemma WordOfMemory(mem: Mem, k: nat)
    requires 4 * k + 3 < IMEM_SIZE
    ensures var word := WordIn(Overlay(Ebreaks(), mem), 4 * k);
            && (Covers(mem, k) ==> word == Join(mem[4 * k], mem[4 * k + 1], mem[4 * k + 2], mem[4 * k + 3]))
            && (Avoids(mem, k) ==> word == 0x0010_0073)
  {
    var image := Overlay(Ebreaks(), mem);
    assert (4 * k) % 4 == 0 && (4 * k + 1) % 4 == 1 && (4 * k + 2) % 4 == 2 && (4 * k + 3) % 4 == 3;
    if Avoids(mem, k) {
      EbreakBytes();
    }
  }

  lemma EbreakBytes()
    ensures Join(ByteOf(EBREAK, 0), ByteOf(EBREAK, 1), ByteOf(EBREAK, 2), ByteOf(EBREAK, 3)) == EBREAK
  {
  }

  lemma PokeWhole(mem: Mem, base: int, bytes: seq<u8>, k: nat)
    requires base % 4 == 0 && |bytes| % 4 == 0 && (Covers(mem, k) || Avoids(mem, k))
    ensures Covers(Poke(mem, base, bytes), k) || Avoids(Poke(mem, base, bytes), k)
  {
    assert base <= 4 * k < base + |bytes| <==> base <= 4 * k + 3 < base + |bytes|;
  }

  /** Segments of whole words cover each word of memory entirely or not at all. */
  lemma {:induction false} WholeWords(out: Written, end: int, k: nat)
    requires WordSegments(out, end)
    ensures Covers(SegMem(out), k) || Avoids(SegMem(out), k)
  {
    if out.Nothing? {
    } else {
      WholeWords(out.before, out.last.base, k);
      PokeWhole(SegMem(out.before), out.last.base, out.last.bytes, k);
    }
  }

  function ByteOr(mem: Mem, a: int): u8 {
    if a in mem then mem[a] else 0
  }

  /** The whole pipeline: booting the translated text puts in each SRAM word below the highest
      address the four bytes of the byte image, zero where it defines none, or the ebreak word
      where no segment lies. */
  lemma BootedWord(rs: seq<Record>, k: nat)
    requires Ascending(rs, |rs|) && Separated(rs, |rs|) && Inside(ImageOf(rs), IMEM_SIZE)
    requires 4 * k + 3 < IMEM_SIZE
    ensures LoadFile(Text(Translated(rs)), IMEM_SIZE).mem == SegMem(Translated(rs))
    ensures WordIn(Overlay(Ebreaks(), SegMem(Translated(rs))), 4 * k) == BootWord(rs, k)
  {
    AscendingLoadable(rs, IMEM_SIZE);
    WordsLoaded(Translated(rs), IMEM_SIZE);
    Preserves(rs);
    var cur := ImageOf(rs).cur;
    WholeWords(Translated(rs), cur + Padding(cur), k);
    WordOfMemory(SegMem(Translated(rs)), k);
    forall a | 4 * k <= a <= 4 * k + 3 && a in SegMem(Translated(rs))
      ensures SegMem(Translated(rs))[a] == ByteOr(ImageOf(rs).mem, a)
    {
    }
  }

  /** What word k of SRAM is to hold. */
  function BootWord(rs: seq<Record>, k: nat): u32 {
    var image := ImageOf(rs).mem;
    if 4 * k in SegMem(Translated(rs))
    then Join(ByteOr(image, 4 * k), ByteOr(image, 4 * k + 1),
              ByteOr(image, 4 * k + 2), ByteOr(image, 4 * k + 3))
    else EBREAK
  }

  /** Translate a byte text and boot the result. */
  method BootTranslated(lines: seq<string>, imem: array<u8>, sram: array<u32>) returns (loaded: int)
    requires imem.Length == IMEM_SIZE && 4 * sram.Length == IMEM_SIZE && ByteText(lines)
    modifies imem, sram
    ensures Parses(lines, |lines|)
    ensures var rs := Records(lines);
            Ascending(rs, |rs|) && Separated(rs, |rs|) && Inside(ImageOf(rs), IMEM_SIZE) ==>
              && (loaded == -1 <==> SegMem(Translated(rs)) == map[])
              && (forall a | a in SegMem(Translated(rs)) :: a < loaded)
              && forall k: nat | k < sram.Length ::
                   sram[k] == if 4 * k < loaded then BootWord(rs, k) else old(sram[k])
  {
    forall i | 0 <= i < |lines|
      ensures ParseLine(lines[i]).Some?
    {
      ByteLineParses(lines[i]);
    }
    var ok, printed := Translate(lines);
    loaded := Boot(printed, imem, sram);
    ghost var rs := Records(lines);
    if Ascending(rs, |rs|) && Separated(rs, |rs|) && Inside(ImageOf(rs), IMEM_SIZE) {
      AscendingLoadable(rs, IMEM_SIZE);
      WordsLoaded(Translated(rs), IMEM_SIZE);
      forall k: nat | k < sram.Length && 4 * k < loaded
        ensures sram[k] == BootWord(rs, k)
      {
        BootedWord(rs, k);
      }
    }
  }
}
