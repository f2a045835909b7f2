/** The loader on the two formats: byte images as given, word images as the translator prints
    them. */
module HexFormats {
  import opened MachineInts
  import opened HexText
  import opened HexPrint
  import opened HexLoader
  import opened HexTranslate
  import opened HexTranslator

  // Byte images.

  predicate Narrow(spans: seq<Span>, digits: nat) {
    forall j | 0 <= j < |spans| :: spans[j].end - spans[j].start <= digits
  }

  /** A directive with one address, or bytes of one or two digits, and nothing else. */
  predicate ByteLine(line: string) {
    if Directive(line) then
      Plain(line, 1) && |WordSpans(line, 1)| == 1 && Narrow(WordSpans(line, 1), 8)
    else
      Plain(line, 0) && Narrow(WordSpans(line, 0), 2) && (Skipped(line) ==> WordSpans(line, 0) == [])
  }

  predicate ByteText(lines: seq<string>) {
    forall i | 0 <= i < |lines| :: ByteLine(lines[i])
  }

  lemma NarrowValue(s: string, sp: Span, digits: nat)
    requires Digits(s, sp) && sp.end - sp.start <= digits <= 8
    ensures Value(Word(s, sp)) < Pow16(digits)
  {
    ValueBound(Word(s, sp));
    Pow16Grows(|Word(s, sp)|, digits);
  }

  lemma {:induction false} Pow16Grows(m: nat, n: nat)
    requires m <= n
    ensures Pow16(m) <= Pow16(n)
  {
    if m == n {
    } else {
      Pow16Grows(m, n - 1);
    }
  }

  lemma ByteLineParses(line: string)
    requires ByteLine(line)
    ensures ParseLine(line).Some?
    ensures ParseLine(line).value.At? == Directive(line)
    ensures Directive(line) ==> ParseLine(line).value.addr < TWO32
  {
    Pow16Constants();
    if Directive(line) {
      PlainSpans(line, 1);
      NarrowValue(line, WordSpans(line, 1)[0], 8);
    } else {
      PlainSpans(line, 0);
      var spans := WordSpans(line, 0);
      forall j | 0 <= j < |spans|
        ensures ByteWord(line, spans[j])
      {
        NarrowValue(line, spans[j], 2);
      }
    }
  }

  /** Words of digits only leave room for nothing but white space between them. */
  lemma {:induction false} WordsCover(line: string, p: nat)
    requires p <= |line| && forall j | 0 <= j < |WordSpans(line, p)| :: Digits(line, WordSpans(line, p)[j])
    ensures Plain(line, p)
    decreases |line| - p
  {
    var q := SpaceEnd(line, p);
    if q == |line| {
    } else {
      var e, spans := WordEnd(line, q), WordSpans(line, p);
      assert spans[0] == Span(q, q, e);
      assert forall j | 0 <= j < |WordSpans(line, e)| :: WordSpans(line, e)[j] == spans[j + 1];
      WordsCover(line, e);
    }
  }

  /** Conversely a line that can be read has nothing but digits and white space on it. */
  lemma ParsedPlain(line: string)
    requires ParseLine(line).Some?
    ensures Plain(line, if line != [] && line[0] == '@' then 1 else 0)
    ensures line != [] && line[0] == '@' ==> |WordSpans(line, 1)| == 1
  {
    WordsCover(line, if Directive(line) then 1 else 0);
  }

  /** Bytes stored one by one from the current address. */
  function PutBytes(l: Load, bytes: seq<u8>, size: nat): Load
    decreases |bytes|
  {
    if bytes == [] then l else PutBytes(Put(l, Field(bytes[0], 1), size), bytes[1..], size)
  }

  lemma {:induction false} ByteFields(l: Load, line: string, spans: seq<Span>, size: nat)
    requires Within(line, spans) && ByteWords(line, spans) && Narrow(spans, 2)
    requires forall j | 0 <= j < |spans| :: spans[j].word == spans[j].start && !HasPrefix(line, spans[j].word)
    ensures PutAll(l, FieldList(line, spans), size) == PutBytes(l, BytesOf(line, spans), size)
    decreases |spans|
  {
    if spans == [] {
    } else {
      assert FieldAt(line, spans[0]) == Field(Value(Word(line, spans[0])), 1);
      ByteFields(Put(l, FieldAt(line, spans[0]), size), line, spans[1..], size);
      assert FieldList(line, spans)[1..] == FieldList(line, spans[1..]);
      assert BytesOf(line, spans)[1..] == BytesOf(line, spans[1..]);
    }
  }

  function LoadRecord(l: Load, r: Record, size: nat): Load
    requires r.At? ==> r.addr < TWO32
  {
    match r
    case At(addr) => l.(addr := addr)
    case Data(bytes) => PutBytes(l, bytes, size)
  }

  /** On a byte line the loader does what the parsed record says. */
  lemma LoadByteLine(l: Load, line: string, size: nat)
    requires l.error.None? && ByteLine(line)
    ensures ParseLine(line).Some? && (ParseLine(line).value.At? ==> ParseLine(line).value.addr < TWO32)
    ensures LoadLine(l, line, size) == LoadRecord(l, ParseLine(line).value, size)
  {
    ByteLineParses(line);
    if Directive(line) {
      FirstWord(line, 1);
    } else {
      PlainSpans(line, 0);
      ByteFields(l, line, WordSpans(line, 0), size);
    }
  }

  /** The loader after a byte that fits. */
  function StoreByte(l: Load, b: u8): Load
    requires l.addr + 1 < TWO32
  {
    Load(l.mem[l.addr := b], l.addr + 1, if l.addr + 1 > l.max then l.addr + 1 else l.max, None)
  }

  /** The loader after bytes that fit. */
  function Stored(l: Load, bytes: seq<u8>): (r: Load)
    requires l.addr + |bytes| < TWO32
    ensures r.addr == l.addr + |bytes| && (l.error.None? ==> r.error.None?)
    decreases |bytes|
  {
    if |bytes| == 0 then l else StoreByte(Stored(l, bytes[..|bytes| - 1]), bytes[|bytes| - 1])
  }

  lemma {:induction false} PutBytesIsStored(l: Load, bytes: seq<u8>, size: nat)
    requires l.error.None? && l.addr + |bytes| <= size < TWO32
    ensures PutBytes(l, bytes, size) == Stored(l, bytes)
    decreases |bytes|
  {
    if bytes == [] {
    } else {
      var l', rest := Put(l, Field(bytes[0], 1), size), bytes[1..];
      PutOne(l, bytes[0], size);
      PutBytesIsStored(l', rest, size);
      StoredTwice(l, [bytes[0]], rest);
      assert bytes == [bytes[0]] + rest;
    }
  }

  lemma {:induction false} StoredTwice(l: Load, first: seq<u8>, second: seq<u8>)
    requires l.addr + |first| + |second| < TWO32
    ensures Stored(Stored(l, first), second) == Stored(l, first + second)
    decreases |second|
  {
    if |second| == 0 {
      assert first + second == first;
    } else {
      var n := |second| - 1;
      StoredTwice(l, first, second[..n]);
      var both := first + second;
      assert both[..|both| - 1] == first + second[..n] && both[|both| - 1] == second[n];
    }
  }

  lemma PokeLast(mem: Mem, addr: int, bytes: seq<u8>, before: seq<u8>)
    requires |bytes| > 0 && before == bytes[..|bytes| - 1]
    ensures Poke(mem, addr, bytes) == Poke(mem, addr, before)[addr + |before| := bytes[|bytes| - 1]]
  {
  }

  /** What that leaves: the bytes in memory, and the highest address. */
  lemma {:induction false} StoredPokes(l: Load, bytes: seq<u8>)
    requires l.addr + |bytes| < TWO32
    ensures Stored(l, bytes).mem == Poke(l.mem, l.addr, bytes)
    ensures Stored(l, bytes).max == if |bytes| > 0 && l.addr + |bytes| > l.max then l.addr + |bytes| else l.max
    decreases |bytes|
  {
    if |bytes| == 0 {
      assert Poke(l.mem, l.addr, bytes) == l.mem;
    } else {
      StoredPokes(l, bytes[..|bytes| - 1]);
      PokeLast(l.mem, l.addr, bytes, bytes[..|bytes| - 1]);
    }
  }

  lemma PutOne(l: Load, b: u8, size: nat)
    requires l.error.None? && l.addr + 1 <= size < TWO32
    ensures Put(l, Field(b, 1), size) == Stored(l, [b])
  {
    OneByte(b);
    var mem := l.mem[l.addr := b];
    PokeOne(l.mem, l.addr, b, LittleEndian(b, 1), mem);
    PutByte(l, b, mem, size);
    StoredOne(l, b, mem);
  }

  lemma PutByte(l: Load, b: u8, mem: Mem, size: nat)
    requires l.error.None? && l.addr + 1 <= size < TWO32 && mem == Poke(l.mem, l.addr, LittleEndian(b, 1))
    ensures Put(l, Field(b, 1), size) == Load(mem, l.addr + 1, if l.addr + 1 > l.max then l.addr + 1 else l.max, None)
  {
  }

  lemma PokeOne(mem: Mem, addr: int, b: u8, bytes: seq<u8>, mem': Mem)
    requires bytes == [b] && mem' == mem[addr := b]
    ensures mem' == Poke(mem, addr, bytes)
  {
  }

  lemma StoredOne(l: Load, b: u8, mem: Mem)
    requires l.addr + 1 < TWO32 && mem == l.mem[l.addr := b]
    ensures Stored(l, [b]) == Load(mem, l.addr + 1, if l.addr + 1 > l.max then l.addr + 1 else l.max, None)
  {
    assert [b][..0] == [];
  }

  lemma OneByte(b: u8)
    ensures LittleEndian(b, 1) == [b]
  {
  }

  /** The loader after n records of an image that fits. */
  function Top(rs: seq<Record>, n: nat): nat
    requires n <= |rs|
  {
    if n == 0 then 0
    else if rs[n - 1].Data? && rs[n - 1].bytes != [] && Direct(rs, n).cur > Top(rs, n - 1) then Direct(rs, n).cur
    else Top(rs, n - 1)
  }

  predicate Fits(rs: seq<Record>, n: nat, size: nat)
    requires n <= |rs|
  {
    n == 0 || (Fits(rs, n - 1, size) && Direct(rs, n).cur <= size)
  }

  lemma {:induction false} TopFits(rs: seq<Record>, n: nat, size: nat)
    requires n <= |rs| && Fits(rs, n, size)
    ensures Top(rs, n) <= size && Direct(rs, n).cur <= size
    ensures forall a | a in Direct(rs, n).mem :: 0 <= a < Top(rs, n)
    ensures Direct(rs, n).mem == map[] <==> Top(rs, n) == 0
  {
    if n == 0 {
    } else {
      TopFits(rs, n - 1, size);
      if rs[n - 1].Data? && rs[n - 1].bytes != [] {
        assert Direct(rs, n - 1).cur in Direct(rs, n).mem;
      }
    }
  }

  function LoadedImage(rs: seq<Record>, n: nat, size: nat): Load
    requires n <= |rs| && Fits(rs, n, size) && size < TWO32
  {
    TopFits(rs, n, size);
    Load(Direct(rs, n).mem, Direct(rs, n).cur, Top(rs, n), None)
  }

  lemma LoadOneRecord(rs: seq<Record>, n: nat, size: nat)
    requires 0 < n <= |rs| && Fits(rs, n, size) && size < TWO32
    ensures rs[n - 1].At? ==> rs[n - 1].addr < TWO32
    ensures LoadRecord(LoadedImage(rs, n - 1, size), rs[n - 1], size) == LoadedImage(rs, n, size)
  {
    var l := LoadedImage(rs, n - 1, size);
    if rs[n - 1].Data? {
      PutBytesIsStored(l, rs[n - 1].bytes, size);
      StoredPokes(l, rs[n - 1].bytes);
      if rs[n - 1].bytes == [] {
        assert Direct(rs, n).mem == Direct(rs, n - 1).mem;
      }
    }
  }

  lemma LoadOneLine(l: Load, line: string, rs: seq<Record>, n: nat, size: nat)
    requires ByteLine(line) && n < |rs| && ParseLine(line) == Some(rs[n])
    requires Fits(rs, n + 1, size) && size < TWO32 && l == LoadedImage(rs, n, size)
    ensures LoadLine(l, line, size) == LoadedImage(rs, n + 1, size)
  {
    LoadByteLine(l, line, size);
    LoadOneRecord(rs, n + 1, size);
  }

  /** A run of the loader given by its states. */
  lemma {:induction false} LoadByStates(ls: seq<Load>, lines: seq<string>, n: nat, size: nat)
    requires |ls| == |lines| + 1 && n <= |lines|
    requires forall k | 0 <= k < |lines| :: LoadLine(ls[k], lines[k], size) == ls[k + 1]
    ensures LoadLines(ls[n], lines[n..], size) == ls[|lines|]
    decreases |lines| - n
  {
    if n == |lines| {
    } else {
      LoadByStates(ls, lines, n + 1, size);
      NextLine(ls[n], lines, n, size);
    }
  }

  lemma LoadAllByStates(ls: seq<Load>, lines: seq<string>, size: nat)
    requires |ls| == |lines| + 1
    requires forall k | 0 <= k < |lines| :: LoadLine(ls[k], lines[k], size) == ls[k + 1]
    ensures LoadLines(ls[0], lines, size) == ls[|lines|]
  {
    LoadByStates(ls, lines, 0, size);
    assert lines[0..] == lines;
  }

  lemma NextLine(l: Load, lines: seq<string>, n: nat, size: nat)
    requires n < |lines|
    ensures LoadLines(l, lines[n..], size) == LoadLines(LoadLine(l, lines[n], size), lines[n + 1..], size)
  {
  }

  lemma {:induction false} FitsPrefix(rs: seq<Record>, m: nat, n: nat, size: nat)
    requires m <= n <= |rs| && Fits(rs, n, size)
    ensures Fits(rs, m, size)
  {
    if m == n {
    } else {
      FitsPrefix(rs, m, n - 1, size);
    }
  }

  /** The loader reads a byte image as the memory its records describe. */
  lemma LoadsBytes(lines: seq<string>, size: nat)
    requires ByteText(lines) && size < TWO32
    ensures Parses(lines, |lines|)
    ensures var rs := Records(lines);
            Fits(rs, |rs|, size) ==> LoadLines(START, lines, size) == LoadedImage(rs, |rs|, size)
  {
    forall i | 0 <= i < |lines|
      ensures ParseLine(lines[i]).Some?
    {
      ByteLineParses(lines[i]);
    }
    var rs := Records(lines);
    if Fits(rs, |rs|, size) {
      LoadByteLines(lines, rs, size);
    }
  }

  lemma LoadByteLines(lines: seq<string>, rs: seq<Record>, size: nat)
    requires ByteText(lines) && Parses(lines, |lines|) && rs == Records(lines)
    requires Fits(rs, |rs|, size) && size < TWO32
    ensures LoadLines(START, lines, size) == LoadedImage(rs, |rs|, size)
  {
    forall n: nat | n <= |rs|
      ensures Fits(rs, n, size)
    {
      FitsPrefix(rs, n, |rs|, size);
    }
    var ls := seq(|rs| + 1, n requires 0 <= n <= |rs| => LoadedImage(rs, n, size));
    forall k | 0 <= k < |lines|
      ensures LoadLine(ls[k], lines[k], size) == ls[k + 1]
    {
      LoadOneLine(ls[k], lines[k], rs, k, size);
    }
    LoadAllByStates(ls, lines, size);
  }

  // Word images.

  lemma {:induction false} HexRun(s: string, p: nat, e: nat)
    requires p <= e < |s| && !IsHex(s[e])
    requires forall i | p <= i < e :: IsHex(s[i])
    ensures HexEnd(s, p) == e
    decreases e - p
  {
  }

  /** Hexadecimal digits between position p and the end of the line are read as one number. */
  lemma PrintedNumber(prefix: string, digits: string)
    requires AllHex(digits) && digits != []
    ensures var line := prefix + digits + "\n";
            && !HasPrefix(line, |prefix|)
            && ScanHex(line, |prefix|) == Some(Span(|prefix|, |prefix|, |prefix| + |digits|))
            && line[|prefix|..|prefix| + |digits|] == digits
  {
    var line := prefix + digits + "\n";
    var p := |prefix|;
    assert forall i | p <= i < p + |digits| :: line[i] == digits[i - p];
    assert line[p] == digits[0];
    assert line[p + |digits|] == '\n';
    assert |digits| > 1 ==> line[p + 1] == digits[1];
    HexRun(line, p, p + |digits|);
  }

  lemma LoadDirectiveLine(l: Load, addr: u32, size: nat)
    requires l.error.None?
    ensures LoadLine(l, DirectiveLine(addr), size) == l.(addr := addr)
  {
    PrintedValue(addr, 8);
    DirectiveRead(l, PadHex(addr, 8), addr, size);
  }

  lemma DirectiveRead(l: Load, digits: string, addr: u32, size: nat)
    requires l.error.None? && AllHex(digits) && digits != [] && Value(digits) == addr
    ensures LoadLine(l, "@" + digits + "\n", size) == l.(addr := addr)
  {
    PrintedNumber("@", digits);
  }

  lemma WordDigitsValue(b0: u8, b1: u8, b2: u8, b3: u8)
    ensures |WordDigits(b0, b1, b2, b3)| == 8
    ensures Value(WordDigits(b0, b1, b2, b3)) == Join(b0, b1, b2, b3)
  {
    Pow16Constants();
    PrintedWidth(b0, 2);
    PrintedWidth(b1, 2);
    PrintedWidth(b2, 2);
    PrintedWidth(b3, 2);
    PrintedValue(b0, 2);
    PrintedValue(b1, 2);
    PrintedValue(b2, 2);
    PrintedValue(b3, 2);
    var s3, s2, s1, s0 := PadHex(b3, 2), PadHex(b2, 2), PadHex(b1, 2), PadHex(b0, 2);
    ValueConcat(s3, s2);
    ValueConcat(s3 + s2, s1);
    ValueConcat(s3 + s2 + s1, s0);
  }

  lemma JoinBytes(b0: u8, b1: u8, b2: u8, b3: u8)
    ensures 0 <= Join(b0, b1, b2, b3) < TWO32
    ensures LittleEndian(Join(b0, b1, b2, b3), 4) == [b0, b1, b2, b3]
  {
    var w := Join(b0, b1, b2, b3);
    assert Pow256(1) == 0x100;
    assert Pow256(2) == 0x1_0000;
    assert Pow256(3) == 0x100_0000;
    assert w / 0x100 == b1 + 0x100 * b2 + 0x1_0000 * b3;
    assert w / 0x1_0000 == b2 + 0x100 * b3;
    assert w / 0x100_0000 == b3;
    assert ByteOf(w, 0) == b0;
    assert ByteOf(w, 1) == b1;
    assert ByteOf(w, 2) == b2;
    assert ByteOf(w, 3) == b3;
  }

  /** A line of eight digits is read as one number of four bytes. */
  lemma EightDigits(digits: string)
    requires AllHex(digits) && |digits| == 8
    ensures var line := digits + "\n";
            !Skipped(line) && !Directive(line) && Fields(line) == [Field(Number(digits), 4)]
  {
    var line := digits + "\n";
    assert line == [] + digits + "\n";
    PrintedNumber([], digits);
    assert line[0] == digits[0] && line[8] == '\n';
    assert SpaceEnd(line, 8) == 9;
    OneSpan(line, Span(0, 0, 8));
    assert FieldAt(line, Span(0, 0, 8)) == Field(Number(digits), 4);
  }

  lemma OneSpan(line: string, sp: Span)
    requires line != [] && !IsSpace(line[0]) && ScanHex(line, 0) == Some(sp) && SpaceEnd(line, sp.end) == |line|
    ensures Fields(line) == [FieldAt(line, sp)]
  {
    assert Spans(line, sp.end) == [];
    assert Spans(line, 0) == [sp];
    assert FieldList(line, [sp]) == [FieldAt(line, sp)];
  }

  lemma SmallNumber(digits: string, v: int)
    requires AllHex(digits) && Value(digits) == v < TWO32
    ensures Number(digits) == v
  {
  }

  lemma WordLineFields(b0: u8, b1: u8, b2: u8, b3: u8)
    ensures var line := WordLine(b0, b1, b2, b3);
            !Skipped(line) && !Directive(line) && Fields(line) == [Field(Join(b0, b1, b2, b3), 4)]
  {
    var digits := WordDigits(b0, b1, b2, b3);
    WordDigitsValue(b0, b1, b2, b3);
    JoinBytes(b0, b1, b2, b3);
    EightDigits(digits);
    SmallNumber(digits, Join(b0, b1, b2, b3));
  }

  lemma LoadWordLine(l: Load, b0: u8, b1: u8, b2: u8, b3: u8, size: nat)
    requires l.error.None? && l.addr + 4 <= size < TWO32
    ensures LoadLine(l, WordLine(b0, b1, b2, b3), size) == Stored(l, [b0, b1, b2, b3])
  {
    WordLineFields(b0, b1, b2, b3);
    JoinBytes(b0, b1, b2, b3);
    PutWord(l, Join(b0, b1, b2, b3), [b0, b1, b2, b3], size);
  }

  lemma PutWord(l: Load, value: u32, bytes: seq<u8>, size: nat)
    requires l.error.None? && l.addr + 4 <= size < TWO32 && |bytes| == 4 && LittleEndian(value, 4) == bytes
    ensures PutAll(l, [Field(value, 4)], size) == Stored(l, bytes)
  {
    StoredPokes(l, bytes);
  }

  lemma {:induction false} LoadConcat(l: Load, first: seq<string>, second: seq<string>, size: nat)
    ensures LoadLines(l, first + second, size) == LoadLines(LoadLines(l, first, size), second, size)
    decreases |first|
  {
    if first == [] {
      assert first + second == second;
    } else {
      LoadConcat(LoadLine(l, first[0], size), first[1..], second, size);
      assert (first + second)[1..] == first[1..] + second;
    }
  }

  lemma LoadOne(l: Load, line: string, size: nat)
    ensures LoadLines(l, [line], size) == LoadLine(l, line, size)
  {
  }

  function WordBytes(bytes: seq<u8>, k: nat): seq<u8>
    requires 4 * k + 4 <= |bytes|
  {
    [bytes[4 * k], bytes[4 * k + 1], bytes[4 * k + 2], bytes[4 * k + 3]]
  }

  lemma LoadWordAt(l: Load, bytes: seq<u8>, k: nat, size: nat)
    requires l.error.None? && 4 * k + 4 <= |bytes| && l.addr + 4 <= size < TWO32
    ensures LoadLine(l, WordLineAt(bytes, k), size) == Stored(l, WordBytes(bytes, k))
  {
    LoadWordLine(l, bytes[4 * k], bytes[4 * k + 1], bytes[4 * k + 2], bytes[4 * k + 3], size);
  }

  /** The loader after k words. */
  function AfterWords(l: Load, bytes: seq<u8>, k: nat): (r: Load)
    requires l.error.None? && 4 * k <= |bytes| && l.addr + 4 * k < TWO32
    ensures r.error.None? && r.addr == l.addr + 4 * k
  {
    if k == 0 then l else Stored(AfterWords(l, bytes, k - 1), WordBytes(bytes, k - 1))
  }

  lemma WordsSplit(bytes: seq<u8>, k: nat)
    requires 4 * k + 4 <= |bytes|
    ensures bytes[..4 * (k + 1)] == bytes[..4 * k] + WordBytes(bytes, k)
  {
  }

  lemma StoredSplit(l: Load, l': Load, first: seq<u8>, second: seq<u8>, both: seq<u8>)
    requires both == first + second && l.addr + |both| < TWO32 && l' == Stored(l, first)
    ensures Stored(l', second) == Stored(l, both)
  {
    StoredTwice(l, first, second);
  }

  lemma {:induction false} AfterWordsIs(l: Load, bytes: seq<u8>, k: nat)
    requires l.error.None? && 4 * k <= |bytes| && l.addr + 4 * k < TWO32
    ensures AfterWords(l, bytes, k) == Stored(l, bytes[..4 * k])
  {
    if k == 0 {
    } else {
      AfterWordsIs(l, bytes, k - 1);
      WordsSplit(bytes, k - 1);
      StoredSplit(l, AfterWords(l, bytes, k - 1), bytes[..4 * (k - 1)], WordBytes(bytes, k - 1), bytes[..4 * k]);
    }
  }

  lemma LoadOneMore(l: Load, bytes: seq<u8>, k: nat, size: nat)
    requires l.error.None? && 4 * k + 4 <= |bytes| && l.addr + 4 * k + 4 <= size < TWO32
    ensures LoadLine(AfterWords(l, bytes, k), WordLineAt(bytes, k), size) == AfterWords(l, bytes, k + 1)
  {
    LoadWordAt(AfterWords(l, bytes, k), bytes, k, size);
  }

  /** Line k takes the loader from k words to k + 1. */
  predicate LoadsWord(l: Load, bytes: seq<u8>, lines: seq<string>, k: nat, size: nat)
    requires l.error.None? && 4 * k + 4 <= |bytes| && l.addr + 4 * k + 4 <= size < TWO32 && k < |lines|
  {
    LoadLine(AfterWords(l, bytes, k), lines[k], size) == AfterWords(l, bytes, k + 1)
  }

  lemma WordLineLoads(l: Load, bytes: seq<u8>, lines: seq<string>, k: nat, size: nat)
    requires l.error.None? && 4 * k + 4 <= |bytes| && l.addr + 4 * k + 4 <= size < TWO32
    requires k < |lines| && lines[k] == WordLineAt(bytes, k)
    ensures LoadsWord(l, bytes, lines, k, size)
  {
    LoadOneMore(l, bytes, k, size);
  }

  lemma LoadWordStates(l: Load, bytes: seq<u8>, lines: seq<string>, size: nat)
    requires l.error.None? && 4 * |lines| <= |bytes| && l.addr + 4 * |lines| <= size < TWO32
    requires forall k: nat | k < |lines| :: LoadsWord(l, bytes, lines, k, size)
    ensures LoadLines(l, lines, size) == AfterWords(l, bytes, |lines|)
  {
    var ls := seq(|lines| + 1, k requires 0 <= k <= |lines| => AfterWords(l, bytes, k));
    forall k | 0 <= k < |lines|
      ensures LoadLine(ls[k], lines[k], size) == ls[k + 1]
    {
      assert LoadsWord(l, bytes, lines, k, size);
    }
    LoadAllByStates(ls, lines, size);
  }

  lemma LoadWordLines(l: Load, bytes: seq<u8>, n: nat, lines: seq<string>, size: nat)
    requires l.error.None? && 4 * n <= |bytes| && l.addr + 4 * n <= size < TWO32 && lines == WordLines(bytes, n)
    ensures LoadLines(l, lines, size) == Stored(l, bytes[..4 * n])
  {
    forall k: nat | k < |lines|
      ensures LoadsWord(l, bytes, lines, k, size)
    {
      WordLineLoads(l, bytes, lines, k, size);
    }
    LoadWordStates(l, bytes, lines, size);
    AfterWordsIs(l, bytes, n);
  }

  /** Segments of whole words inside the memory. */
  predicate Storable(out: Written, size: nat) {
    out.Nothing? ||
    (0 <= out.last.base && |out.last.bytes| % 4 == 0 && out.last.base + |out.last.bytes| <= size
     && Storable(out.before, size))
  }

  lemma LoadSegment(l: Load, s: Segment, size: nat)
    requires l.error.None? && 0 <= s.base && |s.bytes| % 4 == 0 && s.base + |s.bytes| <= size < TWO32
    ensures LoadLines(l, SegmentText(s), size) == Stored(l.(addr := s.base), s.bytes)
  {
    var n := |s.bytes| / 4;
    var l' := l.(addr := s.base);
    LoadConcat(l, [DirectiveLine(s.base)], WordLines(s.bytes, n), size);
    LoadOne(l, DirectiveLine(s.base), size);
    LoadDirectiveLine(l, s.base, size);
    LoadWordLines(l', s.bytes, n, WordLines(s.bytes, n), size);
    assert s.bytes[..4 * n] == s.bytes;
  }

  /** The loader after the printed segments. */
  function LoadedSegments(out: Written, size: nat): (l: Load)
    requires Storable(out, size) && size < TWO32
    ensures l.error.None?
  {
    if out.Nothing? then START
    else Stored(LoadedSegments(out.before, size).(addr := out.last.base), out.last.bytes)
  }

  /** The highest address lies past every byte stored, and is zero exactly when nothing is. */
  predicate TopOk(l: Load, size: nat) {
    (forall a | a in l.mem :: 0 <= a < l.max) && l.max <= size && (l.max == 0 <==> l.mem == map[])
  }

  lemma StoredTop(l: Load, base: nat, bytes: seq<u8>, size: nat)
    requires TopOk(l, size) && base + |bytes| <= size < TWO32
    ensures var next := Stored(l.(addr := base), bytes); TopOk(next, size) && next.mem == Poke(l.mem, base, bytes)
  {
    StoredPokes(l.(addr := base), bytes);
    if |bytes| == 0 {
      assert Poke(l.mem, base, bytes) == l.mem;
    } else {
      assert base in Poke(l.mem, base, bytes);
    }
  }

  lemma {:induction false} LoadedTop(out: Written, size: nat)
    requires Storable(out, size) && size < TWO32
    ensures var l := LoadedSegments(out, size);
            l.mem == SegMem(out) && TopOk(l, size)
  {
    if out.Nothing? {
    } else {
      LoadedTop(out.before, size);
      StoredTop(LoadedSegments(out.before, size), out.last.base, out.last.bytes, size);
    }
  }

  /** The loader reads the translator's output as the memory its segments describe. */
  lemma {:induction false} LoadsWords(out: Written, size: nat)
    requires Storable(out, size) && size < TWO32
    ensures LoadLines(START, Text(out), size) == LoadedSegments(out, size)
  {
    if out.Nothing? {
    } else {
      LoadsWords(out.before, size);
      LoadConcat(START, Text(out.before), SegmentText(out.last), size);
      LoadSegment(LoadedSegments(out.before, size), out.last, size);
    }
  }
}
