/** A text for every byte image, in the form objcopy prints. */
module HexImages {
  import opened MachineInts
  import opened HexText
  import opened HexPrint
  import opened HexLoader
  import opened HexTranslate
  import opened HexTranslator
  import opened HexFormats

  /** A data line of objcopy: two upper-case digits for each byte, spaces between them, and a carriage
      return and a line feed behind the last. */
  function DataLine(bytes: seq<u8>): (line: string)
    ensures |line| == 3 * |bytes| + 1
  {
    seq(3 * |bytes| + 1, i requires 0 <= i < 3 * |bytes| + 1 =>
      if i == 3 * |bytes| then '\n'
      else if i % 3 == 0 then UpperChar(bytes[i / 3] / 16)
      else if i % 3 == 1 then UpperChar(bytes[i / 3] % 16)
      else if i == 3 * |bytes| - 1 then '\r'
      else ' ')
  }

  /** Byte m on the line. */
  predicate Cell(line: string, bytes: seq<u8>, m: nat)
    requires m < |bytes| && |line| == 3 * |bytes| + 1
  {
    && line[3 * m] == UpperChar(bytes[m] / 16) && line[3 * m + 1] == UpperChar(bytes[m] % 16)
    && line[3 * m + 2] == if m == |bytes| - 1 then '\r' else ' '
  }

  ghost predicate Holds(line: string, bytes: seq<u8>) {
    && |line| == 3 * |bytes| + 1 && line[3 * |bytes|] == '\n'
    && forall m: nat | m < |bytes| :: Cell(line, bytes, m)
  }

  lemma DataLineHolds(bytes: seq<u8>)
    ensures Holds(DataLine(bytes), bytes)
  {
    forall m: nat | m < |bytes|
      ensures Cell(DataLine(bytes), bytes, m)
    {
      CellOf(bytes, m);
    }
  }

  lemma CellOf(bytes: seq<u8>, m: nat)
    requires m < |bytes|
    ensures Cell(DataLine(bytes), bytes, m)
  {
    assert (3 * m) / 3 == (3 * m + 1) / 3 == m;
    assert (3 * m) % 3 == 0 && (3 * m + 1) % 3 == 1 && (3 * m + 2) % 3 == 2;
  }

  lemma HoldsPlain(line: string, bytes: seq<u8>)
    requires Holds(line, bytes)
    ensures Plain(line, 0)
  {
    forall i | 0 <= i < |line|
      ensures IsHex(line[i]) || IsSpace(line[i])
    {
      if i < 3 * |bytes| {
        assert Cell(line, bytes, i / 3);
        assert i == 3 * (i / 3) || i == 3 * (i / 3) + 1 || i == 3 * (i / 3) + 2;
      }
    }
  }

  /** Where the bytes from the m-th on are on the line. */
  function Cells(bytes: seq<u8>, m: nat): (spans: seq<Span>)
    requires m <= |bytes|
    ensures |spans| == |bytes| - m
    ensures forall j | 0 <= j < |spans| :: spans[j] == Span(3 * (m + j), 3 * (m + j), 3 * (m + j) + 2)
    decreases |bytes| - m
  {
    if m == |bytes| then [] else [Span(3 * m, 3 * m, 3 * m + 2)] + Cells(bytes, m + 1)
  }

  lemma NotSpace(c: char)
    requires IsHex(c)
    ensures !IsSpace(c)
  {
  }

  /** A word of two digits at position p, and a space behind it. */
  lemma TwoDigits(line: string, p: nat)
    requires p + 3 <= |line| && IsHex(line[p]) && IsHex(line[p + 1]) && IsSpace(line[p + 2])
    ensures WordSpans(line, p) == [Span(p, p, p + 2)] + WordSpans(line, p + 3)
  {
    NotSpace(line[p]);
    NotSpace(line[p + 1]);
    assert WordEnd(line, p + 2) == p + 2;
    assert WordEnd(line, p + 1) == p + 2;
    assert SpaceEnd(line, p) == p && WordEnd(line, p) == p + 2;
    assert SpaceEnd(line, p + 2) == SpaceEnd(line, p + 3);
  }

  lemma NextCell(line: string, bytes: seq<u8>, m: nat)
    requires Holds(line, bytes) && m < |bytes|
    ensures WordSpans(line, 3 * m) == [Span(3 * m, 3 * m, 3 * m + 2)] + WordSpans(line, 3 * (m + 1))
  {
    assert Cell(line, bytes, m);
    TwoDigits(line, 3 * m);
  }

  lemma {:induction false} CellSpans(line: string, bytes: seq<u8>, m: nat)
    requires Holds(line, bytes) && m <= |bytes|
    ensures WordSpans(line, 3 * m) == Cells(bytes, m)
    decreases |bytes| - m
  {
    if m == |bytes| {
      LastSpace(line, 3 * m);
    } else {
      CellSpans(line, bytes, m + 1);
      NextCell(line, bytes, m);
    }
  }

  lemma LastSpace(line: string, p: nat)
    requires p + 1 == |line| && IsSpace(line[p])
    ensures WordSpans(line, p) == []
  {
    assert SpaceEnd(line, p) == SpaceEnd(line, p + 1);
  }

  lemma CellValue(line: string, bytes: seq<u8>, m: nat)
    requires Holds(line, bytes) && m < |bytes|
    ensures var sp := Span(3 * m, 3 * m, 3 * m + 2); ByteWord(line, sp) && Value(Word(line, sp)) == bytes[m]
  {
    assert Cell(line, bytes, m);
    var w := line[3 * m..3 * m + 2];
    assert w == [UpperChar(bytes[m] / 16), UpperChar(bytes[m] % 16)];
    TwoDigitValue(w, bytes[m]);
  }

  lemma TwoDigitValue(w: string, b: u8)
    requires w == [UpperChar(b / 16), UpperChar(b % 16)]
    ensures AllHex(w) && Value(w) == b
  {
    assert w[..1] == [UpperChar(b / 16)];
    assert Value(w[..1]) == b / 16;
  }

  lemma {:induction false} CellBytes(line: string, bytes: seq<u8>, m: nat)
    requires Holds(line, bytes) && m <= |bytes|
    ensures ByteWords(line, Cells(bytes, m))
    ensures BytesOf(line, Cells(bytes, m)) == bytes[m..]
    decreases |bytes| - m
  {
    if m == |bytes| {
    } else {
      CellBytes(line, bytes, m + 1);
      CellValue(line, bytes, m);
      var spans := Cells(bytes, m);
      assert spans[1..] == Cells(bytes, m + 1);
      assert forall j | 0 < j < |spans| :: spans[j] == Cells(bytes, m + 1)[j - 1];
      assert bytes[m..] == [bytes[m]] + bytes[m + 1..];
    }
  }

  /** A printed data line is a line of the byte format and is read back as its bytes. */
  lemma DataLineParses(bytes: seq<u8>)
    ensures ByteLine(DataLine(bytes)) && ParseLine(DataLine(bytes)) == Some(Data(bytes))
  {
    DataLineHolds(bytes);
    HoldsParses(DataLine(bytes), bytes);
  }

  lemma HoldsParses(line: string, bytes: seq<u8>)
    requires Holds(line, bytes)
    ensures ByteLine(line) && ParseLine(line) == Some(Data(bytes))
  {
    HoldsPlain(line, bytes);
    CellSpans(line, bytes, 0);
    CellBytes(line, bytes, 0);
    assert bytes[0..] == bytes;
    if bytes != [] {
      assert Cell(line, bytes, 0);
    }
  }

  /** An address line of objcopy: eight upper-case digits. */
  function AddressLine(addr: nat): string {
    "@" + PadUpper(addr, 8) + "\r\n"
  }

  /** It is read back as its address. */
  lemma AddressLineParses(addr: u32)
    ensures ByteLine(AddressLine(addr)) && ParseLine(AddressLine(addr)) == Some(At(addr))
  {
    Pow16Constants();
    UpperWidth(addr, 8);
    UpperValue(addr, 8);
    AddressDigits(PadUpper(addr, 8), addr);
  }

  lemma AddressDigits(digits: string, addr: u32)
    requires AllHex(digits) && |digits| == 8 && Value(digits) == addr
    ensures var line := "@" + digits + "\r\n"; ByteLine(line) && ParseLine(line) == Some(At(addr))
  {
    var line := "@" + digits + "\r\n";
    assert line[1..9] == digits && |line| == 11 && line[9] == '\r' && line[10] == '\n';
    assert forall i | 1 <= i < 9 :: line[i] == digits[i - 1];
    NotSpace(line[1]);
    WordIsNumber(line, 1);
    HexRun(line, 1, 9);
    assert SpaceEnd(line, 1) == 1;
    assert SpaceEnd(line, 10) == 11;
    assert SpaceEnd(line, 9) == 11;
    assert WordSpans(line, 9) == [];
    assert WordSpans(line, 1) == [Span(1, 1, 9)];
  }

  predicate Addressable(rs: seq<Record>) {
    forall n | 0 <= n < |rs| && rs[n].At? :: rs[n].addr < TWO32
  }

  function RecordLine(r: Record): string {
    if r.At? then AddressLine(r.addr) else DataLine(r.bytes)
  }

  function ImageText(rs: seq<Record>): seq<string> {
    seq(|rs|, n requires 0 <= n < |rs| => RecordLine(rs[n]))
  }

  /** Every byte image has a text in the byte format that is read back as it. */
  lemma ImageTextParses(rs: seq<Record>)
    requires Addressable(rs)
    ensures ByteText(ImageText(rs)) && Parses(ImageText(rs), |ImageText(rs)|)
    ensures Records(ImageText(rs)) == rs
  {
    forall n | 0 <= n < |rs|
      ensures ByteLine(RecordLine(rs[n])) && ParseLine(RecordLine(rs[n])) == Some(rs[n])
    {
      if rs[n].At? {
        AddressLineParses(rs[n].addr);
      } else {
        DataLineParses(rs[n].bytes);
      }
    }
  }
}
