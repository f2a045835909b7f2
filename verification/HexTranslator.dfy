/** The translator as it runs: lines in, lines out, a base address and a list of bytes kept between lines. */
module HexTranslator {
  import opened MachineInts
  import opened HexText
  import opened HexPrint
  import opened HexLoader
  import opened HexTranslate

  // Reading.

  predicate ByteWord(line: string, sp: Span) {
    Digits(line, sp) && Value(Word(line, sp)) < TWO8
  }

  predicate ByteWords(line: string, spans: seq<Span>) {
    forall j | 0 <= j < |spans| :: ByteWord(line, spans[j])
  }

  function BytesOf(line: string, spans: seq<Span>): seq<u8>
    requires ByteWords(line, spans)
  {
    if spans == [] then [] else [Value(Word(line, spans[0]))] + BytesOf(line, spans[1..])
  }

  /** A directive holds one number, any other line a list of bytes; the rest is an error. */
  function ParseLine(line: string): Option<Record> {
    if Directive(line) then
      var spans := WordSpans(line, 1);
      if |spans| == 1 && Digits(line, spans[0]) then Some(At(Value(Word(line, spans[0])))) else None
    else
      var spans := WordSpans(line, 0);
      if ByteWords(line, spans) then Some(Data(BytesOf(line, spans))) else None
  }

  predicate Parses(lines: seq<string>, n: nat)
    requires n <= |lines|
  {
    forall i | 0 <= i < n :: ParseLine(lines[i]).Some?
  }

  function Records(lines: seq<string>): seq<Record>
    requires Parses(lines, |lines|)
  {
    seq(|lines|, i requires 0 <= i < |lines| => ParseLine(lines[i]).value)
  }

  // Writing.

  function DirectiveLine(addr: nat): string {
    "@" + PadHex(addr, 8) + "\n"
  }

  function WordDigits(b0: u8, b1: u8, b2: u8, b3: u8): (s: string)
    ensures AllHex(s)
  {
    PadHex(b3, 2) + PadHex(b2, 2) + PadHex(b1, 2) + PadHex(b0, 2)
  }

  function WordLine(b0: u8, b1: u8, b2: u8, b3: u8): string {
    WordDigits(b0, b1, b2, b3) + "\n"
  }

  /** The line of word k. */
  function WordLineAt(bytes: seq<u8>, k: nat): string
    requires 4 * k + 4 <= |bytes|
  {
    WordLine(bytes[4 * k], bytes[4 * k + 1], bytes[4 * k + 2], bytes[4 * k + 3])
  }

  /** The first n words of bytes, one a line. */
  function WordLines(bytes: seq<u8>, n: nat): (lines: seq<string>)
    requires 4 * n <= |bytes|
    ensures |lines| == n
  {
    seq(n, k requires 0 <= k < n => WordLineAt(bytes, k))
  }

  lemma NextWord(bytes: seq<u8>, n: nat, line: string)
    requires 4 * n + 4 <= |bytes|
    requires line == WordLineAt(bytes, n)
    ensures WordLines(bytes, n + 1) == WordLines(bytes, n) + [line]
  {
  }

  lemma Concat(a: seq<string>, b: seq<string>, c: seq<string>)
    ensures a + b + c == a + (b + c)
  {
  }

  function SegmentText(s: Segment): seq<string> {
    [DirectiveLine(if s.base >= 0 then s.base else 0)] + WordLines(s.bytes, |s.bytes| / 4)
  }

  function Text(out: Written): seq<string> {
    if out.Nothing? then [] else Text(out.before) + SegmentText(out.last)
  }

  // The run over lines.

  function RunLines(lines: seq<string>, n: nat): Pending
    requires n <= |lines| && Parses(lines, n)
  {
    if n == 0 then EMPTY else Step(RunLines(lines, n - 1), ParseLine(lines[n - 1]).value)
  }

  lemma {:induction false} RunLinesIsRun(lines: seq<string>, n: nat)
    requires n <= |lines| && Parses(lines, |lines|)
    ensures RunLines(lines, n) == Run(Records(lines), n)
  {
    if n == 0 {
    } else {
      RunLinesIsRun(lines, n - 1);
      assert Records(lines)[n - 1] == ParseLine(lines[n - 1]).value;
    }
  }

  class Translator {
    var ptr: int
    var data: seq<u8>
    var printed: seq<string>
    ghost var written: Written

    ghost predicate Valid()
      reads this
    {
      ptr >= 0 && printed == Text(written)
    }

    ghost function State(): Pending
      reads this
    {
      Pending(ptr, data, written)
    }

    constructor ()
      ensures Valid() && State() == EMPTY
    {
      ptr, data, printed, written := 0, [], [], Nothing;
    }

    /** write_data: print the pending segment, padded to whole words. */
    method WriteData()
      requires Valid()
      modifies this
      ensures Valid() && ptr == old(ptr) && written == Flush(old(State()))
    {
      if |data| != 0 {
        ghost var bytes, before := data, printed;
        printed := printed + [DirectiveLine(ptr)];
        PadData();
        PrintWords();
        PaddingWhole(|bytes|);
        assert data == bytes + Zeros(Padding(|bytes|));
        Concat(before, [DirectiveLine(ptr)], WordLines(data, |data| / 4));
        written := Flush(old(State()));
      }
    }

    method PrintWords()
      modifies this`printed
      ensures printed == old(printed) + WordLines(data, |data| / 4)
    {
      var i := 0;
      while 4 * i + 4 <= |data|
        invariant 0 <= 4 * i <= |data|
        invariant printed == old(printed) + WordLines(data, i)
      {
        PrintWord(i, old(printed));
        i := i + 1;
      }
    }

    method PrintWord(i: nat, ghost before: seq<string>)
      requires 4 * i + 4 <= |data| && printed == before + WordLines(data, i)
      modifies this`printed
      ensures printed == before + WordLines(data, i + 1)
    {
      var line := WordLineAt(data, i);
      Concat(before, WordLines(data, i), [line]);
      NextWord(data, i, line);
      printed := printed + [line];
    }

    /** Append zeros up to a whole number of words. */
    method PadData()
      modifies this`data
      ensures data == old(data) + Zeros(Padding(|old(data)|))
    {
      ghost var n := |data|;
      while |data| % 4 != 0
        invariant n <= |data| <= n + Padding(n)
        invariant data == old(data) + Zeros(|data| - n)
        decreases n + Padding(n) - |data|
      {
        data := data + [0];
      }
    }

    /** Pad in front, down to a word boundary. */
    method AlignFront(addr: nat)
      modifies this`ptr, this`data
      ensures ptr == addr - addr % 4 && data == Zeros(addr % 4)
    {
      ptr := addr;
      data := [];
      while ptr % 4 != 0
        invariant addr - addr % 4 <= ptr <= addr && data == Zeros(addr - ptr)
      {
        data := data + [0];
        ptr := ptr - 1;
      }
    }

    /** Pad behind, up to the address. */
    method FillTo(addr: nat)
      modifies this`data
      ensures data == old(data) + Zeros(addr - ptr - |old(data)|)
    {
      ghost var n := |data|;
      while ptr + |data| < addr
        invariant n <= |data| && (|data| == n || ptr + |data| <= addr)
        invariant data == old(data) + Zeros(|data| - n)
      {
        data := data + [0];
      }
    }

    /** One input line. */
    method Line(line: string) returns (ok: bool)
      requires Valid()
      modifies this
      ensures ok == ParseLine(line).Some?
      ensures ok ==> Valid() && State() == Step(old(State()), ParseLine(line).value)
    {
      var r := ParseLine(line);
      if r.None? {
        return false;
      }
      if r.value.Data? {
        data := data + r.value.bytes;
      } else if r.value.addr > ptr + 4 {
        WriteData();
        AlignFront(r.value.addr);
      } else {
        FillTo(r.value.addr);
      }
      return true;
    }
  }

  lemma NextLine(lines: seq<string>, n: nat)
    requires n < |lines| && Parses(lines, n) && ParseLine(lines[n]).Some?
    ensures Parses(lines, n + 1)
    ensures RunLines(lines, n + 1) == Step(RunLines(lines, n), ParseLine(lines[n]).value)
  {
  }

  /** The whole program; it stops at the first line it cannot read. */
  method Translate(lines: seq<string>) returns (ok: bool, printed: seq<string>)
    ensures ok == Parses(lines, |lines|)
    ensures ok ==> printed == Text(Translated(Records(lines)))
  {
    var t := new Translator();
    var i := 0;
    while i < |lines|
      invariant 0 <= i <= |lines| && t.Valid() && fresh(t)
      invariant Parses(lines, i) && t.State() == RunLines(lines, i)
    {
      var read := t.Line(lines[i]);
      if !read {
        return false, [];
      }
      NextLine(lines, i);
      i := i + 1;
    }
    RunLinesIsRun(lines, |lines|);
    t.WriteData();
    return true, t.printed;
  }
}
