/** When the loader's 32-bit bounds check lets a number past the end of memory. */
module HexBounds {
  import opened MachineInts
  import opened HexText
  import opened HexPrint
  import opened HexLoader
  import opened HexTranslator
  import opened HexFormats

  /** The first address from which a number can reach the end of the 32-bit range. */
  const TOP_ADDRESS: nat := TWO32 - 4

  /** Sizes for which one number cannot both fit and wrap; that of the simulator is one. */
  predicate Ordinary(size: nat) {
    4 <= size <= TWO32 - 8
  }

  predicate Widths(fs: seq<Field>) {
    forall i | 0 <= i < |fs| :: 1 <= fs[i].width <= 4
  }

  lemma {:induction false} FieldWidths(s: string, spans: seq<Span>)
    requires Within(s, spans)
    ensures Widths(FieldList(s, spans))
  {
    if spans == [] {
    } else {
      FieldWidths(s, spans[1..]);
    }
  }

  lemma LineWidths(line: string)
    ensures Widths(Fields(line))
  {
    FieldWidths(line, Spans(line, 0));
  }

  /** From an address inside memory no number slips past the check. */
  lemma {:induction false} NoneWraps(l: Load, fs: seq<Field>, size: nat)
    requires Ordinary(size) && Widths(fs) && l.error != Some(Wrapped) && (l.error.None? ==> l.addr <= size)
    ensures PutAll(l, fs, size).error != Some(Wrapped)
    ensures PutAll(l, fs, size).error.None? ==> PutAll(l, fs, size).addr <= size
    decreases |fs|
  {
    if fs == [] {
    } else {
      NoneWraps(Put(l, fs[0], size), fs[1..], size);
    }
  }

  /** A data line slips past the check exactly when its first number reaches the end of the 32-bit
      range; the numbers after it never do. */
  lemma WrapsExactly(l: Load, fs: seq<Field>, size: nat)
    requires Ordinary(size) && Widths(fs) && l.error.None?
    ensures PutAll(l, fs, size).error == Some(Wrapped) <==> fs != [] && l.addr + fs[0].width >= TWO32
    ensures fs != [] && PutAll(l, fs, size).error.None? ==> PutAll(l, fs, size).addr <= size
  {
    if fs != [] {
      var next := Put(l, fs[0], size);
      if l.addr + fs[0].width >= TWO32 {
        ErrorStays(next, fs[1..], size);
      } else {
        NoneWraps(next, fs[1..], size);
      }
    }
  }

  /** The bytes the numbers of a line take. */
  function TotalWidth(fs: seq<Field>): nat {
    if fs == [] then 0 else fs[0].width + TotalWidth(fs[1..])
  }

  /** Any other data line is refused exactly when its numbers do not all fit. */
  lemma {:induction false} BeyondExactly(l: Load, fs: seq<Field>, size: nat)
    requires Ordinary(size) && Widths(fs) && l.error.None? && fs != [] && l.addr + fs[0].width < TWO32
    ensures PutAll(l, fs, size).error == Some(BeyondBuffer) <==> l.addr + TotalWidth(fs) > size
    ensures PutAll(l, fs, size).error.None? <==> l.addr + TotalWidth(fs) <= size
    decreases |fs|
  {
    var next, rest := Put(l, fs[0], size), fs[1..];
    if next.error.Some? {
      ErrorStays(next, rest, size);
    } else if rest == [] {
    } else {
      BeyondExactly(next, rest, size);
    }
  }

  /** A data line whose first number reaches the end of the 32-bit range. */
  predicate Overruns(l: Load, line: string) {
    && l.error.None? && !Skipped(line) && !Directive(line)
    && Fields(line) != [] && l.addr + Fields(line)[0].width >= TWO32
  }

  lemma LineWraps(l: Load, line: string, size: nat)
    requires Ordinary(size) && l.error != Some(Wrapped)
    ensures LoadLine(l, line, size).error == Some(Wrapped) <==> Overruns(l, line)
  {
    LineWidths(line);
    if l.error.None? {
      WrapsExactly(l, Fields(line), size);
    }
  }

  /** The line that slips past the check in the file from l on. */
  predicate OverrunsAt(l: Load, lines: seq<string>, n: nat, size: nat)
    requires n < |lines|
  {
    Overruns(LoadLines(l, lines[..n], size), lines[n])
  }

  lemma OneLineLater(l: Load, lines: seq<string>, n: nat, size: nat)
    requires 0 < n < |lines|
    ensures OverrunsAt(l, lines, n, size) <==> OverrunsAt(LoadLine(l, lines[0], size), lines[1..], n - 1, size)
  {
    assert lines[..n][0] == lines[0];
    assert lines[..n][1..] == lines[1..][..n - 1];
  }

  /** A whole file slips past the check exactly at such a line. */
  lemma {:induction false} FileWraps(l: Load, lines: seq<string>, size: nat)
    requires Ordinary(size) && l.error != Some(Wrapped)
    ensures LoadLines(l, lines, size).error == Some(Wrapped) <==>
              exists n: nat :: n < |lines| && OverrunsAt(l, lines, n, size)
    decreases |lines|
  {
    if lines == [] {
    } else {
      var next := LoadLine(l, lines[0], size);
      LineWraps(l, lines[0], size);
      assert OverrunsAt(l, lines, 0, size) <==> Overruns(l, lines[0]);
      if next.error == Some(Wrapped) {
        ErrorStaysLines(next, lines[1..], size);
      } else {
        FileWraps(next, lines[1..], size);
        forall n: nat | 0 < n < |lines|
          ensures OverrunsAt(l, lines, n, size) <==> OverrunsAt(next, lines[1..], n - 1, size)
        {
          OneLineLater(l, lines, n, size);
        }
        if n: nat :| n < |lines| - 1 && OverrunsAt(next, lines[1..], n, size) {
          assert OverrunsAt(l, lines, n + 1, size);
        }
      }
    }
  }

  /** Every address a directive names lies below the last four. */
  predicate LowDirective(line: string) {
    Directive(line) && ScanHex(line, 1).Some? ==>
      var sp := ScanHex(line, 1).value; Number(line[sp.start..sp.end]) < TOP_ADDRESS
  }

  lemma LowLine(l: Load, line: string, size: nat)
    requires Ordinary(size) && LowDirective(line) && l.error != Some(Wrapped)
    requires l.error.None? ==> l.addr < TOP_ADDRESS
    ensures var next := LoadLine(l, line, size);
            next.error != Some(Wrapped) && (next.error.None? ==> next.addr < TOP_ADDRESS)
  {
    LineWidths(line);
    if l.error.None? {
      WrapsExactly(l, Fields(line), size);
    }
  }

  lemma {:induction false} LowLines(l: Load, lines: seq<string>, size: nat)
    requires Ordinary(size) && (forall i | 0 <= i < |lines| :: LowDirective(lines[i])) && l.error != Some(Wrapped)
    requires l.error.None? ==> l.addr < TOP_ADDRESS
    ensures LoadLines(l, lines, size).error != Some(Wrapped)
    decreases |lines|
  {
    if lines == [] {
    } else {
      LowLine(l, lines[0], size);
      LowLines(LoadLine(l, lines[0], size), lines[1..], size);
    }
  }

  /** A file whose directives stay below the last four addresses stores nothing outside memory. */
  lemma LowFileStaysInside(lines: seq<string>, size: nat)
    requires Ordinary(size) && forall i | 0 <= i < |lines| :: LowDirective(lines[i])
    ensures LoadFile(lines, size).error != Some(Wrapped)
  {
    LowLines(START, lines, size);
  }

  /** No smaller bound would do: of the files with one directive and one word exactly those that
      name one of the last four addresses store outside memory. */
  lemma TopAddressWraps(addr: u32, b0: u8, b1: u8, b2: u8, b3: u8, size: nat)
    requires Ordinary(size)
    ensures LoadFile([DirectiveLine(addr), WordLine(b0, b1, b2, b3)], size).error == Some(Wrapped)
            <==> addr >= TOP_ADDRESS
  {
    var lines := [DirectiveLine(addr), WordLine(b0, b1, b2, b3)];
    var l := START.(addr := addr);
    LoadDirectiveLine(START, addr, size);
    WordLineFields(b0, b1, b2, b3);
    LineWraps(l, lines[1], size);
    TwoLines(START, lines[0], lines[1], size);
  }

  /** A shorter number at the very last address. */
  lemma LastAddressWraps()
    ensures LoadFile(["@ffffffff\n", "1234\n"], IMEM_SIZE).error == Some(Wrapped)
  {
    LastAddress();
    ShortNumber();
    LineWraps(START.(addr := TWO32 - 1), "1234\n", IMEM_SIZE);
    TwoLines(START, "@ffffffff\n", "1234\n", IMEM_SIZE);
  }

  lemma TwoLines(l: Load, first: string, second: string, size: nat)
    ensures LoadLines(l, [first, second], size) == LoadLine(LoadLine(l, first, size), second, size)
  {
    LoadOne(LoadLine(l, first, size), second, size);
    assert [first, second][1..] == [second];
  }

  lemma LastAddress()
    ensures LoadLine(START, "@ffffffff\n", IMEM_SIZE) == START.(addr := TWO32 - 1)
  {
    PrintedNumber("@", "ffffffff");
    assert "@" + "ffffffff" + "\n" == "@ffffffff\n";
    AllOnes("ffffffff");
    Pow16Constants();
  }

  lemma {:induction false} AllOnes(s: string)
    requires forall i | 0 <= i < |s| :: s[i] == 'f'
    ensures AllHex(s) && Value(s) == Pow16(|s|) - 1
  {
    if s == [] {
    } else {
      AllOnes(s[..|s| - 1]);
    }
  }

  lemma ShortNumber()
    ensures Fields("1234\n") != [] && Fields("1234\n")[0].width == 2
  {
    var line := "1234\n";
    assert line == "" + "1234" + "\n";
    PrintedNumber("", "1234");
    assert line[0] == '1' && SpaceEnd(line, 4) == 5;
    OneSpan(line, Span(0, 0, 4));
  }
}
