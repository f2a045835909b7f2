/** What single lines of a hexadecimal file do to the loader: comments, unreadable addresses, numbers. */
module HexLines {
  import opened MachineInts
  import opened HexText
  import opened HexPrint
  import opened HexLoader
  import opened HexFormats

  // Comments.

  lemma LoadSkipped(l: Load, line: string, after: seq<string>, size: nat)
    requires line != [] && line[0] in "#/\r\n"
    ensures LoadLines(l, [line] + after, size) == LoadLines(l, after, size)
  {
    assert LoadLine(l, line, size) == l;
    assert ([line] + after)[1..] == after;
  }

  /** A line that begins with a number sign, a slash or the end of the line is as good as absent, wherever it
      is in a file. */
  lemma CommentIgnored(before: seq<string>, line: string, after: seq<string>, size: nat)
    requires line != [] && line[0] in "#/\r\n"
    ensures LoadFile(before + [line] + after, size) == LoadFile(before + after, size)
  {
    assert before + [line] + after == before + ([line] + after);
    LoadConcat(START, before, [line] + after, size);
    LoadConcat(START, before, after, size);
    LoadSkipped(LoadLines(START, before, size), line, after, size);
  }

  /** Every other line that is not an address is read for numbers. */
  lemma DataLineLoads(l: Load, line: string, size: nat)
    requires l.error.None? && (line == [] || line[0] !in "#/\r\n@")
    ensures LoadLine(l, line, size) == PutAll(l, Fields(line), size)
  {
  }

  /** The white space the loader skips by hand, and that scanf skips. */
  lemma SpacesOnly(c: char)
    ensures IsSpace(c) <==> c in " \t\r\n"
    ensures IsCSpace(c) <==> c in " \t\r\n" || c as int == 11 || c as int == 12
  {
    assert " \t\r\n"[0] == ' ' && " \t\r\n"[1] == '\t' && " \t\r\n"[2] == '\r' && " \t\r\n"[3] == '\n';
  }

  // Unreadable addresses.

  predicate Blank(line: string, p: nat, k: nat)
    requires k <= |line|
  {
    forall i | p <= i < k :: IsCSpace(line[i])
  }

  /** A digit at position k, or behind a prefix there, with nothing but white space in front. */
  predicate DigitAt(line: string, p: nat, k: nat)
    requires p <= k < |line|
  {
    && Blank(line, p, k)
    && if HasPrefix(line, k) then k + 2 < |line| && IsHex(line[k + 2]) else IsHex(line[k])
  }

  /** Some number begins at position p, behind white space. */
  predicate Readable(line: string, p: nat) {
    exists k: nat | p <= k < |line| :: DigitAt(line, p, k)
  }

  lemma {:induction false} CSpaceEndIs(s: string, p: nat)
    requires p <= |s|
    ensures Blank(s, p, CSpaceEnd(s, p))
    ensures CSpaceEnd(s, p) < |s| ==> !IsCSpace(s[CSpaceEnd(s, p)])
    decreases |s| - p
  {
    if p == |s| || !IsCSpace(s[p]) {
    } else {
      CSpaceEndIs(s, p + 1);
    }
  }

  /** A conversion fails exactly when no number begins there. */
  lemma ScansExactly(line: string, p: nat)
    requires p <= |line|
    ensures ScanHex(line, p).Some? <==> Readable(line, p)
  {
    var k := CSpaceEnd(line, p);
    CSpaceEndIs(line, p);
    if k < |line| && ScanHex(line, p).Some? {
      assert DigitAt(line, p, k);
    }
    if k': nat :| p <= k' < |line| && DigitAt(line, p, k') {
      assert !IsCSpace(line[k']);
      assert k == k';
    }
  }

  /** An address line without a number. */
  predicate Unreadable(l: Load, line: string) {
    l.error.None? && line != [] && line[0] == '@' && !Readable(line, 1)
  }

  lemma {:induction false} NumbersKeep(l: Load, fs: seq<Field>, size: nat)
    requires l.error != Some(BadDirective)
    ensures PutAll(l, fs, size).error != Some(BadDirective)
    decreases |fs|
  {
    if fs == [] {
    } else {
      NumbersKeep(Put(l, fs[0], size), fs[1..], size);
    }
  }

  lemma LineUnreadable(l: Load, line: string, size: nat)
    requires l.error != Some(BadDirective)
    ensures LoadLine(l, line, size).error == Some(BadDirective) <==> Unreadable(l, line)
  {
    if Directive(line) {
      ScansExactly(line, 1);
    }
    NumbersKeep(l, Fields(line), size);
  }

  /** The line at which the file from l on is given up. */
  predicate UnreadableAt(l: Load, lines: seq<string>, n: nat, size: nat)
    requires n < |lines|
  {
    Unreadable(LoadLines(l, lines[..n], size), lines[n])
  }

  lemma OneLineLater(l: Load, lines: seq<string>, n: nat, size: nat)
    requires 0 < n < |lines|
    ensures UnreadableAt(l, lines, n, size) <==> UnreadableAt(LoadLine(l, lines[0], size), lines[1..], n - 1, size)
  {
    assert lines[..n][0] == lines[0];
    assert lines[..n][1..] == lines[1..][..n - 1];
  }

  lemma {:induction false} LinesUnreadable(l: Load, lines: seq<string>, size: nat)
    requires l.error != Some(BadDirective)
    ensures LoadLines(l, lines, size).error == Some(BadDirective) <==>
              exists n: nat :: n < |lines| && UnreadableAt(l, lines, n, size)
    decreases |lines|
  {
    if lines == [] {
    } else {
      var next := LoadLine(l, lines[0], size);
      LineUnreadable(l, lines[0], size);
      assert UnreadableAt(l, lines, 0, size) <==> Unreadable(l, lines[0]);
      if next.error == Some(BadDirective) {
        ErrorStaysLines(next, lines[1..], size);
      } else {
        LinesUnreadable(next, lines[1..], size);
        forall n: nat | 0 < n < |lines|
          ensures UnreadableAt(l, lines, n, size) <==> UnreadableAt(next, lines[1..], n - 1, size)
        {
          OneLineLater(l, lines, n, size);
        }
        if n: nat :| n < |lines| - 1 && UnreadableAt(next, lines[1..], n, size) {
          assert UnreadableAt(l, lines, n + 1, size);
        }
      }
    }
  }

  /** A file is given up as unreadable exactly when some line that begins with an at sign, and is reached
      without error, has no number behind it. */
  lemma BadDirectiveExactly(lines: seq<string>, size: nat)
    ensures LoadFile(lines, size).error == Some(BadDirective) <==>
              exists n: nat :: n < |lines| && UnreadableAt(START, lines, n, size)
  {
    LinesUnreadable(START, lines, size);
  }

  // Numbers.

  lemma DigitsScanned(digits: string, line: string)
    requires AllHex(digits) && digits != [] && line == digits + "\n"
    ensures !Skipped(line) && !Directive(line) && !IsSpace(line[0]) && SpaceEnd(line, |digits|) == |line|
    ensures !HasPrefix(line, 0) && ScanHex(line, 0) == Some(Span(0, 0, |digits|))
    ensures Word(line, Span(0, 0, |digits|)) == digits
  {
    var n := |digits|;
    assert forall i | 0 <= i < n :: line[i] == digits[i] && IsHex(line[i]);
    assert line[n] == '\n';
    assert CSpaceEnd(line, 0) == 0;
    HexRun(line, 0, n);
    assert SpaceEnd(line, n) == n + 1;
  }

  lemma BareField(line: string, n: nat, digits: string)
    requires Digits(line, Span(0, 0, n)) && !HasPrefix(line, 0) && Word(line, Span(0, 0, n)) == digits
    requires AllHex(digits)
    ensures FieldAt(line, Span(0, 0, n)) == Field(Number(digits), WidthOf(n))
  {
  }

  /** A line of digits is one number: of one byte up to two digits, of two bytes up to four, else of four, and
      of the lowest 32 bits of its value. */
  lemma DigitsField(digits: string)
    requires AllHex(digits) && digits != []
    ensures var line := digits + "\n";
            && !Skipped(line) && !Directive(line)
            && Fields(line) == [Field(Value(digits) % 0x1_0000_0000,
                                      if |digits| <= 2 then 1 else if |digits| <= 4 then 2 else 4)]
  {
    var line, n := digits + "\n", |digits|;
    DigitsScanned(digits, line);
    OneSpan(line, Span(0, 0, n));
    BareField(line, n, digits);
  }

  lemma PrefixScanned(x: char, digits: string, line: string)
    requires (x == 'x' || x == 'X') && AllHex(digits) && digits != [] && line == ['0', x] + digits + "\n"
    ensures HasPrefix(line, 0) && !IsSpace(line[0]) && SpaceEnd(line, |digits| + 2) == |line|
    ensures ScanHex(line, 0) == Some(Span(0, 2, |digits| + 2)) && Word(line, Span(0, 2, |digits| + 2)) == digits
  {
    var n := |digits|;
    assert forall i | 2 <= i < n + 2 :: line[i] == digits[i - 2];
    assert line[0] == '0' && line[1] == x && line[n + 2] == '\n';
    assert CSpaceEnd(line, 0) == 0;
    HexRun(line, 2, n + 2);
    assert SpaceEnd(line, n + 2) == n + 3;
  }

  lemma PrefixedField(line: string, n: nat, digits: string)
    requires Digits(line, Span(0, 2, n + 2)) && HasPrefix(line, 0) && Word(line, Span(0, 2, n + 2)) == digits
    requires AllHex(digits)
    ensures FieldAt(line, Span(0, 2, n + 2)) == Field(Number(digits), WidthOf(n))
  {
  }

  /** A prefix does not matter. */
  lemma PrefixField(x: char, digits: string)
    requires (x == 'x' || x == 'X') && AllHex(digits) && digits != []
    ensures Fields(['0', x] + digits + "\n") == Fields(digits + "\n")
  {
    var line, n := ['0', x] + digits + "\n", |digits|;
    PrefixScanned(x, digits, line);
    OneSpan(line, Span(0, 2, n + 2));
    PrefixedField(line, n, digits);
    DigitsField(digits);
  }

  /** A character that belongs to no number. */
  predicate Junk(c: char) {
    !IsHex(c) && !IsCSpace(c) && c !in "xX" && c !in "+-"
  }

  lemma NumberHere(s: string, p: nat, q: nat)
    requires p < q < |s| && !IsHex(s[q]) && s[q] !in "xX" && forall i | p <= i < q :: IsHex(s[i])
    ensures SpaceEnd(s, p) == p && ScanHex(s, p) == Some(Span(p, p, q))
  {
    assert s[q] != 'x' && s[q] != 'X' by {
      assert "xX"[0] == 'x' && "xX"[1] == 'X';
    }
    assert p + 1 < q ==> IsHex(s[p + 1]);
    assert CSpaceEnd(s, p) == p && !HasPrefix(s, p);
    HexRun(s, p, q);
  }

  lemma JunkHere(s: string, q: nat)
    requires q < |s| && Junk(s[q])
    ensures SpaceEnd(s, q) == q && ScanHex(s, q) == None
  {
    assert CSpaceEnd(s, q) == q && !HasPrefix(s, q) && HexEnd(s, q) == q;
  }

  lemma SpaceSkipped(s: string, q: nat)
    requires q < |s| && IsSpace(s[q])
    ensures Spans(s, q) == Spans(s, q + 1)
  {
    assert SpaceEnd(s, q) == SpaceEnd(s, q + 1);
  }

  lemma JunkSkipped(s: string, q: nat)
    requires q < |s| && Junk(s[q])
    ensures Spans(s, q) == Spans(s, q + 1)
  {
    JunkHere(s, q);
  }

  /** It separates numbers as white space does. */
  lemma JunkSeparates(s: string, p: nat, q: nat)
    requires p < q < |s| && (Junk(s[q]) || IsSpace(s[q])) && forall i | p <= i < q :: IsHex(s[i])
    ensures Spans(s, p) == [Span(p, p, q)] + Spans(s, q + 1)
  {
    NumberHere(s, p, q);
    if IsSpace(s[q]) {
      SpaceSkipped(s, q);
    } else {
      JunkSkipped(s, q);
    }
  }

  /** Where the bytes of a number go: lowest first, from the current address on. */
  lemma NumberStored(l: Load, f: Field, size: nat)
    requires l.error.None? && f.width <= 4 && l.addr + f.width <= size < TWO32
    ensures var l' := Put(l, f, size);
            && l'.error.None? && l'.addr == l.addr + f.width
            && (f.width > 0 ==> l.addr in l'.mem && l'.mem[l.addr] == f.value % 0x100)
            && (f.width > 1 ==> l.addr + 1 in l'.mem && l'.mem[l.addr + 1] == f.value / 0x100 % 0x100)
            && (f.width > 2 ==> l.addr + 2 in l'.mem && l'.mem[l.addr + 2] == f.value / 0x1_0000 % 0x100)
            && (f.width > 3 ==> l.addr + 3 in l'.mem && l'.mem[l.addr + 3] == f.value / 0x100_0000 % 0x100)
            && (forall a | a in l'.mem && !(l.addr <= a < l.addr + f.width) :: a in l.mem && l'.mem[a] == l.mem[a])
            && (forall a | a in l.mem :: a in l'.mem)
  {
    assert Pow256(1) == 0x100;
    assert Pow256(2) == 0x1_0000;
    assert Pow256(3) == 0x100_0000;
    var bytes := LittleEndian(f.value, f.width);
    assert forall j | 0 <= j < f.width :: bytes[j] == ByteOf(f.value, j);
  }

  /** A line with one number, in memory. */
  lemma NumberLineLoads(l: Load, digits: string, size: nat)
    requires l.error.None? && AllHex(digits) && digits != []
    ensures LoadLine(l, digits + "\n", size) ==
              Put(l, Field(Value(digits) % 0x1_0000_0000,
                           if |digits| <= 2 then 1 else if |digits| <= 4 then 2 else 4), size)
  {
    DigitsField(digits);
    var f := Fields(digits + "\n")[0];
    assert [f][1..] == [];
    assert PutAll(l, [f], size) == Put(l, f, size);
  }
}
