/** Printing numbers in hexadecimal, and reading them back. */
module HexPrint {
  import opened MachineInts
  import opened HexText

  function DigitChar(v: nat): (c: char)
    requires v < 16
    ensures IsHex(c) && HexVal(c) == v
  {
    if v < 10 then '0' + v as char else 'a' + (v - 10) as char
  }

  /** The digits objcopy prints. */
  function UpperChar(v: nat): (c: char)
    requires v < 16
    ensures IsHex(c) && HexVal(c) == v
  {
    if v < 10 then '0' + v as char else 'A' + (v - 10) as char
  }

  /** The sixteen digits in either case: their values, and that they are what is printed. */
  lemma DigitValues(v: nat)
    requires v < 16
    ensures var lower, upper := "0123456789abcdef"[v], "0123456789ABCDEF"[v];
            && IsHex(lower) && HexVal(lower) == v && DigitChar(v) == lower
            && IsHex(upper) && HexVal(upper) == v && UpperChar(v) == upper
  {
  }

  /** There are no others. */
  lemma DigitsOnly(c: char)
    ensures IsHex(c) <==> c in "0123456789abcdefABCDEF"
  {
    if '0' <= c <= '9' {
      assert c == "0123456789abcdefABCDEF"[(c - '0') as int];
    } else if 'a' <= c <= 'f' {
      assert c == "0123456789abcdefABCDEF"[(c - 'a') as int + 10];
    } else if 'A' <= c <= 'F' {
      assert c == "0123456789abcdefABCDEF"[(c - 'A') as int + 16];
    }
  }

  /** The conversion %0wx: lower case, padded with zeros to at least w digits. */
  function PadHex(n: nat, w: nat): (s: string)
    ensures AllHex(s) && |s| >= w
    decreases n + w, w
  {
    if w == 0 && n == 0 then []
    else PadHex(n / 16, if w == 0 then 0 else w - 1) + [DigitChar(n % 16)]
  }

  /** Reading back what was printed gives the number. */
  lemma {:induction false} PrintedValue(n: nat, w: nat)
    ensures Value(PadHex(n, w)) == n
    decreases n + w, w
  {
    if w == 0 && n == 0 {
    } else {
      var w' := if w == 0 then 0 else w - 1;
      PrintedValue(n / 16, w');
      var s := PadHex(n, w);
      assert s[..|s| - 1] == PadHex(n / 16, w');
    }
  }

  /** A number that fits is printed with exactly w digits. */
  lemma {:induction false} PrintedWidth(n: nat, w: nat)
    requires n < Pow16(w)
    ensures |PadHex(n, w)| == w
  {
    if w == 0 {
    } else {
      PrintedWidth(n / 16, w - 1);
    }
  }

  // Upper case.

  /** A number in upper case, padded with zeros to at least w digits. */
  function PadUpper(n: nat, w: nat): (s: string)
    ensures AllHex(s) && |s| >= w
    decreases n + w, w
  {
    if w == 0 && n == 0 then []
    else PadUpper(n / 16, if w == 0 then 0 else w - 1) + [UpperChar(n % 16)]
  }

  /** Upper-case text is read back too, at every width. */
  lemma {:induction false} UpperValue(n: nat, w: nat)
    ensures Value(PadUpper(n, w)) == n
    decreases n + w, w
  {
    if w == 0 && n == 0 {
    } else {
      var w' := if w == 0 then 0 else w - 1;
      UpperValue(n / 16, w');
      var s := PadUpper(n, w);
      assert s[..|s| - 1] == PadUpper(n / 16, w');
    }
  }

  /** A number that fits has exactly w digits, all in upper case. */
  lemma {:induction false} UpperWidth(n: nat, w: nat)
    requires n < Pow16(w)
    ensures |PadUpper(n, w)| == w
    ensures forall i | 0 <= i < w :: PadUpper(n, w)[i] in "0123456789ABCDEF"
  {
    if w == 0 {
    } else {
      UpperWidth(n / 16, w - 1);
      DigitValues(n % 16);
      assert "0123456789ABCDEF"[n % 16] in "0123456789ABCDEF";
    }
  }

  lemma Pow16Constants()
    ensures Pow16(2) == 0x100 && Pow16(4) == 0x1_0000 && Pow16(8) == TWO32
  {
  }
}
