/** Hexadecimal text: characters, tokens, and the scanner of the loader. */
module HexText {
  import opened MachineInts

  predicate IsHex(c: char) {
    '0' <= c <= '9' || 'a' <= c <= 'f' || 'A' <= c <= 'F'
  }

  function HexVal(c: char): (v: nat)
    requires IsHex(c)
    ensures v < 16
  {
    if c <= '9' then (c - '0') as int
    else if c <= 'F' then (c - 'A') as int + 10
    else (c - 'a') as int + 10
  }

  /** The white space the loader skips by hand. */
  predicate IsSpace(c: char) {
    c == ' ' || c == '\t' || c == '\r' || c == '\n'
  }

  /** The white space scanf skips. */
  predicate IsCSpace(c: char) {
    IsSpace(c) || c == '\U{0B}' || c == '\U{0C}'
  }

  predicate AllHex(s: string) {
    forall i | 0 <= i < |s| :: IsHex(s[i])
  }

  function Value(s: string): nat
    requires AllHex(s)
  {
    if s == [] then 0 else 16 * Value(s[..|s| - 1]) + HexVal(s[|s| - 1])
  }

  function Pow16(n: nat): (p: nat)
    ensures p > 0
  {
    if n == 0 then 1 else 16 * Pow16(n - 1)
  }

  lemma {:induction false} ValueBound(s: string)
    requires AllHex(s)
    ensures Value(s) < Pow16(|s|)
  {
    if s == [] {
    } else {
      ValueBound(s[..|s| - 1]);
    }
  }

  lemma {:induction false} ValueConcat(s: string, t: string)
    requires AllHex(s) && AllHex(t)
    ensures AllHex(s + t) && Value(s + t) == Value(s) * Pow16(|t|) + Value(t)
  {
    if t == [] {
      assert s + t == s;
    } else {
      var t' := t[..|t| - 1];
      ValueConcat(s, t');
      assert (s + t)[..|s + t| - 1] == s + t';
      assert Value(s) * Pow16(|t|) == 16 * (Value(s) * Pow16(|t'|)) by {
        Scaled(Value(s), Pow16(|t'|));
      }
    }
  }

  lemma Scaled(a: int, b: int)
    ensures a * (16 * b) == 16 * (a * b)
  {
  }

  // Runs of characters.

  function SpaceEnd(s: string, p: nat): (e: nat)
    requires p <= |s|
    ensures p <= e <= |s| && (e < |s| ==> !IsSpace(s[e]))
    ensures forall i | p <= i < e :: IsSpace(s[i])
    decreases |s| - p
  {
    if p < |s| && IsSpace(s[p]) then SpaceEnd(s, p + 1) else p
  }

  function CSpaceEnd(s: string, p: nat): (e: nat)
    requires p <= |s|
    ensures p <= e <= |s|
    decreases |s| - p
  {
    if p < |s| && IsCSpace(s[p]) then CSpaceEnd(s, p + 1) else p
  }

  function WordEnd(s: string, p: nat): (e: nat)
    requires p <= |s|
    ensures p <= e <= |s| && (e < |s| ==> IsSpace(s[e]))
    ensures forall i | p <= i < e :: !IsSpace(s[i])
    decreases |s| - p
  {
    if p < |s| && !IsSpace(s[p]) then WordEnd(s, p + 1) else p
  }

  function HexEnd(s: string, p: nat): (e: nat)
    requires p <= |s|
    ensures p <= e <= |s| && (e < |s| ==> !IsHex(s[e]))
    ensures forall i | p <= i < e :: IsHex(s[i])
    decreases |s| - p
  {
    if p < |s| && IsHex(s[p]) then HexEnd(s, p + 1) else p
  }

  predicate HasPrefix(s: string, p: nat) {
    p + 1 < |s| && s[p] == '0' && (s[p + 1] == 'x' || s[p + 1] == 'X')
  }

  /** A number found on a line: where its conversion began and where its digits are. */
  datatype Span = Span(word: nat, start: nat, end: nat)

  /** A %x conversion at position p. */
  function ScanHex(s: string, p: nat): (r: Option<Span>)
    requires p <= |s|
    ensures r.Some? ==> r.value.word == p && p <= r.value.start < r.value.end <= |s|
    ensures r.Some? ==> forall i | r.value.start <= i < r.value.end :: IsHex(s[i])
  {
    var k := CSpaceEnd(s, p);
    var start := if HasPrefix(s, k) then k + 2 else k;
    var end := HexEnd(s, start);
    if end == start then None else Some(Span(p, start, end))
  }

  /** The numbers on a line from position p on; a character that starts no number is skipped. */
  function Spans(s: string, p: nat): (r: seq<Span>)
    requires p <= |s|
    ensures Within(s, r)
    decreases |s| - p
  {
    var q := SpaceEnd(s, p);
    if q == |s| then []
    else
      var r := ScanHex(s, q);
      if r.Some? then [r.value] + Spans(s, r.value.end) else Spans(s, q + 1)
  }

  predicate Digits(s: string, sp: Span) {
    && sp.word <= sp.start < sp.end <= |s|
    && forall i | sp.start <= i < sp.end :: IsHex(s[i])
  }

  predicate Within(s: string, spans: seq<Span>) {
    forall j | 0 <= j < |spans| :: Digits(s, spans[j])
  }

  /** The words of a line from position p on, separated by white space. */
  function WordSpans(s: string, p: nat): (r: seq<Span>)
    requires p <= |s|
    ensures forall j | 0 <= j < |r| :: r[j].word == r[j].start < r[j].end <= |s|
    decreases |s| - p
  {
    var q := SpaceEnd(s, p);
    if q == |s| then [] else [Span(q, q, WordEnd(s, q))] + WordSpans(s, WordEnd(s, q))
  }

  /** Nothing but hexadecimal digits and white space from position p on. */
  predicate Plain(s: string, p: nat) {
    forall i | p <= i < |s| :: IsHex(s[i]) || IsSpace(s[i])
  }

  lemma {:induction false} WordIsNumber(s: string, q: nat)
    requires Plain(s, q) && q <= |s|
    ensures WordEnd(s, q) == HexEnd(s, q)
    decreases |s| - q
  {
  }

  /** On a plain line the scanner finds exactly the words, each as one number. */
  lemma {:induction false} PlainSpans(s: string, p: nat)
    requires p <= |s| && Plain(s, p)
    ensures Spans(s, p) == WordSpans(s, p)
    ensures forall j | 0 <= j < |Spans(s, p)| :: !HasPrefix(s, Spans(s, p)[j].word)
    decreases |s| - p
  {
    var q := SpaceEnd(s, p);
    if q == |s| {
    } else {
      WordIsNumber(s, q);
      NumberScanned(s, q, q);
      PlainSpans(s, WordEnd(s, q));
    }
  }

  lemma NumberScanned(s: string, p: nat, q: nat)
    requires p <= q < |s| && Plain(s, p) && !IsSpace(s[q]) && CSpaceEnd(s, p) == q
    ensures !HasPrefix(s, q) && ScanHex(s, p) == Some(Span(p, q, HexEnd(s, q)))
  {
  }

  /** Reading one number from position p, past white space, reads the first word. */
  lemma FirstWord(s: string, p: nat)
    requires p <= |s| && Plain(s, p) && WordSpans(s, p) != []
    ensures var w := WordSpans(s, p)[0];
            ScanHex(s, p) == Some(Span(p, w.start, w.end))
  {
    var q := SpaceEnd(s, p);
    SpaceEndsAgree(s, p);
    WordIsNumber(s, q);
    NumberScanned(s, p, q);
  }

  lemma {:induction false} SpaceEndsAgree(s: string, p: nat)
    requires p <= |s| && Plain(s, p)
    ensures CSpaceEnd(s, p) == SpaceEnd(s, p)
    decreases |s| - p
  {
    if p == |s| || !IsSpace(s[p]) {
    } else {
      SpaceEndsAgree(s, p + 1);
    }
  }

  // What the numbers mean.

  /** A number to store and its width in bytes. */
  datatype Field = Field(value: u32, width: nat)

  /** The width follows from the number of characters the conversion read. */
  function WidthOf(digits: int): nat {
    if digits <= 2 then 1 else if digits <= 4 then 2 else 4
  }

  /** What a 32-bit unsigned variable keeps of a number. */
  function Number(digits: string): u32
    requires AllHex(digits)
  {
    Value(digits) % TWO32
  }

  function FieldAt(s: string, sp: Span): Field
    requires Digits(s, sp)
  {
    var read := sp.end - sp.word;
    Field(Number(s[sp.start..sp.end]), WidthOf(if HasPrefix(s, sp.word) then read - 2 else read))
  }

  function FieldList(s: string, spans: seq<Span>): seq<Field>
    requires Within(s, spans)
  {
    if spans == [] then [] else [FieldAt(s, spans[0])] + FieldList(s, spans[1..])
  }

  /** The numbers a data line of the loader holds. */
  function Fields(s: string): seq<Field> {
    FieldList(s, Spans(s, 0))
  }

  /** The text of a word. */
  function Word(s: string, sp: Span): string
    requires sp.start <= sp.end <= |s|
  {
    s[sp.start..sp.end]
  }
}
