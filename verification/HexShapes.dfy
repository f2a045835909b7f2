/** Byte images of one shape, whatever the order of their addresses: which shapes survive. */
module HexShapes {
  import opened MachineInts
  import opened HexLoader
  import opened HexTranslate

  predicate SameKind(r: Record, r': Record) {
    if r.At? then r' == r else r'.Data? && |r'.bytes| == |r.bytes|
  }

  /** The same directives and the same number of bytes in each data record. */
  predicate SameShape(rs: seq<Record>, rs': seq<Record>) {
    |rs| == |rs'| && forall n | 0 <= n < |rs| :: SameKind(rs[n], rs'[n])
  }

  /** What one record makes of an address that did or did not show the image. */
  predicate SoundStep(t: Pending, i: Image, r: Record, before: bool, a: int) {
    if Writes(i, r, a) then t.ptr + |t.data| == i.cur
    else before && !Pads(t, r, a) && !Lands(t, r, a)
  }

  /** The states of the translator and of the image before each record and in the end. */
  datatype History = History(rs: seq<Record>, ts: seq<Pending>, images: seq<Image>) {

    predicate Complete() {
      |ts| == |images| == |rs| + 1
    }

    predicate Moves(n: nat)
      requires Complete() && n < |rs|
    {
      ts[n + 1] == Step(ts[n], rs[n]) && images[n + 1] == Place(images[n], rs[n])
    }

    ghost predicate Valid() {
      && Complete() && ts[0] == EMPTY && images[0] == Image(map[], 0)
      && forall n: nat | n < |rs| :: Moves(n)
    }

    function Mem(): Mem
      requires Complete()
    {
      images[|rs|].mem
    }

    function Output(): Mem
      requires Complete()
    {
      SegMem(Flush(ts[|rs|]))
    }

    /** Address a shows the image: the last record that writes it did so in step, and neither
        padding nor a byte out of step has come over it since. */
    predicate Sound(n: nat, a: int)
      requires Complete() && n <= |rs|
    {
      n > 0 && SoundStep(ts[n - 1], images[n - 1], rs[n - 1], Sound(n - 1, a), a)
    }

    predicate SoundInTheEnd(a: int)
      requires Complete()
    {
      Sound(|rs|, a) && !BackPads(ts[|rs|], a)
    }

    /** No record from n on writes address a. */
    predicate Settled(n: nat, a: int)
      requires Complete() && n <= |rs|
    {
      forall m: nat | n <= m < |rs| :: !Writes(images[m], rs[m], a)
    }

    lemma SettledStep(n: nat, a: int)
      requires Complete() && n < |rs|
      ensures Settled(n, a) <==> Settled(n + 1, a) && !Writes(images[n], rs[n], a)
    {
    }

    /** Where a byte of the image can be. */
    lemma PlacedStep(n: nat, a: int)
      requires Valid() && n < |rs|
      ensures a in images[n + 1].mem <==> Writes(images[n], rs[n], a) || a in images[n].mem
    {
      assert Moves(n);
      PlaceAt(images[n], rs[n], a);
    }

    // A sound address shows its byte.

    lemma {:induction false} SoundAgrees(n: nat, a: int)
      requires Valid() && n <= |rs| && Sound(n, a)
      ensures Agree(images[n].mem, AllMem(ts[n]), a)
    {
      if Sound(n - 1, a) {
        SoundAgrees(n - 1, a);
      }
      assert Moves(n - 1);
      AgreeStep(ts[n - 1], images[n - 1], rs[n - 1], Sound(n - 1, a), a);
    }

    lemma SoundKept(a: int)
      requires Valid() && SoundInTheEnd(a)
      ensures Agree(Mem(), Output(), a)
    {
      SoundAgrees(|rs|, a);
      FlushAt(ts[|rs|], a);
    }
  }

  /** Both have a byte at address a, and the same. */
  predicate Agree(image: Mem, out: Mem, a: int) {
    a in image && a in out && out[a] == image[a]
  }

  lemma AgreeStep(t: Pending, i: Image, r: Record, before: bool, a: int)
    requires SoundStep(t, i, r, before, a) && (before ==> Agree(i.mem, AllMem(t), a))
    ensures Agree(Place(i, r).mem, AllMem(Step(t, r)), a)
  {
    StepAt(t, r, a);
    PlaceAt(i, r, a);
  }

  // The history of a list of records.

  function HistoryOf(rs: seq<Record>): (h: History)
    ensures h.rs == rs && h.Complete()
  {
    History(rs, seq(|rs| + 1, n requires 0 <= n <= |rs| => Run(rs, n)),
            seq(|rs| + 1, n requires 0 <= n <= |rs| => Direct(rs, n)))
  }

  lemma HistoryMoves(rs: seq<Record>, n: nat)
    requires n < |rs|
    ensures HistoryOf(rs).Moves(n)
  {
    var t, i := Run(rs, n), Direct(rs, n);
    assert Run(rs, n + 1) == Step(t, rs[n]) && Direct(rs, n + 1) == Place(i, rs[n]);
  }

  lemma HistoryValid(rs: seq<Record>)
    ensures HistoryOf(rs).Valid()
    ensures HistoryOf(rs).Mem() == ImageOf(rs).mem && HistoryOf(rs).Output() == SegMem(Translated(rs))
  {
    forall n: nat | n < |rs|
      ensures HistoryOf(rs).Moves(n)
    {
      HistoryMoves(rs, n);
    }
  }

  /** Every address of the image is sound. Only addresses and lengths matter. */
  predicate SoundShape(rs: seq<Record>) {
    forall a | a in HistoryOf(rs).Mem() :: HistoryOf(rs).SoundInTheEnd(a)
  }

  // What a shape determines.

  /** Two histories of one shape. */
  ghost predicate Alike(h: History, h': History) {
    h.Valid() && h'.Valid() && SameShape(h.rs, h'.rs)
  }

  /** The same positions. */
  predicate SameLayout(t: Pending, t': Pending, i: Image, i': Image) {
    t.ptr == t'.ptr && |t.data| == |t'.data| && i.cur == i'.cur
  }

  lemma LayoutStep(t: Pending, t': Pending, i: Image, i': Image, r: Record, r': Record)
    requires SameLayout(t, t', i, i') && SameKind(r, r')
    ensures SameLayout(Step(t, r), Step(t', r'), Place(i, r), Place(i', r'))
  {
  }

  lemma {:induction false} AlikeLayout(h: History, h': History, n: nat)
    requires Alike(h, h') && n <= |h.rs|
    ensures SameLayout(h.ts[n], h'.ts[n], h.images[n], h'.images[n])
  {
    if n == 0 {
    } else {
      AlikeLayout(h, h', n - 1);
      assert h.Moves(n - 1) && h'.Moves(n - 1);
      LayoutStep(h.ts[n - 1], h'.ts[n - 1], h.images[n - 1], h'.images[n - 1], h.rs[n - 1], h'.rs[n - 1]);
    }
  }

  lemma SameStep(t: Pending, t': Pending, i: Image, i': Image, r: Record, r': Record, before: bool, a: int)
    requires SameLayout(t, t', i, i') && SameKind(r, r')
    ensures Writes(i, r, a) <==> Writes(i', r', a)
    ensures SoundStep(t, i, r, before, a) <==> SoundStep(t', i', r', before, a)
  {
  }

  lemma {:induction false} AlikeSound(h: History, h': History, n: nat, a: int)
    requires Alike(h, h') && n <= |h.rs|
    ensures h.Sound(n, a) <==> h'.Sound(n, a)
    ensures a in h.images[n].mem <==> a in h'.images[n].mem
  {
    if n == 0 {
    } else {
      AlikeSound(h, h', n - 1, a);
      AlikeLayout(h, h', n - 1);
      SameStep(h.ts[n - 1], h'.ts[n - 1], h.images[n - 1], h'.images[n - 1], h.rs[n - 1], h'.rs[n - 1],
               h.Sound(n - 1, a), a);
      h.PlacedStep(n - 1, a);
      h'.PlacedStep(n - 1, a);
    }
  }

  lemma AlikeInTheEnd(h: History, h': History, a: int)
    requires Alike(h, h')
    ensures h.SoundInTheEnd(a) <==> h'.SoundInTheEnd(a)
    ensures a in h.Mem() <==> a in h'.Mem()
  {
    AlikeSound(h, h', |h.rs|, a);
    AlikeLayout(h, h', |h.rs|);
  }

  // An address that is not sound hides its byte, in the image of the shape that is zero elsewhere.

  /** Record r with a one for address a, if it is the last to write it, and zeros elsewhere. */
  predicate FlashOf(cur: int, r: Record, fr: Record, a: int, last: bool) {
    SameKind(r, fr) &&
    (fr.Data? ==> forall k | 0 <= k < |fr.bytes| :: fr.bytes[k] == if last && cur + k == a then 1 else 0)
  }

  function FlashRecord(cur: int, r: Record, a: int, last: bool): (fr: Record)
    ensures FlashOf(cur, r, fr, a, last)
  {
    if r.At? then r
    else Data(seq(|r.bytes|, k requires 0 <= k < |r.bytes| => if last && cur + k == a then 1 else 0))
  }

  predicate FlashedAt(h: History, fs: seq<Record>, n: nat, a: int)
    requires h.Complete() && n < |h.rs| && n < |fs|
  {
    FlashOf(h.images[n].cur, h.rs[n], fs[n], a, h.Settled(n + 1, a))
  }

  /** The image of that shape with a one at address a and zeros elsewhere. */
  ghost predicate IsFlash(h: History, fs: seq<Record>, a: int)
    requires h.Complete()
  {
    |fs| == |h.rs| && forall n: nat | n < |fs| :: FlashedAt(h, fs, n, a)
  }

  lemma FlashExists(h: History, a: int) returns (fs: seq<Record>)
    requires h.Complete()
    ensures IsFlash(h, fs, a) && SameShape(h.rs, fs)
  {
    fs := seq(|h.rs|, n requires 0 <= n < |h.rs| =>
      FlashRecord(h.images[n].cur, h.rs[n], a, h.Settled(n + 1, a)));
    forall n: nat | n < |fs|
      ensures FlashedAt(h, fs, n, a)
    {
      assert fs[n] == FlashRecord(h.images[n].cur, h.rs[n], a, h.Settled(n + 1, a));
    }
    forall n: nat | n < |fs|
      ensures SameKind(h.rs[n], fs[n])
    {
      assert FlashedAt(h, fs, n, a);
    }
  }

  ghost predicate Lit(h: History, f: History, a: int) {
    Alike(h, f) && IsFlash(h, f.rs, a)
  }

  lemma FlashPlace(i: Image, r: Record, fi: Image, fr: Record, a: int)
    requires FlashOf(i.cur, r, fr, a, true) && fi.cur == i.cur
    requires Writes(i, r, a) || Look(fi.mem, a) == Some(1)
    ensures Look(Place(fi, fr).mem, a) == Some(1)
  {
    PlaceAt(fi, fr, a);
  }

  lemma {:induction false} FlashImage(h: History, f: History, n: nat, a: int)
    requires Lit(h, f, a) && n <= |h.rs| && a in h.images[n].mem && h.Settled(n, a)
    ensures Look(f.images[n].mem, a) == Some(1)
  {
    if n == 0 {
    } else {
      h.PlacedStep(n - 1, a);
      h.SettledStep(n - 1, a);
      if !Writes(h.images[n - 1], h.rs[n - 1], a) {
        FlashImage(h, f, n - 1, a);
      }
      AlikeLayout(h, f, n - 1);
      assert FlashedAt(h, f.rs, n - 1, a) && f.Moves(n - 1);
      FlashPlace(h.images[n - 1], h.rs[n - 1], f.images[n - 1], f.rs[n - 1], a);
    }
  }

  /** No one at address a. */
  predicate Dark(t: Pending, a: int) {
    Look(AllMem(t), a) != Some(1)
  }

  /** A record lights the address only in step; what comes over it later makes it dark again. */
  lemma DarkStep(t: Pending, i: Image, r: Record, ft: Pending, fr: Record, a: int,
                 sound: bool, settled: bool, last: bool)
    requires t.ptr == ft.ptr && |t.data| == |ft.data| && FlashOf(i.cur, r, fr, a, last)
    requires settled <==> last && !Writes(i, r, a)
    requires Dark(ft, a) || (settled && sound)
    ensures Dark(Step(ft, fr), a) || (last && SoundStep(t, i, r, sound, a))
  {
    StepAt(ft, fr, a);
  }

  /** The translator shows the one at address a only where it is sound. */
  lemma {:induction false} FlashDark(h: History, f: History, n: nat, a: int)
    requires Lit(h, f, a) && n <= |h.rs|
    ensures Dark(f.ts[n], a) || (h.Settled(n, a) && h.Sound(n, a))
  {
    if n == 0 {
    } else {
      FlashDark(h, f, n - 1, a);
      AlikeLayout(h, f, n - 1);
      assert FlashedAt(h, f.rs, n - 1, a) && f.Moves(n - 1);
      h.SettledStep(n - 1, a);
      DarkStep(h.ts[n - 1], h.images[n - 1], h.rs[n - 1], f.ts[n - 1], f.rs[n - 1], a,
               h.Sound(n - 1, a), h.Settled(n - 1, a), h.Settled(n, a));
    }
  }

  lemma UnsoundLost(h: History, f: History, a: int)
    requires Lit(h, f, a) && a in h.Mem() && !h.SoundInTheEnd(a)
    ensures !Preserved(f.Mem(), f.Output())
  {
    var n := |h.rs|;
    AlikeLayout(h, f, n);
    FlashImage(h, f, n, a);
    FlashDark(h, f, n, a);
    FlushAt(f.ts[n], a);
  }

  // Both halves.

  lemma SoundPreserved(rs: seq<Record>, rs': seq<Record>)
    requires SameShape(rs, rs') && SoundShape(rs)
    ensures Preserved(ImageOf(rs').mem, SegMem(Translated(rs')))
  {
    var h, h' := HistoryOf(rs), HistoryOf(rs');
    HistoryValid(rs);
    HistoryValid(rs');
    forall a | a in h'.Mem()
      ensures Agree(h'.Mem(), h'.Output(), a)
    {
      AlikeInTheEnd(h, h', a);
      h'.SoundKept(a);
    }
  }

  lemma UnsoundShape(rs: seq<Record>) returns (fs: seq<Record>)
    requires !SoundShape(rs)
    ensures SameShape(rs, fs) && !Preserved(ImageOf(fs).mem, SegMem(Translated(fs)))
  {
    var h := HistoryOf(rs);
    var a :| a in h.Mem() && !h.SoundInTheEnd(a);
    fs := FlashExists(h, a);
    HistoryValid(rs);
    HistoryValid(fs);
    UnsoundLost(h, HistoryOf(fs), a);
  }

  /** All images of a shape survive translation exactly when every address they define is sound. The
      addresses may go back in any way. */
  lemma ShapePreservedExactly(rs: seq<Record>)
    ensures (forall rs' | SameShape(rs, rs') :: Preserved(ImageOf(rs').mem, SegMem(Translated(rs'))))
            <==> SoundShape(rs)
  {
    if SoundShape(rs) {
      forall rs' | SameShape(rs, rs')
        ensures Preserved(ImageOf(rs').mem, SegMem(Translated(rs')))
      {
        SoundPreserved(rs, rs');
      }
    } else {
      var fs := UnsoundShape(rs);
    }
  }
}
