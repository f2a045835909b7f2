/** Text to text, whatever the order of the addresses. */
module HexAnyOrder {
  import opened MachineInts
  import opened HexLoader
  import opened HexTranslate
  import opened HexTranslator
  import opened HexFormats
  import opened HexShapes
  import opened HexImages
  import opened HexPipeline

  // A shape determines how much memory an image and its translation take.

  predicate SameSegments(out: Written, out': Written) {
    if out.Nothing? then out'.Nothing?
    else
      && out'.Then? && out.last.base == out'.last.base && |out.last.bytes| == |out'.last.bytes|
      && SameSegments(out.before, out'.before)
  }

  lemma SameFlush(t: Pending, t': Pending)
    requires t.ptr == t'.ptr && |t.data| == |t'.data| && SameSegments(t.out, t'.out)
    ensures SameSegments(Flush(t), Flush(t'))
  {
  }

  lemma {:induction false} AlikeSegments(h: History, h': History, n: nat)
    requires Alike(h, h') && n <= |h.rs|
    ensures SameSegments(h.ts[n].out, h'.ts[n].out)
  {
    if n == 0 {
    } else {
      AlikeSegments(h, h', n - 1);
      AlikeLayout(h, h', n - 1);
      assert h.Moves(n - 1) && h'.Moves(n - 1);
      assert SameKind(h.rs[n - 1], h'.rs[n - 1]);
      SameFlush(h.ts[n - 1], h'.ts[n - 1]);
    }
  }

  lemma {:induction false} SegmentsStorable(out: Written, out': Written, size: nat)
    requires SameSegments(out, out')
    ensures Storable(out, size) <==> Storable(out', size)
  {
    if out.Nothing? {
    } else {
      SegmentsStorable(out.before, out'.before, size);
    }
  }

  lemma AlikeCursor(rs: seq<Record>, rs': seq<Record>, n: nat)
    requires SameShape(rs, rs') && n <= |rs|
    ensures Direct(rs, n).cur == Direct(rs', n).cur
  {
    HistoryValid(rs);
    HistoryValid(rs');
    AlikeLayout(HistoryOf(rs), HistoryOf(rs'), n);
  }

  lemma {:induction false} ShapeFits(rs: seq<Record>, rs': seq<Record>, n: nat, size: nat)
    requires SameShape(rs, rs') && n <= |rs|
    ensures Fits(rs, n, size) <==> Fits(rs', n, size)
  {
    if n == 0 {
    } else {
      ShapeFits(rs, rs', n - 1, size);
      AlikeCursor(rs, rs', n);
    }
  }

  lemma ShapeStorable(rs: seq<Record>, rs': seq<Record>, size: nat)
    requires SameShape(rs, rs')
    ensures Storable(Translated(rs), size) <==> Storable(Translated(rs'), size)
  {
    var h, h', n := HistoryOf(rs), HistoryOf(rs'), |rs|;
    HistoryValid(rs);
    HistoryValid(rs');
    AlikeLayout(h, h', n);
    AlikeSegments(h, h', n);
    SameFlush(h.ts[n], h'.ts[n]);
    SegmentsStorable(Translated(rs), Translated(rs'), size);
  }

  lemma ShapeLoadable(rs: seq<Record>, rs': seq<Record>, size: nat)
    requires SameShape(rs, rs')
    ensures Loadable(rs, size) <==> Loadable(rs', size)
  {
    ShapeFits(rs, rs', |rs|, size);
    ShapeStorable(rs, rs', size);
  }

  // Loading the translated texts against loading the byte texts.

  /** A byte text of the given shape. */
  predicate TextOfShape(lines: seq<string>, rs: seq<Record>) {
    ByteText(lines) && Parses(lines, |lines|) && SameShape(rs, Records(lines))
  }

  /** The two loads agree wherever the byte text has a byte. */
  predicate LoadsAgree(lines: seq<string>, size: nat)
    requires Parses(lines, |lines|)
  {
    Preserved(LoadFile(lines, size).mem, LoadFile(Text(Translated(Records(lines))), size).mem)
  }

  lemma LoadsAgreeBy(lines: seq<string>, rs: seq<Record>, size: nat)
    requires TextOfShape(lines, rs) && Loadable(rs, size)
    ensures LoadsAgree(lines, size) <==> Preserved(ImageOf(Records(lines)).mem, SegMem(Translated(Records(lines))))
  {
    ShapeLoadable(rs, Records(lines), size);
    BothLoaded(lines, size);
  }

  /** For all byte texts of a shape translation loads the same exactly when every address the shape
      defines is sound: last written in step, and not padded or written out of step after that. */
  lemma AnyOrderLoadsTheSameExactly(rs: seq<Record>, size: nat)
    requires Addressable(rs) && Loadable(rs, size)
    ensures (forall lines | TextOfShape(lines, rs) :: LoadsAgree(lines, size)) <==> SoundShape(rs)
  {
    if SoundShape(rs) {
      forall lines | TextOfShape(lines, rs)
        ensures LoadsAgree(lines, size)
      {
        SoundPreserved(rs, Records(lines));
        LoadsAgreeBy(lines, rs, size);
      }
    } else {
      var fs := UnsoundShape(rs);
      forall n | 0 <= n < |fs| && fs[n].At?
        ensures fs[n].addr < TWO32
      {
        assert SameKind(rs[n], fs[n]);
      }
      ImageTextParses(fs);
      assert TextOfShape(ImageText(fs), rs);
      LoadsAgreeBy(ImageText(fs), rs, size);
    }
  }

  /** The directive of BackwardDirectiveMisplaces: its shape is not sound, since the last byte is
      written one address too high. */
  lemma BackwardShape(rs: seq<Record>)
    requires SameShape([Data([0]), At(0), Data([0])], rs)
    ensures !SoundShape(rs)
  {
    var shape := [Data([0]), At(0), Data([0])];
    assert SameKind(shape[0], rs[0]) && SameKind(shape[1], rs[1]) && SameKind(shape[2], rs[2]);
    var h := HistoryOf(rs);
    assert Run(rs, 1).ptr == 0 && |Run(rs, 1).data| == 1;
    assert Run(rs, 2).ptr == 0 && |Run(rs, 2).data| == 1;
    assert Direct(rs, 1).cur == 1 && Direct(rs, 2).cur == 0;
    assert Writes(h.images[2], rs[2], 0);
    PlaceAt(Direct(rs, 2), rs[2], 0);
    HistoryValid(rs);
    assert 0 in h.Mem() && !h.Sound(3, 0);
  }
}
