/** The byte text objcopy writes for the sections of a program, and what loading and translating it gives. */
module HexObjcopy {
  import opened MachineInts
  import opened HexText
  import opened HexPrint
  import opened HexLoader
  import opened HexTranslate
  import opened HexTranslator
  import opened HexFormats
  import opened HexImages
  import opened HexPipeline

  /** Contents to be written, and the address they are for. */
  datatype Section = Section(where: nat, data: seq<u8>)

  // The list of contents, sorted by address.

  predicate Sorted(ss: seq<Section>) {
    forall j, k | 0 <= j < k < |ss| :: ss[j].where <= ss[k].where
  }

  /** The first place whose address is not below the given one. */
  function PlaceFrom(ss: seq<Section>, where: nat, n: nat): (p: nat)
    requires n <= |ss|
    ensures n <= p <= |ss| && (p < |ss| ==> ss[p].where >= where)
    ensures forall j | n <= j < p :: ss[j].where < where
    decreases |ss| - n
  {
    if n < |ss| && ss[n].where < where then PlaceFrom(ss, where, n + 1) else n
  }

  /** verilog_set_section_contents: behind the last if it is not below it, else in front of the first that is
      not below it. */
  function InsertPlace(ss: seq<Section>, s: Section): (p: nat)
    ensures p <= |ss|
  {
    if ss != [] && s.where >= ss[|ss| - 1].where then |ss| else PlaceFrom(ss, s.where, 0)
  }

  function Insert(ss: seq<Section>, s: Section): seq<Section> {
    var p := InsertPlace(ss, s);
    ss[..p] + [s] + ss[p..]
  }

  /** The list behind an insertion, element by element. */
  lemma Inserted(ss: seq<Section>, s: Section)
    ensures var p, all := InsertPlace(ss, s), Insert(ss, s);
            && |all| == |ss| + 1 && all[p] == s
            && (forall j | 0 <= j < p :: all[j] == ss[j]) && (forall j | p < j < |all| :: all[j] == ss[j - 1])
  {
  }

  lemma InsertSorted(ss: seq<Section>, s: Section, j: nat, k: nat)
    requires Sorted(ss) && j < k <= |ss|
    ensures |Insert(ss, s)| == |ss| + 1 && Insert(ss, s)[j].where <= Insert(ss, s)[k].where
  {
    Inserted(ss, s);
    var p := InsertPlace(ss, s);
    assert forall m | 0 <= m < p :: ss[m].where <= s.where;
    assert forall m | p <= m < |ss| :: s.where <= ss[m].where;
  }

  lemma InsertKeeps(ss: seq<Section>, s: Section)
    requires Sorted(ss)
    ensures Sorted(Insert(ss, s)) && multiset(Insert(ss, s)) == multiset(ss) + multiset{s}
  {
    forall j, k | 0 <= j < k < |Insert(ss, s)|
      ensures Insert(ss, s)[j].where <= Insert(ss, s)[k].where
    {
      InsertSorted(ss, s, j, k);
    }
    assert ss == ss[..InsertPlace(ss, s)] + ss[InsertPlace(ss, s)..];
  }

  /** The list after all contents have been set. */
  function Collected(entries: seq<Section>): seq<Section> {
    if entries == [] then [] else Insert(Collected(entries[..|entries| - 1]), entries[|entries| - 1])
  }

  /** In whatever order contents are set, they are written once each and by ascending address. */
  lemma {:induction false} CollectedSorted(entries: seq<Section>)
    ensures Sorted(Collected(entries)) && multiset(Collected(entries)) == multiset(entries)
  {
    if entries == [] {
    } else {
      var n := |entries| - 1;
      CollectedSorted(entries[..n]);
      InsertKeeps(Collected(entries[..n]), entries[n]);
      assert entries == entries[..n] + [entries[n]];
    }
  }

  // The text.

  /** Sixteen bytes a line. */
  function DataRecords(data: seq<u8>): seq<Record>
    decreases |data|
  {
    if data == [] then []
    else
      var n := if |data| > 16 then 16 else |data|;
      [Data(data[..n])] + DataRecords(data[n..])
  }

  /** Line n has bytes 16n to 16n + 15, the last one those that are left. */
  lemma {:induction false} LinesOfSixteen(data: seq<u8>, n: nat)
    requires n < |DataRecords(data)|
    ensures 16 * n < |data|
    ensures DataRecords(data)[n] == Data(data[16 * n..if 16 * n + 16 < |data| then 16 * n + 16 else |data|])
    decreases n
  {
    if n == 0 {
    } else {
      var rest := data[16..];
      assert DataRecords(data)[n] == DataRecords(rest)[n - 1];
      LinesOfSixteen(rest, n - 1);
      var m := 16 * (n - 1);
      assert rest[m..if m + 16 < |rest| then m + 16 else |rest|]
          == data[m + 16..if m + 32 < |data| then m + 32 else |data|];
    }
  }

  function SectionRecords(ss: seq<Section>): seq<Record>
    decreases |ss|
  {
    if ss == [] then []
    else
      var s := ss[|ss| - 1];
      SectionRecords(ss[..|ss| - 1]) + [At(s.where)] + DataRecords(s.data)
  }

  /** What objcopy writes. */
  function ObjcopyText(ss: seq<Section>): seq<string> {
    ImageText(SectionRecords(ss))
  }

  // Its meaning.

  /** The memory the sections describe, later ones over earlier ones. */
  function SectionMem(ss: seq<Section>): Mem
    decreases |ss|
  {
    if ss == [] then map[]
    else Poke(SectionMem(ss[..|ss| - 1]), ss[|ss| - 1].where, ss[|ss| - 1].data)
  }

  predicate Below(ss: seq<Section>, size: nat) {
    forall j | 0 <= j < |ss| :: ss[j].where + |ss[j].data| <= size
  }

  lemma PokeJoin(mem: Mem, a: int, x: seq<u8>, y: seq<u8>)
    ensures Poke(Poke(mem, a, x), a + |x|, y) == Poke(mem, a, x + y)
  {
  }

  lemma PokeAfter(mem: Mem, a: int, x: seq<u8>, y: seq<u8>, mem': Mem, mem'': Mem)
    requires mem' == Poke(mem, a, x) && mem'' == Poke(mem', a + |x|, y)
    ensures mem'' == Poke(mem, a, x + y)
  {
    PokeJoin(mem, a, x, y);
  }

  lemma PokeNothing(mem: Mem, a: int)
    ensures Poke(mem, a, []) == mem
  {
  }

  lemma {:induction false} DirectPrefix(rs: seq<Record>, more: seq<Record>, n: nat, size: nat)
    requires n <= |rs|
    ensures Direct(rs + more, n) == Direct(rs, n)
    ensures Fits(rs + more, n, size) <==> Fits(rs, n, size)
    ensures Ascending(rs + more, n) <==> Ascending(rs, n)
  {
    if n == 0 {
    } else {
      DirectPrefix(rs, more, n - 1, size);
    }
  }

  predicate AllFit(rs: seq<Record>, size: nat) {
    Fits(rs, |rs|, size)
  }

  predicate AllAscend(rs: seq<Record>) {
    Ascending(rs, |rs|)
  }

  /** What one more record does. */
  lemma OneRecord(rs: seq<Record>, r: Record, size: nat)
    ensures ImageOf(rs + [r]) == Place(ImageOf(rs), r)
    ensures AllFit(rs, size) && Place(ImageOf(rs), r).cur <= size ==> AllFit(rs + [r], size)
    ensures AllAscend(rs) && Ahead(ImageOf(rs), r) ==> AllAscend(rs + [r])
  {
    DirectPrefix(rs, [r], |rs|, size);
  }

  /** Image i' is image i with data at its position. */
  predicate PlacedAt(i: Image, data: seq<u8>, i': Image) {
    i'.mem == Poke(i.mem, i.cur, data) && i'.cur == i.cur + |data|
  }

  lemma PlacedTwice(i: Image, x: seq<u8>, i': Image, y: seq<u8>, i'': Image)
    requires PlacedAt(i, x, i') && PlacedAt(i', y, i'')
    ensures PlacedAt(i, x + y, i'')
  {
    PokeAfter(i.mem, i.cur, x, y, i'.mem, i''.mem);
  }

  lemma PlacedNothing(i: Image)
    ensures PlacedAt(i, [], i)
  {
    PokeNothing(i.mem, i.cur);
  }

  lemma OneData(rs: seq<Record>, bytes: seq<u8>, size: nat)
    ensures PlacedAt(ImageOf(rs), bytes, ImageOf(rs + [Data(bytes)]))
    ensures AllFit(rs, size) && ImageOf(rs).cur + |bytes| <= size ==> AllFit(rs + [Data(bytes)], size)
    ensures AllAscend(rs) ==> AllAscend(rs + [Data(bytes)])
  {
    OneRecord(rs, Data(bytes), size);
  }

  /** The first line of a section, and the others. */
  lemma FirstLine(rs: seq<Record>, data: seq<u8>) returns (first: seq<u8>, rest: seq<u8>)
    requires data != []
    ensures data == first + rest && first != []
    ensures rs + DataRecords(data) == rs + [Data(first)] + DataRecords(rest)
  {
    var n := if |data| > 16 then 16 else |data|;
    first, rest := data[..n], data[n..];
    assert rs + ([Data(first)] + DataRecords(rest)) == rs + [Data(first)] + DataRecords(rest);
  }

  /** The lines of a section put its data at the position of the image. */
  lemma {:induction false} DataPlaced(rs: seq<Record>, data: seq<u8>, size: nat)
    ensures PlacedAt(ImageOf(rs), data, ImageOf(rs + DataRecords(data)))
    ensures AllFit(rs, size) && ImageOf(rs).cur + |data| <= size ==> AllFit(rs + DataRecords(data), size)
    ensures AllAscend(rs) ==> AllAscend(rs + DataRecords(data))
    decreases |data|
  {
    if data == [] {
      assert rs + DataRecords(data) == rs;
      PlacedNothing(ImageOf(rs));
    } else {
      var first, rest := FirstLine(rs, data);
      var rs' := rs + [Data(first)];
      OneData(rs, first, size);
      DataPlaced(rs', rest, size);
      PlacedTwice(ImageOf(rs), first, ImageOf(rs'), rest, ImageOf(rs' + DataRecords(rest)));
    }
  }

  /** The records of one more section. */
  lemma SectionPlaced(ss: seq<Section>, size: nat)
    requires ss != []
    ensures var rs, rs', s := SectionRecords(ss[..|ss| - 1]), SectionRecords(ss), ss[|ss| - 1];
            && ImageOf(rs') == Image(Poke(ImageOf(rs).mem, s.where, s.data), s.where + |s.data|)
            && (AllFit(rs, size) && s.where + |s.data| <= size ==> AllFit(rs', size))
            && (AllAscend(rs) && s.where >= ImageOf(rs).cur ==> AllAscend(rs'))
  {
    var rs, s := SectionRecords(ss[..|ss| - 1]), ss[|ss| - 1];
    OneRecord(rs, At(s.where), size);
    DataPlaced(rs + [At(s.where)], s.data, size);
  }

  lemma {:induction false} SectionsPlaced(ss: seq<Section>, size: nat)
    requires Below(ss, size)
    ensures ImageOf(SectionRecords(ss)).mem == SectionMem(ss)
    ensures AllFit(SectionRecords(ss), size)
    decreases |ss|
  {
    if ss == [] {
    } else {
      SectionsPlaced(ss[..|ss| - 1], size);
      SectionPlaced(ss, size);
    }
  }

  lemma {:induction false} DataRecordsAddressable(data: seq<u8>)
    ensures forall n | 0 <= n < |DataRecords(data)| :: DataRecords(data)[n].Data?
    decreases |data|
  {
    if data == [] {
    } else {
      DataRecordsAddressable(data[if |data| > 16 then 16 else |data|..]);
    }
  }

  lemma {:induction false} SectionsAddressable(ss: seq<Section>, size: nat)
    requires Below(ss, size) && size < TWO32
    ensures Addressable(SectionRecords(ss))
    decreases |ss|
  {
    if ss == [] {
    } else {
      SectionsAddressable(ss[..|ss| - 1], size);
      DataRecordsAddressable(ss[|ss| - 1].data);
    }
  }

  /** The text is read back as what it was written for. */
  lemma ObjcopyParses(ss: seq<Section>, size: nat)
    requires Below(ss, size) && size < TWO32
    ensures ByteText(ObjcopyText(ss)) && Parses(ObjcopyText(ss), |ObjcopyText(ss)|)
    ensures Records(ObjcopyText(ss)) == SectionRecords(ss)
  {
    SectionsAddressable(ss, size);
    ImageTextParses(SectionRecords(ss));
  }

  /** Loading what objcopy wrote for any sections that fit gives the bytes of the sections at their addresses,
      and nothing else; it fails only if there are none. */
  lemma ObjcopyLoads(ss: seq<Section>, size: nat)
    requires Below(ss, size) && size < TWO32
    ensures var l := LoadFile(ObjcopyText(ss), size);
            l.mem == SectionMem(ss) && (l.error.Some? <==> SectionMem(ss) == map[])
  {
    ObjcopyParses(ss, size);
    SectionsPlaced(ss, size);
    BytesLoaded(ObjcopyText(ss), size);
  }

  // Translating it.

  predicate Disjoint(s: Section, s': Section) {
    s.where + |s.data| <= s'.where || s'.where + |s'.data| <= s.where
  }

  /** Each section lies behind those before it. */
  predicate Ordered(ss: seq<Section>) {
    forall j | 0 < j < |ss| :: ss[j - 1].where + |ss[j - 1].data| <= ss[j].where
  }

  predicate AllDisjoint(ss: seq<Section>) {
    forall j, k | 0 <= j < k < |ss| :: Disjoint(ss[j], ss[k])
  }

  predicate NoneEmpty(ss: seq<Section>) {
    forall j | 0 <= j < |ss| :: ss[j].data != []
  }

  lemma InsertApart(ss: seq<Section>, s: Section, j: nat, k: nat)
    requires AllDisjoint(ss) && (forall n | 0 <= n < |ss| :: Disjoint(ss[n], s)) && j < k <= |ss|
    ensures |Insert(ss, s)| == |ss| + 1 && Disjoint(Insert(ss, s)[j], Insert(ss, s)[k])
  {
    Inserted(ss, s);
  }

  lemma InsertDisjoint(ss: seq<Section>, s: Section)
    requires AllDisjoint(ss) && NoneEmpty(ss) && s.data != [] && forall n | 0 <= n < |ss| :: Disjoint(ss[n], s)
    ensures AllDisjoint(Insert(ss, s)) && NoneEmpty(Insert(ss, s))
  {
    Inserted(ss, s);
    forall j, k | 0 <= j < k < |Insert(ss, s)|
      ensures Disjoint(Insert(ss, s)[j], Insert(ss, s)[k])
    {
      InsertApart(ss, s, j, k);
    }
  }

  lemma ElementOf(ss: seq<Section>, entries: seq<Section>, j: nat)
    requires multiset(ss) == multiset(entries) && j < |ss|
    ensures ss[j] in entries
  {
    assert ss[j] in multiset(ss);
  }

  lemma {:induction false} CollectedDisjoint(entries: seq<Section>)
    requires AllDisjoint(entries) && NoneEmpty(entries)
    ensures AllDisjoint(Collected(entries)) && NoneEmpty(Collected(entries))
  {
    if entries == [] {
    } else {
      var n := |entries| - 1;
      CollectedDisjoint(entries[..n]);
      CollectedSorted(entries[..n]);
      var ss := Collected(entries[..n]);
      forall j | 0 <= j < |ss|
        ensures Disjoint(ss[j], entries[n])
      {
        ElementOf(ss, entries[..n], j);
        assert forall k | 0 <= k < n :: entries[..n][k] == entries[k];
      }
      InsertDisjoint(Collected(entries[..n]), entries[n]);
    }
  }

  /** Sections that share no byte are written in order, whatever order they are set in. */
  lemma CollectedOrdered(entries: seq<Section>)
    requires AllDisjoint(entries) && NoneEmpty(entries)
    ensures Ordered(Collected(entries))
  {
    CollectedSorted(entries);
    CollectedDisjoint(entries);
    var ss := Collected(entries);
    forall j | 0 < j < |ss|
      ensures ss[j - 1].where + |ss[j - 1].data| <= ss[j].where
    {
      assert Disjoint(ss[j - 1], ss[j]) && |ss[j].data| > 0 && ss[j - 1].where <= ss[j].where;
    }
  }

  /** The words of the sections are apart: none starts in the word in which the one before it ends. */
  predicate WordsApart(ss: seq<Section>) {
    forall j | 0 < j < |ss| :: ss[j - 1].where + |ss[j - 1].data| <= ss[j].where - ss[j].where % 4
  }

  lemma {:induction false} SectionsAscending(ss: seq<Section>)
    requires Ordered(ss)
    ensures AllAscend(SectionRecords(ss))
    ensures ss != [] ==> ImageOf(SectionRecords(ss)).cur == ss[|ss| - 1].where + |ss[|ss| - 1].data|
    decreases |ss|
  {
    if ss == [] {
    } else {
      var front := ss[..|ss| - 1];
      SectionsAscending(front);
      SectionPlaced(ss, 0);
    }
  }

  lemma {:induction false} RunPrefix(rs: seq<Record>, more: seq<Record>, n: nat)
    requires n <= |rs|
    ensures Run(rs + more, n) == Run(rs, n)
    ensures Separated(rs + more, n) <==> Separated(rs, n)
  {
    if n == 0 {
    } else {
      RunPrefix(rs, more, n - 1);
    }
  }

  predicate AllSeparated(rs: seq<Record>) {
    Separated(rs, |rs|)
  }

  lemma OneSeparated(rs: seq<Record>, r: Record)
    requires AllSeparated(rs) && AllAscend(rs)
    requires r.At? ==> r.addr - r.addr % 4 >= ImageOf(rs).cur
    ensures AllSeparated(rs + [r])
  {
    RunPrefix(rs, [r], |rs|);
    AscendingInOrder(rs, |rs|);
    StaysInStep(rs, |rs|);
  }

  lemma {:induction false} DataSeparated(rs: seq<Record>, data: seq<u8>)
    requires AllSeparated(rs) && AllAscend(rs)
    ensures AllSeparated(rs + DataRecords(data))
    decreases |data|
  {
    if data == [] {
      assert rs + DataRecords(data) == rs;
    } else {
      var first, rest := FirstLine(rs, data);
      OneData(rs, first, 0);
      OneSeparated(rs, Data(first));
      DataSeparated(rs + [Data(first)], rest);
    }
  }

  lemma {:induction false} SectionsSeparated(ss: seq<Section>)
    requires Ordered(ss) && WordsApart(ss)
    ensures AllSeparated(SectionRecords(ss))
    decreases |ss|
  {
    if ss == [] {
    } else {
      var front, s := ss[..|ss| - 1], ss[|ss| - 1];
      var rs := SectionRecords(front);
      SectionsSeparated(front);
      SectionsAscending(front);
      OneSeparated(rs, At(s.where));
      OneRecord(rs, At(s.where), 0);
      DataSeparated(rs + [At(s.where)], s.data);
    }
  }

  /** The end of the last section, and its padding, lie inside the memory. */
  predicate RoomFor(ss: seq<Section>, size: nat) {
    size < TWO32 && (ss != [] ==> var end := ss[|ss| - 1].where + |ss[|ss| - 1].data|; end + Padding(end) <= size)
  }

  lemma {:induction false} OrderedBelow(ss: seq<Section>, size: nat)
    requires Ordered(ss) && RoomFor(ss, size)
    ensures Below(ss, size)
    decreases |ss|
  {
    if ss == [] {
    } else {
      var front := ss[..|ss| - 1];
      if front != [] {
        PaddingGrows(front[|front| - 1].where + |front[|front| - 1].data|, ss[|ss| - 1].where + |ss[|ss| - 1].data|);
      }
      OrderedBelow(front, size);
    }
  }

  /** Loading the translation of records, against a memory. */
  predicate Agrees(rs: seq<Record>, mem: Mem, size: nat) {
    var words := LoadFile(Text(Translated(rs)), size).mem;
    OthersZero(mem, words) && (Preserved(mem, words) <==> Spared(rs, |rs|))
  }

  lemma TranslatedAgrees(rs: seq<Record>, mem: Mem, size: nat)
    requires AllAscend(rs) && Inside(ImageOf(rs), size) && mem == ImageOf(rs).mem
    ensures Agrees(rs, mem, size)
  {
    AscendingLoadable(rs, size);
    WordsLoaded(Translated(rs), size);
    AscendingPreservedExactly(rs);
  }

  lemma SectionsAgree(ss: seq<Section>, size: nat)
    requires Ordered(ss) && RoomFor(ss, size)
    ensures Agrees(SectionRecords(ss), SectionMem(ss), size)
  {
    OrderedBelow(ss, size);
    SectionsPlaced(ss, size);
    SectionsAscending(ss);
    TranslatedAgrees(SectionRecords(ss), SectionMem(ss), size);
  }

  /** What objcopy wrote for sections in order, translated and loaded: the bytes of the sections are at their
      addresses exactly if no address that ends a pending segment finds a nonzero byte at or after the start
      of its own word, and any other byte written is zero. */
  lemma ObjcopyTranslatesExactly(ss: seq<Section>, size: nat)
    requires Ordered(ss) && RoomFor(ss, size)
    ensures Parses(ObjcopyText(ss), |ObjcopyText(ss)|) && Records(ObjcopyText(ss)) == SectionRecords(ss)
    ensures var rs := SectionRecords(ss);
            var words := LoadFile(Text(Translated(rs)), size).mem;
            && (Preserved(SectionMem(ss), words) <==> Spared(rs, |rs|)) && OthersZero(SectionMem(ss), words)
  {
    OrderedBelow(ss, size);
    ObjcopyParses(ss, size);
    SectionsAgree(ss, size);
  }

  /** They are if no section starts in the word in which the one before it ends. */
  lemma ObjcopyTranslates(ss: seq<Section>, size: nat)
    requires Ordered(ss) && WordsApart(ss) && RoomFor(ss, size)
    ensures Parses(ObjcopyText(ss), |ObjcopyText(ss)|) && Records(ObjcopyText(ss)) == SectionRecords(ss)
    ensures var words := LoadFile(Text(Translated(SectionRecords(ss))), size).mem;
            Preserved(SectionMem(ss), words) && OthersZero(SectionMem(ss), words)
  {
    ObjcopyTranslatesExactly(ss, size);
    SectionsAscending(ss);
    SectionsSeparated(ss);
    SeparatedSpared(SectionRecords(ss), |SectionRecords(ss)|);
  }
}
