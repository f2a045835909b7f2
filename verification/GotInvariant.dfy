/** What every run of the linker keeps of the global offset table. */
module GotInvariant {
  import opened MachineInts
  import opened GotSpec

  // Sums over all entries.

  type Measure = (nat, Entry) -> nat

  function SumList(f: Measure, i: nat, es: seq<Entry>, n: nat): nat
    requires n <= |es|
  {
    if n == 0 then 0 else SumList(f, i, es, n - 1) + f(i, es[n - 1])
  }

  function Sum(f: Measure, lists: seq<seq<Entry>>, m: nat): nat
    requires m <= |lists|
  {
    if m == 0 then 0 else Sum(f, lists, m - 1) + SumList(f, m - 1, lists[m - 1], |lists[m - 1]|)
  }

  function Total(f: Measure, lists: seq<seq<Entry>>): nat {
    Sum(f, lists, |lists|)
  }

  lemma {:induction false} SumListPrefix(f: Measure, i: nat, es: seq<Entry>, es': seq<Entry>, n: nat)
    requires n <= |es| && n <= |es'| && forall k | 0 <= k < n :: es[k] == es'[k]
    ensures SumList(f, i, es, n) == SumList(f, i, es', n)
  {
    if n == 0 {
    } else {
      SumListPrefix(f, i, es, es', n - 1);
    }
  }

  lemma {:induction false} SumListSet(f: Measure, i: nat, es: seq<Entry>, k: nat, e: Entry, n: nat)
    requires k < n <= |es|
    ensures SumList(f, i, es[k := e], n) + f(i, es[k]) == SumList(f, i, es, n) + f(i, e)
  {
    if n - 1 == k {
      SumListPrefix(f, i, es, es[k := e], n - 1);
    } else {
      SumListSet(f, i, es, k, e, n - 1);
    }
  }

  lemma {:induction false} SumChange(f: Measure, lists: seq<seq<Entry>>, i: nat, es: seq<Entry>, m: nat)
    requires i < |lists| && m <= |lists|
    ensures Sum(f, lists[i := es], m) + (if i < m then SumList(f, i, lists[i], |lists[i]|) else 0)
         == Sum(f, lists, m) + (if i < m then SumList(f, i, es, |es|) else 0)
  {
    if m == 0 {
    } else {
      SumChange(f, lists, i, es, m - 1);
    }
  }

  lemma TotalAppend(f: Measure, lists: seq<seq<Entry>>, i: nat, e: Entry)
    requires i < |lists|
    ensures Total(f, lists[i := lists[i] + [e]]) == Total(f, lists) + f(i, e)
  {
    SumChange(f, lists, i, lists[i] + [e], |lists|);
    SumListPrefix(f, i, lists[i], lists[i] + [e], |lists[i]|);
  }

  lemma TotalSet(f: Measure, lists: seq<seq<Entry>>, i: nat, n: nat, e: Entry)
    requires i < |lists| && n < |lists[i]|
    ensures Total(f, lists[i := lists[i][n := e]]) + f(i, lists[i][n]) == Total(f, lists) + f(i, e)
  {
    SumChange(f, lists, i, lists[i][n := e], |lists|);
    SumListSet(f, i, lists[i], n, e, |lists[i]|);
  }

  lemma {:induction false} SumLess(f: Measure, f': Measure, lists: seq<seq<Entry>>, m: nat)
    requires m <= |lists| && forall i: nat, e :: f(i, e) <= f'(i, e)
    ensures Sum(f, lists, m) <= Sum(f', lists, m)
  {
    if m == 0 {
    } else {
      SumLess(f, f', lists, m - 1);
      SumListLess(f, f', m - 1, lists[m - 1], |lists[m - 1]|);
    }
  }

  lemma {:induction false} SumListLess(f: Measure, f': Measure, i: nat, es: seq<Entry>, n: nat)
    requires n <= |es| && forall i: nat, e :: f(i, e) <= f'(i, e)
    ensures SumList(f, i, es, n) <= SumList(f', i, es, n)
  {
    if n == 0 {
    } else {
      SumListLess(f, f', i, es, n - 1);
    }
  }

  const BYTES: Measure := (i: nat, e: Entry) => SizeOf(e.kind)

  /** Relocations an entry may ask for: none for a local symbol of a fixed-address link. */
  function Quota(pic: bool, global: bool, k: Kind): nat {
    if k == TlsGd then 2 else if k == Normal then (if pic || global then 1 else 0) else 1
  }

  function Reserved(pic: bool, globals: set<nat>): Measure {
    (i: nat, e: Entry) => Quota(pic, i in globals, e.kind)
  }

  function Spent(pic: bool, globals: set<nat>): Measure {
    (i: nat, e: Entry) => if e.created then Quota(pic, i in globals, e.kind) else 0
  }

  /** The lists of global symbols: the same at every moment of a run. */
  function Globals(g: Got): set<nat> {
    set i: nat | i < |g.syms| && g.syms[i].Global?
  }

  // The invariant. A ghost layout names the owner of each word of the section.

  type Owner = (nat, Kind)

  predicate KindsOk(g: Got) {
    forall i, n | 0 <= i < |g.lists| && 0 <= n < |g.lists[i]| ::
      var e := g.lists[i][n];
      && e.kind != Unknown
      && e.existing == (if e.kind == Normal then NoTls else if e.kind == TlsGd then ModAndOff else Off)
      && Find(g.lists[i], e.kind) == n
  }

  /** Entry e of list i owns its one or two words. */
  predicate Owns(layout: seq<Owner>, base: nat, i: nat, e: Entry) {
    && base <= e.offset && (e.offset - base) % 4 == 0
    && e.offset + SizeOf(e.kind) <= base + 4 * |layout|
    && layout[(e.offset - base) / 4] == (i, e.kind)
    && (e.kind == TlsGd ==> layout[(e.offset - base) / 4 + 1] == (i, e.kind))
  }

  predicate Laid(g: Got, base: nat, layout: seq<Owner>) {
    && g.size == base + 4 * |layout|
    && forall i: nat, n | i < |g.lists| && 0 <= n < |g.lists[i]| :: Owns(layout, base, i, g.lists[i][n])
  }

  /** The range of an entry in the section. */
  predicate InRange(e: Entry, offset: int) {
    e.offset <= offset < e.offset + SizeOf(e.kind)
  }

  /** Word w lies in the range of its owner's entry. */
  predicate WordBacked(g: Got, base: nat, layout: seq<Owner>, w: nat)
    requires w < |layout|
  {
    var o := layout[w];
    && o.0 < |g.lists| && Has(g.lists[o.0], o.1)
    && InRange(g.lists[o.0][Find(g.lists[o.0], o.1)], base + 4 * w)
  }

  predicate Backed(g: Got, base: nat, layout: seq<Owner>) {
    forall w: nat | w < |layout| :: WordBacked(g, base, layout, w)
  }

  predicate Counted(g: Got, base: nat) {
    && g.size == base + Total(BYTES, g.lists)
    && RELA_SIZE * Total(Reserved(g.pic, Globals(g)), g.lists) <= g.relSize
    && |g.relocs| <= Total(Spent(g.pic, Globals(g)), g.lists)
  }

  /** The entry of an owner, when the owner has one. */
  predicate Marked(g: Got, o: Owner, processed: bool) {
    && o.0 < |g.lists| && Has(g.lists[o.0], o.1)
    && var e := g.lists[o.0][Find(g.lists[o.0], o.1)];
       if processed then e.processed else e.created
  }

  /** An offset written lies in a word whose owner is marked as done. */
  predicate Placed(g: Got, base: nat, layout: seq<Owner>, offset: nat, processed: bool) {
    && base <= offset && (offset - base) % 4 == 0 && (offset - base) / 4 < |layout|
    && Marked(g, layout[(offset - base) / 4], processed)
  }

  predicate Emitted(g: Got, base: nat, layout: seq<Owner>) {
    && (forall a | 0 <= a < |g.relocs| :: Placed(g, base, layout, g.relocs[a].offset, false))
    && (forall a, b | 0 <= a < b < |g.relocs| :: g.relocs[a].offset != g.relocs[b].offset)
  }

  predicate Patched(g: Got, base: nat, layout: seq<Owner>) {
    && (forall a | 0 <= a < |g.patches| :: Placed(g, base, layout, g.patches[a], true))
    && (forall a, b | 0 <= a < b < |g.patches| :: g.patches[a] != g.patches[b])
  }

  predicate Inv(g: Got, base: nat, layout: seq<Owner>) {
    && WellFormed(g) && KindsOk(g) && Laid(g, base, layout) && Backed(g, base, layout) && Counted(g, base)
    && Emitted(g, base, layout) && Patched(g, base, layout)
  }

  // Requests.

  predicate SameBut(g: Got, g': Got) {
    && g'.pic == g.pic && g'.relocs == g.relocs && g'.patches == g.patches && WellFormed(g')
    && |g'.syms| == |g.syms| && Globals(g') == Globals(g)
  }

  lemma AddRefShape(g: Got, i: nat, reserve: bool, o: Outcome)
    requires WellFormed(g) && i < |g.lists|
    ensures var (g', ok) := AddRef(g, i, reserve, o);
            && SameBut(g, g') && g'.lists == g.lists
            && g'.size == g.size + (if ok then 4 else 0)
            && g'.relSize == g.relSize + (if reserve then RELA_SIZE else 0)
            && (ok ==> !Unrecorded(g'.syms[i]))
            && (!Unrecorded(g.syms[i]) ==> ok)
  {
  }

  /** The symbol of a list has its index already, is local, or can be given one. */
  predicate Recordable(s: Symbol, o: Outcome) {
    s.Local? || s.dynindx != -1 || s.forcedLocal || !o.Failed?
  }

  /** The symbol after a request for a new entry. */
  function RecordedAs(s: Symbol, o: Outcome): Symbol {
    if s.Local? || s.dynindx != -1 || s.forcedLocal then s
    else match o
         case Recorded(index) => Global(index, false, s.defRegular, s.undefWeak)
         case ForcedLocal => Global(-1, true, s.defRegular, s.undefWeak)
         case Failed(index) => Global(index, false, s.defRegular, s.undefWeak)
  }

  function NewEntry(k: Kind, offset: nat): Entry {
    Entry(k, offset, false, false, if k == Normal then NoTls else if k == TlsGd then ModAndOff else Off)
  }

  /** When a request succeeds, and all it does: an entry of the kind is there already and nothing
      changes; or a new one takes the words at the end of the section, with room for a relocation of
      each word that can have one; or the symbol cannot be recorded, and room for one is lost. */
  lemma FillExactly(g: Got, k: Kind, i: nat, o: Outcome)
    requires WellFormed(g) && i < |g.lists|
    ensures Fill(g, k, i, o).1 <==> Has(g.lists[i], k) || (k != Unknown && Recordable(g.syms[i], o))
    ensures Has(g.lists[i], k) || k == Unknown ==> Fill(g, k, i, o).0 == g
    ensures !Has(g.lists[i], k) && k != Unknown && Recordable(g.syms[i], o) ==>
              Fill(g, k, i, o).0 == g.(
                lists := g.lists[i := g.lists[i] + [NewEntry(k, g.size)]],
                syms := g.syms[i := RecordedAs(g.syms[i], o)],
                size := g.size + (if k == TlsGd then 8 else 4),
                relSize := g.relSize + (if k == TlsGd then 24
                                        else if k == Normal && !g.pic && g.syms[i].Local? then 0 else 12))
    ensures !Has(g.lists[i], k) && k != Unknown && !Recordable(g.syms[i], o) ==>
              Fill(g, k, i, o).0 == g.(syms := g.syms[i := RecordedAs(g.syms[i], o)], relSize := g.relSize + 12)
  {
    if !Has(g.lists[i], k) && k != Unknown {
      if Recordable(g.syms[i], o) {
        FillGranted(g, k, i, o);
      } else {
        FillRefused(g, k, i, o);
      }
    }
  }

  /** One use of the macro with a symbol that can be recorded, and with one that cannot. */
  lemma AddRefExactly(g: Got, i: nat, reserve: bool, o: Outcome)
    requires WellFormed(g) && i < |g.lists|
    ensures AddRef(g, i, reserve, o) == (
              g.(syms := g.syms[i := RecordedAs(g.syms[i], o)],
                 size := g.size + (if Recordable(g.syms[i], o) then 4 else 0),
                 relSize := g.relSize + (if reserve then 12 else 0)),
              Recordable(g.syms[i], o))
  {
    assert g.syms[i := g.syms[i]] == g.syms;
  }

  lemma FillGranted(g: Got, k: Kind, i: nat, o: Outcome)
    requires WellFormed(g) && i < |g.lists| && !Has(g.lists[i], k) && k != Unknown && Recordable(g.syms[i], o)
    ensures Fill(g, k, i, o) == (g.(
              lists := g.lists[i := g.lists[i] + [NewEntry(k, g.size)]],
              syms := g.syms[i := RecordedAs(g.syms[i], o)],
              size := g.size + (if k == TlsGd then 8 else 4),
              relSize := g.relSize + (if k == TlsGd then 24
                                      else if k == Normal && !g.pic && g.syms[i].Local? then 0 else 12)), true)
  {
    var reserve := k != Normal || g.pic || g.syms[i].Global?;
    AddRefExactly(g, i, reserve, o);
    var (g1, ok) := AddRef(g, i, reserve, o);
    if k == TlsGd {
      AddRefExactly(g1, i, true, o);
      assert g1.syms[i := RecordedAs(g1.syms[i], o)] == g1.syms;
    }
  }

  lemma FillRefused(g: Got, k: Kind, i: nat, o: Outcome)
    requires WellFormed(g) && i < |g.lists| && !Has(g.lists[i], k) && k != Unknown && !Recordable(g.syms[i], o)
    ensures Fill(g, k, i, o) ==
              (g.(syms := g.syms[i := RecordedAs(g.syms[i], o)], relSize := g.relSize + 12), false)
  {
    AddRefExactly(g, i, true, o);
  }

  /** A request changes nothing but relocation space and the symbol, or adds one entry with fresh
      words: a failed recording never takes words, because only the first of two uses can fail. */
  lemma FillShape(g: Got, k: Kind, i: nat, o: Outcome)
    requires WellFormed(g) && i < |g.lists|
    ensures var (g', ok) := Fill(g, k, i, o);
            && SameBut(g, g')
            && (if ok && !Has(g.lists[i], k) then
                  && k != Unknown
                  && g'.lists == g.lists[i := g.lists[i] + [NewEntry(k, g.size)]]
                  && g'.size == g.size + SizeOf(k)
                  && g'.relSize == g.relSize + RELA_SIZE * Quota(g.pic, g.syms[i].Global?, k)
                else
                  g'.lists == g.lists && g'.size == g.size && g'.relSize >= g.relSize)
  {
    FillExactly(g, k, i, o);
    var g' := Fill(g, k, i, o).0;
    assert forall j | 0 <= j < |g.syms| :: g'.syms[j].Global? == g.syms[j].Global?;
  }
}
