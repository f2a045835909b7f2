/** The table in memory: linked lists of entries, and the link state they grow. */
module GotLists {
  import opened MachineInts
  import opened GotSpec

  class GotEntry {
    var next: GotEntry?
    var kind: Kind
    var offset: nat
    var processed: bool
    var createdDynRelocation: bool
    var existingEntries: Existing
    ghost const owner: GotList

    constructor (kind: Kind, offset: nat, existing: Existing, ghost owner: GotList)
      ensures next == null && this.owner == owner && Value() == Entry(kind, offset, false, false, existing)
    {
      this.next, this.kind, this.offset := null, kind, offset;
      this.processed, this.createdDynRelocation := false, false;
      this.existingEntries := existing;
      this.owner := owner;
    }

    function Value(): Entry
      reads this
    {
      Entry(kind, offset, processed, createdDynRelocation, existingEntries)
    }
  }

  /** A list head; its nodes in order. */
  class GotList {
    var head: GotEntry?
    ghost var nodes: seq<GotEntry>

    ghost predicate Valid()
      reads this, nodes
    {
      && head == (if nodes == [] then null else nodes[0])
      && (forall i | 0 <= i < |nodes| :: nodes[i].owner == this)
      && (forall i | 0 <= i < |nodes| - 1 :: nodes[i].next == nodes[i + 1])
      && (nodes != [] ==> nodes[|nodes| - 1].next == null)
      && (forall i, j | 0 <= i < j < |nodes| :: nodes[i] != nodes[j])
    }

    ghost function Entries(): (r: seq<Entry>)
      reads this, nodes
      ensures |r| == |nodes|
    {
      seq(|nodes|, i requires 0 <= i < |nodes| reads this, nodes => nodes[i].Value())
    }

    constructor ()
      ensures Valid() && nodes == [] && Entries() == []
    {
      head, nodes := null, [];
    }

    /** got_entry_for_type: the first entry of a kind. */
    method EntryForType(k: Kind) returns (e: GotEntry?)
      requires Valid()
      ensures e == null <==> !Has(Entries(), k)
      ensures e != null ==> e == nodes[Find(Entries(), k)]
    {
      e := head;
      ghost var n := 0;
      while e != null
        invariant 0 <= n <= |nodes|
        invariant e == if n < |nodes| then nodes[n] else null
        invariant Find(Entries(), k) == FindFrom(Entries(), k, n)
        decreases |nodes| - n
      {
        if e.kind == k {
          assert Entries()[n].kind == k;
          return;
        }
        assert Entries()[n].kind != k;
        e := e.next;
        n := n + 1;
      }
    }

    /** new_got_entry_to_list: walk to the end, unless an entry of the kind is there already. */
    method NewEntry(k: Kind, offset: nat, existing: Existing)
      requires Valid()
      modifies this, nodes
      ensures Valid()
      ensures Entries() == if Has(old(Entries()), k) then old(Entries())
                           else old(Entries()) + [Entry(k, offset, false, false, existing)]
      ensures nodes == old(nodes) || (|nodes| == |old(nodes)| + 1 && nodes[..|old(nodes)|] == old(nodes)
                                      && fresh(nodes[|old(nodes)|]))
    {
      var last: GotEntry?, p := null, head;
      ghost var n := 0;
      while p != null
        invariant 0 <= n <= |nodes|
        invariant p == if n < |nodes| then nodes[n] else null
        invariant last == if n == 0 then null else nodes[n - 1]
        invariant Find(Entries(), k) == FindFrom(Entries(), k, n)
        decreases |nodes| - n
      {
        if p.kind == k {
          assert Entries()[n].kind == k;
          return;
        }
        assert Entries()[n].kind != k;
        last, p := p, p.next;
        n := n + 1;
      }
      var entry := new GotEntry(k, offset, existing, this);
      if last == null {
        head := entry;
      } else {
        last.next := entry;
      }
      nodes := nodes + [entry];
    }

    /** The links are as they were. */
    twostate lemma SameLinks()
      requires old(Valid()) && nodes == old(nodes) && head == old(head)
      requires forall i | 0 <= i < |nodes| :: nodes[i].next == old(nodes[i].next)
      ensures Valid()
    {
    }

    /** Mark node n; the rest of the list is untouched. */
    method MarkProcessed(ghost n: nat, e: GotEntry)
      requires Valid() && n < |nodes| && e == nodes[n]
      modifies e`processed
      ensures Valid()
      ensures Entries() == old(Entries())[n := old(Entries())[n].(processed := true)]
    {
      e.processed := true;
      SameLinks();
    }

    method MarkCreated(ghost n: nat, e: GotEntry)
      requires Valid() && n < |nodes| && e == nodes[n]
      modifies e`createdDynRelocation
      ensures Valid()
      ensures Entries() == old(Entries())[n := old(Entries())[n].(created := true)]
    {
      e.createdDynRelocation := true;
      SameLinks();
    }
  }

  // The link state.

  class Linker {
    const pic: bool
    const symbolic: bool
    const lists: seq<GotList>
    var syms: seq<Symbol>
    var gotSize: nat
    var relSize: nat
    var contents: map<nat, int>
    var relocs: seq<Reloc>
    var patches: seq<nat>

    /** The nodes of all lists. */
    ghost function Nodes(): set<GotEntry>
      reads lists
    {
      set l, n | l in lists && n in l.nodes :: n
    }

    ghost predicate ListValid(i: nat)
      requires i < |lists|
      reads lists, Nodes()
    {
      assert forall n | n in lists[i].nodes :: n in Nodes();
      lists[i].Valid()
    }

    ghost predicate Valid()
      reads this, lists, Nodes()
    {
      && |lists| == |syms|
      && (forall i | 0 <= i < |lists| :: ListValid(i))
      && (forall i, j | 0 <= i < j < |lists| :: lists[i] != lists[j])
    }

    ghost function State(): (g: Got)
      reads this, lists, Nodes()
      ensures |g.lists| == |lists|
    {
      Got(pic, symbolic,
          seq(|lists|, i requires 0 <= i < |lists| reads lists, Nodes() => ListAt(i)),
          syms, gotSize, relSize, contents, relocs, patches)
    }

    ghost function ListAt(i: nat): seq<Entry>
      requires i < |lists|
      reads lists, Nodes()
    {
      assert forall n | n in lists[i].nodes :: n in Nodes();
      lists[i].Entries()
    }

    /** Only the fields of the link state changed. */
    twostate lemma SameLists()
      requires forall l | l in lists :: l.head == old(l.head) && l.nodes == old(l.nodes)
      requires forall n | n in old(Nodes()) :: n.Value() == old(n.Value()) && n.next == old(n.next)
      ensures State().lists == old(State().lists)
      ensures forall i | 0 <= i < |lists| && old(ListValid(i)) :: ListValid(i)
    {
      forall i | 0 <= i < |lists|
        ensures ListAt(i) == old(ListAt(i))
        ensures old(ListValid(i)) ==> ListValid(i)
      {
        assert forall n | n in lists[i].nodes :: n in old(Nodes());
        if old(ListValid(i)) {
          lists[i].SameLinks();
        }
      }
    }

    constructor (pic: bool, symbolic: bool, lists: seq<GotList>, syms: seq<Symbol>, headerSize: nat)
      requires |lists| == |syms|
      requires forall i | 0 <= i < |lists| :: lists[i].Valid() && lists[i].nodes == []
      requires forall i, j | 0 <= i < j < |lists| :: lists[i] != lists[j]
      ensures Valid() && Fresh(State()) && this.lists == lists && gotSize == headerSize
    {
      this.pic, this.symbolic, this.lists, this.syms := pic, symbolic, lists, syms;
      gotSize, relSize, contents, relocs, patches := headerSize, 0, map[], [], [];
    }

    /** The macro: reserve relocation space, record the symbol, add a word. */
    method AddSymbolRef(i: nat, reserve: bool, o: Outcome) returns (ok: bool)
      requires Valid() && i < |lists|
      modifies this`syms, this`gotSize, this`relSize
      ensures Valid() && (State(), ok) == AddRef(old(State()), i, reserve, o)
    {
      if reserve {
        relSize := relSize + RELA_SIZE;
      }
      if syms[i].Global? && syms[i].dynindx == -1 && !syms[i].forcedLocal {
        syms := syms[i := Record(syms[i], o)];
        if o.Failed? {
          SameLists();
          return false;
        }
      }
      gotSize := gotSize + 4;
      SameLists();
      return true;
    }

    /** One list changed, and perhaps the fields of the link state; the owners of the nodes tell
        the lists apart. */
    twostate lemma ChangedList(i: nat)
      requires i < |lists| && old(Valid()) && lists[i].Valid()
      requires forall l | l in lists && l != lists[i] :: l.head == old(l.head) && l.nodes == old(l.nodes)
      requires forall n | n in old(Nodes()) && n.owner != lists[i] ::
        n.Value() == old(n.Value()) && n.next == old(n.next)
      ensures State().lists == old(State().lists)[i := lists[i].Entries()]
      ensures forall j | 0 <= j < |lists| :: ListValid(j)
    {
      forall j | 0 <= j < |lists| && j != i
        ensures ListAt(j) == old(ListAt(j)) && ListValid(j)
      {
        assert old(ListValid(j));
        assert lists[j] != lists[i];
        forall n | n in lists[j].nodes
          ensures n in old(Nodes()) && n.owner != lists[i]
        {
        }
        lists[j].SameLinks();
      }
      assert ListAt(i) == lists[i].Entries();
    }

    /** The entry of a kind in the list of a symbol. */
    method Lookup(k: Kind, i: nat) returns (e: GotEntry?)
      requires Valid() && i < |lists|
      ensures Valid() && State() == old(State()) && State().lists[i] == lists[i].Entries()
      ensures |lists[i].Entries()| == |lists[i].nodes|
      ensures e == null <==> !Has(State().lists[i], k)
      ensures e != null ==> e == lists[i].nodes[Find(State().lists[i], k)]
      ensures e != null ==> e.Value() == State().lists[i][Find(State().lists[i], k)]
    {
      assert ListValid(i);
      assert State().lists[i] == lists[i].Entries();
      e := lists[i].EntryForType(k);
      SameLists();
    }

    /** What the rest of the linker does to a symbol: a new index, a definition, a visibility. */
    method SetSymbol(i: nat, s: Symbol)
      requires Valid() && Admits(State(), SymOp(i, s))
      modifies this`syms
      ensures Valid() && State() == Apply(old(State()), SymOp(i, s)) && syms == old(syms)[i := s]
    {
      syms := syms[i := s];
      SameLists();
    }

    /** The new entry, once its words are there. */
    method AddEntry(k: Kind, i: nat, offset: nat, existing: Existing)
      requires Valid() && i < |lists| && !Has(State().lists[i], k)
      modifies lists[i], lists[i].nodes
      ensures Valid()
      ensures State() == Append(old(State()), i, Entry(k, offset, false, false, existing))
    {
      assert ListValid(i);
      assert State().lists[i] == lists[i].Entries();
      label before:
      lists[i].NewEntry(k, offset, existing);
      ChangedList@before(i);
    }

    /** The GD case: two words, each with room for a relocation. */
    method FillGd(i: nat, o: Outcome) returns (ok: bool)
      requires Valid() && i < |lists| && !Has(State().lists[i], TlsGd)
      modifies this`syms, this`gotSize, this`relSize, lists[i], lists[i].nodes
      ensures Valid() && (State(), ok) == Fill(old(State()), TlsGd, i, o)
    {
      var offset := gotSize;
      ok := AddSymbolRef(i, true, o);
      if ok {
        ok := AddSymbolRef(i, true, o);
        if ok {
          AddEntry(TlsGd, i, offset, ModAndOff);
        }
      }
    }

    /** arc_fill_got_info_for_reloc. */
    method FillGotInfo(k: Kind, i: nat, o: Outcome) returns (ok: bool)
      requires Valid() && i < |lists|
      modifies this`syms, this`gotSize, this`relSize, lists[i], lists[i].nodes
      ensures Valid() && (State(), ok) == Fill(old(State()), k, i, o)
    {
      var e := Lookup(k, i);
      if e != null {
        return true;
      }
      var offset := gotSize;
      match k {
        case Normal =>
          ok := AddSymbolRef(i, pic || syms[i].Global?, o);
          if ok {
            AddEntry(k, i, offset, NoTls);
          }
        case TlsGd =>
          ok := FillGd(i, o);
        case Unknown =>
          ok := false;
        case _ =>
          ok := AddSymbolRef(i, true, o);
          if ok {
            AddEntry(k, i, offset, Off);
          }
      }
    }

    /** relocate_fix_got_relocs_for_got_info. */
    method FixGot(k: Kind, i: nat, env: Env) returns (offset: Option<nat>)
      requires Valid() && i < |lists|
      modifies this`contents, this`patches, lists[i], lists[i].nodes
      ensures Valid() && (State(), offset) == Fix(old(State()), k, i, env)
    {
      if k == Unknown || k == TlsLe {
        return Some(0);
      }
      var entry := Lookup(k, i);
      if entry == null {
        return None;
      }
      offset := Some(entry.offset);
      var s := syms[i];
      if (s.Local? || s.forcedLocal || !env.dynamicCreated || (pic && env.refsLocal)) && !entry.processed {
        StoreWord(PatchOf(entry.Value(), s, env));
        SetProcessed(i, Find(State().lists[i], k), entry);
      }
    }

    /** bfd_put_32 into the section, when there is a word to store. */
    method StoreWord(p: Option<(nat, int)>)
      requires Valid()
      modifies this`contents, this`patches
      ensures Valid() && State() == Store(old(State()), p)
    {
      if p.Some? {
        contents := contents[p.value.0 := p.value.1];
        patches := patches + [p.value.0];
      }
      SameLists();
    }

    /** elf_arc_relocate_section in a link at fixed addresses: the address into the slot at the list's head. */
    method PutAddress(i: nat, word: int)
      requires Valid() && i < |lists|
      modifies this`contents
      ensures Valid() && State() == Put(old(State()), i, word)
    {
      assert ListValid(i);
      assert State().lists[i] == lists[i].Entries();
      var entry := lists[i].head;
      if entry != null {
        contents := contents[entry.offset := word % TWO32];
      }
      SameLists();
    }

    method SetProcessed(i: nat, ghost n: nat, e: GotEntry)
      requires Valid() && i < |lists| && n < |lists[i].nodes| && e == lists[i].nodes[n]
      modifies e`processed
      ensures Valid() && State() == SetEntry(old(State()), i, n, old(State()).lists[i][n].(processed := true))
    {
      assert ListValid(i);
      assert State().lists[i] == lists[i].Entries();
      lists[i].MarkProcessed(n, e);
      ChangedList(i);
    }

    method SetCreated(i: nat, ghost n: nat, e: GotEntry)
      requires Valid() && i < |lists| && n < |lists[i].nodes| && e == lists[i].nodes[n]
      modifies e`createdDynRelocation
      ensures Valid() && State() == SetEntry(old(State()), i, n, old(State()).lists[i][n].(created := true))
    {
      assert ListValid(i);
      assert State().lists[i] == lists[i].Entries();
      lists[i].MarkCreated(n, e);
      ChangedList(i);
    }

    /** ADD_RELA: one relocation, or none without dynamic sections. */
    method AddRela(r: Reloc, dynamicCreated: bool)
      requires Valid()
      modifies this`relocs
      ensures Valid() && State() == old(State()).(relocs := relocs)
      ensures relocs == old(relocs) + if dynamicCreated then [r] else []
    {
      if dynamicCreated {
        relocs := relocs + [r];
      }
      SameLists();
    }

    /** The relocation of the offset word; an IE entry passes on the word stored there. */
    function OffsetReloc(e: GotEntry, dynindx: int): Reloc
      reads this`contents, e
    {
      Reloc(SlotOf(e.Value()), dynindx, if e.kind == TlsIe then TpOff else DtpOff,
            if e.kind == TlsIe && e.offset in contents then contents[e.offset] else 0)
    }

    /** The relocations of a TLS entry. */
    method CreateTls(e: GotEntry, s: Symbol, dynamicCreated: bool)
      requires Valid() && e.kind != Normal
      modifies this`relocs
      ensures Valid() && State() == old(State()).(relocs := relocs)
      ensures relocs == old(relocs) + if dynamicCreated then RelocsOf(old(State()), e.Value(), s) else []
    {
      var dynindx := if s.Local? || s.dynindx == -1 then 0 else s.dynindx;
      ghost var first := if e.existingEntries == ModAndOff || e.existingEntries == Mod
                         then [Reloc(e.offset, dynindx, DtpMod, 0)] else [];
      ghost var second := if e.existingEntries == ModAndOff || e.existingEntries == Off
                          then [OffsetReloc(e, dynindx)] else [];
      assert RelocsOf(State(), e.Value(), s) == first + second;
      if e.existingEntries == ModAndOff || e.existingEntries == Mod {
        AddRela(Reloc(e.offset, dynindx, DtpMod, 0), dynamicCreated);
      }
      assert relocs == old(relocs) + if dynamicCreated then first else [];
      if e.existingEntries == ModAndOff || e.existingEntries == Off {
        AddRela(OffsetReloc(e, dynindx), dynamicCreated);
      }
    }

    /** create_got_dynrelocs_for_single_entry. */
    method CreateDynrelocs(i: nat, ghost n: nat, e: GotEntry, dynamicCreated: bool)
      requires Valid() && i < |lists| && n < |lists[i].nodes| && e == lists[i].nodes[n]
      modifies this`relocs, e`createdDynRelocation
      ensures Valid() && State() == Emit(old(State()), i, n, dynamicCreated)
    {
      assert ListValid(i);
      assert State().lists[i] == lists[i].Entries();
      var s := syms[i];
      if e.kind == Normal && !e.createdDynRelocation {
        if pic && s.Global? && (symbolic || s.dynindx == -1) && s.defRegular {
          AddRela(Reloc(e.offset, 0, Relative, 0), dynamicCreated);
        } else if s.Global? && s.dynindx != -1 {
          AddRela(Reloc(e.offset, s.dynindx, GlobDat, 0), dynamicCreated);
        }
        SetCreated(i, n, e);
      } else if e.existingEntries != NoTls && !e.createdDynRelocation {
        CreateTls(e, s, dynamicCreated);
        SetCreated(i, n, e);
      }
    }

    /** create_got_dynrelocs_for_got_info: every entry of a symbol's list. */
    method CreateAllDynrelocs(i: nat, dynamicCreated: bool)
      requires Valid() && i < |lists|
      modifies this`relocs, lists[i].nodes
      ensures Valid() && State() == EmitList(old(State()), i, |old(State()).lists[i]|, dynamicCreated)
    {
      assert ListValid(i);
      var list := lists[i].head;
      ghost var n, g := 0, State();
      assert g.lists[i] == lists[i].Entries();
      while list != null
        invariant 0 <= n <= |lists[i].nodes| == |g.lists[i]|
        invariant lists[i].nodes == old(lists[i].nodes)
        invariant list == if n < |lists[i].nodes| then lists[i].nodes[n] else null
        invariant Valid() && State() == EmitList(g, i, n, dynamicCreated)
        decreases |lists[i].nodes| - n
      {
        CreateDynrelocs(i, n, list, dynamicCreated);
        assert ListValid(i);
        list := list.next;
        n := n + 1;
      }
    }
  }
}
