/** What a program finds in its slots once the module is linked and loaded. */
module GotLoaded {
  import opened MachineInts
  import opened GotSpec
  import opened GotInvariant
  import opened GotRuns
  import opened GotSlots
  import opened GotWords
  import opened GotLoader

  // The slots after loading, by kind.

  lemma EmissionPlace(gs: seq<Got>, ops: seq<Op>, s: nat, t: nat, k: Kind, i: nat)
    requires IsRun(gs, ops) && s < t <= |ops| && FirstEmission(gs, ops, s, k, i)
    ensures i < |gs[t].lists| && Has(gs[t].lists[i], k)
    ensures Slot(gs[t], i, k).offset == gs[s].lists[i][ops[s].n].offset
  {
    KindPlace(gs, ops, s, i, ops[s].n);
    SlotStays(gs, ops, s, t, k, i);
  }

  /** The relocations of the first emission, by themselves. */
  lemma Added(gs: seq<Got>, ops: seq<Op>, s: nat, k: Kind, i: nat, rs: seq<Reloc>)
    requires IsRun(gs, ops) && s < |ops| && FirstEmission(gs, ops, s, k, i)
    requires gs[s + 1].relocs == gs[s].relocs + rs
    ensures gs[s + 1].relocs[|gs[s].relocs|..] == rs
  {
  }

  lemma LoadOne(l: Loader, r: Reloc, w: nat, word: int)
    ensures LoadFirst(l, [r], 1, w, word) == if r.offset == w then LoadWord(l, r, word) else word
  {
    assert LoadFirst(l, [r], 0, w, word) == word;
  }

  lemma LoadGd(l: Loader, rs: seq<Reloc>, d: int, w: nat, word: int, word': int)
    requires rs == [Reloc(w, d, DtpMod, 0), Reloc(w + 4, d, DtpOff, 0)]
    ensures LoadFirst(l, rs, 2, w, word) == l.moduleOf(d) % 0x1_0000_0000
    ensures LoadFirst(l, rs, 2, w + 4, word') == (word' + l.tlsOffset(d)) % 0x1_0000_0000
  {
    assert LoadFirst(l, rs, 1, w, word) == LoadWord(l, rs[0], word);
    assert LoadFirst(l, rs, 1, w + 4, word') == word';
  }

  /** A GD slot with dynamic sections: the module of the symbol, and its offset there on top of the word
      the linker stored. */
  lemma GdLoaded(gs: seq<Got>, ops: seq<Op>, s: nat, t: nat, i: nat, l: Loader)
    requires IsRun(gs, ops) && s < t <= |ops| && FirstEmission(gs, ops, s, TlsGd, i) && ops[s].dynamicCreated
    ensures i < |gs[t].lists| && Has(gs[t].lists[i], TlsGd)
    ensures var d, w := SymbolIndex(gs[s].syms[i]), Slot(gs[t], i, TlsGd).offset;
            && Loaded(l, gs[t], w) == l.moduleOf(d) % 0x1_0000_0000
            && Loaded(l, gs[t], w + 4) == (WordAt(gs[t], w + 4) + l.tlsOffset(d)) % 0x1_0000_0000
  {
    EmissionPlace(gs, ops, s, t, TlsGd, i);
    EmissionStep(gs, ops, s, TlsGd, i);
    var d, w := SymbolIndex(gs[s].syms[i]), Slot(gs[t], i, TlsGd).offset;
    var r, r' := Reloc(w, d, DtpMod, 0), Reloc(w + 4, d, DtpOff, 0);
    EmitExactly(gs[s], i, ops[s].n, true);
    Added(gs, ops, s, TlsGd, i, [r, r']);
    SlotLoaded(gs, ops, s, t, TlsGd, i, w, l);
    SlotLoaded(gs, ops, s, t, TlsGd, i, w + 4, l);
    LoadGd(l, [r, r'], d, w, WordAt(gs[t], w), WordAt(gs[t], w + 4));
  }

  /** An IE slot: where the symbol is for this thread, on top of the word it had when the relocation was
      emitted. */
  lemma IeLoaded(gs: seq<Got>, ops: seq<Op>, s: nat, t: nat, i: nat, l: Loader)
    requires IsRun(gs, ops) && s < t <= |ops| && FirstEmission(gs, ops, s, TlsIe, i) && ops[s].dynamicCreated
    ensures i < |gs[t].lists| && Has(gs[t].lists[i], TlsIe)
    ensures var d, w := SymbolIndex(gs[s].syms[i]), Slot(gs[t], i, TlsIe).offset;
            Loaded(l, gs[t], w) == (l.block(d) + l.tlsOffset(d) + WordAt(gs[s], w)) % 0x1_0000_0000
  {
    EmissionPlace(gs, ops, s, t, TlsIe, i);
    EmissionStep(gs, ops, s, TlsIe, i);
    var d, w := SymbolIndex(gs[s].syms[i]), Slot(gs[t], i, TlsIe).offset;
    var r := Reloc(w, d, TpOff, WordAt(gs[s], w));
    EmitExactly(gs[s], i, ops[s].n, true);
    Added(gs, ops, s, TlsIe, i, [r]);
    SlotLoaded(gs, ops, s, t, TlsIe, i, w, l);
    LoadOne(l, r, w, WordAt(gs[t], w));
  }

  /** A GOT_NORMAL slot: the word the linker stored, moved to where the module is, if a symbol is defined
      here and binds here; the address the loader finds, for any other symbol that has an index; and
      the word as stored for the rest. */
  lemma NormalLoaded(gs: seq<Got>, ops: seq<Op>, s: nat, t: nat, i: nat, l: Loader)
    requires IsRun(gs, ops) && s < t <= |ops| && FirstEmission(gs, ops, s, Normal, i) && ops[s].dynamicCreated
    ensures i < |gs[t].lists| && Has(gs[t].lists[i], Normal)
    ensures var g, sym, w := gs[s], gs[s].syms[i], Slot(gs[t], i, Normal).offset;
            Loaded(l, gs[t], w) ==
              if g.pic && sym.Global? && (g.symbolic || sym.dynindx == -1) && sym.defRegular then
                (WordAt(gs[t], w) + l.base) % 0x1_0000_0000
              else if sym.Global? && sym.dynindx != -1 then l.address(sym.dynindx) % 0x1_0000_0000
              else WordAt(gs[t], w)
  {
    EmissionPlace(gs, ops, s, t, Normal, i);
    EmissionStep(gs, ops, s, Normal, i);
    var g, sym, w := gs[s], gs[s].syms[i], Slot(gs[t], i, Normal).offset;
    EmitExactly(gs[s], i, ops[s].n, true);
    SlotLoaded(gs, ops, s, t, Normal, i, w, l);
    if g.pic && sym.Global? && (g.symbolic || sym.dynindx == -1) && sym.defRegular {
      Added(gs, ops, s, Normal, i, [Reloc(w, 0, Relative, 0)]);
      LoadOne(l, Reloc(w, 0, Relative, 0), w, WordAt(gs[t], w));
    } else if sym.Global? && sym.dynindx != -1 {
      Added(gs, ops, s, Normal, i, [Reloc(w, sym.dynindx, GlobDat, 0)]);
      LoadOne(l, Reloc(w, sym.dynindx, GlobDat, 0), w, WordAt(gs[t], w));
    } else {
      Added(gs, ops, s, Normal, i, []);
    }
  }

  /** Without dynamic sections nothing is emitted, and the loader leaves every slot as it was linked. */
  lemma StaticLoaded(gs: seq<Got>, ops: seq<Op>, s: nat, t: nat, k: Kind, i: nat, w: nat, l: Loader)
    requires IsRun(gs, ops) && s < t <= |ops| && FirstEmission(gs, ops, s, k, i) && !ops[s].dynamicCreated
    requires i < |gs[t].lists| && Has(gs[t].lists[i], k) && InRange(Slot(gs[t], i, k), w)
    ensures Loaded(l, gs[t], w) == WordAt(gs[t], w)
  {
    EmissionStep(gs, ops, s, k, i);
    EmitExactly(gs[s], i, ops[s].n, false);
    Added(gs, ops, s, k, i, []);
    SlotLoaded(gs, ops, s, t, k, i, w, l);
  }

  // When the program finds the right values.

  lemma {:induction false} EarliestStatic(gs: seq<Got>, ops: seq<Op>, t: nat, k: Kind, i: nat) returns (f: nat)
    requires IsRun(gs, ops) && t < |ops| && StaticFix(gs, ops, t, k, i)
    ensures f <= t && FirstStatic(gs, ops, f, k, i)
  {
    if exists u: nat :: u < t && StaticFix(gs, ops, u, k, i) {
      var u: nat :| u < t && StaticFix(gs, ops, u, k, i);
      f := EarliestStatic(gs, ops, u, k, i);
    } else {
      f := t;
    }
  }

  /** The relocation at f stores the symbol's offset in its GD slot. */
  predicate GdStores(gs: seq<Got>, ops: seq<Op>, f: nat, i: nat)
    requires IsRun(gs, ops) && f < |ops|
  {
    && FirstStatic(gs, ops, f, TlsGd, i)
    && (gs[f].syms[i].Local? || gs[f].syms[i].forcedLocal || !ops[f].env.dynamicCreated)
  }

  predicate GdStored(gs: seq<Got>, ops: seq<Op>, t: nat, i: nat)
    requires IsRun(gs, ops) && t <= |ops|
  {
    exists f: nat :: f < t && GdStores(gs, ops, f, i)
  }

  /** The second word of a GD slot before loading. */
  lemma GdLinked(gs: seq<Got>, ops: seq<Op>, t: nat, i: nat, offset: int)
    requires IsRun(gs, ops) && t <= |ops| && i < |gs[t].lists| && Has(gs[t].lists[i], TlsGd)
    requires WordAt(gs[0], Slot(gs[t], i, TlsGd).offset + 4) == 0
    requires forall f: nat | f < t && GdStores(gs, ops, f, i) ::
               (ops[f].env.symValue - ops[f].env.tlsVma) % 0x1_0000_0000 == offset
    ensures WordAt(gs[t], Slot(gs[t], i, TlsGd).offset + 4) == if GdStored(gs, ops, t, i) then offset else 0
  {
    var w := Slot(gs[t], i, TlsGd).offset + 4;
    if f: nat :| f < t && GdStores(gs, ops, f, i) {
      GdWords(gs, ops, f, t, i);
    } else if u: nat :| u < t && StaticFix(gs, ops, u, TlsGd, i) {
      var f := EarliestStatic(gs, ops, u, TlsGd, i);
      assert !GdStores(gs, ops, f, i);
      GdWords(gs, ops, f, t, i);
    } else {
      WordsBefore(gs, ops, t, t, TlsGd, i, w);
    }
  }

  /** A GD slot gives the symbol's module; and its offset there exactly if that is zero, or the linker
      stored it for a symbol without index, or it did not for one with an index. */
  lemma GdExactly(gs: seq<Got>, ops: seq<Op>, s: nat, t: nat, i: nat, l: Loader, offset: int)
    requires IsRun(gs, ops) && s < t <= |ops| && FirstEmission(gs, ops, s, TlsGd, i) && ops[s].dynamicCreated
    requires i < |gs[t].lists| && Has(gs[t].lists[i], TlsGd)
    requires WordAt(gs[0], Slot(gs[t], i, TlsGd).offset + 4) == 0 && 0 <= offset < 0x1_0000_0000
    requires forall f: nat | f < t && GdStores(gs, ops, f, i) ::
               (ops[f].env.symValue - ops[f].env.tlsVma) % 0x1_0000_0000 == offset
    requires var d := SymbolIndex(gs[s].syms[i]); l.tlsOffset(d) == if d == 0 then 0 else offset
    ensures var d, w := SymbolIndex(gs[s].syms[i]), Slot(gs[t], i, TlsGd).offset;
            && Loaded(l, gs[t], w) == l.moduleOf(d) % 0x1_0000_0000
            && (Loaded(l, gs[t], w + 4) == offset <==> offset == 0 || (GdStored(gs, ops, t, i) <==> d == 0))
  {
    GdLoaded(gs, ops, s, t, i, l);
    GdLinked(gs, ops, t, i, offset);
    var d, w := SymbolIndex(gs[s].syms[i]), Slot(gs[t], i, TlsGd).offset + 4;
    SumIs(0, WordAt(gs[t], w), l.tlsOffset(d), offset);
  }

  /** Of two numbers that are each zero or x, the sum is x modulo 2^32 exactly if one of them is. */
  lemma SumIs(b: int, a: int, a': int, x: int)
    requires 0 <= x < 0x1_0000_0000 && (a == 0 || a == x) && (a' == 0 || a' == x)
    ensures (b + a' + a) % 0x1_0000_0000 == (b + x) % 0x1_0000_0000 <==> x == 0 || (a == 0) != (a' == 0)
    ensures x % 0x1_0000_0000 == x
  {
  }

  predicate IeStored(gs: seq<Got>, ops: seq<Op>, s: nat, i: nat)
    requires IsRun(gs, ops) && s <= |ops|
  {
    exists f: nat :: f < s && FirstStatic(gs, ops, f, TlsIe, i)
  }

  /** The word of an IE slot when its relocation is emitted. */
  lemma IeLinked(gs: seq<Got>, ops: seq<Op>, s: nat, i: nat, offset: int)
    requires IsRun(gs, ops) && s <= |ops| && i < |gs[s].lists| && Has(gs[s].lists[i], TlsIe)
    requires WordAt(gs[0], Slot(gs[s], i, TlsIe).offset) == 0 && NoPuts(gs, ops, 0, s, TlsIe, i)
    requires forall f: nat | f < s && FirstStatic(gs, ops, f, TlsIe, i) :: ops[f].env.dynamicCreated
               && (ops[f].env.symValue - ops[f].env.tlsVma) % 0x1_0000_0000 == offset
    ensures WordAt(gs[s], Slot(gs[s], i, TlsIe).offset) == if IeStored(gs, ops, s, i) then offset else 0
  {
    if f: nat :| f < s && FirstStatic(gs, ops, f, TlsIe, i) {
      IeWord(gs, ops, f, s, i);
    } else {
      forall u: nat | u < s
        ensures !StaticFix(gs, ops, u, TlsIe, i)
      {
        if StaticFix(gs, ops, u, TlsIe, i) {
          var f := EarliestStatic(gs, ops, u, TlsIe, i);
        }
      }
      UnresolvedWord(gs, ops, s, TlsIe, i, Slot(gs[s], i, TlsIe).offset);
    }
  }

  /** An IE slot gives the place of the symbol for this thread exactly if its offset is zero, or the linker
      stored that before it emitted the relocation of a symbol without index, or it did not for one with
      an index: a symbol of a shared object that binds there and has an index counts twice. */
  lemma IeExactly(gs: seq<Got>, ops: seq<Op>, s: nat, t: nat, i: nat, l: Loader, offset: int)
    requires IsRun(gs, ops) && s < t <= |ops| && FirstEmission(gs, ops, s, TlsIe, i) && ops[s].dynamicCreated
    requires i < |gs[s].lists| && Has(gs[s].lists[i], TlsIe) && NoPuts(gs, ops, 0, s, TlsIe, i)
    requires WordAt(gs[0], Slot(gs[s], i, TlsIe).offset) == 0 && 0 <= offset < 0x1_0000_0000
    requires forall f: nat | f < s && FirstStatic(gs, ops, f, TlsIe, i) :: ops[f].env.dynamicCreated
               && (ops[f].env.symValue - ops[f].env.tlsVma) % 0x1_0000_0000 == offset
    requires var d := SymbolIndex(gs[s].syms[i]); l.tlsOffset(d) == if d == 0 then 0 else offset
    ensures var d, w := SymbolIndex(gs[s].syms[i]), Slot(gs[s], i, TlsIe).offset;
            Loaded(l, gs[t], w) == (l.block(d) + offset) % 0x1_0000_0000 <==>
              offset == 0 || (IeStored(gs, ops, s, i) <==> d == 0)
  {
    IeLoaded(gs, ops, s, t, i, l);
    SlotStays(gs, ops, s, t, TlsIe, i);
    IeLinked(gs, ops, s, i, offset);
    var d, w := SymbolIndex(gs[s].syms[i]), Slot(gs[s], i, TlsIe).offset;
    SumIs(l.block(d), WordAt(gs[s], w), l.tlsOffset(d), offset);
  }

  predicate NormalStores(gs: seq<Got>, ops: seq<Op>, f: nat, i: nat)
    requires IsRun(gs, ops) && f < |ops|
  {
    FirstStatic(gs, ops, f, Normal, i) && (gs[f].syms[i].Local? || !gs[f].syms[i].undefWeak)
  }

  predicate NormalStored(gs: seq<Got>, ops: seq<Op>, t: nat, i: nat)
    requires IsRun(gs, ops) && t <= |ops|
  {
    exists f: nat :: f < t && NormalStores(gs, ops, f, i)
  }

  /** The word of a GOT_NORMAL slot before loading. */
  lemma NormalLinked(gs: seq<Got>, ops: seq<Op>, t: nat, i: nat, address: int)
    requires IsRun(gs, ops) && t <= |ops| && i < |gs[t].lists| && Has(gs[t].lists[i], Normal)
    requires WordAt(gs[0], Slot(gs[t], i, Normal).offset) == 0 && NoPuts(gs, ops, 0, t, Normal, i)
    requires forall f: nat | f < t && NormalStores(gs, ops, f, i) ::
               (ops[f].env.symValue + ops[f].env.secVma) % 0x1_0000_0000 == address
    ensures WordAt(gs[t], Slot(gs[t], i, Normal).offset) == if NormalStored(gs, ops, t, i) then address else 0
  {
    var w := Slot(gs[t], i, Normal).offset;
    if f: nat :| f < t && NormalStores(gs, ops, f, i) {
      NormalWord(gs, ops, f, t, i);
    } else if u: nat :| u < t && StaticFix(gs, ops, u, Normal, i) {
      var f := EarliestStatic(gs, ops, u, Normal, i);
      assert !NormalStores(gs, ops, f, i);
      NormalWord(gs, ops, f, t, i);
      WordsBefore(gs, ops, f, t, Normal, i, w);
    } else {
      UnresolvedWord(gs, ops, t, Normal, i, w);
    }
  }

  /** A GOT_NORMAL slot of a symbol defined in the module gives its address: always with a relocation that
      names the symbol; with one that moves the stored word, exactly if the linker stored the address or
      that is zero; with none, exactly if it stored it and the module is where it was linked for. */
  lemma NormalExactly(gs: seq<Got>, ops: seq<Op>, s: nat, t: nat, i: nat, l: Loader, address: int)
    requires IsRun(gs, ops) && s < t <= |ops| && FirstEmission(gs, ops, s, Normal, i) && ops[s].dynamicCreated
    requires i < |gs[t].lists| && Has(gs[t].lists[i], Normal) && NoPuts(gs, ops, 0, t, Normal, i)
    requires WordAt(gs[0], Slot(gs[t], i, Normal).offset) == 0 && 0 <= address < 0x1_0000_0000
    requires forall f: nat | f < t && NormalStores(gs, ops, f, i) ::
               (ops[f].env.symValue + ops[f].env.secVma) % 0x1_0000_0000 == address
    requires var sym := gs[s].syms[i];
             sym.Global? && sym.dynindx != -1 ==> l.address(sym.dynindx) == l.base + address
    ensures var g, sym, w := gs[s], gs[s].syms[i], Slot(gs[t], i, Normal).offset;
            var moves := g.pic && sym.Global? && (g.symbolic || sym.dynindx == -1) && sym.defRegular;
            Loaded(l, gs[t], w) == (l.base + address) % 0x1_0000_0000 <==>
              if moves then address == 0 || NormalStored(gs, ops, t, i)
              else if sym.Global? && sym.dynindx != -1 then true
              else if NormalStored(gs, ops, t, i) then l.base % 0x1_0000_0000 == 0
              else (l.base + address) % 0x1_0000_0000 == 0
  {
    NormalLoaded(gs, ops, s, t, i, l);
    NormalLinked(gs, ops, t, i, address);
    MovedIs(l.base, address);
  }

  lemma MovedIs(b: int, x: int)
    requires 0 <= x < 0x1_0000_0000
    ensures (0 + b) % 0x1_0000_0000 == (b + x) % 0x1_0000_0000 <==> x == 0
    ensures (b + x) % 0x1_0000_0000 == x <==> b % 0x1_0000_0000 == 0
  {
  }

  // Walking a list.

  /** Emitting the first n entries of a list continues the run by one step for each of them, and leaves
      each of their slots asked for. */
  lemma {:induction false} EmitListRuns(gs: seq<Got>, ops: seq<Op>, i: nat, n: nat, dynamicCreated: bool)
    returns (gs': seq<Got>, ops': seq<Op>)
    requires IsRun(gs, ops) && WellFormed(gs[|ops|]) && i < |gs[|ops|].lists| && n <= |gs[|ops|].lists[i]|
    ensures IsRun(gs', ops') && |ops'| == |ops| + n && gs'[..|ops| + 1] == gs && ops'[..|ops|] == ops
    ensures gs'[|ops'|] == EmitList(gs[|ops|], i, n, dynamicCreated)
    ensures forall m | 0 <= m < n :: ops'[|ops| + m] == EmitOp(i, m, dynamicCreated)
  {
    if n == 0 {
      gs', ops' := gs, ops;
    } else {
      var hs, qs := EmitListRuns(gs, ops, i, n - 1, dynamicCreated);
      var g, op := hs[|qs|], EmitOp(i, n - 1, dynamicCreated);
      gs', ops' := hs + [Apply(g, op)], qs + [op];
      RunExtends(hs, qs, op);
      assert gs'[..|ops| + 1] == hs[..|ops| + 1];
      assert ops'[..|ops|] == qs[..|ops|];
    }
  }

  lemma RunExtends(gs: seq<Got>, ops: seq<Op>, op: Op)
    requires IsRun(gs, ops) && WellFormed(gs[|ops|]) && Admits(gs[|ops|], op)
    ensures IsRun(gs + [Apply(gs[|ops|], op)], ops + [op])
  {
    var gs', ops' := gs + [Apply(gs[|ops|], op)], ops + [op];
    forall t: nat | t < |ops'|
      ensures WellFormed(gs'[t]) && Admits(gs'[t], ops'[t]) && Steps(gs', ops', t)
    {
      assert t < |ops| ==> WellFormed(gs[t]) && Admits(gs[t], ops[t]) && Steps(gs, ops, t);
    }
  }

  /** After the walk over a list each of its slots has had its first emission, in a run that ends with
      the table the walk leaves: what is said above of slots after loading is true of that table. */
  lemma WalkEmits(gs: seq<Got>, ops: seq<Op>, i: nat, dynamicCreated: bool) returns (gs': seq<Got>, ops': seq<Op>)
    requires IsRun(gs, ops) && WellFormed(gs[|ops|]) && i < |gs[|ops|].lists|
    ensures IsRun(gs', ops') && |gs| <= |gs'| && gs'[..|gs|] == gs && |ops| <= |ops'| && ops'[..|ops|] == ops
    ensures gs'[|ops'|] == EmitList(gs[|ops|], i, |gs[|ops|].lists[i]|, dynamicCreated)
    ensures forall k | Has(gs[|ops|].lists[i], k) ::
              exists s: nat :: s < |ops'| && FirstEmission(gs', ops', s, k, i)
  {
    var v, n := |ops|, |gs[|ops|].lists[i]|;
    gs', ops' := EmitListRuns(gs, ops, i, n, dynamicCreated);
    assert gs'[v] == gs'[..v + 1][v];
    forall k | Has(gs[v].lists[i], k)
      ensures exists s: nat :: s < |ops'| && FirstEmission(gs', ops', s, k, i)
    {
      WalkEmitsOne(gs', ops', v, i, n, dynamicCreated, k);
    }
  }

  lemma WalkEmitsOne(gs: seq<Got>, ops: seq<Op>, v: nat, i: nat, n: nat, dynamicCreated: bool, k: Kind)
    requires IsRun(gs, ops) && v + n == |ops| && i < |gs[v].lists| && n == |gs[v].lists[i]|
    requires forall m | 0 <= m < n :: ops[v + m] == EmitOp(i, m, dynamicCreated)
    requires Has(gs[v].lists[i], k)
    ensures exists s: nat :: s < |ops| && FirstEmission(gs, ops, s, k, i)
  {
    var m := Find(gs[v].lists[i], k);
    RunLater(gs, ops, v, v + m);
    assert ops[v + m] == EmitOp(i, m, dynamicCreated);
    assert LaterList(gs[v].size, gs[v].lists[i], gs[v + m].lists[i]);
    assert Kept(gs[v].lists[i][m], gs[v + m].lists[i][m]);
    assert Emission(gs, ops, v + m, k, i);
    var s := EarliestEmission(gs, ops, v + m, k, i);
  }

  lemma {:induction false} EarliestEmission(gs: seq<Got>, ops: seq<Op>, t: nat, k: Kind, i: nat) returns (s: nat)
    requires IsRun(gs, ops) && t < |ops| && Emission(gs, ops, t, k, i)
    ensures s <= t && FirstEmission(gs, ops, s, k, i)
  {
    if exists u: nat :: u < t && Emission(gs, ops, u, k, i) {
      var u: nat :| u < t && Emission(gs, ops, u, k, i);
      s := EarliestEmission(gs, ops, u, k, i);
    } else {
      s := t;
    }
  }
}
