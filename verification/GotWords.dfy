/** The words of the table: what each slot holds at any moment of a run. */
module GotWords {
  import opened MachineInts
  import opened GotSpec
  import opened GotInvariant
  import opened GotRuns
  import opened GotSlots

  /** The entry of a kind in a list that has one. */
  function Slot(g: Got, i: nat, k: Kind): (e: Entry)
    requires i < |g.lists| && Has(g.lists[i], k)
    ensures e.kind == k
  {
    g.lists[i][Find(g.lists[i], k)]
  }

  predicate SameWord(g: Got, g': Got, w: nat) {
    && (w in g.contents <==> w in g'.contents)
    && (w in g.contents ==> g'.contents[w] == g.contents[w])
  }

  /** The word at w is v. */
  predicate Holds(g: Got, w: nat, v: int) {
    w in g.contents && g.contents[w] == v
  }

  // The steps that store.

  /** Step s is a relocation that finds its slot, and the symbol's value is known at link time: it is
      local, or made local, or there are no dynamic sections, or it binds inside a shared object. */
  predicate StaticFix(gs: seq<Got>, ops: seq<Op>, s: nat, k: Kind, i: nat)
    requires IsRun(gs, ops) && s < |ops|
  {
    && ops[s].FixOp? && ops[s].k == k && ops[s].i == i && k != Unknown && k != TlsLe
    && Has(gs[s].lists[i], k)
    && var sym, env := gs[s].syms[i], ops[s].env;
       sym.Local? || sym.forcedLocal || !env.dynamicCreated || (gs[s].pic && env.refsLocal)
  }

  predicate FirstStatic(gs: seq<Got>, ops: seq<Op>, s: nat, k: Kind, i: nat)
    requires IsRun(gs, ops) && s < |ops|
  {
    StaticFix(gs, ops, s, k, i) && forall u: nat | u < s :: !StaticFix(gs, ops, u, k, i)
  }

  /** Step s stores an address at the head of list i, where the slot of kind k is. */
  predicate Puts(gs: seq<Got>, ops: seq<Op>, s: nat, k: Kind, i: nat)
    requires IsRun(gs, ops) && s < |ops|
  {
    ops[s].PutOp? && ops[s].i == i && gs[s].lists[i] != [] && gs[s].lists[i][0].kind == k
  }

  predicate Done(g: Got, i: nat, k: Kind) {
    i < |g.lists| && Has(g.lists[i], k) && Slot(g, i, k).processed
  }

  // Which slots are processed.

  /** A request leaves the slots that are there, and a new one is unmarked. */
  lemma FillSlot(g: Got, k': Kind, j: nat, o: Outcome, i: nat, k: Kind)
    requires WellFormed(g) && j < |g.lists| && i < |g.lists|
    ensures var g' := Fill(g, k', j, o).0;
            && (Has(g.lists[i], k) ==> Has(g'.lists[i], k) && Slot(g', i, k) == Slot(g, i, k))
            && (!Has(g.lists[i], k) && Has(g'.lists[i], k) ==> Slot(g', i, k) == NewEntry(k, g.size))
  {
    FillShape(g, k', j, o);
    if i == j {
      FindAppended(g.lists[i], NewEntry(k', g.size), k, 0);
    }
  }

  lemma UpdatedDone(g: Got, g': Got, j: nat, n: nat, e: Entry, i: nat, k: Kind)
    requires Updated(g, g', j, n, e) && i < |g.lists|
    ensures Done(g', i, k) <==>
              Has(g.lists[i], k) && if i == j && Find(g.lists[i], k) == n then e.processed else Slot(g, i, k).processed
  {
    UpdatedFind(g, g', j, n, e, i, k);
  }

  lemma FixDone(g: Got, k': Kind, j: nat, env: Env, i: nat, k: Kind)
    requires WellFormed(g) && j < |g.lists| && i < |g.lists|
    ensures Done(Fix(g, k', j, env).0, i, k) <==>
              Done(g, i, k) || (k' == k && j == i && k != Unknown && k != TlsLe
                                && Has(g.lists[i], k) && Static(g, g.syms[i], env))
  {
    var g' := Fix(g, k', j, env).0;
    if g' != g {
      var n := Find(g.lists[j], k');
      UpdatedDone(g, g', j, n, g.lists[j][n].(processed := true), i, k);
    }
  }

  lemma ApplyDone(g: Got, op: Op, i: nat, k: Kind)
    requires WellFormed(g) && Admits(g, op) && i < |g.lists|
    ensures Done(Apply(g, op), i, k) <==>
              Done(g, i, k) || (op.FixOp? && op.k == k && op.i == i && k != Unknown && k != TlsLe
                                && Has(g.lists[i], k) && Static(g, g.syms[i], op.env))
  {
    var g' := Apply(g, op);
    match op
    case FillOp(k', j, o) => FillSlot(g, k', j, o, i, k);
    case FixOp(k', j, env) => FixDone(g, k', j, env, i, k);
    case PutOp(_, _) =>
    case EmitOp(j, n, _) =>
      if g' != g {
        UpdatedDone(g, g', j, n, g.lists[j][n].(created := true), i, k);
      }
    case SymOp(_, _) =>
  }

  /** A slot is processed exactly if some relocation for it was static. */
  lemma {:induction false} ProcessedExactly(gs: seq<Got>, ops: seq<Op>, t: nat, i: nat, k: Kind)
    requires IsRun(gs, ops) && t <= |ops| && i < |gs[0].lists|
    ensures Done(gs[t], i, k) <==> exists s: nat :: s < t && StaticFix(gs, ops, s, k, i)
  {
    if t == 0 {
    } else {
      ProcessedExactly(gs, ops, t - 1, i, k);
      assert Steps(gs, ops, t - 1);
      SameCount(gs, ops, t - 1);
      ApplyDone(gs[t - 1], ops[t - 1], i, k);
      assert StaticFix(gs, ops, t - 1, k, i) <==>
             ops[t - 1].FixOp? && ops[t - 1].k == k && ops[t - 1].i == i && k != Unknown && k != TlsLe
             && Has(gs[t - 1].lists[i], k) && Static(gs[t - 1], gs[t - 1].syms[i], ops[t - 1].env);
    }
  }

  // Which steps change a word.

  /** Step u may store at the word w of the slot of kind k of list i. */
  predicate Touches(gs: seq<Got>, ops: seq<Op>, u: nat, k: Kind, i: nat, w: nat)
    requires IsRun(gs, ops) && u < |ops|
  {
    || (StaticFix(gs, ops, u, k, i) && !Done(gs[u], i, k))
    || (Puts(gs, ops, u, k, i) && w == gs[u].lists[i][0].offset)
  }

  /** Where a step stores: inside the entry it is about. */
  lemma StoresInside(g: Got, op: Op, w: nat)
    requires WellFormed(g) && Admits(g, op) && KindsOk(g) && !SameWord(g, Apply(g, op), w)
    ensures op.FixOp? || op.PutOp?
    ensures op.FixOp? ==>
              && op.k != Unknown && op.k != TlsLe && Has(g.lists[op.i], op.k) && Static(g, g.syms[op.i], op.env)
              && !Slot(g, op.i, op.k).processed && InRange(Slot(g, op.i, op.k), w)
    ensures op.PutOp? ==> g.lists[op.i] != [] && w == g.lists[op.i][0].offset
  {
    if op.FillOp? {
      FillExactly(g, op.k, op.i, op.o);
    } else if op.FixOp? {
      PatchInside(Slot(g, op.i, op.k), g.syms[op.i], op.env);
    }
  }

  lemma RunKinds(gs: seq<Got>, ops: seq<Op>, t: nat)
    requires IsRun(gs, ops) && t <= |ops|
    ensures WellFormed(gs[t]) && KindsOk(gs[t])
  {
    var layout := RunKeeps(gs, ops, t);
  }

  /** Two entries whose ranges share a word are one slot, even at different moments of a run. */
  lemma SameSlot(gs: seq<Got>, ops: seq<Op>, u: nat, t: nat, j: nat, n: nat, k: Kind, i: nat, w: nat)
    requires IsRun(gs, ops) && u < t <= |ops| && j < |gs[u].lists| && n < |gs[u].lists[j]|
    requires i < |gs[t].lists| && Has(gs[t].lists[i], k)
    requires InRange(gs[u].lists[j][n], w) && InRange(Slot(gs[t], i, k), w)
    ensures j == i && gs[u].lists[j][n].kind == k
  {
    RunLater(gs, ops, u, t);
    Slots(gs, ops, t);
    assert LaterList(gs[u].size, gs[u].lists[j], gs[t].lists[j]);
    var a, b, m := gs[t].lists[j][n], Slot(gs[t], i, k), Find(gs[t].lists[i], k);
    assert Kept(gs[u].lists[j][n], a);
    assert (j, n) != (i, m) ==> Apart(a, b);
    assert !Apart(a, b);
  }

  /** A step that is not about a slot leaves its words alone. */
  lemma OtherWord(gs: seq<Got>, ops: seq<Op>, u: nat, t: nat, k: Kind, i: nat, w: nat)
    requires IsRun(gs, ops) && u < t <= |ops| && i < |gs[t].lists| && Has(gs[t].lists[i], k)
    requires InRange(Slot(gs[t], i, k), w) && !Touches(gs, ops, u, k, i, w)
    ensures SameWord(gs[u], gs[u + 1], w)
  {
    assert Steps(gs, ops, u);
    RunKinds(gs, ops, u);
    if !SameWord(gs[u], gs[u + 1], w) {
      StoresInside(gs[u], ops[u], w);
      SameSlot(gs, ops, u, t, ops[u].i, if ops[u].FixOp? then Find(gs[u].lists[ops[u].i], ops[u].k) else 0, k, i, w);
    }
  }

  /** Over steps that are not about a slot its words stay. */
  lemma {:induction false} WordKept(gs: seq<Got>, ops: seq<Op>, s: nat, v: nat, t: nat, k: Kind, i: nat, w: nat)
    requires IsRun(gs, ops) && s <= v <= t <= |ops| && i < |gs[t].lists| && Has(gs[t].lists[i], k)
    requires InRange(Slot(gs[t], i, k), w) && forall u: nat | s <= u < v :: !Touches(gs, ops, u, k, i, w)
    ensures SameWord(gs[s], gs[v], w)
    decreases v - s
  {
    if s == v {
    } else {
      WordKept(gs, ops, s, v - 1, t, k, i, w);
      OtherWord(gs, ops, v - 1, t, k, i, w);
    }
  }

  // What each kind of slot holds.

  /** A slot that is there stays, at its place. */
  lemma SlotStays(gs: seq<Got>, ops: seq<Op>, s: nat, t: nat, k: Kind, i: nat)
    requires IsRun(gs, ops) && s <= t <= |ops| && i < |gs[s].lists| && Has(gs[s].lists[i], k)
    ensures i < |gs[t].lists| && Has(gs[t].lists[i], k) && Kept(Slot(gs[s], i, k), Slot(gs[t], i, k))
  {
    RunLater(gs, ops, s, t);
    var n := Find(gs[s].lists[i], k);
    assert LaterList(gs[s].size, gs[s].lists[i], gs[t].lists[i]) && Kept(gs[s].lists[i][n], gs[t].lists[i][n]);
    KindPlace(gs, ops, t, i, n);
  }

  /** After the first static relocation of a slot no other one stores into it, and neither does a
      static one before it. */
  lemma OnlyFirstTouches(gs: seq<Got>, ops: seq<Op>, s: nat, u: nat, k: Kind, i: nat, w: nat)
    requires IsRun(gs, ops) && s < |ops| && u < |ops| && FirstStatic(gs, ops, s, k, i)
    ensures Touches(gs, ops, u, k, i, w) ==>
              u == s || (Puts(gs, ops, u, k, i) && w == gs[u].lists[i][0].offset)
  {
    if Touches(gs, ops, u, k, i, w) && StaticFix(gs, ops, u, k, i) && !Done(gs[u], i, k) {
      SameCount(gs, ops, u);
      ProcessedExactly(gs, ops, u, i, k);
      assert !(s < u);
      assert !(u < s);
    }
  }

  /** No address is stored in the slot of kind k of list i by the steps from s on, before t. */
  predicate NoPuts(gs: seq<Got>, ops: seq<Op>, s: nat, t: nat, k: Kind, i: nat)
    requires IsRun(gs, ops) && s <= t <= |ops|
  {
    forall u: nat | s <= u < t :: !Puts(gs, ops, u, k, i)
  }

  /** The step at s stores in an unprocessed slot that stays. */
  lemma FirstStaticStep(gs: seq<Got>, ops: seq<Op>, s: nat, t: nat, k: Kind, i: nat)
    requires IsRun(gs, ops) && s < t <= |ops| && FirstStatic(gs, ops, s, k, i)
    ensures gs[s + 1] == Fix(gs[s], k, i, ops[s].env).0 && Static(gs[s], gs[s].syms[i], ops[s].env)
    ensures !Slot(gs[s], i, k).processed && EntryOk(Slot(gs[s], i, k))
    ensures i < |gs[t].lists| && Has(gs[t].lists[i], k) && Slot(gs[t], i, k).offset == Slot(gs[s], i, k).offset
  {
    SameCount(gs, ops, s);
    ProcessedExactly(gs, ops, s, i, k);
    SlotStays(gs, ops, s, t, k, i);
    assert Steps(gs, ops, s);
    var layout := RunKeeps(gs, ops, s);
  }

  predicate EntryOk(e: Entry) {
    e.existing == (if e.kind == Normal then NoTls else if e.kind == TlsGd then ModAndOff else Off)
  }

  lemma WordsAfter(gs: seq<Got>, ops: seq<Op>, s: nat, t: nat, k: Kind, i: nat, w: nat)
    requires IsRun(gs, ops) && s < t <= |ops| && FirstStatic(gs, ops, s, k, i)
    requires i < |gs[t].lists| && Has(gs[t].lists[i], k) && InRange(Slot(gs[t], i, k), w)
    requires w == Slot(gs[t], i, k).offset ==> NoPuts(gs, ops, s, t, k, i)
    ensures SameWord(gs[s + 1], gs[t], w)
  {
    forall u: nat | s + 1 <= u < t
      ensures !Touches(gs, ops, u, k, i, w)
    {
      OnlyFirstTouches(gs, ops, s, u, k, i, w);
      PutPlace(gs, ops, u, t, k, i);
    }
    WordKept(gs, ops, s + 1, t, t, k, i, w);
  }

  lemma PutPlace(gs: seq<Got>, ops: seq<Op>, u: nat, t: nat, k: Kind, i: nat)
    requires IsRun(gs, ops) && u < t <= |ops| && i < |gs[t].lists| && Has(gs[t].lists[i], k)
    ensures Puts(gs, ops, u, k, i) ==> gs[u].lists[i][0].offset == Slot(gs[t], i, k).offset
  {
    if Puts(gs, ops, u, k, i) {
      KindPlace(gs, ops, u, i, 0);
      SlotStays(gs, ops, u, t, k, i);
    }
  }

  lemma WordsBefore(gs: seq<Got>, ops: seq<Op>, s: nat, t: nat, k: Kind, i: nat, w: nat)
    requires IsRun(gs, ops) && s <= t <= |ops|
    requires forall u: nat | u < s :: !StaticFix(gs, ops, u, k, i)
    requires i < |gs[t].lists| && Has(gs[t].lists[i], k) && InRange(Slot(gs[t], i, k), w)
    requires w == Slot(gs[t], i, k).offset ==> NoPuts(gs, ops, 0, s, k, i)
    ensures SameWord(gs[0], gs[s], w)
  {
    forall u: nat | u < s
      ensures !Touches(gs, ops, u, k, i, w)
    {
      PutPlace(gs, ops, u, t, k, i);
    }
    WordKept(gs, ops, 0, s, t, k, i, w);
  }

  /** A slot that no relocation could resolve has the words the section began with. */
  lemma UnresolvedWord(gs: seq<Got>, ops: seq<Op>, t: nat, k: Kind, i: nat, w: nat)
    requires IsRun(gs, ops) && t <= |ops| && i < |gs[t].lists| && Has(gs[t].lists[i], k)
    requires InRange(Slot(gs[t], i, k), w) && NoPuts(gs, ops, 0, t, k, i)
    requires forall u: nat | u < t :: !StaticFix(gs, ops, u, k, i)
    ensures SameWord(gs[0], gs[t], w)
  {
    WordsBefore(gs, ops, t, t, k, i, w);
  }

  /** A GOT_NORMAL slot: the first static relocation stores the address of the symbol, and nothing for
      an undefined weak one; every later operation leaves it, but for an address put at the list's head. */
  lemma NormalWord(gs: seq<Got>, ops: seq<Op>, s: nat, t: nat, i: nat)
    requires IsRun(gs, ops) && s < t <= |ops| && FirstStatic(gs, ops, s, Normal, i)
    requires NoPuts(gs, ops, s, t, Normal, i)
    ensures i < |gs[t].lists| && Has(gs[t].lists[i], Normal)
    ensures var sym, env, w := gs[s].syms[i], ops[s].env, Slot(gs[t], i, Normal).offset;
            if sym.Global? && sym.undefWeak then SameWord(gs[s], gs[t], w)
            else Holds(gs[t], w, (env.symValue + env.secVma) % 0x1_0000_0000)
  {
    FirstStaticStep(gs, ops, s, t, Normal, i);
    WordsAfter(gs, ops, s, t, Normal, i, Slot(gs[t], i, Normal).offset);
  }

  lemma GdOffset(env: Env)
    ensures ThreadOffset(env, 0) == (env.symValue - env.tlsVma) % 0x1_0000_0000
  {
    if !env.dynamicCreated {
      var a := AlignUp(0, env.tlsAlign);
      AlignUpIs(0, env.tlsAlign);
      ModUnique(a, 0, a, Pow2(env.tlsAlign));
      assert ThreadOffset(env, 0) == (env.symValue - env.tlsVma + a) % TWO32;
    }
  }

  /** A GD slot: the first static relocation of a symbol that is local, made local, or without dynamic
      sections stores its offset in the thread segment in the second word, and any other one nothing;
      the first word is never stored to. */
  lemma GdWords(gs: seq<Got>, ops: seq<Op>, s: nat, t: nat, i: nat)
    requires IsRun(gs, ops) && s < t <= |ops| && FirstStatic(gs, ops, s, TlsGd, i)
    ensures i < |gs[t].lists| && Has(gs[t].lists[i], TlsGd)
    ensures NoPuts(gs, ops, 0, t, TlsGd, i) ==> SameWord(gs[0], gs[t], Slot(gs[t], i, TlsGd).offset)
    ensures var sym, env, w := gs[s].syms[i], ops[s].env, Slot(gs[t], i, TlsGd).offset + 4;
            if sym.Local? || sym.forcedLocal || !env.dynamicCreated then
              Holds(gs[t], w, (env.symValue - env.tlsVma) % 0x1_0000_0000)
            else SameWord(gs[0], gs[t], w)
  {
    FirstStaticStep(gs, ops, s, t, TlsGd, i);
    GdStep(gs[s], i, ops[s].env, (ops[s].env.symValue - ops[s].env.tlsVma) % 0x1_0000_0000);
    GdAround(gs, ops, s, t, i);
  }

  lemma GdAround(gs: seq<Got>, ops: seq<Op>, s: nat, t: nat, i: nat)
    requires IsRun(gs, ops) && s < t <= |ops| && FirstStatic(gs, ops, s, TlsGd, i)
    requires i < |gs[t].lists| && Has(gs[t].lists[i], TlsGd)
    ensures var w := Slot(gs[t], i, TlsGd).offset;
            && SameWord(gs[0], gs[s], w + 4) && SameWord(gs[s + 1], gs[t], w + 4)
            && (NoPuts(gs, ops, 0, t, TlsGd, i) ==> SameWord(gs[0], gs[s], w) && SameWord(gs[s + 1], gs[t], w))
  {
    var w := Slot(gs[t], i, TlsGd).offset;
    WordsBefore(gs, ops, s, t, TlsGd, i, w + 4);
    WordsAfter(gs, ops, s, t, TlsGd, i, w + 4);
    if NoPuts(gs, ops, 0, t, TlsGd, i) {
      WordsBefore(gs, ops, s, t, TlsGd, i, w);
      WordsAfter(gs, ops, s, t, TlsGd, i, w);
    }
  }

  lemma GdStep(g: Got, i: nat, env: Env, v: int)
    requires WellFormed(g) && i < |g.lists| && Has(g.lists[i], TlsGd)
    requires !Slot(g, i, TlsGd).processed && EntryOk(Slot(g, i, TlsGd)) && Static(g, g.syms[i], env)
    requires v == (env.symValue - env.tlsVma) % 0x1_0000_0000
    ensures var g', sym, w := Fix(g, TlsGd, i, env).0, g.syms[i], Slot(g, i, TlsGd).offset;
            && SameWord(g, g', w)
            && if sym.Local? || sym.forcedLocal || !env.dynamicCreated then
                 Holds(g', w + 4, v)
               else SameWord(g, g', w + 4)
  {
    var e, g', w := Slot(g, i, TlsGd), Fix(g, TlsGd, i, env).0, Slot(g, i, TlsGd).offset;
    GdOffset(env);
    var p := PatchOf(e, g.syms[i], env);
    assert g'.contents == if p.Some? then g.contents[p.value.0 := p.value.1] else g.contents;
  }

  /** An IE slot: the first static relocation stores the offset of the symbol in the thread segment,
      behind the aligned thread control block of eight bytes if there are no dynamic sections. */
  lemma IeWord(gs: seq<Got>, ops: seq<Op>, s: nat, t: nat, i: nat)
    requires IsRun(gs, ops) && s < t <= |ops| && FirstStatic(gs, ops, s, TlsIe, i)
    requires NoPuts(gs, ops, s, t, TlsIe, i)
    ensures i < |gs[t].lists| && Has(gs[t].lists[i], TlsIe)
    ensures var env, w := ops[s].env, Slot(gs[t], i, TlsIe).offset;
            Holds(gs[t], w, (env.symValue - env.tlsVma
                             + if env.dynamicCreated then 0 else AlignUp(8, env.tlsAlign)) % 0x1_0000_0000)
  {
    FirstStaticStep(gs, ops, s, t, TlsIe, i);
    WordsAfter(gs, ops, s, t, TlsIe, i, Slot(gs[t], i, TlsIe).offset);
  }

  /** An address put at the head of a list lasts, whatever slot is there: a thread offset stored before
      is lost, and stays lost, unless the slot was not processed yet. */
  lemma PutWord(gs: seq<Got>, ops: seq<Op>, s: nat, t: nat, k: Kind, i: nat)
    requires IsRun(gs, ops) && s < t <= |ops| && Puts(gs, ops, s, k, i) && NoPuts(gs, ops, s + 1, t, k, i)
    requires (exists u: nat :: u < s && StaticFix(gs, ops, u, k, i))
             || (forall u: nat | s < u < t :: !StaticFix(gs, ops, u, k, i))
    ensures i < |gs[t].lists| && Has(gs[t].lists[i], k)
    ensures var w := Slot(gs[t], i, k).offset;
            Holds(gs[t], w, ops[s].word % 0x1_0000_0000)
  {
    SameCount(gs, ops, s);
    KindPlace(gs, ops, s, i, 0);
    SlotStays(gs, ops, s, t, k, i);
    var w := Slot(gs[t], i, k).offset;
    assert Steps(gs, ops, s);
    forall u: nat | s + 1 <= u < t
      ensures !Touches(gs, ops, u, k, i, w)
    {
      SameCount(gs, ops, u);
      ProcessedExactly(gs, ops, u, i, k);
    }
    WordKept(gs, ops, s + 1, t, t, k, i, w);
  }
}
