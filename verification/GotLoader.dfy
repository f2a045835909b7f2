/** What a dynamic loader makes of the table: the relocations of each slot, and the words they leave. */
module GotLoader {
  import opened MachineInts
  import opened GotSpec
  import opened GotInvariant
  import opened GotRuns
  import opened GotSlots
  import opened GotWords

  // The relocations of one entry.

  /** The dynamic symbol a thread relocation names; zero is the module itself. */
  function SymbolIndex(s: Symbol): int {
    if s.Local? || s.dynindx == -1 then 0 else s.dynindx
  }

  /** Everything the emission of an entry does: by kind, the relocations it adds, with their places,
      symbols and addends; and the mark that makes it the only one. */
  lemma EmitExactly(g: Got, i: nat, n: nat, dynamicCreated: bool)
    requires WellFormed(g) && KindsOk(g) && i < |g.lists| && n < |g.lists[i]|
    ensures var e, s, d, g' := g.lists[i][n], g.syms[i], SymbolIndex(g.syms[i]), Emit(g, i, n, dynamicCreated);
            if e.created then g' == g
            else
              && g' == g.(lists := g.lists[i := g.lists[i][n := e.(created := true)]], relocs := g'.relocs)
              && g'.relocs == g.relocs +
                   if !dynamicCreated then []
                   else if e.kind == TlsGd then [Reloc(e.offset, d, DtpMod, 0), Reloc(e.offset + 4, d, DtpOff, 0)]
                   else if e.kind == TlsIe then [Reloc(e.offset, d, TpOff, WordAt(g, e.offset))]
                   else if e.kind == TlsLe then [Reloc(e.offset, d, DtpOff, 0)]
                   else if g.pic && s.Global? && (g.symbolic || s.dynindx == -1) && s.defRegular then
                     [Reloc(e.offset, 0, Relative, 0)]
                   else if s.Global? && s.dynindx != -1 then [Reloc(e.offset, s.dynindx, GlobDat, 0)]
                   else []
  {
    var e := g.lists[i][n];
    assert EntryOk(e) && e.kind != Unknown;
    EmitsWhat(g, e, g.syms[i]);
  }

  lemma EmitsWhat(g: Got, e: Entry, s: Symbol)
    requires EntryOk(e) && e.kind != Unknown
    ensures Emits(e) <==> !e.created
    ensures var d := SymbolIndex(s);
            RelocsOf(g, e, s) ==
              if e.kind == TlsGd then [Reloc(e.offset, d, DtpMod, 0), Reloc(e.offset + 4, d, DtpOff, 0)]
              else if e.kind == TlsIe then [Reloc(e.offset, d, TpOff, WordAt(g, e.offset))]
              else if e.kind == TlsLe then [Reloc(e.offset, d, DtpOff, 0)]
              else if g.pic && s.Global? && (g.symbolic || s.dynindx == -1) && s.defRegular then
                [Reloc(e.offset, 0, Relative, 0)]
              else if s.Global? && s.dynindx != -1 then [Reloc(e.offset, s.dynindx, GlobDat, 0)]
              else []
  {
  }

  /** An emission adds nothing exactly if the entry had its turn, or there are no dynamic sections, or the
      slot is a GOT_NORMAL one of a local symbol, or of one without index that is not defined here in a
      position-independent link. */
  lemma SilentExactly(g: Got, i: nat, n: nat, dynamicCreated: bool)
    requires WellFormed(g) && KindsOk(g) && i < |g.lists| && n < |g.lists[i]|
    ensures var e, s := g.lists[i][n], g.syms[i];
            Emit(g, i, n, dynamicCreated).relocs == g.relocs <==>
              || e.created || !dynamicCreated
              || (e.kind == Normal && (s.Local? || (s.dynindx == -1 && !(g.pic && s.defRegular))))
  {
    EmitExactly(g, i, n, dynamicCreated);
  }

  // Loading.

  /** What a loader knows: where the module is, and for each dynamic symbol its address, the module that
      defines it, its offset in that module's thread segment, and where the segment is for this thread. */
  datatype Loader = Loader(base: int, address: int -> int, moduleOf: int -> int,
                           tlsOffset: int -> int, block: int -> int)

  /** One relocation on the word at its place. */
  function LoadWord(l: Loader, r: Reloc, word: int): int {
    match r.kind
    case Relative => (word + l.base + r.addend) % TWO32
    case GlobDat => l.address(r.sym) % TWO32
    case DtpMod => l.moduleOf(r.sym) % TWO32
    case DtpOff => (word + l.tlsOffset(r.sym) + r.addend) % TWO32
    case TpOff => (l.block(r.sym) + l.tlsOffset(r.sym) + r.addend) % TWO32
  }

  /** The word at w after the first n relocations. */
  function LoadFirst(l: Loader, rs: seq<Reloc>, n: nat, w: nat, word: int): int
    requires n <= |rs|
  {
    if n == 0 then word
    else
      var before := LoadFirst(l, rs, n - 1, w, word);
      if rs[n - 1].offset == w then LoadWord(l, rs[n - 1], before) else before
  }

  /** The word at w when the whole module is loaded. */
  function Loaded(l: Loader, g: Got, w: nat): int {
    LoadFirst(l, g.relocs, |g.relocs|, w, WordAt(g, w))
  }

  /** Relocations elsewhere do not matter: with none at w but those from m to m', only these count. */
  lemma {:induction false} LoadOnly(l: Loader, rs: seq<Reloc>, n: nat, m: nat, m': nat, w: nat, word: int)
    requires m <= m' <= |rs| && n <= |rs|
    requires forall a | 0 <= a < |rs| && !(m <= a < m') :: rs[a].offset != w
    ensures n <= m ==> LoadFirst(l, rs, n, w, word) == word
    ensures m' <= n ==> LoadFirst(l, rs, n, w, word) == LoadFirst(l, rs, m', w, word)
  {
    if n == 0 {
    } else {
      LoadOnly(l, rs, n - 1, m, m', w, word);
    }
  }

  // The relocations of one slot in a run.

  /** Step s asks the slot of kind k of list i for its relocations. */
  predicate Emission(gs: seq<Got>, ops: seq<Op>, s: nat, k: Kind, i: nat)
    requires IsRun(gs, ops) && s < |ops|
  {
    ops[s].EmitOp? && ops[s].i == i && gs[s].lists[i][ops[s].n].kind == k
  }

  predicate FirstEmission(gs: seq<Got>, ops: seq<Op>, s: nat, k: Kind, i: nat)
    requires IsRun(gs, ops) && s < |ops|
  {
    Emission(gs, ops, s, k, i) && forall u: nat | u < s :: !Emission(gs, ops, u, k, i)
  }

  predicate Created(g: Got, i: nat, k: Kind) {
    i < |g.lists| && Has(g.lists[i], k) && Slot(g, i, k).created
  }

  lemma UpdatedCreated(g: Got, g': Got, j: nat, n: nat, e: Entry, i: nat, k: Kind)
    requires Updated(g, g', j, n, e) && i < |g.lists|
    ensures Created(g', i, k) <==>
              Has(g.lists[i], k) && if i == j && Find(g.lists[i], k) == n then e.created else Slot(g, i, k).created
  {
    UpdatedFind(g, g', j, n, e, i, k);
  }

  lemma EmitCreated(g: Got, j: nat, n: nat, dynamicCreated: bool, i: nat, k: Kind)
    requires WellFormed(g) && KindsOk(g) && j < |g.lists| && n < |g.lists[j]| && i < |g.lists|
    ensures Created(Emit(g, j, n, dynamicCreated), i, k) <==>
              Created(g, i, k) || (j == i && g.lists[i][n].kind == k)
  {
    EmitExactly(g, j, n, dynamicCreated);
    if !g.lists[j][n].created {
      UpdatedCreated(g, Emit(g, j, n, dynamicCreated), j, n, g.lists[j][n].(created := true), i, k);
    }
  }

  lemma ApplyCreated(g: Got, op: Op, i: nat, k: Kind)
    requires WellFormed(g) && Admits(g, op) && i < |g.lists| && KindsOk(g)
    ensures Created(Apply(g, op), i, k) <==>
              Created(g, i, k) || (op.EmitOp? && op.i == i && g.lists[i][op.n].kind == k)
  {
    var g' := Apply(g, op);
    match op
    case FillOp(k', j, o) => FillSlot(g, k', j, o, i, k);
    case FixOp(k', j, env) =>
      if g' != g {
        var n := Find(g.lists[j], k');
        UpdatedCreated(g, g', j, n, g.lists[j][n].(processed := true), i, k);
      }
    case PutOp(_, _) =>
    case EmitOp(j, n, dynamicCreated) => EmitCreated(g, j, n, dynamicCreated, i, k);
    case SymOp(_, _) =>
  }

  /** A slot is marked as created exactly if its relocations have been asked for. */
  lemma {:induction false} CreatedExactly(gs: seq<Got>, ops: seq<Op>, t: nat, i: nat, k: Kind)
    requires IsRun(gs, ops) && t <= |ops| && i < |gs[0].lists|
    ensures Created(gs[t], i, k) <==> exists s: nat :: s < t && Emission(gs, ops, s, k, i)
  {
    if t == 0 {
    } else {
      CreatedExactly(gs, ops, t - 1, i, k);
      SameCount(gs, ops, t - 1);
      RunKinds(gs, ops, t - 1);
      assert Steps(gs, ops, t - 1);
      ApplyCreated(gs[t - 1], ops[t - 1], i, k);
      assert Emission(gs, ops, t - 1, k, i) <==>
             ops[t - 1].EmitOp? && ops[t - 1].i == i && gs[t - 1].lists[i][ops[t - 1].n].kind == k;
    }
  }

  /** The relocations of g' are those of g and perhaps more, none of them at w. */
  predicate AddsNone(g: Got, g': Got, w: nat) {
    && |g.relocs| <= |g'.relocs| && g'.relocs[..|g.relocs|] == g.relocs
    && forall a | |g.relocs| <= a < |g'.relocs| :: g'.relocs[a].offset != w
  }

  lemma AddsNoneTransitive(g: Got, g': Got, g'': Got, w: nat)
    requires AddsNone(g, g', w) && AddsNone(g', g'', w)
    ensures AddsNone(g, g'', w)
  {
    assert g''.relocs[..|g.relocs|] == g''.relocs[..|g'.relocs|][..|g.relocs|];
    forall a | |g.relocs| <= a < |g''.relocs|
      ensures g''.relocs[a].offset != w
    {
      assert a < |g'.relocs| ==> g''.relocs[a] == g''.relocs[..|g'.relocs|][a];
    }
  }

  /** A step adds relocations inside the entry it is about only. */
  lemma EmitsInside(g: Got, op: Op, w: nat)
    requires WellFormed(g) && Admits(g, op) && KindsOk(g) && !AddsNone(g, Apply(g, op), w)
    ensures op.EmitOp? && !g.lists[op.i][op.n].created && InRange(g.lists[op.i][op.n], w)
  {
    if op.FillOp? {
      FillExactly(g, op.k, op.i, op.o);
    } else if op.EmitOp? {
      EmitExactly(g, op.i, op.n, op.dynamicCreated);
    }
  }

  lemma OtherRelocs(gs: seq<Got>, ops: seq<Op>, u: nat, t: nat, k: Kind, i: nat, w: nat)
    requires IsRun(gs, ops) && u < t <= |ops| && i < |gs[t].lists| && Has(gs[t].lists[i], k)
    requires InRange(Slot(gs[t], i, k), w) && (Created(gs[u], i, k) || !Emission(gs, ops, u, k, i))
    ensures AddsNone(gs[u], gs[u + 1], w)
  {
    assert Steps(gs, ops, u);
    RunKinds(gs, ops, u);
    if !AddsNone(gs[u], gs[u + 1], w) {
      EmitsInside(gs[u], ops[u], w);
      if Created(gs[u], i, k) {
        KindPlace(gs, ops, u, ops[u].i, ops[u].n);
      }
      SameSlot(gs, ops, u, t, ops[u].i, ops[u].n, k, i, w);
    }
  }

  lemma {:induction false} RelocsKept(gs: seq<Got>, ops: seq<Op>, s: nat, v: nat, t: nat, k: Kind, i: nat, w: nat)
    requires IsRun(gs, ops) && s <= v <= t <= |ops| && i < |gs[t].lists| && Has(gs[t].lists[i], k)
    requires InRange(Slot(gs[t], i, k), w)
    requires forall u: nat | s <= u < v :: Created(gs[u], i, k) || !Emission(gs, ops, u, k, i)
    ensures AddsNone(gs[s], gs[v], w)
    decreases v - s
  {
    if s == v {
    } else {
      RelocsKept(gs, ops, s, v - 1, t, k, i, w);
      OtherRelocs(gs, ops, v - 1, t, k, i, w);
      AddsNoneTransitive(gs[s], gs[v - 1], gs[v], w);
    }
  }

  /** A slot nobody asked for relocations has none: the loader leaves its words. */
  lemma UnaskedLoaded(gs: seq<Got>, ops: seq<Op>, t: nat, k: Kind, i: nat, w: nat, l: Loader)
    requires IsRun(gs, ops) && t <= |ops| && i < |gs[t].lists| && Has(gs[t].lists[i], k)
    requires InRange(Slot(gs[t], i, k), w) && forall u: nat | u < t :: !Emission(gs, ops, u, k, i)
    ensures Loaded(l, gs[t], w) == WordAt(gs[t], w)
  {
    RelocsKept(gs, ops, 0, t, t, k, i, w);
    LoadOnly(l, gs[t].relocs, |gs[t].relocs|, 0, 0, w, WordAt(gs[t], w));
  }

  /** What the loader makes of a word of a slot: only the relocations of the first emission count. */
  lemma SlotLoaded(gs: seq<Got>, ops: seq<Op>, s: nat, t: nat, k: Kind, i: nat, w: nat, l: Loader)
    requires IsRun(gs, ops) && s < t <= |ops| && FirstEmission(gs, ops, s, k, i)
    requires i < |gs[t].lists| && Has(gs[t].lists[i], k) && InRange(Slot(gs[t], i, k), w)
    ensures |gs[s].relocs| <= |gs[s + 1].relocs|
    ensures var rs := gs[s + 1].relocs[|gs[s].relocs|..];
            Loaded(l, gs[t], w) == LoadFirst(l, rs, |rs|, w, WordAt(gs[t], w))
  {
    RelocsKept(gs, ops, 0, s, t, k, i, w);
    forall u: nat | s + 1 <= u < t
      ensures Created(gs[u], i, k)
    {
      SameCount(gs, ops, t);
      CreatedExactly(gs, ops, u, i, k);
    }
    RelocsKept(gs, ops, s + 1, t, t, k, i, w);
    EmissionStep(gs, ops, s, k, i);
    LoadMiddle(l, gs[s], gs[s + 1], gs[t], w);
  }

  /** Of relocations before, in the middle and after, with only those in the middle at w. */
  lemma LoadMiddle(l: Loader, g: Got, g': Got, g'': Got, w: nat)
    requires forall a | 0 <= a < |g.relocs| :: g.relocs[a].offset != w
    requires |g.relocs| <= |g'.relocs| && g'.relocs[..|g.relocs|] == g.relocs && AddsNone(g', g'', w)
    ensures var rs := g'.relocs[|g.relocs|..];
            Loaded(l, g'', w) == LoadFirst(l, rs, |rs|, w, WordAt(g'', w))
  {
    var m, m', rs := |g.relocs|, |g'.relocs|, g''.relocs;
    MiddleOnly(g, g', g'', w);
    LoadOnly(l, rs, |rs|, m, m', w, WordAt(g'', w));
    LoadOnly(l, rs, m, m, m', w, WordAt(g'', w));
    LoadShift(l, rs, m, g'.relocs[m..], m' - m, w, WordAt(g'', w));
  }

  lemma MiddleOnly(g: Got, g': Got, g'': Got, w: nat)
    requires (forall a | 0 <= a < |g.relocs| :: g.relocs[a].offset != w)
    requires |g.relocs| <= |g'.relocs| && g'.relocs[..|g.relocs|] == g.relocs && AddsNone(g', g'', w)
    ensures forall a | 0 <= a < |g''.relocs| && !(|g.relocs| <= a < |g'.relocs|) :: g''.relocs[a].offset != w
    ensures |g'.relocs| <= |g''.relocs|
    ensures forall a | 0 <= a < |g'.relocs| - |g.relocs| ::
              g''.relocs[|g.relocs| + a] == g'.relocs[|g.relocs|..][a]
  {
    forall a | 0 <= a < |g'.relocs|
      ensures g''.relocs[a] == g'.relocs[a]
    {
      assert g''.relocs[a] == g''.relocs[..|g'.relocs|][a];
    }
    forall a | 0 <= a < |g.relocs|
      ensures g''.relocs[a].offset != w
    {
      assert g'.relocs[a] == g'.relocs[..|g.relocs|][a];
    }
  }

  /** Relocations in a longer list, from m on, are those of the shorter one. */
  lemma {:induction false} LoadShift(l: Loader, rs: seq<Reloc>, m: nat, rs': seq<Reloc>, n: nat, w: nat, word: int)
    requires n <= |rs'| && m + n <= |rs| && LoadFirst(l, rs, m, w, word) == word
    requires forall a | 0 <= a < n :: rs[m + a] == rs'[a]
    ensures LoadFirst(l, rs, m + n, w, word) == LoadFirst(l, rs', n, w, word)
  {
    if n == 0 {
    } else {
      LoadShift(l, rs, m, rs', n - 1, w, word);
      assert rs[m + (n - 1)] == rs'[n - 1];
    }
  }

  lemma EmissionStep(gs: seq<Got>, ops: seq<Op>, s: nat, k: Kind, i: nat)
    requires IsRun(gs, ops) && s < |ops| && FirstEmission(gs, ops, s, k, i)
    ensures gs[s + 1] == Emit(gs[s], i, ops[s].n, ops[s].dynamicCreated) && KindsOk(gs[s])
    ensures !gs[s].lists[i][ops[s].n].created
    ensures |gs[s].relocs| <= |gs[s + 1].relocs| && gs[s + 1].relocs[..|gs[s].relocs|] == gs[s].relocs
  {
    RunKinds(gs, ops, s);
    SameCount(gs, ops, s);
    CreatedExactly(gs, ops, s, i, k);
    assert Steps(gs, ops, s);
    EmitExactly(gs[s], i, ops[s].n, ops[s].dynamicCreated);
  }
}
