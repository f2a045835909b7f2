/** Every operation keeps the invariant, and what that says of whole runs. */
module GotRuns {
  import opened MachineInts
  import opened GotSpec
  import opened GotInvariant

  // Lookups in changed lists.

  lemma {:induction false} FindSame(es: seq<Entry>, es': seq<Entry>, k: Kind, n: nat)
    requires |es| == |es'| && n <= |es| && forall m | 0 <= m < |es| :: es[m].kind == es'[m].kind
    ensures FindFrom(es, k, n) == FindFrom(es', k, n)
    decreases |es| - n
  {
  }

  lemma {:induction false} FindAppended(es: seq<Entry>, e: Entry, k: Kind, n: nat)
    requires n <= |es|
    ensures FindFrom(es + [e], k, n) == if FindFrom(es, k, n) < |es| then FindFrom(es, k, n)
                                        else if e.kind == k then |es| else |es| + 1
    decreases |es| - n
  {
    if n == |es| {
    } else {
      FindAppended(es, e, k, n + 1);
    }
  }

  /** One entry is replaced by one of the same kind with the same or more marks. */
  predicate Updated(g: Got, g': Got, i: nat, n: nat, e: Entry) {
    && i < |g.lists| && n < |g.lists[i]| && WellFormed(g) && WellFormed(g')
    && g'.lists == g.lists[i := g.lists[i][n := e]]
    && e.kind == g.lists[i][n].kind && e.offset == g.lists[i][n].offset && e.existing == g.lists[i][n].existing
    && (g.lists[i][n].processed ==> e.processed) && (g.lists[i][n].created ==> e.created)
    && g'.pic == g.pic && g'.syms == g.syms && g'.size == g.size && g'.relSize == g.relSize
  }

  lemma UpdatedFind(g: Got, g': Got, i: nat, n: nat, e: Entry, j: nat, k: Kind)
    requires Updated(g, g', i, n, e) && j < |g.lists|
    ensures Find(g'.lists[j], k) == Find(g.lists[j], k)
  {
    FindSame(g.lists[j], g'.lists[j], k, 0);
  }

  lemma UpdatedKinds(g: Got, g': Got, i: nat, n: nat, e: Entry)
    requires Updated(g, g', i, n, e) && KindsOk(g)
    ensures KindsOk(g')
  {
  }

  lemma UpdatedLaid(g: Got, g': Got, i: nat, n: nat, e: Entry, base: nat, layout: seq<Owner>)
    requires Updated(g, g', i, n, e) && Laid(g, base, layout)
    ensures Laid(g', base, layout)
  {
  }

  lemma UpdatedBacked(g: Got, g': Got, i: nat, n: nat, e: Entry, base: nat, layout: seq<Owner>)
    requires Updated(g, g', i, n, e) && Backed(g, base, layout)
    ensures Backed(g', base, layout)
  {
    forall w: nat | w < |layout|
      ensures WordBacked(g', base, layout, w)
    {
      assert WordBacked(g, base, layout, w);
      UpdatedFind(g, g', i, n, e, layout[w].0, layout[w].1);
    }
  }

  lemma UpdatedMarked(g: Got, g': Got, i: nat, n: nat, e: Entry, o: Owner, processed: bool)
    requires Updated(g, g', i, n, e) && Marked(g, o, processed)
    ensures Marked(g', o, processed)
  {
    UpdatedFind(g, g', i, n, e, o.0, o.1);
  }

  lemma UpdatedPlaced(g: Got, g': Got, i: nat, n: nat, e: Entry, base: nat, layout: seq<Owner>)
    requires Updated(g, g', i, n, e)
    ensures forall offset: nat, processed ::
              Placed(g, base, layout, offset, processed) ==> Placed(g', base, layout, offset, processed)
  {
    forall offset: nat, processed | Placed(g, base, layout, offset, processed)
      ensures Placed(g', base, layout, offset, processed)
    {
      UpdatedMarked(g, g', i, n, e, layout[(offset - base) / 4], processed);
    }
  }

  // Requests.

  predicate Extended(g: Got, g': Got, i: nat, k: Kind) {
    && i < |g.lists| && WellFormed(g) && k != Unknown && !Has(g.lists[i], k)
    && SameBut(g, g')
    && g'.lists == g.lists[i := g.lists[i] + [NewEntry(k, g.size)]]
    && g'.size == g.size + SizeOf(k)
    && g'.relSize == g.relSize + RELA_SIZE * Quota(g.pic, g.syms[i].Global?, k)
  }

  /** The words of the new entry, appended to the layout. */
  function Grown(layout: seq<Owner>, i: nat, k: Kind): seq<Owner> {
    layout + (if k == TlsGd then [(i, k), (i, k)] else [(i, k)])
  }

  lemma ExtendedKinds(g: Got, g': Got, i: nat, k: Kind)
    requires Extended(g, g', i, k) && KindsOk(g)
    ensures KindsOk(g')
  {
  }

  lemma ExtendedLaid(g: Got, g': Got, i: nat, k: Kind, base: nat, layout: seq<Owner>)
    requires Extended(g, g', i, k) && Laid(g, base, layout)
    ensures Laid(g', base, Grown(layout, i, k))
  {
  }

  lemma ExtendedBacked(g: Got, g': Got, i: nat, k: Kind, base: nat, layout: seq<Owner>)
    requires Extended(g, g', i, k) && Laid(g, base, layout) && Backed(g, base, layout)
    ensures Backed(g', base, Grown(layout, i, k))
  {
    var grown := Grown(layout, i, k);
    forall w: nat | w < |grown|
      ensures WordBacked(g', base, grown, w)
    {
      var o := grown[w];
      assert w < |layout| ==> o == layout[w] && WordBacked(g, base, layout, w);
      if o.0 == i {
        FindAppended(g.lists[i], NewEntry(k, g.size), o.1, 0);
      }
    }
  }

  lemma ExtendedPlaced(g: Got, g': Got, i: nat, k: Kind, base: nat, layout: seq<Owner>)
    requires Extended(g, g', i, k)
    ensures forall offset: nat, processed :: Placed(g, base, layout, offset, processed) ==>
              Placed(g', base, Grown(layout, i, k), offset, processed)
  {
    forall offset: nat, processed | Placed(g, base, layout, offset, processed)
      ensures Placed(g', base, Grown(layout, i, k), offset, processed)
    {
      var o := layout[(offset - base) / 4];
      if o.0 == i {
        FindAppended(g.lists[i], NewEntry(k, g.size), o.1, 0);
      }
    }
  }

  lemma ExtendedCounted(g: Got, g': Got, i: nat, k: Kind, base: nat)
    requires Extended(g, g', i, k) && Counted(g, base)
    ensures Counted(g', base)
  {
    var e, globals := NewEntry(k, g.size), Globals(g);
    TotalAppend(BYTES, g.lists, i, e);
    TotalAppend(Reserved(g.pic, globals), g.lists, i, e);
    TotalAppend(Spent(g.pic, globals), g.lists, i, e);
    assert (i in globals) == g.syms[i].Global?;
  }

  /** A request keeps the invariant; the layout grows by the words of a new entry. */
  lemma FillKeeps(g: Got, k: Kind, i: nat, o: Outcome, base: nat, layout: seq<Owner>) returns (layout': seq<Owner>)
    requires Inv(g, base, layout) && i < |g.lists|
    ensures Inv(Fill(g, k, i, o).0, base, layout')
  {
    var (g', ok) := Fill(g, k, i, o);
    FillShape(g, k, i, o);
    if ok && !Has(g.lists[i], k) {
      layout' := Grown(layout, i, k);
      ExtendedKinds(g, g', i, k);
      ExtendedLaid(g, g', i, k, base, layout);
      ExtendedBacked(g, g', i, k, base, layout);
      ExtendedCounted(g, g', i, k, base);
      ExtendedPlaced(g, g', i, k, base, layout);
    } else {
      layout' := layout;
      RelaxedKeeps(g, g', base, layout);
    }
  }

  /** More relocation space or a changed symbol alone disturbs nothing. */
  lemma RelaxedKeeps(g: Got, g': Got, base: nat, layout: seq<Owner>)
    requires Inv(g, base, layout) && SameBut(g, g')
    requires g'.lists == g.lists && g'.size == g.size && g'.relSize >= g.relSize
    ensures Inv(g', base, layout)
  {
    forall w: nat | w < |layout|
      ensures WordBacked(g', base, layout, w)
    {
      assert WordBacked(g, base, layout, w);
    }
  }

  // Emission.

  /** An entry asks for no more than its quota, at distinct offsets inside its own words. */
  lemma RelocsInside(g: Got, e: Entry, s: Symbol)
    requires e.kind != Unknown
    requires e.existing == (if e.kind == Normal then NoTls else if e.kind == TlsGd then ModAndOff else Off)
    ensures var rs := RelocsOf(g, e, s);
            && |rs| <= Quota(g.pic, s.Global?, e.kind)
            && (forall a | 0 <= a < |rs| ::
                  rs[a].offset == e.offset || (e.kind == TlsGd && rs[a].offset == e.offset + 4))
            && (forall a, b | 0 <= a < b < |rs| :: rs[a].offset != rs[b].offset)
  {
  }

  /** An offset in the words of entry n of list i belongs to that entry. */
  lemma OwnWord(g: Got, base: nat, layout: seq<Owner>, i: nat, n: nat, offset: nat)
    requires KindsOk(g) && Laid(g, base, layout) && i < |g.lists| && n < |g.lists[i]|
    requires var e := g.lists[i][n];
             offset == e.offset || (e.kind == TlsGd && offset == e.offset + 4)
    ensures base <= offset && (offset - base) % 4 == 0 && (offset - base) / 4 < |layout|
    ensures layout[(offset - base) / 4] == (i, g.lists[i][n].kind)
    ensures Find(g.lists[i], g.lists[i][n].kind) == n
  {
  }

  lemma NotYet(g: Got, base: nat, layout: seq<Owner>, i: nat, n: nat, offset: nat, processed: bool)
    requires KindsOk(g) && Laid(g, base, layout) && i < |g.lists| && n < |g.lists[i]|
    requires var e := g.lists[i][n];
             && (offset == e.offset || (e.kind == TlsGd && offset == e.offset + 4))
             && !(if processed then e.processed else e.created)
    ensures !Placed(g, base, layout, offset, processed)
  {
  }

  lemma NowPlaced(g: Got, g': Got, i: nat, n: nat, e: Entry, base: nat, layout: seq<Owner>,
                  offset: nat, processed: bool)
    requires KindsOk(g) && Laid(g, base, layout) && Updated(g, g', i, n, e)
    requires offset == e.offset || (e.kind == TlsGd && offset == e.offset + 4)
    requires if processed then e.processed else e.created
    ensures Placed(g', base, layout, offset, processed)
  {
    OwnWord(g, base, layout, i, n, offset);
    UpdatedFind(g, g', i, n, e, i, e.kind);
  }

  lemma EmitKeepsPlaces(g: Got, g': Got, i: nat, n: nat, rs: seq<Reloc>, base: nat, layout: seq<Owner>)
    requires Inv(g, base, layout) && i < |g.lists| && n < |g.lists[i]| && !g.lists[i][n].created
    requires Updated(g, g', i, n, g.lists[i][n].(created := true))
    requires g'.relocs == g.relocs + rs && (rs == [] || rs == RelocsOf(g, g.lists[i][n], g.syms[i]))
    ensures Emitted(g', base, layout)
  {
    var e := g.lists[i][n];
    RelocsInside(g, e, g.syms[i]);
    UpdatedPlaced(g, g', i, n, e.(created := true), base, layout);
    forall a | 0 <= a < |rs|
      ensures Placed(g', base, layout, rs[a].offset, false) && !Placed(g, base, layout, rs[a].offset, false)
    {
      NowPlaced(g, g', i, n, e.(created := true), base, layout, rs[a].offset, false);
      NotYet(g, base, layout, i, n, rs[a].offset, false);
    }
    JoinEmitted(g, g', rs, base, layout);
  }

  lemma JoinEmitted(g: Got, g': Got, rs: seq<Reloc>, base: nat, layout: seq<Owner>)
    requires Emitted(g, base, layout) && g'.relocs == g.relocs + rs
    requires forall offset: nat :: Placed(g, base, layout, offset, false) ==> Placed(g', base, layout, offset, false)
    requires forall a | 0 <= a < |rs| ::
               Placed(g', base, layout, rs[a].offset, false) && !Placed(g, base, layout, rs[a].offset, false)
    requires forall a, b | 0 <= a < b < |rs| :: rs[a].offset != rs[b].offset
    ensures Emitted(g', base, layout)
  {
  }

  lemma EmitCounted(g: Got, g': Got, i: nat, n: nat, rs: seq<Reloc>, base: nat, layout: seq<Owner>)
    requires Inv(g, base, layout) && i < |g.lists| && n < |g.lists[i]| && !g.lists[i][n].created
    requires Updated(g, g', i, n, g.lists[i][n].(created := true))
    requires g'.relocs == g.relocs + rs && (rs == [] || rs == RelocsOf(g, g.lists[i][n], g.syms[i]))
    ensures Counted(g', base)
  {
    var e, globals := g.lists[i][n], Globals(g);
    RelocsInside(g, e, g.syms[i]);
    TotalSet(BYTES, g.lists, i, n, e.(created := true));
    TotalSet(Reserved(g.pic, globals), g.lists, i, n, e.(created := true));
    TotalSet(Spent(g.pic, globals), g.lists, i, n, e.(created := true));
    assert (i in globals) == g.syms[i].Global?;
    assert Globals(g') == globals;
  }

  /** Emitting an entry's relocations keeps the invariant. */
  lemma EmitKeeps(g: Got, i: nat, n: nat, dynamicCreated: bool, base: nat, layout: seq<Owner>)
    requires Inv(g, base, layout) && i < |g.lists| && n < |g.lists[i]|
    ensures Inv(Emit(g, i, n, dynamicCreated), base, layout)
  {
    var e, g' := g.lists[i][n], Emit(g, i, n, dynamicCreated);
    if Emits(e) {
      var rs := if dynamicCreated then RelocsOf(g, e, g.syms[i]) else [];
      var e' := e.(created := true);
      assert g'.relocs == g.relocs + rs;
      assert Updated(g, g', i, n, e');
      UpdatedKinds(g, g', i, n, e');
      UpdatedLaid(g, g', i, n, e', base, layout);
      UpdatedBacked(g, g', i, n, e', base, layout);
      UpdatedPlaced(g, g', i, n, e', base, layout);
      EmitKeepsPlaces(g, g', i, n, rs, base, layout);
      EmitCounted(g, g', i, n, rs, base, layout);
    }
  }

  // Patching.

  /** A patch is inside the entry's own words. */
  lemma PatchInside(e: Entry, s: Symbol, env: Env)
    requires e.kind != Unknown
    requires e.existing == (if e.kind == Normal then NoTls else if e.kind == TlsGd then ModAndOff else Off)
    ensures var p := PatchOf(e, s, env);
            p.Some? ==> p.value.0 == e.offset || (e.kind == TlsGd && p.value.0 == e.offset + 4)
  {
  }

  lemma FixCounted(g: Got, g': Got, i: nat, n: nat, base: nat)
    requires Counted(g, base) && i < |g.lists| && n < |g.lists[i]| && g'.relocs == g.relocs
    requires Updated(g, g', i, n, g.lists[i][n].(processed := true))
    ensures Counted(g', base)
  {
    var e, globals := g.lists[i][n], Globals(g);
    TotalSet(BYTES, g.lists, i, n, e.(processed := true));
    TotalSet(Reserved(g.pic, globals), g.lists, i, n, e.(processed := true));
    TotalSet(Spent(g.pic, globals), g.lists, i, n, e.(processed := true));
    assert Globals(g') == globals;
  }

  lemma FixPatched(g: Got, g': Got, i: nat, n: nat, env: Env, base: nat, layout: seq<Owner>)
    requires Inv(g, base, layout) && i < |g.lists| && n < |g.lists[i]| && !g.lists[i][n].processed
    requires Updated(g, g', i, n, g.lists[i][n].(processed := true))
    requires g'.patches == Store(g, PatchOf(g.lists[i][n], g.syms[i], env)).patches
    ensures Patched(g', base, layout)
  {
    var e := g.lists[i][n];
    var p := PatchOf(e, g.syms[i], env);
    PatchInside(e, g.syms[i], env);
    UpdatedPlaced(g, g', i, n, e.(processed := true), base, layout);
    if p.Some? {
      NowPlaced(g, g', i, n, e.(processed := true), base, layout, p.value.0, true);
      NotYet(g, base, layout, i, n, p.value.0, true);
      assert g'.patches == g.patches + [p.value.0];
    }
  }

  /** Patching a slot keeps the invariant. */
  lemma FixKeeps(g: Got, k: Kind, i: nat, env: Env, base: nat, layout: seq<Owner>)
    requires Inv(g, base, layout) && i < |g.lists|
    ensures Inv(Fix(g, k, i, env).0, base, layout)
  {
    var g' := Fix(g, k, i, env).0;
    if k != Unknown && k != TlsLe && Has(g.lists[i], k) {
      var n := Find(g.lists[i], k);
      var e := g.lists[i][n];
      if Static(g, g.syms[i], env) && !e.processed {
        var e' := e.(processed := true);
        assert Updated(g, g', i, n, e');
        UpdatedKinds(g, g', i, n, e');
        UpdatedLaid(g, g', i, n, e', base, layout);
        UpdatedBacked(g, g', i, n, e', base, layout);
        UpdatedPlaced(g, g', i, n, e', base, layout);
        FixCounted(g, g', i, n, base);
        FixPatched(g, g', i, n, env, base, layout);
      }
    }
  }

  // Runs.

  lemma {:induction false} EmptyTotal(f: Measure, lists: seq<seq<Entry>>, m: nat)
    requires m <= |lists| && forall i | 0 <= i < |lists| :: lists[i] == []
    ensures Sum(f, lists, m) == 0
  {
    if m == 0 {
    } else {
      EmptyTotal(f, lists, m - 1);
    }
  }

  lemma FreshInv(g: Got)
    requires Fresh(g)
    ensures Inv(g, g.size, [])
  {
    EmptyTotal(BYTES, g.lists, |g.lists|);
    EmptyTotal(Reserved(g.pic, Globals(g)), g.lists, |g.lists|);
    EmptyTotal(Spent(g.pic, Globals(g)), g.lists, |g.lists|);
  }

  lemma ApplyKeeps(g: Got, op: Op, base: nat, layout: seq<Owner>) returns (layout': seq<Owner>)
    requires Inv(g, base, layout) && Admits(g, op)
    ensures Inv(Apply(g, op), base, layout')
  {
    layout' := layout;
    match op
    case FillOp(k, i, o) => layout' := FillKeeps(g, k, i, o, base, layout);
    case FixOp(k, i, env) => FixKeeps(g, k, i, env, base, layout);
    case PutOp(_, _) => RelaxedKeeps(g, Apply(g, op), base, layout);
    case EmitOp(i, n, dynamicCreated) => EmitKeeps(g, i, n, dynamicCreated, base, layout);
    case SymOp(i, s) => RelaxedKeeps(g, Apply(g, op), base, layout);
  }

  /** The invariant holds of every table of every run, failed requests included. */
  lemma {:induction false} RunKeeps(gs: seq<Got>, ops: seq<Op>, t: nat) returns (layout: seq<Owner>)
    requires IsRun(gs, ops) && t <= |ops|
    ensures Inv(gs[t], gs[0].size, layout)
  {
    if t == 0 {
      FreshInv(gs[0]);
      layout := [];
    } else {
      var before := RunKeeps(gs, ops, t - 1);
      assert Steps(gs, ops, t - 1);
      layout := ApplyKeeps(gs[t - 1], ops[t - 1], gs[0].size, before);
    }
  }

  predicate Apart(a: Entry, b: Entry) {
    a.offset + SizeOf(a.kind) <= b.offset || b.offset + SizeOf(b.kind) <= a.offset
  }

  lemma OwnersApart(layout: seq<Owner>, base: nat, i: nat, a: Entry, j: nat, b: Entry)
    requires Owns(layout, base, i, a) && Owns(layout, base, j, b) && (i, a.kind) != (j, b.kind)
    ensures Apart(a, b)
  {
  }

  /** Slots: after any run, each list has at most one entry of a kind, all entries of all lists own
      disjoint ranges inside the section, and the section grew by exactly the sum of their sizes. */
  lemma Slots(gs: seq<Got>, ops: seq<Op>, t: nat)
    requires IsRun(gs, ops) && t <= |ops|
    ensures var g := gs[t];
            && (forall i, n, m | 0 <= i < |g.lists| && 0 <= n < m < |g.lists[i]| ::
                  g.lists[i][n].kind != g.lists[i][m].kind)
            && (forall i, n | 0 <= i < |g.lists| && 0 <= n < |g.lists[i]| ::
                  gs[0].size <= g.lists[i][n].offset
                  && g.lists[i][n].offset + SizeOf(g.lists[i][n].kind) <= g.size)
            && (forall i, n, j, m | 0 <= i < |g.lists| && 0 <= n < |g.lists[i]|
                                    && 0 <= j < |g.lists| && 0 <= m < |g.lists[j]| && (i, n) != (j, m) ::
                  Apart(g.lists[i][n], g.lists[j][m]))
            && g.size == gs[0].size + Total(BYTES, g.lists)
  {
    var layout := RunKeeps(gs, ops, t);
    var g, base := gs[t], gs[0].size;
    forall i, n, j, m | 0 <= i < |g.lists| && 0 <= n < |g.lists[i]|
                        && 0 <= j < |g.lists| && 0 <= m < |g.lists[j]| && (i, n) != (j, m)
      ensures Apart(g.lists[i][n], g.lists[j][m])
    {
      var a, b := g.lists[i][n], g.lists[j][m];
      assert Owns(layout, base, i, a) && Owns(layout, base, j, b);
      assert Find(g.lists[i], a.kind) == n && Find(g.lists[j], b.kind) == m;
      OwnersApart(layout, base, i, a, j, b);
    }
    forall i, n | 0 <= i < |g.lists| && 0 <= n < |g.lists[i]|
      ensures base <= g.lists[i][n].offset && g.lists[i][n].offset + SizeOf(g.lists[i][n].kind) <= g.size
    {
      assert Owns(layout, base, i, g.lists[i][n]);
    }
    forall i, n, m | 0 <= i < |g.lists| && 0 <= n < m < |g.lists[i]|
      ensures g.lists[i][n].kind != g.lists[i][m].kind
    {
      assert Find(g.lists[i], g.lists[i][n].kind) == n && Find(g.lists[i], g.lists[i][m].kind) == m;
    }
  }

  /** An offset lies in the range of an entry that is marked as done. */
  ghost predicate Held(g: Got, offset: nat, processed: bool) {
    exists i: nat, n: nat :: HeldBy(g, i, n, offset, processed)
  }

  predicate HeldBy(g: Got, i: nat, n: nat, offset: nat, processed: bool) {
    && i < |g.lists| && n < |g.lists[i]| && InRange(g.lists[i][n], offset)
    && (if processed then g.lists[i][n].processed else g.lists[i][n].created)
  }

  lemma PlacedHeld(g: Got, base: nat, layout: seq<Owner>, offset: nat, processed: bool)
    requires Backed(g, base, layout) && Placed(g, base, layout, offset, processed)
    ensures Held(g, offset, processed)
  {
    var w := (offset - base) / 4;
    assert WordBacked(g, base, layout, w);
    assert HeldBy(g, layout[w].0, Find(g.lists[layout[w].0], layout[w].1), offset, processed);
  }

  /** Relocations: after any run, no more are emitted than space was reserved for, no two for the
      same word, and no word is patched twice; each lies in the range of an entry that is marked. */
  lemma Relocations(gs: seq<Got>, ops: seq<Op>, t: nat)
    requires IsRun(gs, ops) && t <= |ops|
    ensures var g := gs[t];
            && RELA_SIZE * |g.relocs| <= g.relSize
            && (forall a, b | 0 <= a < b < |g.relocs| :: g.relocs[a].offset != g.relocs[b].offset)
            && (forall a, b | 0 <= a < b < |g.patches| :: g.patches[a] != g.patches[b])
            && (forall a | 0 <= a < |g.relocs| ::
                  gs[0].size <= g.relocs[a].offset < g.size && Held(g, g.relocs[a].offset, false))
            && (forall a | 0 <= a < |g.patches| ::
                  gs[0].size <= g.patches[a] < g.size && Held(g, g.patches[a], true))
  {
    var layout := RunKeeps(gs, ops, t);
    var g := gs[t];
    SumLess(Spent(g.pic, Globals(g)), Reserved(g.pic, Globals(g)), g.lists, |g.lists|);
    forall a | 0 <= a < |g.relocs|
      ensures gs[0].size <= g.relocs[a].offset < g.size && Held(g, g.relocs[a].offset, false)
    {
      PlacedHeld(g, gs[0].size, layout, g.relocs[a].offset, false);
    }
    forall a | 0 <= a < |g.patches|
      ensures gs[0].size <= g.patches[a] < g.size && Held(g, g.patches[a], true)
    {
      PlacedHeld(g, gs[0].size, layout, g.patches[a], true);
    }
  }

  /** A request that succeeded is remembered: repeating it changes nothing. */
  lemma FillTwice(g: Got, k: Kind, i: nat, o: Outcome, o': Outcome)
    requires WellFormed(g) && i < |g.lists| && Fill(g, k, i, o).1
    ensures Fill(Fill(g, k, i, o).0, k, i, o') == (Fill(g, k, i, o).0, true)
  {
    FillShape(g, k, i, o);
    if !Has(g.lists[i], k) {
      FindAppended(g.lists[i], NewEntry(k, g.size), k, 0);
    }
  }

  /** Emitting twice is emitting once. */
  lemma EmitTwice(g: Got, i: nat, n: nat, dynamicCreated: bool, dynamicCreated': bool)
    requires WellFormed(g) && i < |g.lists| && n < |g.lists[i]|
    ensures Emit(Emit(g, i, n, dynamicCreated), i, n, dynamicCreated') == Emit(g, i, n, dynamicCreated)
  {
  }

  // Which relocations find their slot.

  /** Request s of a run was for kind k of list i, and the symbol of the list could be recorded, or
      had been already. */
  predicate Granted(gs: seq<Got>, ops: seq<Op>, s: nat, k: Kind, i: nat)
    requires IsRun(gs, ops) && s < |ops|
  {
    && ops[s].FillOp? && ops[s].k == k && ops[s].i == i
    && k != Unknown && Recordable(gs[s].syms[i], ops[s].o)
  }

  lemma FillHas(g: Got, k: Kind, i: nat, o: Outcome, j: nat, k': Kind)
    requires WellFormed(g) && i < |g.lists| && j < |g.lists|
    ensures Has(Fill(g, k, i, o).0.lists[j], k') <==>
              Has(g.lists[j], k') || (j == i && k' == k && k != Unknown && Recordable(g.syms[i], o))
  {
    FillExactly(g, k, i, o);
    FindAppended(g.lists[i], NewEntry(k, g.size), k', 0);
  }

  lemma FixHas(g: Got, k: Kind, i: nat, env: Env, j: nat, k': Kind)
    requires WellFormed(g) && i < |g.lists| && j < |g.lists|
    ensures Has(Fix(g, k, i, env).0.lists[j], k') <==> Has(g.lists[j], k')
  {
    var es, es' := g.lists[j], Fix(g, k, i, env).0.lists[j];
    FindSame(es, es', k', 0);
  }

  lemma EmitHas(g: Got, i: nat, n: nat, dynamicCreated: bool, j: nat, k': Kind)
    requires WellFormed(g) && i < |g.lists| && n < |g.lists[i]| && j < |g.lists|
    ensures Has(Emit(g, i, n, dynamicCreated).lists[j], k') <==> Has(g.lists[j], k')
  {
    var es, es' := g.lists[j], Emit(g, i, n, dynamicCreated).lists[j];
    FindSame(es, es', k', 0);
  }

  lemma ApplyHas(g: Got, op: Op, j: nat, k: Kind)
    requires WellFormed(g) && Admits(g, op) && j < |g.lists|
    ensures |Apply(g, op).lists| == |g.lists|
    ensures Has(Apply(g, op).lists[j], k) <==>
              Has(g.lists[j], k)
              || (op.FillOp? && op.k == k && op.i == j && k != Unknown && Recordable(g.syms[j], op.o))
  {
    match op
    case FillOp(k', i, o) => FillHas(g, k', i, o, j, k);
    case FixOp(k', i, env) => FixHas(g, k', i, env, j, k);
    case PutOp(_, _) =>
    case EmitOp(i, n, dynamicCreated) => EmitHas(g, i, n, dynamicCreated, j, k);
    case SymOp(_, _) =>
  }

  /** A list has an entry of a kind exactly if, at some request for it, its symbol could be recorded. */
  lemma {:induction false} HasExactly(gs: seq<Got>, ops: seq<Op>, t: nat, i: nat, k: Kind)
    requires IsRun(gs, ops) && t <= |ops| && i < |gs[0].lists|
    ensures |gs[t].lists| == |gs[0].lists|
    ensures Has(gs[t].lists[i], k) <==> exists s: nat :: s < t && Granted(gs, ops, s, k, i)
  {
    if t == 0 {
    } else {
      HasExactly(gs, ops, t - 1, i, k);
      assert Steps(gs, ops, t - 1);
      ApplyHas(gs[t - 1], ops[t - 1], i, k);
      assert Granted(gs, ops, t - 1, k, i) <==> ops[t - 1].FillOp? && ops[t - 1].k == k && ops[t - 1].i == i
                                                && k != Unknown && Recordable(gs[t - 1].syms[i], ops[t - 1].o);
    }
  }

  lemma {:induction false} SameCount(gs: seq<Got>, ops: seq<Op>, t: nat)
    requires IsRun(gs, ops) && t <= |ops|
    ensures |gs[t].lists| == |gs[0].lists|
  {
    if t == 0 {
    } else {
      SameCount(gs, ops, t - 1);
      assert Steps(gs, ops, t - 1);
      CountKept(gs[t - 1], ops[t - 1]);
    }
  }

  lemma CountKept(g: Got, op: Op)
    requires WellFormed(g) && Admits(g, op)
    ensures |Apply(g, op).lists| == |g.lists|
  {
  }

  /** When recording the symbol fails the first request for a slot, its relocation finds none. */
  lemma FailedRequestStrands(g: Got, k: Kind, i: nat, dynindx: int, env: Env)
    requires WellFormed(g) && i < |g.lists| && k != Unknown && k != TlsLe
    requires !Has(g.lists[i], k) && Unrecorded(g.syms[i])
    ensures Fix(Fill(g, k, i, Failed(dynindx)).0, k, i, env).1 == None
  {
    FillShape(g, k, i, Failed(dynindx));
  }

  lemma {:induction false} ClearLowIs(x: nat, n: nat) returns (q: nat)
    ensures ClearLow(x, n) == q * Pow2(n) && ClearLow(x, n) <= x < ClearLow(x, n) + Pow2(n)
  {
    if n == 0 {
      q := x;
    } else {
      q := ClearLowIs(x / 2, n - 1);
    }
  }

  /** The alignment of the thread control block: the least multiple that is not below it. */
  lemma AlignUpIs(a: nat, align: nat)
    ensures AlignUp(a, align) % Pow2(align) == 0
    ensures a <= AlignUp(a, align) < a + Pow2(align)
    ensures Pow2(0) == 1 && Pow2(align + 1) == 2 * Pow2(align)
  {
    var q := ClearLowIs(a + Pow2(align) - 1, align);
    ModUnique(q * Pow2(align), q, 0, Pow2(align));
  }

  /** Relocating a local symbol patches the word of its IE entry and then hands that very word on
      as the addend of the one relocation it emits. */
  lemma LocalIe(g: Got, i: nat, env: Env)
    requires WellFormed(g) && KindsOk(g) && i < |g.lists| && g.syms[i].Local? && Has(g.lists[i], TlsIe)
    requires var e := g.lists[i][Find(g.lists[i], TlsIe)]; !e.processed && !e.created
    ensures var n := Find(g.lists[i], TlsIe);
            var e := g.lists[i][n];
            var value := (env.symValue - env.tlsVma
                          + if env.dynamicCreated then 0 else AlignUp(TCB_SIZE, env.tlsAlign)) % TWO32;
            var g' := Emit(Fix(g, TlsIe, i, env).0, i, n, true);
            && g'.contents == g.contents[e.offset := value]
            && g'.relocs == g.relocs + [Reloc(e.offset, 0, TpOff, value)]
  {
    var n := Find(g.lists[i], TlsIe);
    var e := g.lists[i][n];
    assert e.existing == Off;
    var g1 := Fix(g, TlsIe, i, env).0;
    assert g1.lists[i][n] == e.(processed := true);
    assert RelocsOf(g1, g1.lists[i][n], Local) == [Reloc(e.offset, 0, TpOff, WordAt(g1, e.offset))];
  }
}
