/** Where the slots of a run lie and how much relocation space it reserves: its requests decide. */
module GotSlots {
  import opened MachineInts
  import opened GotSpec
  import opened GotInvariant
  import opened GotRuns

  // Entries stay where they are.

  predicate Kept(e: Entry, e': Entry) {
    && e'.kind == e.kind && e'.offset == e.offset && e'.existing == e.existing
    && (e.processed ==> e'.processed) && (e.created ==> e'.created)
  }

  /** The list es' of a later table: old entries keep their place, new ones lie past the old section. */
  predicate LaterList(size: nat, es: seq<Entry>, es': seq<Entry>) {
    && |es| <= |es'|
    && (forall n | 0 <= n < |es| :: Kept(es[n], es'[n]))
    && (forall n | |es| <= n < |es'| :: es'[n].offset >= size)
  }

  predicate Later(g: Got, g': Got) {
    && WellFormed(g) && WellFormed(g') && |g'.lists| == |g.lists|
    && g'.pic == g.pic && g'.symbolic == g.symbolic && g.size <= g'.size
    && (forall i | 0 <= i < |g.syms| :: g'.syms[i].Global? == g.syms[i].Global?)
    && (forall i | 0 <= i < |g.lists| :: LaterList(g.size, g.lists[i], g'.lists[i]))
  }

  lemma LaterSelf(g: Got)
    requires WellFormed(g)
    ensures Later(g, g)
  {
  }

  lemma UpdatedLater(g: Got, g': Got, i: nat, n: nat, e: Entry)
    requires Updated(g, g', i, n, e) && g'.symbolic == g.symbolic
    ensures Later(g, g')
  {
  }

  lemma FillLater(g: Got, k: Kind, i: nat, o: Outcome)
    requires WellFormed(g) && i < |g.lists|
    ensures Later(g, Fill(g, k, i, o).0)
  {
    if !Has(g.lists[i], k) && k != Unknown {
      if Recordable(g.syms[i], o) {
        FillGranted(g, k, i, o);
        assert LaterList(g.size, g.lists[i], g.lists[i] + [NewEntry(k, g.size)]);
      } else {
        FillRefused(g, k, i, o);
      }
    }
  }

  lemma ApplyLater(g: Got, op: Op)
    requires WellFormed(g) && Admits(g, op)
    ensures Later(g, Apply(g, op))
  {
    var g' := Apply(g, op);
    match op
    case FillOp(k, i, o) => FillLater(g, k, i, o);
    case FixOp(k, i, env) =>
      if g' != g {
        UpdatedLater(g, g', i, Find(g.lists[i], k), g.lists[i][Find(g.lists[i], k)].(processed := true));
      }
    case PutOp(_, _) =>
    case EmitOp(i, n, _) =>
      if g' != g {
        UpdatedLater(g, g', i, n, g.lists[i][n].(created := true));
      }
    case SymOp(_, _) =>
  }

  lemma LaterTransitive(g: Got, g': Got, g'': Got)
    requires Later(g, g') && Later(g', g'')
    ensures Later(g, g'')
  {
    forall i | 0 <= i < |g.lists|
      ensures LaterList(g.size, g.lists[i], g''.lists[i])
    {
      var es, es', es'' := g.lists[i], g'.lists[i], g''.lists[i];
      assert LaterList(g.size, es, es') && LaterList(g'.size, es', es'');
      forall n | |es| <= n < |es''|
        ensures es''[n].offset >= g.size
      {
        assert n < |es'| ==> Kept(es'[n], es''[n]);
      }
    }
  }

  /** Later tables of a run keep the entries of earlier ones. */
  lemma {:induction false} RunLater(gs: seq<Got>, ops: seq<Op>, s: nat, t: nat)
    requires IsRun(gs, ops) && s <= t <= |ops|
    ensures WellFormed(gs[s]) && WellFormed(gs[t]) && Later(gs[s], gs[t])
    decreases t - s
  {
    if s == t {
      RunFormed(gs, ops, t);
      LaterSelf(gs[t]);
    } else {
      RunLater(gs, ops, s, t - 1);
      assert Steps(gs, ops, t - 1);
      ApplyLater(gs[t - 1], ops[t - 1]);
      LaterTransitive(gs[s], gs[t - 1], gs[t]);
    }
  }

  lemma RunFormed(gs: seq<Got>, ops: seq<Op>, t: nat)
    requires IsRun(gs, ops) && t <= |ops|
    ensures WellFormed(gs[t])
  {
    if t > 0 {
      assert Steps(gs, ops, t - 1);
    }
  }

  // The place of a slot.

  /** Request s is the first that was granted. */
  predicate FirstGranted(gs: seq<Got>, ops: seq<Op>, s: nat, k: Kind, i: nat)
    requires IsRun(gs, ops) && s < |ops|
  {
    Granted(gs, ops, s, k, i) && forall u: nat | u < s :: !Granted(gs, ops, u, k, i)
  }

  lemma KindPlace(gs: seq<Got>, ops: seq<Op>, t: nat, i: nat, n: nat)
    requires IsRun(gs, ops) && t <= |ops| && i < |gs[t].lists| && n < |gs[t].lists[i]|
    ensures Find(gs[t].lists[i], gs[t].lists[i][n].kind) == n
  {
    var layout := RunKeeps(gs, ops, t);
  }

  /** The first request granted for a slot takes the words at the end of the section as it is then,
      two for GD and one for the other kinds; they are the slot's at every later moment. */
  lemma SlotPlaced(gs: seq<Got>, ops: seq<Op>, s: nat, t: nat, k: Kind, i: nat)
    requires IsRun(gs, ops) && s < t <= |ops| && i < |gs[0].lists| && FirstGranted(gs, ops, s, k, i)
    ensures gs[s + 1].size == gs[s].size + (if k == TlsGd then 8 else 4)
    ensures |gs[t].lists| == |gs[0].lists| && Has(gs[t].lists[i], k)
    ensures gs[t].lists[i][Find(gs[t].lists[i], k)].offset == gs[s].size
  {
    HasExactly(gs, ops, s, i, k);
    HasExactly(gs, ops, t, i, k);
    FillExactly(gs[s], k, i, ops[s].o);
    assert Steps(gs, ops, s);
    RunLater(gs, ops, s + 1, t);
    var n := |gs[s].lists[i]|;
    assert gs[s + 1].lists[i][n] == NewEntry(k, gs[s].size);
    assert Kept(gs[s + 1].lists[i][n], gs[t].lists[i][n]);
    KindPlace(gs, ops, t, i, n);
  }

  /** In any run a relocation finds its slot if and only if a request for it was granted before, at the
      offset the section ended at then; otherwise it changes nothing and has no offset. One that needs
      no slot has offset zero. */
  lemma SlotFoundExactly(gs: seq<Got>, ops: seq<Op>, t: nat)
    requires IsRun(gs, ops) && t < |ops| && ops[t].FixOp?
    ensures var k, i := ops[t].k, ops[t].i;
            var (g, offset) := Fix(gs[t], k, i, ops[t].env);
            if k == Unknown || k == TlsLe then g == gs[t] && offset == Some(0)
            else
              && (offset.Some? <==> exists s: nat :: s < t && Granted(gs, ops, s, k, i))
              && (forall s: nat | s < t && FirstGranted(gs, ops, s, k, i) :: offset == Some(gs[s].size))
              && (offset.None? ==> g == gs[t])
  {
    var k, i := ops[t].k, ops[t].i;
    if k != Unknown && k != TlsLe {
      SameCount(gs, ops, t);
      HasExactly(gs, ops, t, i, k);
      forall s: nat | s < t && FirstGranted(gs, ops, s, k, i)
        ensures Fix(gs[t], k, i, ops[t].env).1 == Some(gs[s].size)
      {
        SlotPlaced(gs, ops, s, t, k, i);
      }
    }
  }

  // Relocation space.

  /** A request for a slot that is not there, and whose symbol cannot be recorded. */
  predicate Refuses(g: Got, op: Op)
    requires WellFormed(g) && Admits(g, op)
  {
    op.FillOp? && op.k != Unknown && !Has(g.lists[op.i], op.k) && !Recordable(g.syms[op.i], op.o)
  }

  function Refusals(gs: seq<Got>, ops: seq<Op>, t: nat): nat
    requires IsRun(gs, ops) && t <= |ops|
  {
    if t == 0 then 0
    else Refusals(gs, ops, t - 1) + if Refuses(gs[t - 1], ops[t - 1]) then 1 else 0
  }

  function Quotas(g: Got): nat {
    Total(Reserved(g.pic, Globals(g)), g.lists)
  }

  lemma UpdatedQuotas(g: Got, g': Got, i: nat, n: nat, e: Entry)
    requires Updated(g, g', i, n, e)
    ensures Quotas(g') == Quotas(g)
  {
    TotalSet(Reserved(g.pic, Globals(g)), g.lists, i, n, e);
    assert Globals(g') == Globals(g);
  }

  lemma FillQuotas(g: Got, op: Op)
    requires WellFormed(g) && Admits(g, op) && op.FillOp?
    ensures Apply(g, op).relSize - 12 * Quotas(Apply(g, op))
         == g.relSize - 12 * Quotas(g) + if Refuses(g, op) then 12 else 0
  {
    var i, g' := op.i, Apply(g, op);
    FillExactly(g, op.k, i, op.o);
    assert Globals(g') == Globals(g);
    TotalAppend(Reserved(g.pic, Globals(g)), g.lists, i, NewEntry(op.k, g.size));
    assert (i in Globals(g)) == g.syms[i].Global?;
  }

  lemma ApplyQuotas(g: Got, op: Op)
    requires WellFormed(g) && Admits(g, op)
    ensures Apply(g, op).relSize - 12 * Quotas(Apply(g, op))
         == g.relSize - 12 * Quotas(g) + if Refuses(g, op) then 12 else 0
  {
    var g' := Apply(g, op);
    match op
    case FillOp(_, _, _) => FillQuotas(g, op);
    case FixOp(k, i, env) =>
      if g' != g {
        UpdatedQuotas(g, g', i, Find(g.lists[i], k), g.lists[i][Find(g.lists[i], k)].(processed := true));
      }
    case PutOp(_, _) =>
    case EmitOp(i, n, _) =>
      if g' != g {
        UpdatedQuotas(g, g', i, n, g.lists[i][n].(created := true));
      }
    case SymOp(_, _) => assert Globals(g') == Globals(g);
  }

  /** The relocation space of a run is exactly twelve bytes for each relocation the entries may ask
      for, and twelve lost for each request that was refused. */
  lemma {:induction false} SpaceExactly(gs: seq<Got>, ops: seq<Op>, t: nat)
    requires IsRun(gs, ops) && t <= |ops|
    ensures gs[t].relSize == 12 * (Quotas(gs[t]) + Refusals(gs, ops, t))
  {
    if t == 0 {
      EmptyTotal(Reserved(gs[0].pic, Globals(gs[0])), gs[0].lists, |gs[0].lists|);
    } else {
      SpaceExactly(gs, ops, t - 1);
      assert Steps(gs, ops, t - 1);
      ApplyQuotas(gs[t - 1], ops[t - 1]);
    }
  }
}
