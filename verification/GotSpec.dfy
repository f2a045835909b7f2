/** The slots of the ARC global offset table: what each operation does to the table as a value. */
module GotSpec {
  import opened MachineInts

  datatype Kind = Unknown | Normal | TlsGd | TlsIe | TlsLe

  datatype Existing = NoTls | Mod | Off | ModAndOff

  datatype Entry = Entry(kind: Kind, offset: nat, processed: bool, created: bool, existing: Existing)

  /** What the linker knows about the symbol of a list; a local symbol has no hash entry. */
  datatype Symbol = Local | Global(dynindx: int, forcedLocal: bool, defRegular: bool, undefWeak: bool)

  /** What recording a dynamic symbol may do: give it an index, force it local, or fail. */
  datatype Outcome = Recorded(index: nat) | ForcedLocal | Failed(dynindx: int)

  datatype RelocType = Relative | GlobDat | DtpMod | DtpOff | TpOff

  datatype Reloc = Reloc(offset: nat, sym: int, kind: RelocType, addend: int)

  const RELA_SIZE: nat := 12
  const TCB_SIZE: nat := 8

  /** The table: one entry list and one symbol for each list head, the sizes of the section and of
      its relocation section, the words stored, the relocations emitted, and the offsets patched. */
  datatype Got = Got(pic: bool, symbolic: bool,
                     lists: seq<seq<Entry>>, syms: seq<Symbol>,
                     size: nat, relSize: nat,
                     contents: map<nat, int>, relocs: seq<Reloc>, patches: seq<nat>)

  function SizeOf(k: Kind): nat {
    if k == TlsGd then 8 else 4
  }

  // Lookup and append.

  /** The first entry of a kind, or the length of the list. */
  function FindFrom(es: seq<Entry>, k: Kind, n: nat): (r: nat)
    requires n <= |es|
    ensures n <= r <= |es|
    ensures r < |es| ==> es[r].kind == k
    ensures forall i | n <= i < r :: es[i].kind != k
    decreases |es| - n
  {
    if n < |es| && es[n].kind != k then FindFrom(es, k, n + 1) else n
  }

  function Find(es: seq<Entry>, k: Kind): (r: nat)
    ensures r <= |es|
    ensures r < |es| ==> es[r].kind == k
    ensures forall i | 0 <= i < r :: es[i].kind != k
  {
    FindFrom(es, k, 0)
  }

  predicate Has(es: seq<Entry>, k: Kind) {
    Find(es, k) < |es|
  }

  // Reserving a word and, if needed, relocation space.

  predicate Unrecorded(s: Symbol) {
    s.Global? && s.dynindx == -1 && !s.forcedLocal
  }

  function Record(s: Symbol, o: Outcome): Symbol
    requires s.Global?
  {
    match o
    case Recorded(index) => s.(dynindx := index)
    case ForcedLocal => s.(forcedLocal := true)
    case Failed(index) => s.(dynindx := index)
  }

  /** One use of the macro: the relocation space is reserved first, then the symbol recorded,
      and only then the word added. */
  function AddRef(g: Got, i: nat, reserve: bool, o: Outcome): (Got, bool)
    requires i < |g.syms|
  {
    var g1 := if reserve then g.(relSize := g.relSize + RELA_SIZE) else g;
    if Unrecorded(g.syms[i]) then
      var g2 := g1.(syms := g1.syms[i := Record(g.syms[i], o)]);
      if o.Failed? then (g2, false) else (g2.(size := g2.size + 4), true)
    else
      (g1.(size := g1.size + 4), true)
  }

  function Append(g: Got, i: nat, e: Entry): Got
    requires i < |g.lists|
  {
    g.(lists := g.lists[i := g.lists[i] + [e]])
  }

  predicate WellFormed(g: Got) {
    |g.lists| == |g.syms|
  }

  /** arc_fill_got_info_for_reloc. */
  function Fill(g: Got, k: Kind, i: nat, o: Outcome): (r: (Got, bool))
    requires WellFormed(g) && i < |g.lists|
    ensures WellFormed(r.0) && |r.0.lists| == |g.lists|
  {
    if Has(g.lists[i], k) then (g, true)
    else
      match k
      case Normal =>
        var (g1, ok) := AddRef(g, i, g.pic || g.syms[i].Global?, o);
        if ok then (Append(g1, i, Entry(k, g.size, false, false, NoTls)), true) else (g1, false)
      case TlsGd =>
        var (g1, ok1) := AddRef(g, i, true, o);
        if !ok1 then (g1, false)
        else
          var (g2, ok2) := AddRef(g1, i, true, o);
          if ok2 then (Append(g2, i, Entry(k, g.size, false, false, ModAndOff)), true) else (g2, false)
      case Unknown => (g, false)
      case _ =>
        var (g1, ok) := AddRef(g, i, true, o);
        if ok then (Append(g1, i, Entry(k, g.size, false, false, Off)), true) else (g1, false)
  }

  // Patching the section at relocation time.

  /** What a relocation knows of its environment. */
  datatype Env = Env(dynamicCreated: bool, refsLocal: bool, symValue: int, secVma: int, tlsVma: int, tlsAlign: nat)

  /** align_power: round up by adding and masking. */
  function AlignUp(a: nat, align: nat): nat
  {
    ClearLow(a + Pow2(align) - 1, align)
  }

  /** A number with its lowest n bits cleared. */
  function ClearLow(x: nat, n: nat): nat {
    if n == 0 then x else 2 * ClearLow(x / 2, n - 1)
  }

  function Pow2(n: nat): (p: nat)
    ensures p > 0
  {
    if n == 0 then 1 else 2 * Pow2(n - 1)
  }

  /** The static case: the slot's value is known now. */
  predicate Static(g: Got, s: Symbol, env: Env) {
    s.Local? || s.forcedLocal || !env.dynamicCreated || (g.pic && env.refsLocal)
  }

  function SlotOf(e: Entry): nat {
    e.offset + if e.existing == ModAndOff then 4 else 0
  }

  /** The offset of the symbol from the thread pointer, behind a control block of the given size. */
  function ThreadOffset(env: Env, tcb: nat): int {
    (env.symValue - env.tlsVma + if env.dynamicCreated then 0 else AlignUp(tcb, env.tlsAlign)) % TWO32
  }

  /** The word to store and where, if any. */
  function PatchOf(e: Entry, s: Symbol, env: Env): Option<(nat, int)> {
    match e.kind
    case TlsGd =>
      if s.Local? || s.forcedLocal || !env.dynamicCreated then Some((SlotOf(e), ThreadOffset(env, 0)))
      else None
    case TlsIe => Some((SlotOf(e), ThreadOffset(env, TCB_SIZE)))
    case Normal =>
      if s.Global? && s.undefWeak then None else Some((e.offset, (env.symValue + env.secVma) % TWO32))
    case _ => None
  }

  function SetEntry(g: Got, i: nat, n: nat, e: Entry): Got
    requires i < |g.lists| && n < |g.lists[i]|
  {
    g.(lists := g.lists[i := g.lists[i][n := e]])
  }

  function Store(g: Got, p: Option<(nat, int)>): Got {
    if p.None? then g
    else g.(contents := g.contents[p.value.0 := p.value.1], patches := g.patches + [p.value.0])
  }

  /** relocate_fix_got_relocs_for_got_info. Without an entry the source has changed nothing when
      it reads the offset through a null pointer: there is no offset then. */
  function Fix(g: Got, k: Kind, i: nat, env: Env): (r: (Got, Option<nat>))
    requires WellFormed(g) && i < |g.lists|
    ensures WellFormed(r.0) && |r.0.lists| == |g.lists|
  {
    if k == Unknown || k == TlsLe then (g, Some(0))
    else if !Has(g.lists[i], k) then (g, None)
    else
      var n := Find(g.lists[i], k);
      var e := g.lists[i][n];
      if Static(g, g.syms[i], env) && !e.processed then
        (SetEntry(Store(g, PatchOf(e, g.syms[i], env)), i, n, e.(processed := true)), Some(e.offset))
      else (g, Some(e.offset))
  }

  /** elf_arc_relocate_section, before it patches the slot of a defined global symbol in a link at fixed
      addresses: the address and addend go to the first entry of the list, of whatever kind. */
  function Put(g: Got, i: nat, word: int): (r: Got)
    requires WellFormed(g) && i < |g.lists|
    ensures WellFormed(r) && |r.lists| == |g.lists|
  {
    if g.lists[i] == [] then g else g.(contents := g.contents[g.lists[i][0].offset := word % TWO32])
  }

  // Emitting dynamic relocations.

  function WordAt(g: Got, offset: nat): int {
    if offset in g.contents then g.contents[offset] else 0
  }

  /** The relocations an entry asks for; ADD_RELA drops them when there are no dynamic sections. */
  function RelocsOf(g: Got, e: Entry, s: Symbol): seq<Reloc> {
    if e.kind == Normal then
      if g.pic && s.Global? && (g.symbolic || s.dynindx == -1) && s.defRegular then
        [Reloc(e.offset, 0, Relative, 0)]
      else if s.Global? && s.dynindx != -1 then [Reloc(e.offset, s.dynindx, GlobDat, 0)]
      else []
    else
      var dynindx := if s.Local? || s.dynindx == -1 then 0 else s.dynindx;
      (if e.existing == ModAndOff || e.existing == Mod then [Reloc(e.offset, dynindx, DtpMod, 0)] else []) +
      (if e.existing == ModAndOff || e.existing == Off then
         [Reloc(SlotOf(e), dynindx, if e.kind == TlsIe then TpOff else DtpOff,
                if e.kind == TlsIe then WordAt(g, e.offset) else 0)]
       else [])
  }

  predicate Emits(e: Entry) {
    !e.created && (e.kind == Normal || e.existing != NoTls)
  }

  /** create_got_dynrelocs_for_single_entry, on entry n of list i. */
  function Emit(g: Got, i: nat, n: nat, dynamicCreated: bool): (r: Got)
    requires WellFormed(g) && i < |g.lists| && n < |g.lists[i]|
    ensures WellFormed(r) && |r.lists| == |g.lists| && |r.lists[i]| == |g.lists[i]|
  {
    var e := g.lists[i][n];
    if Emits(e) then
      SetEntry(if dynamicCreated then g.(relocs := g.relocs + RelocsOf(g, e, g.syms[i])) else g,
               i, n, e.(created := true))
    else g
  }

  /** create_got_dynrelocs_for_got_info: the first n entries of list i. */
  function EmitList(g: Got, i: nat, n: nat, dynamicCreated: bool): (r: Got)
    requires WellFormed(g) && i < |g.lists| && n <= |g.lists[i]|
    ensures WellFormed(r) && |r.lists| == |g.lists| && |r.lists[i]| == |g.lists[i]|
  {
    if n == 0 then g else Emit(EmitList(g, i, n - 1, dynamicCreated), i, n - 1, dynamicCreated)
  }

  // Runs.

  datatype Op =
    | FillOp(k: Kind, i: nat, o: Outcome)
    | FixOp(k: Kind, i: nat, env: Env)
    | PutOp(i: nat, word: int)
    | EmitOp(i: nat, n: nat, dynamicCreated: bool)
    | SymOp(i: nat, s: Symbol)

  /** Any operation on a list of the table, or on an entry found by walking one; in between the rest
      of the linker may renumber, define or hide a global symbol. */
  predicate Admits(g: Got, op: Op) {
    match op
    case FillOp(_, i, _) => i < |g.lists|
    case FixOp(_, i, _) => i < |g.lists|
    case PutOp(i, _) => i < |g.lists| && i < |g.syms| && g.syms[i].Global? && !g.pic
    case EmitOp(i, n, _) => i < |g.lists| && n < |g.lists[i]|
    case SymOp(i, s) => i < |g.syms| && (s.Global? <==> g.syms[i].Global?)
  }

  function Apply(g: Got, op: Op): (r: Got)
    requires WellFormed(g) && Admits(g, op)
    ensures WellFormed(r)
  {
    match op
    case FillOp(k, i, o) => Fill(g, k, i, o).0
    case FixOp(k, i, env) => Fix(g, k, i, env).0
    case PutOp(i, word) => Put(g, i, word)
    case EmitOp(i, n, dynamicCreated) => Emit(g, i, n, dynamicCreated)
    case SymOp(i, s) => g.(syms := g.syms[i := s])
  }

  /** A table before any request: a section of some size and no entries. */
  predicate Fresh(g: Got) {
    && WellFormed(g) && (forall i | 0 <= i < |g.lists| :: g.lists[i] == [])
    && g.relSize == 0 && g.relocs == [] && g.patches == []
  }

  predicate Steps(gs: seq<Got>, ops: seq<Op>, t: nat)
    requires t < |ops| < |gs| && WellFormed(gs[t]) && Admits(gs[t], ops[t])
  {
    gs[t + 1] == Apply(gs[t], ops[t])
  }

  /** The tables a run goes through. */
  predicate IsRun(gs: seq<Got>, ops: seq<Op>) {
    && |gs| == |ops| + 1 && Fresh(gs[0])
    && (forall t: nat | t < |ops| :: WellFormed(gs[t]) && Admits(gs[t], ops[t]))
    && (forall t: nat | t < |ops| :: Steps(gs, ops, t))
  }
}
