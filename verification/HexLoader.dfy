/** The loader of hexadecimal images, the initial memory, and the copy into SRAM. */
module HexLoader {
  import opened MachineInts
  import opened HexText

  const EBREAK: u32 := 0x0010_0073
  const IMEM_SIZE: nat := 0x100_0000

  // Memory as a partial map from addresses to bytes.

  type Mem = map<int, u8>

  function Addresses(addr: int, n: nat): (r: set<int>)
    ensures forall i :: i in r <==> addr <= i < addr + n
  {
    if n == 0 then {} else Addresses(addr, n - 1) + {addr + n - 1}
  }

  function Poke(mem: Mem, addr: int, bytes: seq<u8>): (r: Mem)
    ensures forall i :: i in r <==> i in mem || addr <= i < addr + |bytes|
    ensures forall i | i in r :: r[i] == if addr <= i < addr + |bytes| then bytes[i - addr] else mem[i]
  {
    mem + map i | i in Addresses(addr, |bytes|) :: bytes[i - addr]
  }

  function Pow256(n: nat): (p: nat)
    ensures p > 0
  {
    if n == 0 then 1 else 256 * Pow256(n - 1)
  }

  /** Byte i of a number, lowest first. */
  function ByteOf(value: nat, i: nat): u8 {
    (value / Pow256(i)) % TWO8
  }

  function LittleEndian(value: nat, n: nat): seq<u8> {
    seq(n, i requires 0 <= i < n => ByteOf(value, i))
  }

  /** What a buffer holds once the bytes of mem are stored over it. */
  function Overlay(before: seq<u8>, mem: Mem): seq<u8> {
    seq(|before|, i requires 0 <= i < |before| => if i in mem then mem[i] else before[i])
  }

  // The loader: what it has stored, the next address and the highest address reached.

  datatype LoadError = BadDirective | BeyondBuffer | Wrapped | NoData

  datatype Load = Load(mem: Mem, addr: u32, max: u32, error: Option<LoadError>)

  const START: Load := Load(map[], 0, 0, None)

  /** Store one number. The bounds check adds in 32 bits; when that sum wraps to a small number
      the check passes although the bytes lie outside the buffer. */
  function Put(l: Load, f: Field, size: nat): Load {
    if l.error.Some? then l
    else if (l.addr + f.width) % TWO32 > size then l.(error := Some(BeyondBuffer))
    else if l.addr + f.width > size || l.addr + f.width >= TWO32 then l.(error := Some(Wrapped))
    else
      var next := l.addr + f.width;
      Load(Poke(l.mem, l.addr, LittleEndian(f.value, f.width)), next, if next > l.max then next else l.max, None)
  }

  function PutAll(l: Load, fs: seq<Field>, size: nat): Load
    decreases |fs|
  {
    if fs == [] then l else PutAll(Put(l, fs[0], size), fs[1..], size)
  }

  predicate Skipped(line: string) {
    line != [] && (line[0] == '\n' || line[0] == '\r' || line[0] == '#' || line[0] == '/')
  }

  predicate Directive(line: string) {
    line != [] && line[0] == '@'
  }

  function LoadLine(l: Load, line: string, size: nat): Load {
    if l.error.Some? || Skipped(line) then l
    else if Directive(line) then
      var r := ScanHex(line, 1);
      if r.None? then l.(error := Some(BadDirective))
      else l.(addr := Number(line[r.value.start..r.value.end]))
    else PutAll(l, Fields(line), size)
  }

  function LoadLines(l: Load, lines: seq<string>, size: nat): Load
    decreases |lines|
  {
    if lines == [] then l else LoadLines(LoadLine(l, lines[0], size), lines[1..], size)
  }

  /** The result of a whole file. */
  function LoadFile(lines: seq<string>, size: nat): Load {
    var l := LoadLines(START, lines, size);
    if l.error.None? && l.max == 0 then l.(error := Some(NoData)) else l
  }

  lemma {:induction false} ErrorStays(l: Load, fs: seq<Field>, size: nat)
    requires l.error.Some?
    ensures PutAll(l, fs, size) == l
  {
    if fs == [] {
    } else {
      ErrorStays(l, fs[1..], size);
    }
  }

  lemma {:induction false} ErrorStaysLines(l: Load, lines: seq<string>, size: nat)
    requires l.error.Some?
    ensures LoadLines(l, lines, size) == l
  {
    if lines == [] {
    } else {
      ErrorStaysLines(l, lines[1..], size);
    }
  }

  lemma PutOverlay(before: seq<u8>, mem: Mem, addr: nat, bytes: seq<u8>, after: seq<u8>)
    requires addr + |bytes| <= |before| == |after|
    requires forall i | 0 <= i < |before| ::
               after[i] == if addr <= i < addr + |bytes| then bytes[i - addr] else Overlay(before, mem)[i]
    ensures after == Overlay(before, Poke(mem, addr, bytes))
  {
  }

  /** The byte loop at the end of a number. */
  method StoreField(buffer: array<u8>, addr: nat, f: Field)
    requires addr + f.width <= buffer.Length
    modifies buffer
    ensures forall i | 0 <= i < buffer.Length ::
              buffer[i] == if addr <= i < addr + f.width then ByteOf(f.value, i - addr) else old(buffer[i])
  {
    for i := 0 to f.width
      invariant forall k | 0 <= k < buffer.Length ::
                  buffer[k] == if addr <= k < addr + i then ByteOf(f.value, k - addr) else old(buffer[k])
    {
      buffer[addr + i] := ByteOf(f.value, i);
    }
  }

  /** The bounds check, the byte loop and the two addresses, for one number. */
  method StoreNumber(f: Field, buffer: array<u8>, addr: u32, max: u32, ghost before: seq<u8>, ghost mem: Mem)
    returns (addr': u32, max': u32, error: Option<LoadError>, ghost mem': Mem)
    requires buffer.Length < TWO32 && |before| == buffer.Length && buffer[..] == Overlay(before, mem)
    modifies buffer
    ensures Load(mem', addr', max', error) == Put(Load(mem, addr, max, None), f, buffer.Length)
    ensures buffer[..] == Overlay(before, mem')
  {
    addr', max', error, mem' := addr, max, None, mem;
    if (addr + f.width) % TWO32 > buffer.Length {
      return addr, max, Some(BeyondBuffer), mem;
    }
    if addr + f.width > buffer.Length {
      return addr, max, Some(Wrapped), mem;
    }
    StoreField(buffer, addr, f);
    PutOverlay(before, mem, addr, LittleEndian(f.value, f.width), buffer[..]);
    mem' := Poke(mem, addr, LittleEndian(f.value, f.width));
    addr' := addr + f.width;
    if addr' > max {
      max' := addr';
    }
  }

  /** What the numbers on a line from position p on do. */
  function Rest(l: Load, line: string, p: nat, size: nat): Load
    requires p <= |line|
  {
    PutAll(l, FieldList(line, Spans(line, p)), size)
  }

  /** One data line: skip white space, convert a number, check bounds, store, move on. */
  method LoadData(line: string, buffer: array<u8>, addr: u32, max: u32, ghost before: seq<u8>, ghost mem: Mem)
    returns (addr': u32, max': u32, error: Option<LoadError>, ghost mem': Mem)
    requires buffer.Length < TWO32 && |before| == buffer.Length && buffer[..] == Overlay(before, mem)
    modifies buffer
    ensures Load(mem', addr', max', error) == PutAll(Load(mem, addr, max, None), Fields(line), buffer.Length)
    ensures buffer[..] == Overlay(before, mem')
  {
    addr', max', error, mem' := addr, max, None, mem;
    ghost var goal := PutAll(Load(mem, addr, max, None), Fields(line), buffer.Length);
    var ptr := 0;
    while ptr < |line|
      invariant 0 <= ptr <= |line| && error == None
      invariant buffer[..] == Overlay(before, mem')
      invariant Rest(Load(mem', addr', max', None), line, ptr, buffer.Length) == goal
    {
      ghost var from := ptr;
      ptr := SkipSpace(line, ptr);
      if ptr == |line| {
        return;
      }
      var r := ScanHex(line, ptr);
      if r.None? {
        ptr := ptr + 1;
        continue;
      }
      TakeField(Load(mem', addr', max', None), line, from, r.value, buffer.Length);
      addr', max', error, mem' := StoreNumber(FieldAt(line, r.value), buffer, addr', max', before, mem');
      if error.Some? {
        ErrorStays(Load(mem', addr', max', error), FieldList(line, Spans(line, r.value.end)), buffer.Length);
        return;
      }
      ptr := r.value.end;
    }
  }

  method SkipSpace(line: string, p: nat) returns (ptr: nat)
    requires p <= |line|
    ensures ptr == SpaceEnd(line, p)
  {
    ptr := p;
    while ptr < |line| && IsSpace(line[ptr])
      invariant p <= ptr <= |line| && SpaceEnd(line, p) == SpaceEnd(line, ptr)
    {
      ptr := ptr + 1;
    }
  }

  lemma TakeField(l: Load, line: string, p: nat, sp: Span, size: nat)
    requires p <= |line| && SpaceEnd(line, p) < |line| && ScanHex(line, SpaceEnd(line, p)) == Some(sp)
    ensures Rest(l, line, p, size) == Rest(Put(l, FieldAt(line, sp), size), line, sp.end, size)
  {
  }

  /** The whole loader: -1, or the number of bytes up to the highest address reached. */
  method ValidateAndLoad(lines: seq<string>, buffer: array<u8>) returns (loaded: int, ghost l: Load)
    requires buffer.Length < TWO32
    modifies buffer
    ensures l == LoadFile(lines, buffer.Length)
    ensures buffer[..] == Overlay(old(buffer[..]), l.mem)
    ensures loaded == if l.error.Some? then -1 else l.max
  {
    ghost var before := buffer[..];
    var addr: u32, max: u32, error: Option<LoadError> := 0, 0, None;
    ghost var mem: Mem := map[];
    assert before == Overlay(before, mem);
    for i := 0 to |lines|
      invariant error == None && buffer[..] == Overlay(before, mem)
      invariant LoadLines(Load(mem, addr, max, None), lines[i..], buffer.Length)
             == LoadLines(START, lines, buffer.Length)
    {
      var line := lines[i];
      assert lines[i..][1..] == lines[i + 1..];
      if Skipped(line) {
        continue;
      }
      if Directive(line) {
        var r := ScanHex(line, 1);
        if r.None? {
          l := LoadLine(Load(mem, addr, max, None), line, buffer.Length);
          ErrorStaysLines(l, lines[i + 1..], buffer.Length);
          return -1, l;
        }
        addr := Number(line[r.value.start..r.value.end]);
        continue;
      }
      addr, max, error, mem := LoadData(line, buffer, addr, max, before, mem);
      if error.Some? {
        l := Load(mem, addr, max, error);
        ErrorStaysLines(l, lines[i + 1..], buffer.Length);
        return -1, l;
      }
    }
    l := Load(mem, addr, max, None);
    if max == 0 {
      return -1, l.(error := Some(NoData));
    }
    return max, l;
  }

  /** Fill memory with ebreak instructions. */
  method Init(imem: array<u8>)
    requires imem.Length == IMEM_SIZE
    modifies imem
    ensures forall k: nat | k < IMEM_SIZE :: imem[k] == ByteOf(EBREAK, k % 4)
  {
    var i := 0;
    while i < IMEM_SIZE
      invariant 0 <= i <= IMEM_SIZE && i % 4 == 0
      invariant forall k: nat | k < i :: imem[k] == ByteOf(EBREAK, k % 4)
    {
      imem[i + 0] := ByteOf(EBREAK, 0);
      imem[i + 1] := ByteOf(EBREAK, 1);
      imem[i + 2] := ByteOf(EBREAK, 2);
      imem[i + 3] := ByteOf(EBREAK, 3);
      i := i + 4;
    }
  }

  /** Copy whole words into SRAM, up to the last one that holds a loaded byte. */
  method CopyToSram(imem: array<u8>, loaded: int, sram: array<u32>)
    requires imem.Length == IMEM_SIZE && 4 * sram.Length == IMEM_SIZE
    modifies sram
    ensures forall k: nat | k < sram.Length ::
              sram[k] == if 4 * k < loaded then WordIn(imem[..], 4 * k) else old(sram[k])
  {
    var i := 0;
    while i < loaded && i < IMEM_SIZE
      invariant 0 <= i <= IMEM_SIZE && i % 4 == 0
      invariant forall k: nat | k < sram.Length ::
                  sram[k] == if 4 * k < loaded && 4 * k < i then WordIn(imem[..], 4 * k) else old(sram[k])
    {
      sram[i / 4] := Join(imem[i + 0], imem[i + 1], imem[i + 2], imem[i + 3]);
      i := i + 4;
    }
  }
}
