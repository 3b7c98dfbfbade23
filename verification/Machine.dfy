/** The simulated MIPS machine: address translation and memory access (code/machine/translate.cc), and the
    unaligned loads and stores of code/machine/mipssim.cc with the one-slot load delay. */
module Machines {
  import opened Bytes

  const PAGE_SIZE := 128
  const NUM_PHYS_PAGES := 128

  datatype Exception = PageFault | ReadOnly | BusError | AddressError

  datatype Entry = Entry(virtualPage: int, physicalPage: int, valid: bool, readOnly: bool, use: bool, dirty: bool)

  /** A linear page table, indexed by virtual page, or a TLB, searched for it. */
  datatype Mmu = PageTable(entries: seq<Entry>) | Tlb(entries: seq<Entry>)

  datatype Result<T> = Ok(value: T) | Fault(exception: Exception)

  type Memory = m: seq<Byte> | |m| == 16384 witness seq(16384, _ => 0)

  // ----- Translation -----

  /** The first TLB entry from `i` on that is valid for page `vpn`, or the number of entries. */
  function TlbIndex(entries: seq<Entry>, vpn: int, i: nat := 0): (k: nat)
    requires i <= |entries|
    ensures i <= k <= |entries|
    ensures k < |entries| ==> entries[k].valid && entries[k].virtualPage == vpn
    ensures forall j :: i <= j < k ==> !(entries[j].valid && entries[j].virtualPage == vpn)
    decreases |entries| - i
  {
    if i == |entries| || (entries[i].valid && entries[i].virtualPage == vpn) then i else TlbIndex(entries, vpn, i + 1)
  }

  /** The index of the entry that translates page `vpn`. */
  function Lookup(mmu: Mmu, vpn: nat): (r: Result<nat>)
    ensures r.Ok? ==> r.value < |mmu.entries| && mmu.entries[r.value].valid
  {
    match mmu
    case PageTable(entries) =>
      if vpn >= |entries| then Fault(AddressError)
      else if !entries[vpn].valid then Fault(PageFault)
      else Ok(vpn)
    case Tlb(entries) =>
      var k := TlbIndex(entries, vpn);
      if k == |entries| then Fault(PageFault) else Ok(k)
  }

  /** The physical address of one virtual byte; a whole access within a page goes to consecutive ones. */
  function Phys(mmu: Mmu, addr: Word, writing: bool): (r: Result<nat>)
    ensures r.Ok? ==> r.value < 16384
  {
    var found := Lookup(mmu, addr / 128);
    if found.Fault? then Fault(found.exception)
    else
      var e := mmu.entries[found.value];
      if e.readOnly && writing then Fault(ReadOnly)
      else if !(0 <= e.physicalPage < 128) then Fault(BusError)
      else Ok(e.physicalPage * 128 + addr % 128)
  }

  /** Machine::Translate without its effect on the use and dirty bits. */
  function Translate(mmu: Mmu, addr: Word, size: nat, writing: bool): (r: Result<nat>)
    ensures r.Ok? && (size == 1 || size == 2 || size == 4) ==> r.value + size <= 16384
  {
    if (size == 4 && addr % 4 != 0) || (size == 2 && addr % 2 != 0) then Fault(AddressError)
    else
      AlignedFits(addr, size);
      RoomInPage(mmu, addr, writing);
      Phys(mmu, addr, writing)
  }

  /** An aligned access does not cross the end of its page. */
  lemma AlignedFits(addr: Word, size: nat)
    requires size == 4 ==> addr % 4 == 0
    requires size == 2 ==> addr % 2 == 0
    ensures size == 1 || size == 2 || size == 4 ==> addr % 128 + size <= 128
  {
    if size == 4 {
      assert addr % 128 == 4 * (addr / 4 - 32 * (addr / 128));
    } else if size == 2 {
      assert addr % 128 == 2 * (addr / 2 - 64 * (addr / 128));
    }
  }

  lemma RoomInPage(mmu: Mmu, addr: Word, writing: bool)
    ensures Phys(mmu, addr, writing).Ok? ==> Phys(mmu, addr, writing).value + (128 - addr % 128) <= 16384
  {
    hide Lookup;
  }

  /** The use and dirty bits that a successful translation sets. */
  function Touch(mmu: Mmu, addr: Word, writing: bool): (mmu': Mmu)
    ensures |mmu'.entries| == |mmu.entries|
  {
    var found := Lookup(mmu, addr / 128);
    if found.Fault? then mmu
    else
      var e := mmu.entries[found.value];
      mmu.(entries := mmu.entries[found.value := e.(use := true, dirty := e.dirty || writing)])
  }

  /** Entries that agree on everything but the use and dirty bits. */
  predicate SameMapping(entries: seq<Entry>, entries': seq<Entry>) {
    && |entries'| == |entries|
    && forall k :: 0 <= k < |entries| ==> entries'[k] == entries[k].(use := entries'[k].use, dirty := entries'[k].dirty)
  }

  lemma SamePhys(mmu: Mmu, mmu': Mmu, addr: Word, writing: bool)
    requires mmu'.Tlb? == mmu.Tlb? && SameMapping(mmu.entries, mmu'.entries)
    ensures Phys(mmu', addr, writing) == Phys(mmu, addr, writing)
  {
  }

  /** Use and dirty bits have no influence on translation. */
  lemma TouchKeepsPhys(mmu: Mmu, a: Word, w: bool, addr: Word, writing: bool)
    ensures Phys(Touch(mmu, a, w), addr, writing) == Phys(mmu, addr, writing)
  {
    hide Phys, Lookup;
    SamePhys(mmu, Touch(mmu, a, w), addr, writing);
  }

  // ----- Memory -----

  function MemWord(mem: Memory, p: nat): Word
    requires p + 4 <= 16384
  {
    DecodeWord(mem[p..p + 4])
  }

  /** `value` is what a read of these 1, 2 or 4 bytes yields: a `char` is sign-extended, an `unsigned short` is not. */
  predicate IsValueOf(s: seq<Byte>, value: Word) {
    if |s| == 1 then value % 0x100 == s[0] && -128 <= ToInt(value) < 128 else value == LittleEndian(s)
  }

  lemma OneValue(s: seq<Byte>, v: Word, w: Word)
    requires IsValueOf(s, v) && IsValueOf(s, w)
    ensures v == w
  {
  }

  /** What is read where `value` was stored with the same size: the value, cut to the size, and for a byte
      sign-extended. */
  predicate IsNarrowed(value: Word, size: nat, read: Word) {
    if size == 4 then read == value
    else if size == 2 then read == value % 0x1_0000
    else read % 0x100 == value % 0x100 && -128 <= ToInt(read) < 128
  }

  /** Reading the bytes that a store puts into memory. */
  lemma StoredValue(value: Word, size: nat, read: Word)
    requires size == 1 || size == 2 || size == 4
    ensures IsValueOf(EncodeWord(value)[..size], read) <==> IsNarrowed(value, size, read)
  {
    EncodedIsLittleEndian(value);
    var s := EncodeWord(value)[..size];
    assert |s| == size && s[0] == value % 0x100;
    hide EncodeWord, LittleEndian, ToInt;
  }

  function PutWord(mem: Memory, p: nat, w: Word): Memory
    requires p + 4 <= 16384
  {
    Splice(mem, p, EncodeWord(w))
  }

  /** A read of where a store has gone, with the same size, finds what was stored. */
  lemma WriteThenRead(mem: Memory, mmu: Mmu, addr: Word, size: nat, value: Word, read: Word)
    requires (size == 1 || size == 2 || size == 4) && Translate(mmu, addr, size, true).Ok?
    ensures var p := Translate(mmu, addr, size, true).value;
            && Translate(Touch(mmu, addr, true), addr, size, false) == Ok(p)
            && var mem' := Splice(mem, p, EncodeWord(value)[..size]);
               IsValueOf(mem'[p..p + size], read) <==> IsNarrowed(value, size, read)
  {
    hide Phys, Touch, EncodeWord, IsValueOf, IsNarrowed;
    WritableIsReadable(mmu, addr);
    TouchKeepsPhys(mmu, addr, true, addr, false);
    StoredValue(value, size, read);
    var p := Translate(mmu, addr, size, true).value;
    assert Splice(mem, p, EncodeWord(value)[..size])[p..p + size] == EncodeWord(value)[..size];
  }

  // ----- Registers and instructions -----

  /** All 40 registers: 32 general ones, hi, lo, the program counters, the pending load, and the bad address. */
  type Registers = r: seq<Word> | |r| == 40 && r[37] < 32 witness seq(40, _ => 0)

  datatype Cpu = Cpu(regs: Registers, mem: Memory, mmu: Mmu)

  /** Machine::DelayedLoad: the pending load takes effect, a new one becomes pending, register 0 stays 0. */
  function DelayedLoad(r: Registers, nextReg: nat, nextValue: Word): Registers
    requires nextReg < 32
  {
    r[r[37] := r[38]][37 := nextReg][38 := nextValue][0 := 0]
  }

  datatype Instr =
    | LWL(rs: nat, rt: nat, extra: Word) | LWR(rs: nat, rt: nat, extra: Word)
    | SWL(rs: nat, rt: nat, extra: Word) | SWR(rs: nat, rt: nat, extra: Word)

  predicate Legal(i: Instr) {
    i.rs < 32 && i.rt < 32
  }

  /** What the register will hold once the pending load is done: LWL and LWR look ahead. */
  function Pending(r: Registers, rt: nat): Word
    requires rt < 32
  {
    if r[37] == rt then r[38] else r[rt]
  }

  function AddWords(x: int, y: int): (sum: Word)
    ensures 0 <= x + y < 0x1_0000_0000 ==> sum == x + y
  {
    (x + y) % 0x1_0000_0000
  }

  function Address(r: Registers, i: Instr): Word
    requires Legal(i)
  {
    AddWords(r[i.rs], i.extra)
  }

  /** The masks and shifts of the four instructions; `byte` is the address modulo four. */
  function MergeLeft(was: Word, value: Word, byte: nat): Word
    requires byte < 4
  {
    if byte == 3 then value
    else if byte == 2 then was % 0x100 + value % 0x100_0000 * 0x100
    else if byte == 1 then was % 0x1_0000 + value % 0x1_0000 * 0x1_0000
    else was % 0x100_0000 + value % 0x100 * 0x100_0000
  }

  function MergeRight(was: Word, value: Word, byte: nat): Word
    requires byte < 4
  {
    if byte == 3 then was / 0x100 * 0x100 + value / 0x100_0000
    else if byte == 2 then was / 0x1_0000 * 0x1_0000 + value / 0x1_0000
    else if byte == 1 then was / 0x100_0000 * 0x100_0000 + value / 0x100
    else value
  }

  function StoreLeft(reg: Word, value: Word, byte: nat): Word
    requires byte < 4
  {
    if byte == 3 then reg
    else if byte == 2 then value / 0x100_0000 * 0x100_0000 + reg / 0x100
    else if byte == 1 then value / 0x1_0000 * 0x1_0000 + reg / 0x1_0000
    else value / 0x100 * 0x100 + reg / 0x100_0000
  }

  function StoreRight(reg: Word, value: Word, byte: nat): Word
    requires byte < 4
  {
    if byte == 3 then value % 0x100_0000 + reg % 0x100 * 0x100_0000
    else if byte == 2 then value % 0x1_0000 + reg % 0x1_0000 * 0x1_0000
    else if byte == 1 then value % 0x100 + reg % 0x100_0000 * 0x100
    else reg
  }

  datatype Outcome = Done(cpu: Cpu) | Trap(exception: Exception, cpu: Cpu)

  /** The program counters move on. */
  function Advance(r: Registers): Registers {
    r[36 := r[34]][34 := r[35]][35 := AddWords(r[35], 4)]
  }

  function Raise(c: Cpu, e: Exception, addr: Word): (o: Outcome)
    ensures o.Trap?
  {
    Trap(e, c.(regs := DelayedLoad(c.regs[39 := addr], 0, 0)))
  }

  /** The aligned word that an instruction works on. */
  function WordAddress(r: Registers, i: Instr): (addr: Word)
    requires Legal(i)
    ensures addr % 4 == 0
  {
    Address(r, i) - Address(r, i) % 4
  }

  /** The value that a load leaves pending. */
  function Merged(c: Cpu, i: Instr): Word
    requires Legal(i) && (i.LWL? || i.LWR?) && Translate(c.mmu, WordAddress(c.regs, i), 4, false).Ok?
  {
    var value := MemWord(c.mem, Translate(c.mmu, WordAddress(c.regs, i), 4, false).value);
    var was, byte := Pending(c.regs, i.rt), Address(c.regs, i) % 4;
    if i.LWL? then MergeLeft(was, value, byte) else MergeRight(was, value, byte)
  }

  function Load(c: Cpu, i: Instr): Outcome
    requires Legal(i) && (i.LWL? || i.LWR?)
  {
    var addr := WordAddress(c.regs, i);
    var p := Translate(c.mmu, addr, 4, false);
    if p.Fault? then Raise(c, p.exception, addr)
    else Done(Cpu(Advance(DelayedLoad(c.regs, i.rt, Merged(c, i))), c.mem, Touch(c.mmu, addr, false)))
  }

  /** The word that a store writes back. */
  function Stored(c: Cpu, i: Instr): Word
    requires Legal(i) && (i.SWL? || i.SWR?) && Translate(c.mmu, WordAddress(c.regs, i), 4, false).Ok?
  {
    var value := MemWord(c.mem, Translate(c.mmu, WordAddress(c.regs, i), 4, false).value);
    var reg, byte := c.regs[i.rt], Address(c.regs, i) % 4;
    if i.SWL? then StoreLeft(reg, value, byte) else StoreRight(reg, value, byte)
  }

  function Store(c: Cpu, i: Instr): Outcome
    requires Legal(i) && (i.SWL? || i.SWR?)
  {
    var addr := WordAddress(c.regs, i);
    var p := Translate(c.mmu, addr, 4, false);
    if p.Fault? then Raise(c, p.exception, addr)
    else
      var c1 := c.(mmu := Touch(c.mmu, addr, false));
      var q := Translate(c1.mmu, addr, 4, true);
      if q.Fault? then Raise(c1, q.exception, addr)
      else
        Done(Cpu(Advance(DelayedLoad(c.regs, 0, 0)), PutWord(c.mem, q.value, Stored(c, i)), Touch(c1.mmu, addr, true)))
  }

  function Execute(c: Cpu, i: Instr): Outcome
    requires Legal(i)
  {
    if i.LWL? || i.LWR? then Load(c, i) else Store(c, i)
  }

  // ----- What the masks and shifts do to the bytes of a word -----

  lemma BytesRoundTrip(s: seq<Byte>)
    requires |s| == 4
    ensures EncodeWord(DecodeWord(s)) == s
  {
    var b0: int, b1: int, b2: int, b3: int := s[0], s[1], s[2], s[3];
    var w: int := b0 + 0x100 * b1 + 0x1_0000 * b2 + 0x100_0000 * b3;
    assert w == b0 + 0x100 * (b1 + 0x100 * (b2 + 0x100 * b3));
    assert w % 0x100 == b0 && w / 0x100 == b1 + 0x100 * (b2 + 0x100 * b3);
    assert w / 0x100 % 0x100 == b1 && w / 0x100 / 0x100 == b2 + 0x100 * b3;
  }

  lemma CutWord(w: int, w1: int, w2: int, b0: int, b1: int, b2: int, b3: int)
    requires w == 0x100 * w1 + b0 && w1 == 0x100 * w2 + b1 && w2 == 0x100 * b3 + b2
    requires 0 <= b0 < 0x100 && 0 <= b1 < 0x100 && 0 <= b2 < 0x100
    ensures w % 0x1_0000 == b0 + 0x100 * b1 && w / 0x1_0000 == b2 + 0x100 * b3
    ensures w % 0x100_0000 == b0 + 0x100 * b1 + 0x1_0000 * b2 && w / 0x100_0000 == b3
  {
    CutAt16(w, w2, b0 + 0x100 * b1);
    CutAt24(w, b3, b0 + 0x100 * b1 + 0x1_0000 * b2);
  }

  lemma CutAt24(w: int, high: int, low: int)
    requires w == 0x100_0000 * high + low && 0 <= low < 0x100_0000
    ensures w % 0x100_0000 == low && w / 0x100_0000 == high
  {
  }

  /** Every mask and every shift by whole bytes cuts the four bytes of a word in two. */
  lemma Cuts(w: Word, b0: int, b1: int, b2: int, b3: int)
    requires EncodeWord(w) == [b0, b1, b2, b3]
    ensures w == b0 + 0x100 * b1 + 0x1_0000 * b2 + 0x100_0000 * b3
    ensures w % 0x100 == b0 && w / 0x100 == b1 + 0x100 * b2 + 0x1_0000 * b3
    ensures w % 0x1_0000 == b0 + 0x100 * b1 && w / 0x1_0000 == b2 + 0x100 * b3
    ensures w % 0x100_0000 == b0 + 0x100 * b1 + 0x1_0000 * b2 && w / 0x100_0000 == b3
  {
    CutWord(w, w / 0x100, w / 0x100 / 0x100, b0, b1, b2, b3);
  }

  lemma MergeLeftBytes(was: Word, value: Word, byte: nat)
    requires byte < 4
    ensures EncodeWord(MergeLeft(was, value, byte)) == EncodeWord(was)[..3 - byte] + EncodeWord(value)[..byte + 1]
  {
    var w, v := EncodeWord(was), EncodeWord(value);
    Cuts(was, w[0], w[1], w[2], w[3]);
    Cuts(value, v[0], v[1], v[2], v[3]);
    BytesRoundTrip(w[..3 - byte] + v[..byte + 1]);
    hide EncodeWord;
  }

  lemma MergeRightBytes(was: Word, value: Word, byte: nat)
    requires byte < 4
    ensures EncodeWord(MergeRight(was, value, byte)) == EncodeWord(value)[byte..] + EncodeWord(was)[4 - byte..]
  {
    var w, v := EncodeWord(was), EncodeWord(value);
    Cuts(was, w[0], w[1], w[2], w[3]);
    Cuts(value, v[0], v[1], v[2], v[3]);
    BytesRoundTrip(v[byte..] + w[4 - byte..]);
    hide EncodeWord;
  }

  lemma StoreLeftBytes(reg: Word, value: Word, byte: nat)
    requires byte < 4
    ensures EncodeWord(StoreLeft(reg, value, byte)) == EncodeWord(reg)[3 - byte..] + EncodeWord(value)[byte + 1..]
  {
    var r, v := EncodeWord(reg), EncodeWord(value);
    Cuts(reg, r[0], r[1], r[2], r[3]);
    Cuts(value, v[0], v[1], v[2], v[3]);
    BytesRoundTrip(r[3 - byte..] + v[byte + 1..]);
    hide EncodeWord;
  }

  lemma StoreRightBytes(reg: Word, value: Word, byte: nat)
    requires byte < 4
    ensures EncodeWord(StoreRight(reg, value, byte)) == EncodeWord(value)[..byte] + EncodeWord(reg)[..4 - byte]
  {
    var r, v := EncodeWord(reg), EncodeWord(value);
    Cuts(reg, r[0], r[1], r[2], r[3]);
    Cuts(value, v[0], v[1], v[2], v[3]);
    BytesRoundTrip(v[..byte] + r[..4 - byte]);
    hide EncodeWord;
  }

  // ----- Unaligned loads -----

  /** An aligned word lies within one page, so its bytes are consecutive in physical memory too. */
  lemma WordPhys(mmu: Mmu, addr: Word, j: nat, writing: bool)
    requires addr % 4 == 0 && j < 4
    ensures addr + j < 0x1_0000_0000
    ensures Phys(mmu, addr + j, writing).Ok? == Phys(mmu, addr, writing).Ok?
    ensures Phys(mmu, addr, writing).Ok? ==> Phys(mmu, addr + j, writing).value == Phys(mmu, addr, writing).value + j
    ensures Phys(mmu, addr, writing).Fault? ==> Phys(mmu, addr + j, writing) == Phys(mmu, addr, writing)
  {
    assert (addr + j) / 128 == addr / 128;
    hide Lookup;
  }

  /** The byte that a user program sees at a mapped address. */
  function ByteAt(mem: Memory, mmu: Mmu, addr: Word): Byte
    requires Phys(mmu, addr, false).Ok?
  {
    mem[Phys(mmu, addr, false).value]
  }

  /** The four bytes from `addr` on are mapped. */
  predicate Mapped4(mmu: Mmu, addr: Word, writing: bool) {
    addr + 3 < 0x1_0000_0000 && forall j :: 0 <= j < 4 ==> Phys(mmu, AddWords(addr, j), writing).Ok?
  }

  /** The little-endian bytes from `addr` on, wherever the pages are. */
  function Bytes4(mem: Memory, mmu: Mmu, addr: Word): (s: seq<Byte>)
    requires Mapped4(mmu, addr, false)
    ensures |s| == 4
  {
    seq(4, j requires 0 <= j < 4 => ByteAt(mem, mmu, AddWords(addr, j)))
  }

  lemma AlignedWord(mem: Memory, mmu: Mmu, addr: Word)
    requires addr % 4 == 0 && Translate(mmu, addr, 4, false).Ok?
    ensures Mapped4(mmu, addr, false)
    ensures EncodeWord(MemWord(mem, Translate(mmu, addr, 4, false).value)) == Bytes4(mem, mmu, addr)
  {
    hide Phys, EncodeWord, DecodeWord, AddWords;
    forall j | 0 <= j < 4
      ensures AddWords(addr, j) == addr + j && Phys(mmu, addr + j, false).Ok?
      ensures Phys(mmu, addr + j, false).value == Phys(mmu, addr, false).value + j
    {
      WordPhys(mmu, addr, j, false);
    }
    var p := Translate(mmu, addr, 4, false).value;
    BytesRoundTrip(mem[p..p + 4]);
  }

  /** Register `k` already holds what it will hold when no load is pending. */
  predicate Settled(r: Registers, k: nat)
    requires k < 32
  {
    r[k] == if k == 0 then 0 else Pending(r, k)
  }

  lemma DelayedLoadSettles(r: Registers, nextReg: nat, nextValue: Word, k: nat)
    requires nextReg < 32 && k < 32
    ensures DelayedLoad(r, nextReg, nextValue)[k] == if k == 0 then 0 else Pending(r, k)
    ensures Pending(DelayedLoad(r, nextReg, nextValue), k) ==
              if k == nextReg then nextValue else if k == 0 then 0 else Pending(r, k)
    ensures forall j :: 32 <= j < 37 || j == 39 ==> DelayedLoad(r, nextReg, nextValue)[j] == r[j]
  {
  }

  /** The program goes on at what was the next instruction; everything else about the special registers stays. */
  predicate MovedOn(r: Registers, r': Registers) {
    var next: int := r[35];
    && r'[34] == next && r'[35] == (next + 4) % 0x1_0000_0000 && r'[36] == r[34]
    && r'[32] == r[32] && r'[33] == r[33] && r'[39] == r[39]
  }

  /** The machine as the exception handler finds it: the bad address is recorded, no load is pending any more, the
      program counters still point at the instruction, and nothing else has happened. */
  lemma RaiseEffect(c: Cpu, e: Exception, addr: Word)
    ensures var o := Raise(c, e, addr);
            && o.Trap? && o.exception == e && o.cpu.mem == c.mem && o.cpu.mmu == c.mmu
            && o.cpu.regs[39] == addr && o.cpu.regs[37] == 0 && o.cpu.regs[38] == 0
            && (forall j :: 32 <= j < 37 ==> o.cpu.regs[j] == c.regs[j])
            && o.cpu.regs[0] == 0
            && (forall k :: 0 < k < 32 ==> o.cpu.regs[k] == Pending(c.regs, k))
  {
  }

  /** An interrupt or a trap: any pending load takes effect at once (code/machine/interrupt.cc). */
  function Flush(c: Cpu): Cpu {
    c.(regs := DelayedLoad(c.regs, 0, 0))
  }

  /** The two merges together fetch the bytes of the word pair `lo`, `hi` from byte `b` on. */
  lemma MergePair(was: Word, lo: Word, hi: Word, b: nat)
    requires b < 4
    ensures EncodeWord(MergeRight(MergeLeft(was, if b == 0 then lo else hi, (b + 3) % 4), lo, b))
         == EncodeWord(lo)[b..] + EncodeWord(hi)[..b]
  {
    MergeLeftBytes(was, if b == 0 then lo else hi, (b + 3) % 4);
    MergeRightBytes(MergeLeft(was, if b == 0 then lo else hi, (b + 3) % 4), lo, b);
    hide EncodeWord, MergeLeft, MergeRight;
  }

  /** The two aligned words around an unaligned address, one of them when the address is aligned. */
  lemma Straddle(mem: Memory, mmu: Mmu, a: Word)
    requires Mapped4(mmu, a, false)
    ensures var b := a % 4; var lo := a - b; var hi := if b == 0 then lo else lo + 4;
            && hi < 0x1_0000_0000 && Mapped4(mmu, lo, false) && Mapped4(mmu, hi, false)
            && Bytes4(mem, mmu, a) == Bytes4(mem, mmu, lo)[b..] + Bytes4(mem, mmu, hi)[..b]
  {
    hide Phys, AddWords, EncodeWord, MemWord, ByteAt;
    var b := a % 4;
    var lo := a - b;
    var hi := if b == 0 then lo else lo + 4;
    WordsAround(a);
    WordPhys(mmu, lo, b, false);
    assert AddWords(a, 0) == a && AddWords(a, 3) == a + 3;
    WordPhys(mmu, hi, a + 3 - hi, false);
    AlignedWord(mem, mmu, lo);
    AlignedWord(mem, mmu, hi);
    forall j | 0 <= j < 4
      ensures AddWords(a, j) == if j < 4 - b then AddWords(lo, b + j) else AddWords(hi, j - (4 - b))
    {
    }
  }

  lemma WordsAround(a: nat)
    ensures (a - a % 4) % 4 == 0 && (a - a % 4 + 4) % 4 == 0
  {
    assert a - a % 4 == 4 * (a / 4);
  }

  lemma AdvanceKeeps(r: Registers, k: nat)
    requires k < 32
    ensures Advance(r)[k] == r[k] && Pending(Advance(r), k) == Pending(r, k)
    ensures MovedOn(r, Advance(r))
  {
  }

  /** An access to the aligned word around an address succeeds exactly when the address itself is mapped. */
  lemma AlignedTranslation(mmu: Mmu, addr: Word, writing: bool)
    ensures Translate(mmu, addr - addr % 4, 4, writing).Ok? == Phys(mmu, addr, writing).Ok?
  {
    WordPhys(mmu, addr - addr % 4, addr % 4, writing);
    hide Phys;
  }

  /** LWL or LWR succeeds exactly when the byte it is given is mapped; then it changes only its own register. */
  lemma LoadEffect(c: Cpu, i: Instr)
    requires Legal(i) && (i.LWL? || i.LWR?)
    ensures Load(c, i).Done? == Phys(c.mmu, Address(c.regs, i), false).Ok?
    ensures Load(c, i).Done? ==>
              && Translate(c.mmu, WordAddress(c.regs, i), 4, false).Ok?
              && Load(c, i).cpu.mem == c.mem
              && Load(c, i).cpu.mmu == Touch(c.mmu, WordAddress(c.regs, i), false)
              && (forall k :: 0 < k < 32 ==>
                    && Load(c, i).cpu.regs[k] == Pending(c.regs, k)
                    && Pending(Load(c, i).cpu.regs, k) == if k == i.rt then Merged(c, i) else Pending(c.regs, k))
              && Load(c, i).cpu.regs[0] == 0
              && MovedOn(c.regs, Load(c, i).cpu.regs)
  {
    hide Phys, Translate, Address, Touch, Merged, DelayedLoad, Advance, Pending;
    AlignedTranslation(c.mmu, Address(c.regs, i), false);
    if Load(c, i).Done? {
      var r := DelayedLoad(c.regs, i.rt, Merged(c, i));
      DelayedLoadSettles(c.regs, i.rt, Merged(c, i), 0);
      AdvanceKeeps(r, 0);
      forall k: nat | k < 32
        ensures Load(c, i).cpu.regs[k] == if k == 0 then 0 else Pending(c.regs, k)
        ensures k > 0 ==>
                  Pending(Load(c, i).cpu.regs, k) == if k == i.rt then Merged(c, i) else Pending(c.regs, k)
      {
        DelayedLoadSettles(c.regs, i.rt, Merged(c, i), k);
        AdvanceKeeps(r, k);
      }
    }
  }

  /** A load that traps has done nothing: the fault is that of its address, and after the handler has changed the
      table, the instruction does what it would have done in the first place.  Only a base register that was itself
      being loaded would be read differently. */
  lemma LoadRestarts(c: Cpu, i: Instr, mmu: Mmu)
    requires Legal(i) && (i.LWL? || i.LWR?) && Load(c, i).Trap? && Settled(c.regs, i.rs)
    ensures Phys(c.mmu, Address(c.regs, i), false) == Fault(Load(c, i).exception)
    ensures Load(c, i).cpu.mem == c.mem && Load(c, i).cpu.mmu == c.mmu
    ensures Load(c, i).cpu.regs[39] == WordAddress(c.regs, i)
    ensures var again, straight := Load(Load(c, i).cpu.(mmu := mmu), i), Load(c.(mmu := mmu), i);
            && again.Done? == straight.Done?
            && (again.Done? ==>
                  && again.cpu.mem == straight.cpu.mem && again.cpu.mmu == straight.cpu.mmu
                  && (forall j :: 32 <= j < 37 ==> again.cpu.regs[j] == straight.cpu.regs[j])
                  && forall k :: 0 < k < 32 ==> Pending(again.cpu.regs, k) == Pending(straight.cpu.regs, k))
  {
    hide Phys, Translate, Touch, Raise, MergeLeft, MergeRight, MemWord, DelayedLoad, Advance, Pending, AddWords;
    var addr := WordAddress(c.regs, i);
    AlignedFault(c.mmu, Address(c.regs, i), false);
    var e := Translate(c.mmu, addr, 4, false).exception;
    RaiseEffect(c, e, addr);
    var c1, c2 := Load(c, i).cpu.(mmu := mmu), c.(mmu := mmu);
    RaisedPending(c, e, addr);
    assert c1.regs[i.rs] == c2.regs[i.rs] by { SettledRaised(c, e, addr, i.rs); }
    LoadEffect(c1, i);
    LoadEffect(c2, i);
    if Load(c1, i).Done? && i.rt != 0 {
      assert Merged(c1, i) == Merged(c2, i);
    }
  }

  lemma AlignedFault(mmu: Mmu, addr: Word, writing: bool)
    ensures Translate(mmu, addr - addr % 4, 4, writing).Fault? ==>
              Phys(mmu, addr, writing) == Fault(Translate(mmu, addr - addr % 4, 4, writing).exception)
  {
    hide Phys;
    WordPhys(mmu, addr - addr % 4, addr % 4, writing);
  }

  lemma RaisedPending(c: Cpu, e: Exception, addr: Word)
    ensures forall k :: 0 < k < 32 ==> Pending(Raise(c, e, addr).cpu.regs, k) == Pending(c.regs, k)
  {
  }

  lemma SettledRaised(c: Cpu, e: Exception, addr: Word, k: nat)
    requires k < 32 && Settled(c.regs, k)
    ensures Raise(c, e, addr).cpu.regs[k] == c.regs[k]
  {
  }

  /** The state in which the second instruction of a pair starts, possibly after an interrupt. */
  function Between(c: Cpu, interrupted: bool): Cpu {
    if interrupted then Flush(c) else c
  }

  lemma BetweenLoads(c: Cpu, i: Instr, interrupted: bool)
    requires Legal(i) && i.LWL? && Load(c, i).Done?
    ensures Load(c, i).cpu.mem == c.mem
    ensures var c1 := Between(Load(c, i).cpu, interrupted);
            && c1.mmu == Touch(c.mmu, WordAddress(c.regs, i), false)
            && (forall k :: 0 < k < 32 ==>
                  Pending(c1.regs, k) == if k == i.rt then Merged(c, i) else Pending(c.regs, k))
            && (forall k :: 0 < k < 32 ==>
                  c1.regs[k] == if interrupted && k == i.rt then Merged(c, i) else Pending(c.regs, k))
            && c1.regs[0] == 0
  {
  }

  /** The value of a pair, in terms of the two words around the address. */
  lemma MergedPair(c: Cpu, left: Instr, right: Instr, c1: Cpu, a: Word)
    requires Legal(left) && left.LWL? && Legal(right) && right.LWR? && left.rt == right.rt
    requires Mapped4(c.mmu, a, false)
    requires Address(c.regs, left) == a + 3 && Address(c1.regs, right) == a
    requires c1.mem == c.mem && c1.mmu == Touch(c.mmu, WordAddress(c.regs, left), false)
    requires Translate(c.mmu, WordAddress(c.regs, left), 4, false).Ok?
    requires Translate(c1.mmu, WordAddress(c1.regs, right), 4, false).Ok?
    requires Pending(c1.regs, right.rt) == Merged(c, left)
    ensures Merged(c1, right) == DecodeWord(Bytes4(c.mem, c.mmu, a))
  {
    hide Phys, Address, Touch, MemWord, Pending, MergeLeft, MergeRight, EncodeWord, DecodeWord, Bytes4, Mapped4;
    var b := a % 4;
    var lo := a - b;
    var hi := if b == 0 then lo else lo + 4;
    assert (a + 3) % 4 == (b + 3) % 4 && a + 3 - (a + 3) % 4 == hi;
    TouchKeepsPhys(c.mmu, WordAddress(c.regs, left), false, lo, false);
    Straddle(c.mem, c.mmu, a);
    AlignedWord(c.mem, c.mmu, lo);
    AlignedWord(c.mem, c.mmu, hi);
    var loWord := MemWord(c.mem, Translate(c.mmu, lo, 4, false).value);
    var hiWord := MemWord(c.mem, Translate(c.mmu, hi, 4, false).value);
    MergePair(Pending(c.regs, left.rt), loWord, hiWord, b);
    WordRoundTrip(Merged(c1, right));
  }

  /** LWL at the last byte followed by LWR at the first loads the unaligned word, across a page boundary as well, and
      also when an interrupt between the two lets the first half take effect early.  Only a base register that is
      itself the target does not survive such an interrupt, unless the half-loaded word equals it. */
  lemma UnalignedLoad(c: Cpu, left: Instr, right: Instr, interrupted: bool)
    requires Legal(left) && left.LWL? && Legal(right) && right.LWR? && left.rs == right.rs && left.rt == right.rt
    requires left.rt != 0 && Settled(c.regs, left.rs)
    requires Mapped4(c.mmu, Address(c.regs, right), false)
    requires Address(c.regs, left) == Address(c.regs, right) + 3
    requires interrupted && left.rs == left.rt ==>
               Translate(c.mmu, WordAddress(c.regs, left), 4, false).Ok? && Merged(c, left) == c.regs[left.rs]
    ensures var a, first := Address(c.regs, right), Execute(c, left);
            && first.Done?
            && var second := Execute(Between(first.cpu, interrupted), right);
            && second.Done? && second.cpu.mem == c.mem
            && Pending(second.cpu.regs, right.rt) == DecodeWord(Bytes4(c.mem, c.mmu, a))
            && forall k :: 0 < k < 32 && k != right.rt ==> Pending(second.cpu.regs, k) == Pending(c.regs, k)
  {
    hide Phys, Translate, WordAddress, Merged, Touch, Load, DecodeWord, Bytes4, Pending, AddWords;
    var a := Address(c.regs, right);
    assert AddWords(a, 0) == a && AddWords(a, 3) == a + 3;
    LoadEffect(c, left);
    BetweenLoads(c, left, interrupted);
    var c1 := Between(Load(c, left).cpu, interrupted);
    assert c1.regs[right.rs] == c.regs[right.rs];
    TouchKeepsPhys(c.mmu, WordAddress(c.regs, left), false, a, false);
    LoadEffect(c1, right);
    MergedPair(c, left, right, c1, a);
  }

  /** After an interrupt, LWR with the target as its base goes to the intended address if and only if the half-loaded
      word happens to equal the base. */
  lemma InterruptedBase(c: Cpu, left: Instr, right: Instr)
    requires Legal(left) && left.LWL? && Legal(right) && right.rs == left.rs == left.rt && left.rt != 0
    requires Execute(c, left).Done?
    ensures Translate(c.mmu, WordAddress(c.regs, left), 4, false).Ok?
    ensures Address(Between(Execute(c, left).cpu, true).regs, right) == AddWords(Merged(c, left), right.extra)
    ensures Address(Between(Execute(c, left).cpu, true).regs, right) == Address(c.regs, right) <==>
            Merged(c, left) == c.regs[left.rs]
  {
    hide Phys, Translate, WordAddress, Merged, Touch, Load, Pending, DelayedLoad, AddWords, MovedOn;
    LoadEffect(c, left);
    DelayedLoadSettles(Load(c, left).cpu.regs, 0, 0, left.rt);
    SameSum(Merged(c, left), c.regs[left.rs], right.extra);
  }

  lemma SameSum(x: Word, y: Word, extra: Word)
    ensures AddWords(x, extra) == AddWords(y, extra) <==> x == y
  {
  }

  /** Register 1 points to a word that holds 8, and the word at 8 is zero. */
  function PointerChain(): Cpu {
    Cpu(seq(40, i => if i == 1 then 4 else 0), seq(16384, p => if p == 4 then 8 else 0),
        PageTable([Entry(0, 0, true, false, false, false)]))
  }

  /** The exception is real: loading that word over its own base gives 8, but 0 if an interrupt comes in between. */
  lemma InterruptedPairFails()
    ensures var c, left, right := PointerChain(), LWL(1, 1, 3), LWR(1, 1, 0);
            && Address(c.regs, right) == 4 && Mapped4(c.mmu, 4, false) && DecodeWord(Bytes4(c.mem, c.mmu, 4)) == 8
            && Execute(c, left).Done?
            && var second := Execute(Between(Execute(c, left).cpu, true), right);
            && second.Done? && Pending(second.cpu.regs, 1) == 0
  {
    hide PointerChain, Phys, Translate, Load, DecodeWord, DelayedLoad, Touch, Merged, Bytes4, Pending, MemWord;
    var c, left := PointerChain(), LWL(1, 1, 3);
    ChainFacts();
    LoadEffect(c, left);
    AlignedWord(c.mem, c.mmu, 4);
    WordRoundTrip(MemWord(c.mem, 4));
    BetweenLoads(c, left, true);
    MergedWhole(c, left, 4);
    TouchKeepsPhys(c.mmu, 4, false, 8, false);
    TranslatedAlike(c.mmu, Between(Load(c, left).cpu, true).mmu, 8);
    ChainSecond(Between(Load(c, left).cpu, true));
  }

  lemma ChainSecond(c: Cpu)
    requires c.regs[1] == 8 && MemWord(c.mem, 8) == 0
    requires Phys(c.mmu, 8, false).Ok? && Translate(c.mmu, 8, 4, false) == Ok(8)
    ensures Execute(c, LWR(1, 1, 0)).Done? && Pending(Execute(c, LWR(1, 1, 0)).cpu.regs, 1) == 0
  {
    hide Phys, Translate, Load, MemWord, DelayedLoad, Touch, Merged, Pending;
    LoadEffect(c, LWR(1, 1, 0));
    MergedWhole(c, LWR(1, 1, 0), 8);
  }

  lemma ChainFacts()
    ensures var c := PointerChain();
            && c.regs[1] == 4 && c.regs[37] == 0
            && Phys(c.mmu, 7, false).Ok? && Phys(c.mmu, 8, false).Ok?
            && Translate(c.mmu, 4, 4, false) == Ok(4) && Translate(c.mmu, 8, 4, false) == Ok(8)
            && MemWord(c.mem, 4) == 8 && MemWord(c.mem, 8) == 0
  {
    var c := PointerChain();
    assert c.mem[4..8] == [8, 0, 0, 0] && c.mem[8..12] == [0, 0, 0, 0];
  }

  lemma TranslatedAlike(mmu: Mmu, mmu': Mmu, addr: Word)
    requires Phys(mmu, addr, false) == Phys(mmu', addr, false)
    ensures Translate(mmu, addr, 4, false) == Translate(mmu', addr, 4, false)
  {
  }

  /** LWL at the last byte of a word, or LWR at its first, loads the whole word. */
  lemma MergedWhole(c: Cpu, i: Instr, p: nat)
    requires Legal(i) && (i.LWL? || i.LWR?) && p + 4 <= 16384
    requires Translate(c.mmu, WordAddress(c.regs, i), 4, false) == Ok(p)
    requires Address(c.regs, i) % 4 == if i.LWL? then 3 else 0
    ensures Merged(c, i) == MemWord(c.mem, p)
  {
  }

  // ----- Unaligned stores -----

  lemma WritableIsReadable(mmu: Mmu, addr: Word)
    requires Phys(mmu, addr, true).Ok?
    ensures Phys(mmu, addr, false) == Phys(mmu, addr, true)
  {
  }

  /** The physical bytes that one SWL or SWR overwrites, and with which bytes of the register: SWL stores the top bytes
      downwards from the address, SWR the bottom bytes upwards. */
  predicate WrotePart(mem: Memory, mem': Memory, p: int, byte: int, reg: seq<Byte>, left: bool)
    requires |reg| == 4 && 0 <= byte < 4
  {
    forall q :: 0 <= q < 16384 ==>
      mem'[q] == if left && p - byte <= q <= p then reg[3 - (p - q)]
                 else if !left && p <= q < p + 4 - byte then reg[q - p]
                 else mem[q]
  }

  lemma PutPart(mem: Memory, q: nat, reg: Word, byte: nat, left: bool)
    requires q + 4 <= 16384 && byte < 4
    ensures var w := if left then StoreLeft(reg, MemWord(mem, q), byte) else StoreRight(reg, MemWord(mem, q), byte);
            WrotePart(mem, PutWord(mem, q, w), q + byte, byte, EncodeWord(reg), left)
  {
    hide EncodeWord, DecodeWord, StoreLeft, StoreRight;
    BytesRoundTrip(mem[q..q + 4]);
    var v, r := mem[q..q + 4], EncodeWord(reg);
    var w := if left then StoreLeft(reg, MemWord(mem, q), byte) else StoreRight(reg, MemWord(mem, q), byte);
    StoreLeftBytes(reg, MemWord(mem, q), byte);
    StoreRightBytes(reg, MemWord(mem, q), byte);
    forall j | 0 <= j < 4
      ensures EncodeWord(w)[j] == if left then if j <= byte then r[3 - byte + j] else v[j]
                                  else if j < byte then v[j] else r[j - byte]
    {
    }
    hide MemWord;
  }

  lemma StoredBytes(c: Cpu, i: Instr)
    requires Legal(i) && (i.SWL? || i.SWR?) && Phys(c.mmu, Address(c.regs, i), true).Ok?
    requires Translate(c.mmu, WordAddress(c.regs, i), 4, false).Ok?
    ensures var q := Translate(c.mmu, WordAddress(c.regs, i), 4, false).value;
            var a := Address(c.regs, i);
            WrotePart(c.mem, PutWord(c.mem, q, Stored(c, i)), Phys(c.mmu, a, true).value, a % 4,
                      EncodeWord(c.regs[i.rt]), i.SWL?)
  {
    hide Phys, Address, EncodeWord, MemWord, StoreLeft, StoreRight, WrotePart, PutWord;
    var a := Address(c.regs, i);
    WordPhys(c.mmu, a - a % 4, a % 4, false);
    WritableIsReadable(c.mmu, a);
    PutPart(c.mem, Translate(c.mmu, WordAddress(c.regs, i), 4, false).value, c.regs[i.rt], a % 4, i.SWL?);
  }

  /** SWL or SWR succeeds exactly when the byte it is given may be written. */
  lemma StoreEffect(c: Cpu, i: Instr)
    requires Legal(i) && (i.SWL? || i.SWR?)
    ensures Store(c, i).Done? == Phys(c.mmu, Address(c.regs, i), true).Ok?
    ensures Store(c, i).Done? ==>
              && WrotePart(c.mem, Store(c, i).cpu.mem, Phys(c.mmu, Address(c.regs, i), true).value,
                           Address(c.regs, i) % 4, EncodeWord(c.regs[i.rt]), i.SWL?)
              && (forall k :: 0 < k < 32 ==>
                    && Store(c, i).cpu.regs[k] == Pending(c.regs, k)
                    && Pending(Store(c, i).cpu.regs, k) == Pending(c.regs, k))
              && Store(c, i).cpu.regs[0] == 0
              && MovedOn(c.regs, Store(c, i).cpu.regs)
              && Store(c, i).cpu.mmu == Touch(Touch(c.mmu, WordAddress(c.regs, i), false), WordAddress(c.regs, i), true)
  {
    hide Phys, Address, Touch, Stored, DelayedLoad, Advance, Pending, PutWord, WrotePart, EncodeWord;
    var a := Address(c.regs, i);
    AlignedTranslation(c.mmu, a, true);
    AlignedTranslation(c.mmu, a, false);
    TouchKeepsPhys(c.mmu, WordAddress(c.regs, i), false, WordAddress(c.regs, i), true);
    if Phys(c.mmu, a, true).Ok? {
      WritableIsReadable(c.mmu, a);
      WritableIsReadable(c.mmu, WordAddress(c.regs, i));
      StoredBytes(c, i);
    }
    forall k: nat | k < 32
      ensures var r := Advance(DelayedLoad(c.regs, 0, 0));
              && r[k] == (if k == 0 then 0 else Pending(c.regs, k))
              && (k > 0 ==> Pending(r, k) == Pending(c.regs, k))
              && MovedOn(c.regs, r)
    {
      DelayedLoadSettles(c.regs, 0, 0, k);
      AdvanceKeeps(DelayedLoad(c.regs, 0, 0), k);
    }
  }

  /** A store that traps has changed no memory; the fault is that of reading its address, or else of writing it. */
  lemma StoreTrap(c: Cpu, i: Instr)
    requires Legal(i) && (i.SWL? || i.SWR?) && Store(c, i).Trap?
    ensures var a, o := Address(c.regs, i), Store(c, i);
            && o.cpu.mem == c.mem && o.cpu.regs[39] == WordAddress(c.regs, i) && o.cpu.regs[37] == 0
            && (forall j :: 32 <= j < 37 ==> o.cpu.regs[j] == c.regs[j])
            && (forall k :: 0 < k < 32 ==> o.cpu.regs[k] == Pending(c.regs, k))
            && Fault(o.exception) ==
                 if Phys(c.mmu, a, false).Fault? then Phys(c.mmu, a, false) else Phys(c.mmu, a, true)
  {
    hide Phys, Translate, Address, Touch, Raise, Stored, DelayedLoad, Advance, Pending, PutWord;
    var a, addr := Address(c.regs, i), WordAddress(c.regs, i);
    AlignedTranslation(c.mmu, a, false);
    AlignedFault(c.mmu, a, false);
    AlignedFault(c.mmu, a, true);
    TouchedAlike(c.mmu, addr);
    var p := Translate(c.mmu, addr, 4, false);
    var c1 := c.(mmu := Touch(c.mmu, addr, false));
    if p.Fault? {
      RaiseEffect(c, p.exception, addr);
    } else {
      RaiseEffect(c1, Translate(c1.mmu, addr, 4, true).exception, addr);
    }
  }

  lemma TouchedAlike(mmu: Mmu, addr: Word)
    ensures Translate(Touch(mmu, addr, false), addr, 4, true) == Translate(mmu, addr, 4, true)
  {
    hide Phys, Touch;
    TouchKeepsPhys(mmu, addr, false, addr, true);
  }

  /** Different pages are in different frames, as far as they are mapped at all. */
  ghost predicate Injective(mmu: Mmu) {
    forall u: Word, v: Word ::
      u / 128 != v / 128 && Phys(mmu, u, false).Ok? && Phys(mmu, v, false).Ok? ==>
        Phys(mmu, u, false).value / 128 != Phys(mmu, v, false).value / 128
  }

  lemma InjectiveBytes(mmu: Mmu, u: Word, v: Word)
    requires Injective(mmu) && Phys(mmu, u, false).Ok? && Phys(mmu, v, false).Ok? && u != v
    ensures Phys(mmu, u, false).value != Phys(mmu, v, false).value
  {
  }

  /** The user's view of a memory in which the bytes at `a` to `a + 3` are replaced by `data`. */
  ghost predicate Wrote4(mem: Memory, mem': Memory, mmu: Mmu, a: Word, data: seq<Byte>)
    requires |data| == 4
  {
    forall v: Word :: Phys(mmu, v, false).Ok? ==>
      ByteAt(mem', mmu, v) == if a <= v <= a + 3 then data[v - a] else ByteAt(mem, mmu, v)
  }

  /** Where byte `j` of the four is in physical memory. */
  function Place(mmu: Mmu, a: Word, j: int): (p: nat)
    requires Mapped4(mmu, a, true) && 0 <= j < 4
    ensures p < 16384
  {
    Phys(mmu, AddWords(a, j), true).value
  }

  /** Exactly the four places hold new bytes. */
  ghost predicate Overwrote(mem: Memory, mem': Memory, mmu: Mmu, a: Word, data: seq<Byte>)
    requires Mapped4(mmu, a, true) && |data| == 4
  {
    && (forall j :: 0 <= j < 4 ==> mem'[Place(mmu, a, j)] == data[j])
    && forall q :: 0 <= q < 16384 && (forall j :: 0 <= j < 4 ==> q != Place(mmu, a, j)) ==> mem'[q] == mem[q]
  }

  /** The first `4 - b` bytes follow the first one in memory, the others precede the last one. */
  lemma Positions(mmu: Mmu, a: Word, j: int)
    requires Mapped4(mmu, a, true) && 0 <= j < 4
    ensures Place(mmu, a, j) == if j < 4 - a % 4 then Place(mmu, a, 0) + j else Place(mmu, a, 3) - (3 - j)
  {
    hide Phys, AddWords;
    assert AddWords(a, 0) == a && AddWords(a, 3) == a + 3 && AddWords(a, j) == a + j;
    var b := a % 4;
    WordPhys(mmu, a - b, b, true);
    if j < 4 - b {
      WordPhys(mmu, a - b, b + j, true);
    } else {
      WordPhys(mmu, a - b + 4, b - 1, true);
      WordPhys(mmu, a - b + 4, b + j - 4, true);
    }
  }

  lemma PlacesDiffer(mmu: Mmu, a: Word, j: int, v: Word)
    requires Mapped4(mmu, a, true) && Injective(mmu) && 0 <= j < 4 && Phys(mmu, v, false).Ok? && v != a + j
    ensures Place(mmu, a, j) != Phys(mmu, v, false).value
  {
    hide Phys, AddWords, Injective;
    assert AddWords(a, j) == a + j;
    WritableIsReadable(mmu, a + j);
    InjectiveBytes(mmu, a + j, v);
  }

  lemma PlacesDistinct(mmu: Mmu, a: Word, j: int, k: int)
    requires Mapped4(mmu, a, true) && Injective(mmu) && 0 <= j < 4 && 0 <= k < 4 && j != k
    ensures Place(mmu, a, j) != Place(mmu, a, k)
  {
    hide Phys, AddWords, Injective;
    assert AddWords(a, k) == a + k;
    WritableIsReadable(mmu, a + k);
    PlacesDiffer(mmu, a, j, a + k);
  }

  /** Storing the two parts, in this order, stores all four bytes and nothing else. */
  lemma PartsJoin(mem: Memory, mem1: Memory, mem2: Memory, mmu: Mmu, a: Word, data: seq<Byte>)
    requires Mapped4(mmu, a, true) && Injective(mmu) && |data| == 4
    requires WrotePart(mem, mem1, Place(mmu, a, 3), (a + 3) % 4, data, true)
    requires WrotePart(mem1, mem2, Place(mmu, a, 0), a % 4, data, false)
    ensures Overwrote(mem, mem2, mmu, a, data)
  {
    hide Place, Mapped4, Injective;
    Positions(mmu, a, 1);
    Positions(mmu, a, 2);
    Positions(mmu, a, 3);
    PlacesDistinct(mmu, a, 0, 1);
    PlacesDistinct(mmu, a, 0, 2);
    PlacesDistinct(mmu, a, 0, 3);
    PlacesDistinct(mmu, a, 1, 2);
    PlacesDistinct(mmu, a, 1, 3);
    PlacesDistinct(mmu, a, 2, 3);
    assert (a + 3) % 4 == if a % 4 == 0 then 3 else a % 4 - 1;
  }

  lemma OverwriteSeen(mem: Memory, mem': Memory, mmu: Mmu, a: Word, data: seq<Byte>)
    requires Mapped4(mmu, a, true) && Injective(mmu) && |data| == 4 && Overwrote(mem, mem', mmu, a, data)
    ensures Wrote4(mem, mem', mmu, a, data)
  {
    hide Phys, AddWords, Injective;
    forall v: Word | Phys(mmu, v, false).Ok?
      ensures ByteAt(mem', mmu, v) == if a <= v <= a + 3 then data[v - a] else ByteAt(mem, mmu, v)
    {
      if a <= v <= a + 3 {
        assert AddWords(a, v - a) == v;
        WritableIsReadable(mmu, v);
        assert mem'[Place(mmu, a, v - a)] == data[v - a];
      } else {
        forall j | 0 <= j < 4
          ensures Phys(mmu, v, false).value != Place(mmu, a, j)
        {
          PlacesDiffer(mmu, a, j, v);
        }
      }
    }
  }

  /** The state after the first store of a pair, possibly interrupted. */
  lemma BetweenStores(c: Cpu, i: Instr, interrupted: bool, addr: Word)
    requires Legal(i) && i.SWL? && Store(c, i).Done?
    ensures var c1 := Between(Store(c, i).cpu, interrupted);
            && c1.mem == Store(c, i).cpu.mem
            && Phys(c1.mmu, addr, true) == Phys(c.mmu, addr, true)
            && (forall k :: 0 < k < 32 ==> c1.regs[k] == Pending(c.regs, k))
            && c1.regs[0] == 0
  {
    hide Phys, Address, WordAddress, Store, Touch, Stored, DelayedLoad, Advance, Pending, WrotePart, EncodeWord;
    StoreEffect(c, i);
    var w := WordAddress(c.regs, i);
    TouchKeepsPhys(c.mmu, w, false, addr, true);
    TouchKeepsPhys(Touch(c.mmu, w, false), w, true, addr, true);
    forall k: nat | k < 32
      ensures var r := Store(c, i).cpu.regs;
              DelayedLoad(r, 0, 0)[k] == if k == 0 then 0 else Pending(r, k)
    {
      DelayedLoadSettles(Store(c, i).cpu.regs, 0, 0, k);
    }
  }

  /** SWL at the last byte followed by SWR at the first stores exactly the four bytes of the unaligned word, across a
      page boundary as well, whether or not an interrupt comes between, as seen by the program itself and in physical
      memory. */
  lemma UnalignedStore(c: Cpu, left: Instr, right: Instr, interrupted: bool)
    requires Legal(left) && left.SWL? && Legal(right) && right.SWR? && left.rs == right.rs && left.rt == right.rt
    requires Settled(c.regs, left.rs) && Settled(c.regs, left.rt) && Injective(c.mmu)
    requires Mapped4(c.mmu, Address(c.regs, right), true)
    requires Address(c.regs, left) == Address(c.regs, right) + 3
    ensures var a, data, first := Address(c.regs, right), EncodeWord(c.regs[right.rt]), Execute(c, left);
            && first.Done?
            && var second := Execute(Between(first.cpu, interrupted), right);
            && second.Done?
            && Overwrote(c.mem, second.cpu.mem, c.mmu, a, data)
            && Wrote4(c.mem, second.cpu.mem, c.mmu, a, data)
  {
    hide Phys, Store, EncodeWord, Pending, AddWords, Injective, WrotePart, Overwrote, Wrote4, Between;
    var a := Address(c.regs, right);
    assert AddWords(a, 0) == a && AddWords(a, 3) == a + 3;
    StoreEffect(c, left);
    BetweenStores(c, left, interrupted, a);
    var c1 := Between(Store(c, left).cpu, interrupted);
    assert c1.regs[right.rs] == c.regs[right.rs] && c1.regs[right.rt] == c.regs[right.rt];
    StoreEffect(c1, right);
    PartsJoin(c.mem, c1.mem, Store(c1, right).cpu.mem, c.mmu, a, EncodeWord(c.regs[right.rt]));
    OverwriteSeen(c.mem, Store(c1, right).cpu.mem, c.mmu, a, EncodeWord(c.regs[right.rt]));
  }
}
