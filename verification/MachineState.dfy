/** The machine as the simulator holds it: register file, memory and translation table are updated in place.
    Every method does what the functions of `Machines` say. */
module MachineState {
  import opened Bytes
  import opened Machines

  /** The machine as an exception handler finds it. */
  function Raised(c: Cpu, e: Exception, addr: Word): Cpu {
    Raise(c, e, addr).cpu
  }

  lemma WordIsRead(mem: Memory, p: nat, value: Word)
    requires p + 4 <= 16384 && IsValueOf(mem[p..p + 4], value)
    ensures value == MemWord(mem, p)
  {
    hide DecodeWord, LittleEndian;
    DecodedIsLittleEndian(mem[p..p + 4]);
  }

  lemma HalfIsRead(s: seq<Byte>)
    requires |s| == 2
    ensures IsValueOf(s, DecodeWord(s + [0, 0]))
  {
    var b0: int, b1: int := s[0], s[1];
    assert s[1..][1..] == [] && LittleEndian(s[1..]) == b1;
    assert LittleEndian(s) == b0 + 0x100 * b1;
  }

  class Machine {
    const registers: array<Word>
    const mainMemory: array<Byte>
    var entries: array?<Entry>
    const tlb: bool

    ghost predicate Valid()
      reads registers
    {
      registers.Length == 40 && mainMemory.Length == 16384 && registers[37] < 32
    }

    /** The TLB, or the page table that is installed; Translate asserts that there is one. */
    ghost function Table(): Mmu
      requires entries != null
      reads this, entries
    {
      if tlb then Tlb(entries[..]) else PageTable(entries[..])
    }

    ghost function State(): Cpu
      requires Valid() && entries != null
      reads this, registers, mainMemory, entries
    {
      Cpu(registers[..], mainMemory[..], Table())
    }

    /** With a TLB, every address misses it; without one, no page table is installed yet. */
    constructor (useTlb: bool)
      ensures Valid() && fresh(registers) && fresh(mainMemory) && tlb == useTlb
      ensures registers[..] == seq(40, _ => 0) && mainMemory[..] == seq(16384, _ => 0)
      ensures !useTlb ==> entries == null
      ensures useTlb ==> entries != null && fresh(entries) && entries.Length == 4 &&
                         forall addr, writing :: Phys(Table(), addr, writing) == Fault(PageFault)
    {
      registers := new Word[40](_ => 0);
      mainMemory := new Byte[16384](_ => 0);
      entries := null;
      tlb := useTlb;
      if useTlb {
        entries := new Entry[4](_ => Entry(0, 0, false, false, false, false));
      }
    }

    /** AddrSpace::RestoreState: another page table takes effect, and nothing is copied. */
    method RestoreState(table: array<Entry>)
      requires Valid() && !tlb
      modifies this`entries
      ensures Valid() && entries == table
      ensures State() == Cpu(old(registers[..]), old(mainMemory[..]), PageTable(table[..]))
    {
      entries := table;
    }

    /** The loop over the TLB stops at the first valid entry for the page. */
    method SearchTlb(vpn: nat) returns (i: nat)
      requires entries != null
      ensures i == TlbIndex(entries[..], vpn)
    {
      i := 0;
      while i < entries.Length && !(entries[i].valid && entries[i].virtualPage == vpn)
        invariant i <= entries.Length && TlbIndex(entries[..], vpn) == TlbIndex(entries[..], vpn, i)
      {
        i := i + 1;
      }
    }

    method FindEntry(vpn: nat) returns (r: Result<nat>)
      requires entries != null
      ensures r == Lookup(Table(), vpn)
    {
      if !tlb {
        if vpn >= entries.Length {
          return Fault(AddressError);
        } else if !entries[vpn].valid {
          return Fault(PageFault);
        }
        return Ok(vpn);
      }
      var i := SearchTlb(vpn);
      if i == entries.Length {
        return Fault(PageFault);
      }
      return Ok(i);
    }

    method Translate(virtAddr: Word, size: nat, writing: bool) returns (r: Result<nat>)
      requires entries != null
      modifies entries
      ensures r == Machines.Translate(old(Table()), virtAddr, size, writing)
      ensures Table() == if r.Ok? then Touch(old(Table()), virtAddr, writing) else old(Table())
    {
      if (size == 4 && virtAddr % 4 != 0) || (size == 2 && virtAddr % 2 != 0) {
        return Fault(AddressError);
      }
      var found := FindEntry(virtAddr / 128);
      if found.Fault? {
        return Fault(found.exception);
      }
      var entry := entries[found.value];
      if entry.readOnly && writing {
        return Fault(ReadOnly);
      }
      if !(0 <= entry.physicalPage < 128) {
        return Fault(BusError);
      }
      entries[found.value] := entry.(use := true);
      if writing {
        entries[found.value] := entries[found.value].(dirty := true);
      }
      return Ok(entry.physicalPage * 128 + virtAddr % 128);
    }

    method DelayedLoad(nextReg: nat, nextValue: Word)
      requires Valid() && nextReg < 32
      modifies registers
      ensures Valid() && registers[..] == Machines.DelayedLoad(old(registers[..]), nextReg, nextValue)
    {
      registers[registers[37]] := registers[38];
      registers[37] := nextReg;
      registers[38] := nextValue;
      registers[0] := 0;
    }

    method RaiseException(e: Exception, badVAddr: Word)
      requires Valid() && entries != null
      modifies registers
      ensures Valid() && State() == Raised(old(State()), e, badVAddr)
    {
      registers[39] := badVAddr;
      assert registers[..] == old(registers[..])[39 := badVAddr];
      DelayedLoad(0, 0);
    }

    method ReadMem(addr: Word, size: nat) returns (ok: bool, value: Word)
      requires Valid() && entries != null && (size == 1 || size == 2 || size == 4)
      modifies registers, entries
      ensures Valid()
      ensures var p := Machines.Translate(old(Table()), addr, size, false);
              && ok == p.Ok?
              && (if ok then State() == old(State()).(mmu := Touch(old(Table()), addr, false)) &&
                             IsValueOf(mainMemory[..][p.value..p.value + size], value)
                  else State() == Raised(old(State()), p.exception, addr))
    {
      var p := Translate(addr, size, false);
      if p.Fault? {
        RaiseException(p.exception, addr);
        return false, 0;
      }
      var a := p.value;
      if size == 1 {
        var b: int := mainMemory[a];
        value := if b < 128 then b else 0xFFFF_FF00 + b;
      } else if size == 2 {
        value := DecodeWord(mainMemory[a..a + 2] + [0, 0]);
        HalfIsRead(mainMemory[a..a + 2]);
      } else {
        value := DecodeWord(mainMemory[a..a + 4]);
        DecodedIsLittleEndian(mainMemory[a..a + 4]);
      }
      ok := true;
    }

    method WriteMem(addr: Word, size: nat, value: Word) returns (ok: bool)
      requires Valid() && entries != null && (size == 1 || size == 2 || size == 4)
      modifies registers, mainMemory, entries
      ensures Valid()
      ensures var p := Machines.Translate(old(Table()), addr, size, true);
              && ok == p.Ok?
              && (if ok then State() == old(State()).(mem := Splice(old(mainMemory[..]), p.value, EncodeWord(value)[..size]),
                                                      mmu := Touch(old(Table()), addr, true))
                  else State() == Raised(old(State()), p.exception, addr))
    {
      var p := Translate(addr, size, true);
      if p.Fault? {
        RaiseException(p.exception, addr);
        return false;
      }
      var data := EncodeWord(value);
      forall j | 0 <= j < size {
        mainMemory[p.value + j] := data[j];
      }
      assert mainMemory[..] == Splice(old(mainMemory[..]), p.value, data[..size]);
      ok := true;
    }

    /** The program counters advance. */
    method MoveOn()
      requires Valid()
      modifies registers
      ensures Valid() && registers[..] == Advance(old(registers[..]))
    {
      var next: int := registers[35];
      registers[36] := registers[34];
      registers[34] := registers[35];
      registers[35] := AddWords(next, 4);
    }

    /** LWL and LWR, with the delayed load and the step of the program counters at the end of every instruction. */
    method LoadPart(instr: Instr) returns (done: bool)
      requires Valid() && entries != null && Legal(instr) && (instr.LWL? || instr.LWR?)
      modifies registers, entries
      ensures Valid()
      ensures done == Load(old(State()), instr).Done?
      ensures State() == Load(old(State()), instr).cpu
    {
      hide Machines.Translate, Raise, Touch, MergeLeft, MergeRight, IsValueOf, MemWord, Machines.DelayedLoad, Advance,
           AddWords;
      var base: int := registers[instr.rs];
      var tmp := AddWords(base, instr.extra);
      var byte := tmp % 4;
      var ok, value := ReadMem(tmp - byte, 4);
      if !ok {
        return false;
      }
      WordIsRead(mainMemory[..], Machines.Translate(old(Table()), tmp - byte, 4, false).value, value);
      var next := if registers[37] == instr.rt then registers[38] else registers[instr.rt];
      if instr.LWL? {
        next := MergeLeft(next, value, byte);
      } else {
        next := MergeRight(next, value, byte);
      }
      DelayedLoad(instr.rt, next);
      MoveOn();
      done := true;
    }

    /** The end of a store: the word goes to memory, the pending load takes effect, the program counters advance. */
    method FinishStore(addr: Word, value: Word) returns (done: bool)
      requires Valid() && entries != null
      modifies registers, mainMemory, entries
      ensures Valid()
      ensures var q := Machines.Translate(old(Table()), addr, 4, true);
              && done == q.Ok?
              && State() == if done then Cpu(Advance(Machines.DelayedLoad(old(registers[..]), 0, 0)),
                                             PutWord(old(mainMemory[..]), q.value, value),
                                             Touch(old(Table()), addr, true))
                            else Raised(old(State()), q.exception, addr)
    {
      hide Machines.Translate, Raise, Touch, EncodeWord, Machines.DelayedLoad, Advance;
      assert EncodeWord(value)[..4] == EncodeWord(value);
      done := WriteMem(addr, 4, value);
      if done {
        DelayedLoad(0, 0);
        MoveOn();
      }
    }

    method StorePart(instr: Instr) returns (done: bool)
      requires Valid() && entries != null && Legal(instr) && (instr.SWL? || instr.SWR?)
      modifies registers, mainMemory, entries
      ensures Valid()
      ensures done == Store(old(State()), instr).Done?
      ensures State() == Store(old(State()), instr).cpu
    {
      hide Machines.Translate, Raise, Touch, StoreLeft, StoreRight, IsValueOf, MemWord, PutWord, Machines.DelayedLoad,
           Advance, AddWords;
      var base: int := registers[instr.rs];
      var tmp := AddWords(base, instr.extra);
      var byte := tmp % 4;
      var ok, value := ReadMem(tmp - byte, 4);
      if !ok {
        return false;
      }
      WordIsRead(mainMemory[..], Machines.Translate(old(Table()), tmp - byte, 4, false).value, value);
      if instr.SWL? {
        value := StoreLeft(registers[instr.rt], value, byte);
      } else {
        value := StoreRight(registers[instr.rt], value, byte);
      }
      done := FinishStore(tmp - byte, value);
    }
  }
}
