/** code/userprog/addrspace.cc on values: what a program file says its memory should be, and the frames that the
    processes of a run share.  Each process sees a private array of bytes. */
module AddressSpaces {
  import opened Bytes
  import opened Common
  import opened Bitmaps
  import opened Machines
  import opened OpenFiles

  const NOFF_MAGIC := 0xbadfad
  const NOFF_SIZE := 52
  const USER_STACK_SIZE := 1024

  // ----- Program files -----

  datatype Segment = Segment(virtualAddr: int, inFileAddr: int, size: int)

  datatype Noff = Noff(magic: int, code: Segment, initData: Segment, readonlyData: Segment, uninitData: Segment)

  /** The header at the start of the file, as a C struct of thirteen ints. */
  function ParseHeader(s: seq<Byte>): Noff
    requires |s| == 52
  {
    var w := DecodeWords(s);
    Noff(ToInt(w[0]), SegmentAt(w, 1), SegmentAt(w, 4), SegmentAt(w, 7), SegmentAt(w, 10))
  }

  function SegmentAt(w: seq<Word>, i: nat): Segment
    requires i + 3 <= |w|
  {
    Segment(ToInt(w[i]), ToInt(w[i + 1]), ToInt(w[i + 2]))
  }

  function SegmentWords(seg: Segment): (ws: seq<int>)
    ensures |ws| == 3
  {
    [seg.virtualAddr, seg.inFileAddr, seg.size]
  }

  predicate IsInt32(x: int) {
    -0x8000_0000 <= x < 0x8000_0000
  }

  /** The layout of the header: the magic number, then where code, initialised, read-only and uninitialised data go,
      come from, and how long they are, each a little-endian int. */
  lemma HeaderLayout(n: Noff, s: seq<Byte>)
    requires |s| == 52
    requires var ints := [n.magic] + SegmentWords(n.code) + SegmentWords(n.initData) + SegmentWords(n.readonlyData)
                         + SegmentWords(n.uninitData);
             forall k :: 0 <= k < 13 ==>
               && IsInt32(ints[k])
               && LittleEndian(s[4 * k..4 * k + 4]) == if ints[k] < 0 then ints[k] + 0x1_0000_0000 else ints[k]
    ensures ParseHeader(s) == n
  {
    hide LittleEndian, DecodeWord;
    var ints := [n.magic] + SegmentWords(n.code) + SegmentWords(n.initData) + SegmentWords(n.readonlyData)
                + SegmentWords(n.uninitData);
    var w := DecodeWords(s);
    forall k | 0 <= k < 13
      ensures ToInt(w[k]) == ints[k]
    {
      DecodedIsLittleEndian(s[4 * k..4 * k + 4]);
    }
    hide ToInt;
    assert [ToInt(w[0]), ToInt(w[1]), ToInt(w[2]), ToInt(w[3])] == ints[..4];
    assert [ToInt(w[4]), ToInt(w[5]), ToInt(w[6])] == ints[4..7];
    assert [ToInt(w[7]), ToInt(w[8]), ToInt(w[9])] == ints[7..10];
    assert [ToInt(w[10]), ToInt(w[11]), ToInt(w[12])] == ints[10..13];
  }

  function ActualSize(n: Noff): int {
    n.code.size + n.initData.size + n.readonlyData.size
  }

  function SpaceSize(n: Noff): int {
    ActualSize(n) + n.uninitData.size + USER_STACK_SIZE
  }

  /** The segment can be read into a buffer of `length` bytes. */
  predicate SegmentFits(seg: Segment, length: int) {
    && seg.size >= 0
    && (seg.size > 0 ==> seg.virtualAddr >= 0 && seg.inFileAddr >= 0 && seg.virtualAddr + seg.size <= length)
  }

  /** What Load takes for granted about a header: the loaded segments lie in [0, actualSize), and no int overflows. */
  predicate Fits(n: Noff) {
    && n.magic == NOFF_MAGIC
    && SegmentFits(n.code, ActualSize(n)) && SegmentFits(n.readonlyData, ActualSize(n))
    && SegmentFits(n.initData, ActualSize(n)) && n.uninitData.size >= 0
    && SpaceSize(n) < 0x8000_0000
  }

  predicate Loadable(file: seq<Byte>) {
    |file| >= 52 && Fits(ParseHeader(file[..52]))
  }

  function NumPages(n: Noff): nat
    requires Fits(n)
  {
    DivRoundUp(SpaceSize(n), 128)
  }

  /** The space has room for all segments, uninitialised data included, and the stack, and is less than a page larger.
      */
  lemma SpaceHasRoom(n: Noff)
    requires Fits(n)
    ensures var need := n.code.size + n.initData.size + n.readonlyData.size + n.uninitData.size + 1024;
            need <= NumPages(n) * 128 < need + 128
  {
  }

  /** One segment read into the buffer; nothing is read past the end of the file. */
  function Fill(buffer: seq<Byte>, seg: Segment, file: seq<Byte>): (r: seq<Byte>)
    requires SegmentFits(seg, |buffer|)
    ensures |r| == |buffer|
    ensures seg.size == 0 ==> r == buffer
    ensures seg.size > 0 ==> forall v :: 0 <= v < |r| ==>
              var at := seg.inFileAddr + v - seg.virtualAddr;
              r[v] == if seg.virtualAddr <= v < seg.virtualAddr + seg.size && at < |file| then file[at] else buffer[v]
  {
    if seg.size == 0 then buffer else Splice(buffer, seg.virtualAddr, Slice(file, seg.size, seg.inFileAddr))
  }

  /** The buffer that Load builds. */
  function Program(n: Noff, file: seq<Byte>): (r: seq<Byte>)
    requires Fits(n)
    ensures |r| == ActualSize(n)
  {
    Fill(Fill(Fill(seq(ActualSize(n), _ => 0), n.code, file), n.readonlyData, file), n.initData, file)
  }

  /** The memory of a freshly loaded process. */
  function Image(n: Noff, file: seq<Byte>): (image: seq<Byte>)
    requires Fits(n)
    ensures |image| == NumPages(n) * 128
  {
    seq(NumPages(n) * 128,
        v requires 0 <= v < NumPages(n) * 128 => if v < ActualSize(n) then Program(n, file)[v] else 0)
  }

  predicate Covers(seg: Segment, v: int) {
    seg.virtualAddr <= v < seg.virtualAddr + seg.size
  }

  /** Where in the file the byte for address `v` is. */
  function InFile(seg: Segment, v: int): int {
    seg.inFileAddr + v - seg.virtualAddr
  }

  /** The segment has a byte of the file for address `v`. */
  predicate Supplies(seg: Segment, file: seq<Byte>, v: int) {
    Covers(seg, v) && InFile(seg, v) < |file|
  }

  /** Every byte of a fresh process: from the file, where a segment supplies it, the segment that is read last
      counting if several do; zero otherwise. */
  lemma ImageByte(n: Noff, file: seq<Byte>, v: int)
    requires Fits(n) && 0 <= v < NumPages(n) * 128
    ensures Image(n, file)[v] ==
              if Supplies(n.initData, file, v) then file[InFile(n.initData, v)]
              else if Supplies(n.readonlyData, file, v) then file[InFile(n.readonlyData, v)]
              else if Supplies(n.code, file, v) then file[InFile(n.code, v)]
              else 0
  {
    hide Fill;
    if v < ActualSize(n) {
      var empty: seq<Byte> := seq(ActualSize(n), _ => 0);
      var code := Fill(empty, n.code, file);
      var both := Fill(code, n.readonlyData, file);
      assert empty[v] == 0;
      assert Program(n, file)[v] == Fill(both, n.initData, file)[v] && |both| == |code| == |empty|;
      assert !Supplies(n.code, file, v) ==> code[v] == empty[v];
      assert !Supplies(n.readonlyData, file, v) ==> both[v] == code[v];
    }
  }

  /** Where a segment lies, the process finds the bytes of the file, provided no other segment lies there. */
  lemma ImageOfSegment(n: Noff, file: seq<Byte>, seg: Segment, v: int)
    requires Fits(n) && (seg == n.code || seg == n.readonlyData || seg == n.initData) && Covers(seg, v)
    requires Covers(n.code, v) ==> seg == n.code
    requires Covers(n.readonlyData, v) ==> seg == n.readonlyData
    requires Covers(n.initData, v) ==> seg == n.initData
    ensures 0 <= v < |Image(n, file)|
    ensures var at := seg.inFileAddr + v - seg.virtualAddr;
            Image(n, file)[v] == if at < |file| then file[at] else 0
  {
    hide Image;
    ImageByte(n, file, v);
  }

  /** Everywhere else, uninitialised data and the stack included, it finds zeros. */
  lemma ImageElsewhere(n: Noff, file: seq<Byte>, v: int)
    requires Fits(n) && 0 <= v < NumPages(n) * 128
    requires !Covers(n.code, v) && !Covers(n.readonlyData, v) && !Covers(n.initData, v)
    ensures Image(n, file)[v] == 0
  {
    hide Image;
    ImageByte(n, file, v);
  }

  // ----- The frames and the memory that all processes share -----

  function FramesOf(table: seq<Entry>): (frames: seq<int>)
    ensures |frames| == |table|
  {
    seq(|table|, i requires 0 <= i < |table| => table[i].physicalPage)
  }

  /** Every page is mapped and writable. */
  predicate TableOk(table: seq<Entry>) {
    forall i :: 0 <= i < |table| ==>
      0 <= table[i].physicalPage < 128 && table[i].virtualPage == i && table[i].valid && !table[i].readOnly
  }

  predicate Untouched(table: seq<Entry>) {
    forall i :: 0 <= i < |table| ==> !table[i].use && !table[i].dirty
  }

  /** Where byte `v` of a process is in physical memory. */
  function Loc(table: seq<Entry>, v: int): (p: nat)
    requires TableOk(table) && 0 <= v < 128 * |table|
    ensures p < 16384
  {
    table[v / 128].physicalPage * 128 + v % 128
  }

  /** All that a process can see. */
  function View(mem: Memory, table: seq<Entry>): (view: seq<Byte>)
    requires TableOk(table)
    ensures |view| == 128 * |table|
  {
    seq(128 * |table|, v requires 0 <= v < 128 * |table| => mem[Loc(table, v)])
  }

  /** The machine's own translation leads to the same bytes, and fails exactly past the end of the space. */
  lemma PhysOfTable(table: seq<Entry>, addr: Word, writing: bool)
    requires TableOk(table)
    ensures Phys(PageTable(table), addr, writing) ==
              if addr < 128 * |table| then Ok(Loc(table, addr)) else Fault(AddressError)
  {
  }

  /** AddrSpace::Translate, the translation used by system calls.  The frame number is a signed int there and only
      compared with the number of frames, so a negative one gets as far as the ASSERT on the address: `None`. */
  function SpaceTranslate(table: seq<Entry>, vaddr: Word, writing: bool): Option<Result<nat>> {
    var vpn := vaddr / 128;
    if vpn >= |table| then Some(Fault(AddressError))
    else if writing && table[vpn].readOnly then Some(Fault(ReadOnly))
    else if table[vpn].physicalPage >= 128 then Some(Fault(BusError))
    else if table[vpn].physicalPage < 0 then None
    else Some(Ok(table[vpn].physicalPage * 128 + vaddr % 128))
  }

  /** It agrees with the hardware exactly where the page is absent, or valid with a frame that is not negative or that
      the access does not reach. */
  lemma TranslationsAgree(table: seq<Entry>, vaddr: Word, writing: bool)
    ensures SpaceTranslate(table, vaddr, writing) == Some(Phys(PageTable(table), vaddr, writing)) <==>
            (vaddr / 128 < |table| ==>
               var e := table[vaddr / 128]; e.valid && (e.physicalPage >= 0 || (writing && e.readOnly)))
  {
  }

  /** An invalid page: the hardware faults, the kernel reads through the stale entry. */
  lemma InvalidPageDisagrees()
    ensures var table := [Entry(0, 5, false, false, false, false)];
            Phys(PageTable(table), 3, false) == Fault(PageFault) && SpaceTranslate(table, 3, false) == Some(Ok(643))
  {
  }

  /** A negative frame: the hardware reports a bus error, the kernel stops. */
  lemma NegativeFrameDisagrees()
    ensures var table := [Entry(0, -1, true, false, false, false)];
            Phys(PageTable(table), 3, false) == Fault(BusError) && SpaceTranslate(table, 3, false) == None
  {
  }

  /** Under a table made by Load the two are the same. */
  lemma LoadedTablesAgree(table: seq<Entry>, vaddr: Word, writing: bool)
    requires TableOk(table)
    ensures SpaceTranslate(table, vaddr, writing) == Some(Phys(PageTable(table), vaddr, writing))
  {
    assert vaddr / 128 < |table| ==> table[vaddr / 128].physicalPage >= 0;
    TranslationsAgree(table, vaddr, writing);
  }

  datatype System = System(bits: seq<bool>, mem: Memory, spaces: map<nat, seq<Entry>>)

  /** A page of a live process. */
  predicate LivePage(s: System, id: nat, i: int) {
    id in s.spaces && 0 <= i < |s.spaces[id]|
  }

  function FrameOf(s: System, id: nat, i: int): int
    requires LivePage(s, id, i)
  {
    s.spaces[id][i].physicalPage
  }

  /** The frame bitmap is the disjoint union of the frames of the live page tables. */
  ghost predicate Inv(s: System) {
    && |s.bits| == 128
    && (forall id :: id in s.spaces ==> TableOk(s.spaces[id]))
    && (forall id, i, id', i' :: LivePage(s, id, i) && LivePage(s, id', i') && FrameOf(s, id, i) == FrameOf(s, id', i')
          ==> id == id' && i == i')
    && (forall id, i :: LivePage(s, id, i) ==> 0 <= FrameOf(s, id, i) < 128 && s.bits[FrameOf(s, id, i)])
    && (forall f :: 0 <= f < 128 && s.bits[f] ==> exists id, i :: LivePage(s, id, i) && FrameOf(s, id, i) == f)
  }

  /** What a successful Load does: first-fit frames, a fresh table, the image in the frames, all else untouched. */
  ghost predicate Loaded(bits: seq<bool>, bits': seq<bool>, mem: Memory, mem': Memory, table: seq<Entry>,
                         image: seq<Byte>)
  {
    && FirstFit(bits, bits', FramesOf(table))
    && TableOk(table) && Untouched(table)
    && |image| == 128 * |table|
    && View(mem', table) == image
    && forall p :: 0 <= p < 16384 && p / 128 !in FramesOf(table) ==> mem'[p] == mem[p]
  }

  ghost predicate LoadStep(s: System, s': System, id: nat, image: seq<Byte>) {
    && id !in s.spaces && id in s'.spaces
    && s'.spaces == s.spaces[id := s'.spaces[id]]
    && Loaded(s.bits, s'.bits, s.mem, s'.mem, s'.spaces[id], image)
  }

  ghost predicate DestroyStep(s: System, s': System, id: nat) {
    && id in s.spaces
    && s'.mem == s.mem && s'.spaces == s.spaces - {id} && |s'.bits| == |s.bits|
    && forall f :: 0 <= f < |s.bits| ==> s'.bits[f] == (s.bits[f] && f !in FramesOf(s.spaces[id]))
  }

  /** A store of the running process `id`, through its own page table. */
  ghost predicate WriteStep(s: System, s': System, id: nat, addr: Word, size: nat, value: Word)
    requires size == 1 || size == 2 || size == 4
  {
    && id in s.spaces && id in s'.spaces && s'.bits == s.bits
    && var p := Translate(PageTable(s.spaces[id]), addr, size, true);
    && if p.Ok? then
         && s'.mem == Splice(s.mem, p.value, EncodeWord(value)[..size])
         && s'.spaces == s.spaces[id := Touch(PageTable(s.spaces[id]), addr, true).entries]
       else s' == s
  }

  /** A load of the running process `id`: it changes nothing but use bits. */
  ghost predicate ReadStep(s: System, s': System, id: nat, addr: Word, size: nat, reply: Result<Word>)
    requires size == 1 || size == 2 || size == 4
  {
    && id in s.spaces && id in s'.spaces && s'.bits == s.bits && s'.mem == s.mem
    && var p := Translate(PageTable(s.spaces[id]), addr, size, false);
    && if p.Ok? then
         && reply.Ok? && IsValueOf(s.mem[p.value..p.value + size], reply.value)
         && s'.spaces == s.spaces[id := Touch(PageTable(s.spaces[id]), addr, false).entries]
       else reply == Fault(p.exception) && s' == s
  }

  // ----- Each process has a memory of its own -----

  /** What the processes see: private memories that share nothing. */
  ghost function Abs(s: System): (a: map<nat, seq<Byte>>)
    requires Inv(s)
    ensures a.Keys == s.spaces.Keys
  {
    map id | id in s.spaces :: View(s.mem, s.spaces[id])
  }

  lemma LocFrame(table: seq<Entry>, v: int)
    requires TableOk(table) && 0 <= v < 128 * |table|
    ensures 0 <= v / 128 < |table|
    ensures Loc(table, v) / 128 == table[v / 128].physicalPage && Loc(table, v) % 128 == v % 128
  {
  }

  lemma LocsDiffer(s: System, id: nat, v: int, id': nat, v': int)
    requires Inv(s) && id in s.spaces && id' in s.spaces
    requires 0 <= v < 128 * |s.spaces[id]| && 0 <= v' < 128 * |s.spaces[id']|
    ensures Loc(s.spaces[id], v) == Loc(s.spaces[id'], v') ==> id == id' && v == v'
  {
    hide Loc;
    LocFrame(s.spaces[id], v);
    LocFrame(s.spaces[id'], v');
    assert LivePage(s, id, v / 128) && LivePage(s, id', v' / 128);
  }

  lemma TablesOk(s: System, id: nat)
    requires Inv(s) && id in s.spaces
    ensures TableOk(s.spaces[id])
  {
  }

  /** Views depend only on the frames of the table. */
  lemma ViewFrame(mem: Memory, mem': Memory, table: seq<Entry>)
    requires TableOk(table)
    requires forall p :: 0 <= p < 16384 && p / 128 in FramesOf(table) ==> mem'[p] == mem[p]
    ensures View(mem', table) == View(mem, table)
  {
    hide Loc;
    forall v | 0 <= v < 128 * |table|
      ensures mem'[Loc(table, v)] == mem[Loc(table, v)]
    {
      LocFrame(table, v);
      assert FramesOf(table)[v / 128] == table[v / 128].physicalPage;
    }
  }

  /** The frames of a new table were free, are now marked, and are all different. */
  lemma NewFrames(bits: seq<bool>, bits': seq<bool>, table: seq<Entry>)
    requires FirstFit(bits, bits', FramesOf(table))
    ensures |bits'| == |bits|
    ensures forall i :: 0 <= i < |table| ==>
              0 <= table[i].physicalPage < |bits| && !bits[table[i].physicalPage] && bits'[table[i].physicalPage]
    ensures forall i, j :: 0 <= i < j < |table| ==> table[i].physicalPage != table[j].physicalPage
    ensures forall f :: 0 <= f < |bits| && bits'[f] && !bits[f] ==>
              exists i :: 0 <= i < |table| && table[i].physicalPage == f
  {
    var frames := FramesOf(table);
    forall i | 0 <= i < |table|
      ensures table[i].physicalPage == frames[i] && frames[i] in ClearBits(bits) && frames[i] in frames
    {
    }
    forall f | 0 <= f < |bits| && bits'[f] && !bits[f]
      ensures exists i :: 0 <= i < |table| && table[i].physicalPage == f
    {
      var i :| 0 <= i < |frames| && frames[i] == f;
      assert table[i].physicalPage == f;
    }
  }

  lemma LoadOwners(s: System, s': System, id: nat, f: int)
    requires Inv(s) && |s'.bits| == 128 && 0 <= f < 128 && s'.bits[f]
    requires id !in s.spaces && id in s'.spaces && s'.spaces == s.spaces[id := s'.spaces[id]]
    requires !s.bits[f] ==> exists i :: 0 <= i < |s'.spaces[id]| && s'.spaces[id][i].physicalPage == f
    ensures exists id0, i :: LivePage(s', id0, i) && FrameOf(s', id0, i) == f
  {
    if s.bits[f] {
      var id0, i :| LivePage(s, id0, i) && FrameOf(s, id0, i) == f;
      assert LivePage(s', id0, i) && FrameOf(s', id0, i) == f;
    } else {
      var i :| 0 <= i < |s'.spaces[id]| && s'.spaces[id][i].physicalPage == f;
      assert LivePage(s', id, i) && FrameOf(s', id, i) == f;
    }
  }

  lemma LoadKeepsInv(s: System, s': System, id: nat, image: seq<Byte>)
    requires Inv(s) && LoadStep(s, s', id, image)
    ensures Inv(s')
  {
    hide View, FirstFit, FramesOf;
    NewFrames(s.bits, s'.bits, s'.spaces[id]);
    forall id0, i | LivePage(s', id0, i)
      ensures id0 != id ==> LivePage(s, id0, i) && FrameOf(s, id0, i) == FrameOf(s', id0, i)
      ensures s'.bits[FrameOf(s', id0, i)]
    {
      LoadMarks(s, s', id, image, id0, i);
    }
    forall f | 0 <= f < 128 && s'.bits[f]
      ensures exists id0, i :: LivePage(s', id0, i) && FrameOf(s', id0, i) == f
    {
      LoadOwners(s, s', id, f);
    }
  }

  lemma LoadMarks(s: System, s': System, id: nat, image: seq<Byte>, id0: nat, i: int)
    requires Inv(s) && LoadStep(s, s', id, image) && LivePage(s', id0, i)
    ensures 0 <= FrameOf(s', id0, i) < |s'.bits| && s'.bits[FrameOf(s', id0, i)]
  {
    hide View;
    assert FramesOf(s'.spaces[id0])[i] == FrameOf(s', id0, i);
    assert id0 != id ==> LivePage(s, id0, i);
  }

  /** Load gives the new process its image and changes no other process. */
  lemma LoadRefines(s: System, s': System, id: nat, image: seq<Byte>)
    requires Inv(s) && LoadStep(s, s', id, image) && Inv(s')
    ensures Abs(s') == Abs(s)[id := image]
  {
    hide View;
    var frames := FramesOf(s'.spaces[id]);
    forall id0 | id0 in s.spaces
      ensures View(s'.mem, s.spaces[id0]) == View(s.mem, s.spaces[id0])
    {
      forall f | f in FramesOf(s.spaces[id0])
        ensures f !in frames
      {
        var i :| 0 <= i < |s.spaces[id0]| && FramesOf(s.spaces[id0])[i] == f;
        assert LivePage(s, id0, i) && FrameOf(s, id0, i) == f;
        assert f !in ClearBits(s.bits);
      }
      ViewFrame(s.mem, s'.mem, s.spaces[id0]);
    }
  }

  lemma DestroyKeepsInv(s: System, s': System, id: nat)
    requires Inv(s) && DestroyStep(s, s', id)
    ensures Inv(s')
  {
    forall id0, i | LivePage(s', id0, i)
      ensures LivePage(s, id0, i) && FrameOf(s, id0, i) == FrameOf(s', id0, i)
      ensures s'.bits[FrameOf(s', id0, i)]
    {
      var f := FrameOf(s, id0, i);
      forall k | 0 <= k < |s.spaces[id]|
        ensures FramesOf(s.spaces[id])[k] != f
      {
        assert LivePage(s, id, k);
      }
    }
    forall f | 0 <= f < 128 && s'.bits[f]
      ensures exists id0, i :: LivePage(s', id0, i) && FrameOf(s', id0, i) == f
    {
      var id0, i :| LivePage(s, id0, i) && FrameOf(s, id0, i) == f;
      assert FramesOf(s.spaces[id0])[i] == f;
      assert LivePage(s', id0, i) && FrameOf(s', id0, i) == f;
    }
  }

  lemma DestroyRefines(s: System, s': System, id: nat)
    requires Inv(s) && DestroyStep(s, s', id) && Inv(s')
    ensures Abs(s') == Abs(s) - {id}
  {
  }

  lemma TouchedTable(table: seq<Entry>, addr: Word, writing: bool)
    requires TableOk(table)
    ensures var table' := Touch(PageTable(table), addr, writing).entries;
            && TableOk(table') && |table'| == |table|
            && (forall i :: 0 <= i < |table| ==> table'[i].physicalPage == table[i].physicalPage)
            && forall v :: 0 <= v < 128 * |table| ==> Loc(table', v) == Loc(table, v)
  {
  }

  lemma Range4(addr: int, pages: int)
    requires 0 <= addr && addr % 4 == 0
    ensures addr % 128 <= 124 && (addr < 128 * pages <==> addr + 4 <= 128 * pages)
  {
    assert addr == 4 * (addr / 4) && 128 * pages == 4 * (32 * pages);
  }

  lemma Range2(addr: int, pages: int)
    requires 0 <= addr && addr % 2 == 0
    ensures addr % 128 <= 126 && (addr < 128 * pages <==> addr + 2 <= 128 * pages)
  {
    assert addr == 2 * (addr / 2) && 128 * pages == 2 * (64 * pages);
  }

  lemma AlignedRange(addr: Word, size: nat, pages: nat)
    requires size == 1 || size == 2 || size == 4
    ensures addr % size == 0 <==> !((size == 4 && addr % 4 != 0) || (size == 2 && addr % 2 != 0))
    ensures addr % size == 0 ==> addr % 128 + size <= 128
    ensures addr % size == 0 ==> (addr < 128 * pages <==> addr + size <= 128 * pages)
  {
    if size == 4 {
      assert addr % size == addr % 4;
      if addr % 4 == 0 {
        Range4(addr, pages);
      }
    } else if size == 2 {
      assert addr % size == addr % 2;
      if addr % 2 == 0 {
        Range2(addr, pages);
      }
    } else {
      assert addr % size == addr % 1 == 0;
    }
  }

  lemma LocNext(table: seq<Entry>, addr: int, v: int)
    requires TableOk(table) && 0 <= addr <= v < 128 * |table| && addr % 128 + (v - addr) < 128
    ensures Loc(table, v) == Loc(table, addr) + (v - addr)
  {
    assert v / 128 == addr / 128;
  }

  /** An aligned access stays within its page, and its bytes are neighbours in physical memory. */
  lemma AlignedAccess(table: seq<Entry>, addr: Word, size: nat, writing: bool)
    requires TableOk(table) && (size == 1 || size == 2 || size == 4)
    ensures Translate(PageTable(table), addr, size, writing).Ok? <==> addr % size == 0 && addr + size <= 128 * |table|
    ensures Translate(PageTable(table), addr, size, writing).Ok? ==>
              forall v :: addr <= v < addr + size ==>
                Loc(table, v) == Translate(PageTable(table), addr, size, writing).value + (v - addr)
  {
    hide Phys, Loc, TableOk;
    PhysOfTable(table, addr, writing);
    AlignedRange(addr, size, |table|);
    if Translate(PageTable(table), addr, size, writing).Ok? {
      forall v | addr <= v < addr + size
        ensures Loc(table, v) == Loc(table, addr) + (v - addr)
      {
        LocNext(table, addr, v);
      }
    }
  }

  lemma WriteKeepsInv(s: System, s': System, id: nat, addr: Word, size: nat, value: Word)
    requires Inv(s) && (size == 1 || size == 2 || size == 4) && WriteStep(s, s', id, addr, size, value)
    ensures Inv(s')
    ensures forall id0 :: id0 in s.spaces ==> id0 in s'.spaces && |s'.spaces[id0]| == |s.spaces[id0]|
    ensures forall id0, v :: id0 in s.spaces && 0 <= v < 128 * |s.spaces[id0]| ==>
              Loc(s'.spaces[id0], v) == Loc(s.spaces[id0], v)
  {
    hide Touch, Translate, Loc;
    TouchedTable(s.spaces[id], addr, true);
    forall id0, i
      ensures LivePage(s', id0, i) == LivePage(s, id0, i)
      ensures LivePage(s, id0, i) ==> FrameOf(s', id0, i) == FrameOf(s, id0, i)
    {
    }
  }

  /** The view of process `id0` after a store of process `id`. */
  lemma WriteSeenBy(s: System, s': System, id: nat, addr: Word, size: nat, value: Word, id0: nat)
    requires Inv(s) && (size == 1 || size == 2 || size == 4) && WriteStep(s, s', id, addr, size, value) && Inv(s')
    requires id0 in s.spaces && TableOk(s.spaces[id0]) && TableOk(s.spaces[id]) && addr % size == 0
    requires addr + size <= 128 * |s.spaces[id]|
    ensures id0 in s'.spaces && TableOk(s'.spaces[id0])
    ensures View(s'.mem, s'.spaces[id0]) ==
              if id0 == id then Splice(View(s.mem, s.spaces[id]), addr, EncodeWord(value)[..size])
              else View(s.mem, s.spaces[id0])
  {
    hide Touch, Translate, Loc, EncodeWord, Inv;
    WriteKeepsInv(s, s', id, addr, size, value);
    AlignedAccess(s.spaces[id], addr, size, true);
    TablesOk(s', id0);
    var p := Translate(PageTable(s.spaces[id]), addr, size, true).value;
    var data := EncodeWord(value)[..size];
    forall v | 0 <= v < 128 * |s.spaces[id0]|
      ensures s'.mem[Loc(s.spaces[id0], v)] ==
                if id0 == id && addr <= v < addr + size then data[v - addr] else s.mem[Loc(s.spaces[id0], v)]
    {
      var q := Loc(s.spaces[id0], v);
      if p <= q < p + size {
        assert Loc(s.spaces[id], addr + (q - p)) == q;
        LocsDiffer(s, id0, v, id, addr + (q - p));
      }
    }
  }

  /** A store changes exactly the addressed bytes of the process that issues it, and nothing in any other process. */
  lemma WriteRefines(s: System, s': System, id: nat, addr: Word, size: nat, value: Word)
    requires Inv(s) && (size == 1 || size == 2 || size == 4) && WriteStep(s, s', id, addr, size, value) && Inv(s')
    ensures id in Abs(s)
    ensures Abs(s') == if addr % size == 0 && addr + size <= |Abs(s)[id]|
                       then Abs(s)[id := Splice(Abs(s)[id], addr, EncodeWord(value)[..size])]
                       else Abs(s)
  {
    hide Touch, Translate, EncodeWord, View, Inv;
    TablesOk(s, id);
    AlignedAccess(s.spaces[id], addr, size, true);
    if addr % size == 0 && addr + size <= 128 * |s.spaces[id]| {
      forall id0 | id0 in s.spaces
        ensures id0 in s'.spaces && TableOk(s'.spaces[id0]) && TableOk(s.spaces[id0])
        ensures View(s'.mem, s'.spaces[id0]) ==
                  if id0 == id then Splice(View(s.mem, s.spaces[id]), addr, EncodeWord(value)[..size])
                  else View(s.mem, s.spaces[id0])
      {
        TablesOk(s, id0);
        WriteSeenBy(s, s', id, addr, size, value, id0);
      }
    }
  }

  lemma ReadKeepsInv(s: System, s': System, id: nat, addr: Word, size: nat, reply: Result<Word>)
    requires Inv(s) && (size == 1 || size == 2 || size == 4) && ReadStep(s, s', id, addr, size, reply)
    ensures Inv(s')
    ensures forall id0 :: id0 in s.spaces ==> id0 in s'.spaces && |s'.spaces[id0]| == |s.spaces[id0]|
    ensures forall id0, v :: id0 in s.spaces && 0 <= v < 128 * |s.spaces[id0]| ==>
              Loc(s'.spaces[id0], v) == Loc(s.spaces[id0], v)
  {
    hide Touch, Translate, Loc, IsValueOf;
    TouchedTable(s.spaces[id], addr, false);
    forall id0, i
      ensures LivePage(s', id0, i) == LivePage(s, id0, i)
      ensures LivePage(s, id0, i) ==> FrameOf(s', id0, i) == FrameOf(s, id0, i)
    {
    }
  }

  /** What a process reads, with any width, are the bytes of its own memory; it faults exactly outside of that. */
  lemma ReadRefines(s: System, s': System, id: nat, addr: Word, size: nat, reply: Result<Word>)
    requires Inv(s) && (size == 1 || size == 2 || size == 4) && ReadStep(s, s', id, addr, size, reply) && Inv(s')
    ensures id in Abs(s) && Abs(s') == Abs(s)
    ensures if addr % size == 0 && addr + size <= |Abs(s)[id]|
            then reply.Ok? && IsValueOf(Abs(s)[id][addr..addr + size], reply.value)
            else reply == Fault(AddressError)
  {
    hide Touch, Translate, View, Inv, IsValueOf;
    TablesOk(s, id);
    AlignedAccess(s.spaces[id], addr, size, false);
    ReadKeepsViews(s, s', id, addr, size, reply);
    if Translate(PageTable(s.spaces[id]), addr, size, false).Ok? {
      BytesRead(s.mem, s.spaces[id], addr, size);
    } else {
      OnlyAddressError(s.spaces[id], addr, size, false);
    }
  }

  lemma BytesRead(mem: Memory, table: seq<Entry>, addr: Word, size: nat)
    requires TableOk(table) && (size == 1 || size == 2 || size == 4)
    requires Translate(PageTable(table), addr, size, false).Ok?
    ensures addr + size <= |View(mem, table)|
    ensures var p := Translate(PageTable(table), addr, size, false).value;
            mem[p..p + size] == View(mem, table)[addr..addr + size]
  {
    hide Translate, Loc, TableOk;
    AlignedAccess(table, addr, size, false);
    var p := Translate(PageTable(table), addr, size, false).value;
    forall v | addr <= v < addr + size
      ensures View(mem, table)[v] == mem[p + (v - addr)]
    {
      assert Loc(table, v) == p + (v - addr);
    }
    SameBytes(mem, p, View(mem, table), addr, size);
  }

  lemma SameBytes(a: seq<Byte>, i: nat, b: seq<Byte>, j: nat, n: nat)
    requires i + n <= |a| && j + n <= |b|
    requires forall v :: j <= v < j + n ==> b[v] == a[i + (v - j)]
    ensures a[i..i + n] == b[j..j + n]
  {
    var x, y := a[i..i + n], b[j..j + n];
    forall k | 0 <= k < n
      ensures x[k] == y[k]
    {
      assert y[k] == b[j + k];
    }
  }

  lemma ReadKeepsViews(s: System, s': System, id: nat, addr: Word, size: nat, reply: Result<Word>)
    requires Inv(s) && (size == 1 || size == 2 || size == 4) && ReadStep(s, s', id, addr, size, reply) && Inv(s')
    ensures Abs(s') == Abs(s)
  {
    hide Touch, Translate, Loc, Inv, IsValueOf;
    ReadKeepsInv(s, s', id, addr, size, reply);
    forall id0 | id0 in s.spaces
      ensures id0 in s'.spaces && TableOk(s'.spaces[id0]) && TableOk(s.spaces[id0])
      ensures View(s'.mem, s'.spaces[id0]) == View(s.mem, s.spaces[id0])
    {
      TablesOk(s, id0);
      TablesOk(s', id0);
    }
  }

  /** Under a loaded table no other exception can happen. */
  lemma OnlyAddressError(table: seq<Entry>, addr: Word, size: nat, writing: bool)
    requires TableOk(table) && Translate(PageTable(table), addr, size, writing).Fault?
    ensures Translate(PageTable(table), addr, size, writing) == Fault(AddressError)
  {
    PhysOfTable(table, addr, writing);
    hide Phys;
  }

  /** No two pages of a live process share a frame, which is what the unaligned stores rely on. */
  lemma LiveTableInjective(s: System, id: nat)
    requires Inv(s) && id in s.spaces
    ensures Injective(PageTable(s.spaces[id]))
  {
    hide Phys, Loc;
    var table := s.spaces[id];
    forall u: Word, v: Word |
      u / 128 != v / 128 && Phys(PageTable(table), u, false).Ok? && Phys(PageTable(table), v, false).Ok?
      ensures Phys(PageTable(table), u, false).value / 128 != Phys(PageTable(table), v, false).value / 128
    {
      PhysOfTable(table, u, false);
      PhysOfTable(table, v, false);
      LocFrame(table, u);
      LocFrame(table, v);
      assert LivePage(s, id, u / 128) && LivePage(s, id, v / 128);
    }
  }

  // ----- How many processes fit -----

  /** The pages of all live processes. */
  ghost function Pages(spaces: map<nat, seq<Byte>>): set<(nat, int)> {
    set id, i | id in spaces && 0 <= i < |spaces[id]| / 128 :: (id, i)
  }

  lemma {:induction false} InjectiveCount(m: map<(nat, int), int>)
    requires forall a, b :: a in m && b in m && m[a] == m[b] ==> a == b
    ensures |m.Values| == |m.Keys|
  {
    if m != map[] {
      var a :| a in m;
      var rest := m - {a};
      InjectiveCount(rest);
      assert rest.Keys == m.Keys - {a};
      assert m.Values == rest.Values + {m[a]} by {
        forall x | x in m.Values
          ensures x in rest.Values + {m[a]}
        {
          var b :| b in m && m[b] == x;
          if b != a {
            assert rest[b] == x;
          }
        }
      }
      assert m[a] !in rest.Values;
    }
  }

  /** Every frame is either free or holds exactly one page. */
  lemma FramesAddUp(s: System)
    requires Inv(s)
    ensures |ClearBits(s.bits)| + |Pages(Abs(s))| == 128
  {
    hide Inv, Pages, Abs, LivePage, FrameOf;
    var pages := Pages(Abs(s));
    PagesLive(s);
    var frames := map page: (nat, int) | page in pages :: FrameOf(s, page.0, page.1);
    FramesDiffer(s, frames);
    InjectiveCount(frames);
    assert frames.Keys == pages;
    FramesMarked(s, frames);
    CountBits(s.bits, 128);
    assert ClearBelow(s.bits, 128) == ClearBits(s.bits);
  }

  lemma PagesLive(s: System)
    requires Inv(s)
    ensures |s.bits| == 128
    ensures forall id: nat, i: int :: (id, i) in Pages(Abs(s)) <==> LivePage(s, id, i)
  {
    hide View;
  }

  lemma FramesDiffer(s: System, frames: map<(nat, int), int>)
    requires Inv(s)
    requires forall page :: page in frames ==>
               LivePage(s, page.0, page.1) && frames[page] == FrameOf(s, page.0, page.1)
    ensures forall a, b :: a in frames && b in frames && frames[a] == frames[b] ==> a == b
  {
    hide FrameOf, TableOk;
  }

  lemma FramesMarked(s: System, frames: map<(nat, int), int>)
    requires Inv(s)
    requires forall id: nat, i: int :: LivePage(s, id, i) <==> (id, i) in frames
    requires forall page :: page in frames ==>
               LivePage(s, page.0, page.1) && frames[page] == FrameOf(s, page.0, page.1)
    ensures frames.Values == MarkedBelow(s.bits, 128)
  {
    hide FrameOf, TableOk, LivePage;
    forall f | f in MarkedBelow(s.bits, 128)
      ensures f in frames.Values
    {
      var id, i :| LivePage(s, id, i) && FrameOf(s, id, i) == f;
      assert frames[(id, i)] == f;
    }
    forall f | f in frames.Values
      ensures f in MarkedBelow(s.bits, 128)
    {
      var page :| page in frames && frames[page] == f;
      assert LivePage(s, page.0, page.1);
    }
  }

  // ----- Runs -----

  datatype Op =
    | Load(id: nat, file: seq<Byte>)
    | Destroy(id: nat)
    | Write(id: nat, addr: Word, size: nat, value: Word)
    | Read(id: nat, addr: Word, size: nat)

  /** What the caller learns: whether a load or a store succeeded, or the value that was read. */
  datatype Reply = Flag(ok: bool) | Value(result: Result<Word>)

  /** Load is called once for a new address space, and the other operations act for a live one. */
  predicate Legal(live: set<nat>, op: Op) {
    match op
    case Load(id, file) => id !in live && Loadable(file)
    case Destroy(id) => id in live
    case Write(id, _, size, _) => id in live && (size == 1 || size == 2 || size == 4)
    case Read(id, _, size) => id in live && (size == 1 || size == 2 || size == 4)
  }

  ghost predicate Next(s: System, op: Op, reply: Reply, s': System)
    requires Legal(s.spaces.Keys, op)
  {
    match op
    case Load(id, file) =>
      var n := ParseHeader(file[..52]);
      && reply == Flag(NumPages(n) <= |ClearBits(s.bits)|)
      && if reply.ok then LoadStep(s, s', id, Image(n, file)) else s' == s
    case Destroy(id) => reply == Flag(true) && DestroyStep(s, s', id)
    case Write(id, addr, size, value) =>
      && reply == Flag(Translate(PageTable(s.spaces[id]), addr, size, true).Ok?)
      && WriteStep(s, s', id, addr, size, value)
    case Read(id, addr, size) => reply.Value? && ReadStep(s, s', id, addr, size, reply.result)
  }

  /** The same operations on private memories; a Load fails exactly when the pages of all processes exceed memory, and
      an access exactly when it is unaligned or out of range. */
  ghost predicate SpecNext(a: map<nat, seq<Byte>>, op: Op, reply: Reply, a': map<nat, seq<Byte>>)
    requires Legal(a.Keys, op)
  {
    match op
    case Load(id, file) =>
      var n := ParseHeader(file[..52]);
      && reply == Flag(|Pages(a)| + NumPages(n) <= 128)
      && a' == if reply.ok then a[id := Image(n, file)] else a
    case Destroy(id) => reply == Flag(true) && a' == a - {id}
    case Write(id, addr, size, value) =>
      && reply == Flag(InRange(a[id], addr, size))
      && a' == if reply.ok then a[id := Splice(a[id], addr, EncodeWord(value)[..size])] else a
    case Read(id, addr, size) =>
      && reply.Value?
      && (if InRange(a[id], addr, size) then reply.result.Ok? && IsValueOf(a[id][addr..addr + size], reply.result.value)
          else reply.result == Fault(AddressError))
      && a' == a
  }

  predicate InRange(memory: seq<Byte>, addr: Word, size: nat)
    requires size > 0
  {
    addr % size == 0 && addr + size <= |memory|
  }

  lemma StepRefines(s: System, op: Op, reply: Reply, s': System)
    requires Inv(s) && Legal(s.spaces.Keys, op) && Next(s, op, reply, s')
    ensures Inv(s') && SpecNext(Abs(s), op, reply, Abs(s'))
  {
    hide Inv, View, LoadStep, DestroyStep, WriteStep, ReadStep, Image, EncodeWord, ParseHeader, Pages, Translate,
         IsValueOf;
    match op
    case Load(id, file) =>
      var n := ParseHeader(file[..52]);
      FramesAddUp(s);
      if reply.ok {
        LoadKeepsInv(s, s', id, Image(n, file));
        LoadRefines(s, s', id, Image(n, file));
      }
    case Destroy(id) =>
      DestroyKeepsInv(s, s', id);
      DestroyRefines(s, s', id);
    case Write(id, addr, size, value) =>
      WriteKeepsInv(s, s', id, addr, size, value);
      WriteRefines(s, s', id, addr, size, value);
      TablesOk(s, id);
      AlignedAccess(s.spaces[id], addr, size, true);
    case Read(id, addr, size) =>
      ReadKeepsInv(s, s', id, addr, size, reply.result);
      ReadRefines(s, s', id, addr, size, reply.result);
  }

  ghost predicate Run(ss: seq<System>, ops: seq<Op>, replies: seq<Reply>) {
    && |ss| == |ops| + 1 == |replies| + 1
    && ss[0].bits == seq(128, _ => false) && ss[0].spaces == map[]
    && forall i :: 0 <= i < |ops| ==> Legal(ss[i].spaces.Keys, ops[i]) && Next(ss[i], ops[i], replies[i], ss[i + 1])
  }

  lemma StartOk(s: System)
    requires s.bits == seq(128, _ => false) && s.spaces == map[]
    ensures Inv(s)
  {
  }

  lemma {:induction false} RunKeepsInv(ss: seq<System>, ops: seq<Op>, replies: seq<Reply>, k: nat)
    requires Run(ss, ops, replies) && k < |ss|
    ensures Inv(ss[k])
  {
    hide Inv, Next, SpecNext, Abs, Legal;
    if k == 0 {
      StartOk(ss[0]);
    } else {
      RunKeepsInv(ss, ops, replies, k - 1);
      StepRefines(ss[k - 1], ops[k - 1], replies[k - 1], ss[k]);
    }
  }

  /** Over any run of loads, accesses and exits, the frame bitmap is the disjoint union of the live page tables, and all
      that processes observe is as if every one had a memory to itself. */
  lemma RunRefines(ss: seq<System>, ops: seq<Op>, replies: seq<Reply>)
    requires Run(ss, ops, replies)
    ensures forall k :: 0 <= k < |ss| ==> Inv(ss[k])
    ensures forall k :: 0 <= k < |ops| ==> SpecNext(Abs(ss[k]), ops[k], replies[k], Abs(ss[k + 1]))
  {
    hide Inv, Next, SpecNext, Legal;
    forall k | 0 <= k < |ss|
      ensures Inv(ss[k])
    {
      RunKeepsInv(ss, ops, replies, k);
    }
    forall k | 0 <= k < |ops|
      ensures SpecNext(Abs(ss[k]), ops[k], replies[k], Abs(ss[k + 1]))
    {
      StepRefines(ss[k], ops[k], replies[k], ss[k + 1]);
    }
  }
}
