/** AddrSpace::Load and the destructor, as they update the frame bitmap, the page table and physical memory in place. */
module Loading {
  import opened Bytes
  import opened Common
  import opened Bitmaps
  import opened Machines
  import opened FileHeaders
  import opened OpenFiles
  import opened AddressSpaces

  /** The entry that Load makes for page `i`. */
  function FreshEntry(i: nat, frame: int): Entry {
    Entry(i, frame, true, false, false, false)
  }

  /** The first `n` bytes of the buffer are in place, and the rest of the space is zero. */
  ghost predicate Copied(mem: Memory, table: seq<Entry>, buffer: seq<Byte>, n: int)
    requires TableOk(table)
  {
    forall v :: 0 <= v < 128 * |table| ==> mem[Loc(table, v)] == if v < n && v < |buffer| then buffer[v] else 0
  }

  ghost predicate OthersKept(mem: Memory, mem': Memory, table: seq<Entry>) {
    forall p :: 0 <= p < 16384 && p / 128 !in FramesOf(table) ==> mem'[p] == mem[p]
  }

  ghost predicate Distinct(frames: seq<int>) {
    forall i, j :: 0 <= i < j < |frames| ==> frames[i] != frames[j]
  }

  // ----- Allocating frames -----

  /** One more page: the lowest free frame, cleared. */
  lemma GrowTable(bits0: seq<bool>, bits: seq<bool>, mem0: Memory, mem: Memory, mem': Memory, table: seq<Entry>, f: int)
    requires FirstFit(bits0, bits, FramesOf(table)) && IsFirstClear(bits, f) && |bits| == 128
    requires TableOk(table) && Copied(mem, table, [], 0) && OthersKept(mem0, mem, table)
    requires mem' == Splice(mem, f * 128, seq(128, _ => 0))
    ensures var table' := table + [FreshEntry(|table|, f)];
            && FirstFit(bits0, bits[f := true], FramesOf(table'))
            && TableOk(table') && Copied(mem', table', [], 0) && OthersKept(mem0, mem', table')
    ensures |ClearBits(bits[f := true])| == |ClearBits(bits)| - 1
  {
    var table' := table + [FreshEntry(|table|, f)];
    FirstFitStep(bits0, bits, FramesOf(table), f);
    assert FramesOf(table') == FramesOf(table) + [f];
    hide FirstFit, IsFirstClear;
    forall v | 0 <= v < 128 * |table'|
      ensures mem'[Loc(table', v)] == 0
    {
      if v < 128 * |table| {
        assert Loc(table', v) == Loc(table, v);
        assert mem[Loc(table, v)] == 0;
      }
    }
    forall p | 0 <= p < 16384 && p / 128 !in FramesOf(table')
      ensures mem'[p] == mem0[p]
    {
      assert p / 128 != f && p / 128 !in FramesOf(table);
    }
  }

  // ----- Copying the program -----

  lemma LocsDistinct(table: seq<Entry>, v: int, v': int)
    requires TableOk(table) && Distinct(FramesOf(table))
    requires 0 <= v < 128 * |table| && 0 <= v' < 128 * |table|
    ensures Loc(table, v) == Loc(table, v') ==> v == v'
  {
    LocFrame(table, v);
    LocFrame(table, v');
    assert FramesOf(table)[v / 128] == table[v / 128].physicalPage;
    assert FramesOf(table)[v' / 128] == table[v' / 128].physicalPage;
    hide Loc;
  }

  lemma PageLocs(table: seq<Entry>, i: nat, v: int)
    requires TableOk(table) && i < |table| && i * 128 <= v < (i + 1) * 128
    ensures Loc(table, v) == table[i].physicalPage * 128 + (v - i * 128)
  {
  }

  /** One page of the buffer, or what is left of it, goes to its frame. */
  lemma CopyPage(mem: Memory, mem': Memory, table: seq<Entry>, buffer: seq<Byte>, i: nat, length: nat)
    requires TableOk(table) && Distinct(FramesOf(table)) && i < |table| && |buffer| <= 128 * |table|
    requires Copied(mem, table, buffer, i * 128)
    requires i * 128 + length <= |buffer| && length <= 128 && (length == 128 || i * 128 + length == |buffer|)
    requires mem' == Splice(mem, table[i].physicalPage * 128, buffer[i * 128..i * 128 + length])
    ensures Copied(mem', table, buffer, (i + 1) * 128) && OthersKept(mem, mem', table)
  {
    hide Loc, Distinct;
    var base := table[i].physicalPage * 128;
    assert FramesOf(table)[i] == table[i].physicalPage;
    forall v | 0 <= v < 128 * |table|
      ensures mem'[Loc(table, v)] == if v < (i + 1) * 128 && v < |buffer| then buffer[v] else 0
    {
      var p := Loc(table, v);
      if i * 128 <= v < (i + 1) * 128 {
        PageLocs(table, i, v);
      } else if base <= p < base + length {
        PageLocs(table, i, i * 128 + (p - base));
        LocsDistinct(table, v, i * 128 + (p - base));
      }
    }
  }

  // ----- The address space -----

  /** `bzero` and `memcpy` into a frame. */
  method CopyToFrame(mainMemory: array<Byte>, frame: nat, data: seq<Byte>)
    requires mainMemory.Length == 16384 && frame < 128 && |data| <= 128
    modifies mainMemory
    ensures mainMemory[..] == Splice(old(mainMemory[..]), frame * 128, data)
  {
    forall o | 0 <= o < |data| {
      mainMemory[frame * 128 + o] := data[o];
    }
  }

  class AddrSpace {
    var pageTable: array<Entry>

    constructor ()
      ensures fresh(pageTable) && pageTable.Length == 0
    {
      pageTable := new Entry[0];
    }

    method ReadHeader(executable: OpenFile) returns (noffH: Noff)
      requires executable.Valid() && Loadable(Content(executable.disk.image, executable.hdr.View()))
      ensures noffH == ParseHeader(Content(executable.disk.image, executable.hdr.View())[..52])
    {
      hide ParseHeader, Content;
      var header := new Byte[NOFF_SIZE];
      var _ := executable.ReadAt(header, 0, NOFF_SIZE, 0);
      noffH := ParseHeader(header[..]);
      assert header[..] == Content(executable.disk.image, executable.hdr.View())[..52];
    }

    /** The first loop: each page gets the lowest free frame, which is cleared. */
    method AllocateFrames(frames: Bitmap, mainMemory: array<Byte>, numPages: nat)
      requires frames.Valid() && frames.numBits == 128 && mainMemory.Length == 16384
      requires numPages <= |ClearBits(frames.Bits())|
      modifies this, frames.map_, mainMemory
      ensures fresh(pageTable) && pageTable.Length == numPages
      ensures FirstFit(old(frames.Bits()), frames.Bits(), FramesOf(pageTable[..])) && TableOk(pageTable[..])
      ensures Copied(mainMemory[..], pageTable[..], [], 0)
      ensures OthersKept(old(mainMemory[..]), mainMemory[..], pageTable[..])
      ensures forall i :: 0 <= i < numPages ==> pageTable[i] == FreshEntry(i, pageTable[i].physicalPage)
    {
      hide FirstFit, Copied, OthersKept, TableOk, IsFirstClear;
      pageTable := new Entry[numPages](_ => FreshEntry(0, 0));
      StartTable(frames.Bits(), mainMemory[..]);
      assert pageTable[..0] == [];
      for i := 0 to numPages
        invariant fresh(pageTable) && pageTable.Length == numPages
        invariant FirstFit(old(frames.Bits()), frames.Bits(), FramesOf(pageTable[..i])) && TableOk(pageTable[..i])
        invariant Copied(mainMemory[..], pageTable[..i], [], 0)
        invariant OthersKept(old(mainMemory[..]), mainMemory[..], pageTable[..i])
        invariant |ClearBits(frames.Bits())| >= numPages - i
        invariant forall k :: 0 <= k < i ==> pageTable[k] == FreshEntry(k, pageTable[k].physicalPage)
      {
        ghost var bits, mem, table := frames.Bits(), mainMemory[..], pageTable[..i];
        var clearFrame := frames.FindAndSet();
        FrameInRange(bits, clearFrame);
        pageTable[i] := FreshEntry(i, clearFrame);
        CopyToFrame(mainMemory, clearFrame, seq(128, _ => 0));
        assert pageTable[..i + 1] == table + [FreshEntry(i, clearFrame)];
        GrowTable(old(frames.Bits()), bits, old(mainMemory[..]), mem, mainMemory[..], table, clearFrame);
      }
      assert pageTable[..numPages] == pageTable[..];
    }

    /** One segment of the program file goes into the buffer. */
    method ReadSegment(executable: OpenFile, buffer: array<Byte>, seg: Segment)
      requires executable.Valid() && SegmentFits(seg, buffer.Length)
      modifies buffer
      ensures buffer[..] == Fill(old(buffer[..]), seg, Content(executable.disk.image, executable.hdr.View()))
    {
      hide Content, Fill;
      if seg.size != 0 {
        var _ := executable.ReadAt(buffer, seg.virtualAddr, seg.size, seg.inFileAddr);
      }
    }

    /** The buffer, cleared, with the three segments read into it one after the other. */
    method BuildProgram(executable: OpenFile, noffH: Noff) returns (buffer: array<Byte>)
      requires executable.Valid() && Fits(noffH)
      ensures fresh(buffer) && buffer[..] == Program(noffH, Content(executable.disk.image, executable.hdr.View()))
    {
      hide Content, Fill;
      buffer := new Byte[ActualSize(noffH)];
      for i := 0 to buffer.Length
        invariant forall k :: 0 <= k < i ==> buffer[k] == 0
      {
        buffer[i] := 0;
      }
      assert buffer[..] == seq(ActualSize(noffH), _ => 0);
      ReadSegment(executable, buffer, noffH.code);
      ReadSegment(executable, buffer, noffH.readonlyData);
      ReadSegment(executable, buffer, noffH.initData);
    }

    /** The second loop: the buffer goes to the frames page by page; the last page may be partial. */
    method CopyProgram(mainMemory: array<Byte>, buffer: array<Byte>)
      requires mainMemory.Length == 16384 && buffer != mainMemory && buffer.Length <= 128 * pageTable.Length
      requires TableOk(pageTable[..]) && Distinct(FramesOf(pageTable[..]))
      requires Copied(mainMemory[..], pageTable[..], [], 0)
      modifies mainMemory
      ensures Copied(mainMemory[..], pageTable[..], buffer[..], buffer.Length)
      ensures OthersKept(old(mainMemory[..]), mainMemory[..], pageTable[..])
    {
      hide Distinct;
      var pages := DivRoundUp(buffer.Length, PAGE_SIZE);
      var lastPage := buffer.Length % PAGE_SIZE;
      if lastPage == 0 {
        lastPage := PAGE_SIZE;
      }
      for i := 0 to pages
        invariant Copied(mainMemory[..], pageTable[..], buffer[..], i * 128)
        invariant OthersKept(old(mainMemory[..]), mainMemory[..], pageTable[..])
      {
        ghost var mem := mainMemory[..];
        var length := if i == pages - 1 then lastPage else PAGE_SIZE;
        CopyToFrame(mainMemory, pageTable[i].physicalPage, buffer[i * 128..i * 128 + length]);
        CopyPage(mem, mainMemory[..], pageTable[..], buffer[..], i, length);
      }
    }

    /** Fails exactly when the program needs more frames than are free; then no frame changes and the space is left with
        no page, `numPages` being the length of the table.  Otherwise the space holds the image that the file describes,
        in the lowest free frames, and no other frame has changed. */
    method Load(executable: OpenFile, frames: Bitmap, mainMemory: array<Byte>) returns (ok: bool)
      requires executable.Valid() && Loadable(Content(executable.disk.image, executable.hdr.View()))
      requires frames.Valid() && frames.numBits == 128 && mainMemory.Length == 16384
      modifies this, frames.map_, mainMemory
      ensures var file := Content(executable.disk.image, old(executable.hdr.View()));
              var n := ParseHeader(file[..52]);
              && ok == (NumPages(n) <= |ClearBits(old(frames.Bits()))|)
              && (ok ==> Loaded(old(frames.Bits()), frames.Bits(), old(mainMemory[..]), mainMemory[..], pageTable[..],
                                Image(n, file)))
      ensures ok ==> fresh(pageTable) &&
                     forall i :: 0 <= i < pageTable.Length ==> pageTable[i] == FreshEntry(i, pageTable[i].physicalPage)
      ensures !ok ==> frames.Bits() == old(frames.Bits()) && mainMemory[..] == old(mainMemory[..]) &&
                      pageTable.Length == 0
    {
      hide Content, ParseHeader, FirstFit, Copied, OthersKept, TableOk, Loaded, Image, Program, FramesOf;
      var noffH := ReadHeader(executable);
      ghost var file := Content(executable.disk.image, executable.hdr.View());
      var numPages := DivRoundUp(SpaceSize(noffH), PAGE_SIZE);
      var numClear := frames.NumClear();
      if numPages > numClear {
        pageTable := new Entry[0];
        return false;
      }
      AllocateFrames(frames, mainMemory, numPages);
      var buffer := BuildProgram(executable, noffH);
      ghost var mem := mainMemory[..];
      TakenAreDistinct(old(frames.Bits()), frames.Bits(), FramesOf(pageTable[..]));
      CopyProgram(mainMemory, buffer);
      LoadIsDone(old(frames.Bits()), frames.Bits(), old(mainMemory[..]), mem, mainMemory[..], pageTable[..],
                 noffH, file);
      ok := true;
    }

    /** The destructor gives every frame back. */
    method Release(frames: Bitmap)
      requires frames.Valid() && frames.numBits == 128 && TableOk(pageTable[..])
      modifies frames.map_
      ensures forall f :: 0 <= f < 128 ==>
                frames.Bits()[f] == (old(frames.Bits())[f] && f !in FramesOf(pageTable[..]))
    {
      for i := 0 to pageTable.Length
        invariant forall f :: 0 <= f < 128 ==>
                    frames.Bits()[f] == (old(frames.Bits())[f] && f !in FramesOf(pageTable[..])[..i])
      {
        frames.Clear(pageTable[i].physicalPage);
        assert FramesOf(pageTable[..])[..i + 1] == FramesOf(pageTable[..])[..i] + [pageTable[i].physicalPage];
      }
      assert FramesOf(pageTable[..])[..pageTable.Length] == FramesOf(pageTable[..]);
    }

    /** The translation used by system calls, with its effect on the use and dirty bits; `None` when the ASSERT on the
        address fails. */
    method Translate(vaddr: Word, isReadWrite: bool) returns (r: Option<Result<nat>>)
      modifies pageTable
      ensures r == SpaceTranslate(old(pageTable[..]), vaddr, isReadWrite)
      ensures r.Some? && r.value.Fault? ==> pageTable[..] == old(pageTable[..])
      ensures r.None? || r.value.Ok? ==>
                var e := old(pageTable[vaddr / 128]);
                pageTable[..] == old(pageTable[..])[vaddr / 128 := e.(use := true, dirty := e.dirty || isReadWrite)]
    {
      var vpn, offset := vaddr / PAGE_SIZE, vaddr % PAGE_SIZE;
      if vpn >= pageTable.Length {
        return Some(Fault(AddressError));
      }
      var pte := pageTable[vpn];
      if isReadWrite && pte.readOnly {
        return Some(Fault(ReadOnly));
      }
      if pte.physicalPage >= NUM_PHYS_PAGES {
        return Some(Fault(BusError));
      }
      pageTable[vpn] := pte.(use := true);
      if isReadWrite {
        pageTable[vpn] := pageTable[vpn].(dirty := true);
      }
      if pte.physicalPage < 0 {
        return None;
      }
      return Some(Ok(pte.physicalPage * PAGE_SIZE + offset));
    }
  }

  lemma TakenAreDistinct(bits: seq<bool>, bits': seq<bool>, taken: seq<int>)
    requires FirstFit(bits, bits', taken)
    ensures Distinct(taken)
  {
  }

  /** A buffer in place and zeros after it are the image of the program. */
  lemma LoadIsDone(bits: seq<bool>, bits': seq<bool>, mem0: Memory, mem: Memory, mem': Memory, table: seq<Entry>,
                   n: Noff, file: seq<Byte>)
    requires FirstFit(bits, bits', FramesOf(table)) && TableOk(table) && Untouched(table)
    requires Fits(n) && |table| == NumPages(n)
    requires OthersKept(mem0, mem, table) && OthersKept(mem, mem', table)
    requires Copied(mem', table, Program(n, file), ActualSize(n))
    ensures Loaded(bits, bits', mem0, mem', table, Image(n, file))
  {
  }

  lemma StartTable(bits: seq<bool>, mem: Memory)
    ensures FirstFit(bits, bits, FramesOf([])) && TableOk([]) && Copied(mem, [], [], 0) && OthersKept(mem, mem, [])
  {
  }

  lemma FrameInRange(bits: seq<bool>, f: int)
    ensures f == -1 && ClearBits(bits) == {} ==> |ClearBits(bits)| == 0
    ensures IsFirstClear(bits, f) ==> 0 <= f < |bits|
  {
  }
}
