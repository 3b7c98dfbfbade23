/** Runs of the file system with open handles refine a machine whose state is just a map from
    nine-character names to byte strings, and the name and position behind each handle. */
module FileSystemRefinement {
  import opened Bytes
  import opened Disks
  import opened FileHeaders
  import opened OpenFiles
  import opened PersistentBitmaps
  import opened Directories
  import opened FileSystemModel
  import opened FileSystemSteps
  import opened FileSystemFormat
  import opened FileSystemRuns

  /** An open file: the header is cached when it is opened. `live` until the file is removed. */
  datatype Handle = Handle(sector: int, header: Header, live: bool, seek: nat)

  datatype World = World(disk: DiskImage, handles: seq<Handle>)

  datatype Op =
    | OpCreate(name: CString, size: nat)
    | OpRemove(name: CString)
    | OpOpen(name: CString)
    | OpSeek(handle: nat, position: nat)
    | OpWriteAt(handle: nat, from: seq<Byte>, numBytes: int, position: nat)
    | OpReadAt(handle: nat, numBytes: int, position: nat)
    | OpWrite(handle: nat, from: seq<Byte>, numBytes: int)
    | OpRead(handle: nat, numBytes: int)
    | OpReboot

  datatype Reply = Flag(ok: bool) | Count(n: nat) | Data(bytes: seq<Byte>)

  // ----- The implementation's runs -----

  ghost predicate HandleOk(d: DiskImage, h: Handle)
    requires Inv(d)
  {
    h.live ==> h.sector in Heads(Table(d)) && h.sector != 0 && h.sector != 1 && h.header == HeaderAt(d, h.sector)
  }

  ghost predicate WorldInv(w: World) {
    Inv(w.disk) && forall i :: 0 <= i < |w.handles| ==> HandleOk(w.disk, w.handles[i])
  }

  /** Removing a file leaves its handles dangling: using them is not part of any run. */
  function Invalidate(hs: seq<Handle>, sector: int): (r: seq<Handle>)
    ensures |r| == |hs|
  {
    seq(|hs|, i requires 0 <= i < |hs| => if hs[i].sector == sector then hs[i].(live := false) else hs[i])
  }

  ghost function SectorNamed(d: DiskImage, key: CString): int
    requires Inv(d) && key in Names(Table(d))
  {
    Table(d)[SlotOf(Table(d), key)].sector
  }

  /** OpenFile::WriteAt through a handle: `n` bytes reach the disk. */
  ghost predicate WritesAt(w: World, h: nat, from: seq<Byte>, numBytes: int, position: nat, n: nat, d': DiskImage)
    requires WorldInv(w)
  {
    && h < |w.handles| && w.handles[h].live && HandleOk(w.disk, w.handles[h])
    && n == Clip(w.handles[h].header.numBytes, numBytes, position) <= |from|
    && Written(w.disk, d', w.handles[h].header, position, from[..n])
  }

  ghost predicate ReadsAt(w: World, h: nat, numBytes: int, position: nat, bytes: seq<Byte>)
    requires WorldInv(w)
  {
    && h < |w.handles| && w.handles[h].live && HandleOk(w.disk, w.handles[h])
    && bytes == Slice(Content(w.disk, w.handles[h].header), numBytes, position)
  }

  function Seeked(hs: seq<Handle>, h: nat, position: nat): seq<Handle>
    requires h < |hs|
  {
    hs[h := hs[h].(seek := position)]
  }

  ghost predicate Next(w: World, op: Op, reply: Reply, w': World)
    requires WorldInv(w)
  {
    match op
    case OpCreate(name, size) =>
      && reply.Flag? && (size <= MAX_FILE_SIZE || !reply.ok)
      && CreateStep(w.disk, w'.disk, name, size, reply.ok)
      && w'.handles == w.handles
    case OpRemove(name) =>
      && reply.Flag?
      && RemoveStep(w.disk, w'.disk, name, reply.ok)
      && w'.handles == if Key(name) in Names(Table(w.disk)) then Invalidate(w.handles, SectorNamed(w.disk, Key(name)))
                       else w.handles
    case OpOpen(name) =>
      && w'.disk == w.disk
      && if Key(name) in Names(Table(w.disk)) then
           var s := SectorNamed(w.disk, Key(name));
           reply == Flag(true) && 0 <= s < NUM_SECTORS
           && w'.handles == w.handles + [Handle(s, HeaderAt(w.disk, s), true, 0)]
         else
           reply == Flag(false) && w'.handles == w.handles
    case OpSeek(h, position) =>
      h < |w.handles| && reply == Flag(true) && w' == World(w.disk, Seeked(w.handles, h, position))
    case OpWriteAt(h, from, numBytes, position) =>
      reply.Count? && WritesAt(w, h, from, numBytes, position, reply.n, w'.disk) && w'.handles == w.handles
    case OpReadAt(h, numBytes, position) =>
      reply.Data? && ReadsAt(w, h, numBytes, position, reply.bytes) && w' == w
    case OpWrite(h, from, numBytes) =>
      && h < |w.handles| && reply.Count?
      && WritesAt(w, h, from, numBytes, w.handles[h].seek, reply.n, w'.disk)
      && w'.handles == Seeked(w.handles, h, w.handles[h].seek + reply.n)
    case OpRead(h, numBytes) =>
      && h < |w.handles| && reply.Data?
      && ReadsAt(w, h, numBytes, w.handles[h].seek, reply.bytes)
      && w' == World(w.disk, Seeked(w.handles, h, w.handles[h].seek + |reply.bytes|))
    case OpReboot =>
      reply == Flag(true) && w' == World(w.disk, [])
  }

  // ----- The specification -----

  datatype Target = Gone | File(key: CString)

  datatype Opened = Opened(target: Target, seek: nat)

  datatype Spec = Spec(files: map<CString, seq<Byte>>, open: seq<Opened>)

  function Forget(open: seq<Opened>, key: CString): (r: seq<Opened>)
    ensures |r| == |open|
  {
    seq(|open|, i requires 0 <= i < |open| => if open[i].target == File(key) then open[i].(target := Gone) else open[i])
  }

  /** The handle is on a file. */
  predicate OnFile(a: Spec, h: nat) {
    h < |a.open| && a.open[h].target.File? && a.open[h].target.key in a.files
  }

  function FileBehind(a: Spec, h: nat): seq<Byte>
    requires OnFile(a, h)
  {
    a.files[a.open[h].target.key]
  }

  /** The files after the clipped request has been spliced into one of them. */
  function Spliced(a: Spec, h: nat, from: seq<Byte>, numBytes: int, position: nat): map<CString, seq<Byte>>
    requires OnFile(a, h) && Clip(|FileBehind(a, h)|, numBytes, position) <= |from|
  {
    var n := Clip(|FileBehind(a, h)|, numBytes, position);
    if n == 0 then a.files
    else a.files[a.open[h].target.key := Splice(FileBehind(a, h), position, from[..n])]
  }

  function Moved(open: seq<Opened>, h: nat, position: nat): seq<Opened>
    requires h < |open|
  {
    open[h := open[h].(seek := position)]
  }

  ghost predicate SpecNext(a: Spec, op: Op, reply: Reply, a': Spec) {
    match op
    case OpCreate(name, size) =>
      && reply == Flag(size <= MAX_FILE_SIZE && Key(name) !in a.files && |a.files| < NUM_DIR_ENTRIES)
      && a'.open == a.open
      && if reply.ok then exists bytes: seq<Byte> :: |bytes| == size && a'.files == a.files[Key(name) := bytes]
         else a'.files == a.files
    case OpRemove(name) =>
      && reply == Flag(Key(name) in a.files)
      && a' == Spec(a.files - {Key(name)}, Forget(a.open, Key(name)))
    case OpOpen(name) =>
      && reply == Flag(Key(name) in a.files)
      && a' == if reply.ok then Spec(a.files, a.open + [Opened(File(Key(name)), 0)]) else a
    case OpSeek(h, position) =>
      h < |a.open| && reply == Flag(true) && a' == Spec(a.files, Moved(a.open, h, position))
    case OpWriteAt(h, from, numBytes, position) =>
      && OnFile(a, h)
      && var n := Clip(|FileBehind(a, h)|, numBytes, position);
      && reply == Count(n) && n <= |from|
      && a' == Spec(Spliced(a, h, from, numBytes, position), a.open)
    case OpReadAt(h, numBytes, position) =>
      OnFile(a, h) && reply == Data(Slice(FileBehind(a, h), numBytes, position)) && a' == a
    case OpWrite(h, from, numBytes) =>
      && OnFile(a, h)
      && var position := a.open[h].seek;
      && var n := Clip(|FileBehind(a, h)|, numBytes, position);
      && reply == Count(n) && n <= |from|
      && a' == Spec(Spliced(a, h, from, numBytes, position), Moved(a.open, h, position + n))
    case OpRead(h, numBytes) =>
      && OnFile(a, h)
      && var position := a.open[h].seek;
      && reply == Data(Slice(FileBehind(a, h), numBytes, position))
      && a' == Spec(a.files, Moved(a.open, h, position + Clip(|FileBehind(a, h)|, numBytes, position)))
    case OpReboot =>
      reply == Flag(true) && a' == Spec(a.files, [])
  }

  // ----- The abstraction -----

  ghost function SlotWith(t: seq<DirectoryEntry>, sector: int): (i: int)
    requires sector in Heads(t) && sector != 0 && sector != 1
    ensures InUse(t, i) && t[i].sector == sector
  {
    var i :| 0 <= i < |t| && t[i].inUse && t[i].sector == sector;
    i
  }

  ghost function TargetOf(d: DiskImage, h: Handle): Target
    requires Inv(d) && HandleOk(d, h)
  {
    if h.live then File(StoredKey(Table(d)[SlotWith(Table(d), h.sector)].name)) else Gone
  }

  ghost function Abs(w: World): (a: Spec)
    requires WorldInv(w)
    ensures |a.open| == |w.handles|
  {
    Spec(Files(w.disk),
         seq(|w.handles|, i requires 0 <= i < |w.handles| => Opened(TargetOf(w.disk, w.handles[i]), w.handles[i].seek)))
  }

  // ----- Handles survive the operations -----

  lemma CreateKeepsHandle(d: DiskImage, d': DiskImage, key: CString, size: nat, h: Handle)
    requires Inv(d) && Inv(d') && HandleOk(d, h) && Created(d, d', key, size)
    ensures HandleOk(d', h) && TargetOf(d', h) == TargetOf(d, h)
  {
    hide Content, EncodeTable, DecodeTable, StoredBits, DecodeHeader, EncodeHeader, StoredKey;
    var c :| CreatedBy(d, d', key, size, c);
    CreateWrites(d, d', key, size, c);
    if h.live {
      CreateKeepsHeaders(d, d', key, size, c, h.sector);
      var i := SlotWith(Table(d), h.sector);
      assert Table(d')[i] == Table(d)[i] && InUse(Table(d'), i);
    }
  }

  lemma RemoveKeepsHandle(d: DiskImage, d': DiskImage, key: CString, h: Handle, s: int)
    requires Inv(d) && Inv(d') && HandleOk(d, h) && Removed(d, d', key)
    requires key in Names(Table(d)) && s == SectorNamed(d, key)
    ensures h.sector != s ==> HandleOk(d', h) && TargetOf(d', h) == TargetOf(d, h) && TargetOf(d, h) != File(key)
    ensures h.sector == s ==> HandleOk(d', h.(live := false)) && (h.live ==> TargetOf(d, h) == File(key))
  {
    hide Content, EncodeTable, DecodeTable, StoredBits, DecodeHeader, StoredKey;
    var r :| RemovedBy(d, d', key, r);
    RemoveWrites(d, d', key, r);
    var t := Table(d);
    var k := SlotOf(t, key);
    assert InUse(t, r.slot) && InUse(t, k);
    if h.live {
      var i := SlotWith(t, h.sector);
      OtherFilesKept(d, d', h.sector);
      if h.sector != s {
        assert InUse(Table(d'), i) && Table(d')[i] == t[i];
      }
    }
  }

  lemma SameTargetWithSameTable(d: DiskImage, d': DiskImage, h: Handle)
    requires Inv(d) && Inv(d') && HandleOk(d, h) && Table(d') == Table(d)
    requires forall o :: o in Heads(Table(d)) ==> HeaderAt(d', o) == HeaderAt(d, o)
    ensures HandleOk(d', h) && TargetOf(d', h) == TargetOf(d, h)
  {
  }

  // ----- Each step refines a step of the specification -----

  lemma CreateIsSpec(w: World, op: Op, reply: Reply, w': World)
    requires WorldInv(w) && Next(w, op, reply, w') && op.OpCreate?
    ensures WorldInv(w') && SpecNext(Abs(w), op, reply, Abs(w'))
  {
    hide Inv, Files, Key, Created, HandleOk, TargetOf;
    CreateRefines(w.disk, w'.disk, op.name, op.size, reply.ok);
    if reply.ok {
      forall i | 0 <= i < |w.handles|
        ensures HandleOk(w'.disk, w.handles[i]) && TargetOf(w'.disk, w.handles[i]) == TargetOf(w.disk, w.handles[i])
      {
        CreateKeepsHandle(w.disk, w'.disk, Key(op.name), op.size, w.handles[i]);
      }
      assert Abs(w').open == Abs(w).open;
      assert |Files(w'.disk)[Key(op.name)]| == op.size;
    } else {
      assert w' == w;
    }
  }

  lemma RemoveIsSpec(w: World, op: Op, reply: Reply, w': World)
    requires WorldInv(w) && Next(w, op, reply, w') && op.OpRemove?
    ensures WorldInv(w') && SpecNext(Abs(w), op, reply, Abs(w'))
  {
    hide Inv, Files, Key, Removed, HandleOk, TargetOf;
    var key := Key(op.name);
    RemoveRefines(w.disk, w'.disk, op.name, reply.ok);
    FilesKeys(w.disk, key);
    NamesAreInTable(Table(w.disk), key);
    if reply.ok {
      var s := SectorNamed(w.disk, key);
      forall i | 0 <= i < |w.handles|
        ensures HandleOk(w'.disk, w'.handles[i])
        ensures TargetOf(w'.disk, w'.handles[i]) ==
                if TargetOf(w.disk, w.handles[i]) == File(key) then Gone else TargetOf(w.disk, w.handles[i])
      {
        RemovedTarget(w.disk, w'.disk, key, w.handles[i], s);
      }
      assert Abs(w').open == Forget(Abs(w).open, key);
    } else {
      assert w' == w;
      assert Files(w.disk) - {key} == Files(w.disk);
      NoTarget(w, key);
      assert Forget(Abs(w).open, key) == Abs(w).open;
    }
  }

  lemma RemovedTarget(d: DiskImage, d': DiskImage, key: CString, h: Handle, s: int)
    requires Inv(d) && Inv(d') && HandleOk(d, h) && Removed(d, d', key)
    requires key in Names(Table(d)) && s == SectorNamed(d, key)
    ensures var h' := if h.sector == s then h.(live := false) else h;
            HandleOk(d', h') && TargetOf(d', h') == if TargetOf(d, h) == File(key) then Gone else TargetOf(d, h)
  {
    hide Inv, Removed, StoredKey;
    RemoveKeepsHandle(d, d', key, h, s);
  }

  /** No live handle refers to a name that is not in the directory. */
  lemma NoTarget(w: World, key: CString)
    requires WorldInv(w) && key !in Names(Table(w.disk))
    ensures forall i :: 0 <= i < |w.handles| ==> TargetOf(w.disk, w.handles[i]) != File(key)
  {
  }

  lemma OpenIsSpec(w: World, op: Op, reply: Reply, w': World)
    requires WorldInv(w) && Next(w, op, reply, w') && op.OpOpen?
    ensures WorldInv(w') && SpecNext(Abs(w), op, reply, Abs(w'))
  {
    hide DecodeTable, StoredBits, Content, DecodeHeader, StoredKey, Key, Files;
    var d, key := w.disk, Key(op.name);
    FilesKeys(d, key);
    NamesAreInTable(Table(d), key);
    if key in Names(Table(d)) {
      var i := SlotOf(Table(d), key);
      var s := SectorNamed(d, key);
      var h := Handle(s, HeaderAt(d, s), true, 0);
      assert InUse(Table(d), i) && s in Heads(Table(d));
      assert HandleOk(d, h);
      assert InUse(Table(d), SlotWith(Table(d), s));
      assert TargetOf(d, h) == File(key);
      assert WorldInv(w');
      assert Abs(w').open == Abs(w).open + [Opened(File(key), 0)];
    }
  }

  /** A write through a handle, seen on the map of files; no handle notices. */
  lemma WriteThrough(w: World, h: nat, from: seq<Byte>, numBytes: int, position: nat, n: nat, d': DiskImage)
    requires WorldInv(w) && WritesAt(w, h, from, numBytes, position, n, d')
    ensures Inv(d')
    ensures forall i :: 0 <= i < |w.handles| ==>
              HandleOk(d', w.handles[i]) && TargetOf(d', w.handles[i]) == TargetOf(w.disk, w.handles[i])
    ensures OnFile(Abs(w), h) && n == Clip(|FileBehind(Abs(w), h)|, numBytes, position)
    ensures Files(d') == Spliced(Abs(w), h, from, numBytes, position)
  {
    hide DecodeTable, StoredBits, Content, DecodeHeader, StoredKey, Files;
    var handle := w.handles[h];
    var slot := SlotWith(Table(w.disk), handle.sector);
    WriteKeeps(w.disk, d', handle.sector, position, from[..n]);
    WriteEffect(w.disk, d', slot, position, from[..n]);
    FilesAt(w.disk, slot);
    forall i | 0 <= i < |w.handles|
      ensures HandleOk(d', w.handles[i]) && TargetOf(d', w.handles[i]) == TargetOf(w.disk, w.handles[i])
    {
      SameTargetWithSameTable(w.disk, d', w.handles[i]);
    }
  }

  /** Changing a seek position changes no target. */
  lemma SeekOnly(w: World, d': DiskImage, h: nat, position: nat)
    requires WorldInv(w) && h < |w.handles| && Inv(d')
    requires forall i :: 0 <= i < |w.handles| ==>
               HandleOk(d', w.handles[i]) && TargetOf(d', w.handles[i]) == TargetOf(w.disk, w.handles[i])
    ensures WorldInv(World(d', Seeked(w.handles, h, position)))
    ensures Abs(World(d', Seeked(w.handles, h, position))) == Spec(Files(d'), Moved(Abs(w).open, h, position))
    ensures WorldInv(World(d', w.handles)) && Abs(World(d', w.handles)) == Spec(Files(d'), Abs(w).open)
  {
    hide Inv, Files;
    var hs := Seeked(w.handles, h, position);
    forall i | 0 <= i < |hs|
      ensures HandleOk(d', hs[i]) && TargetOf(d', hs[i]) == TargetOf(d', w.handles[i])
    {
    }
    assert Abs(World(d', hs)).open == Moved(Abs(w).open, h, position);
    assert Abs(World(d', w.handles)).open == Abs(w).open;
  }

  lemma WriteIsSpec(w: World, op: Op, reply: Reply, w': World)
    requires WorldInv(w) && Next(w, op, reply, w') && (op.OpWrite? || op.OpWriteAt?)
    ensures WorldInv(w') && SpecNext(Abs(w), op, reply, Abs(w'))
  {
    hide WorldInv, Inv, Abs, HandleOk, TargetOf, Files, WritesAt, OnFile, FileBehind, Spliced;
    var position := if op.OpWriteAt? then op.position else w.handles[op.handle].seek;
    WriteThrough(w, op.handle, op.from, op.numBytes, position, reply.n, w'.disk);
    WritingHandle(w, op.handle, op.from, op.numBytes, position, reply.n, w'.disk);
    SeekOnly(w, w'.disk, op.handle, position + reply.n);
  }

  lemma WritingHandle(w: World, h: nat, from: seq<Byte>, numBytes: int, position: nat, n: nat, d': DiskImage)
    requires WorldInv(w) && WritesAt(w, h, from, numBytes, position, n, d')
    ensures h < |w.handles| == |Abs(w).open| && n <= |from| && Abs(w).open[h].seek == w.handles[h].seek
  {
  }

  lemma ReadThrough(w: World, h: nat, numBytes: int, position: nat, bytes: seq<Byte>)
    requires WorldInv(w) && ReadsAt(w, h, numBytes, position, bytes)
    ensures h < |w.handles| && OnFile(Abs(w), h) && bytes == Slice(FileBehind(Abs(w), h), numBytes, position)
    ensures |bytes| == Clip(|FileBehind(Abs(w), h)|, numBytes, position) && Abs(w).open[h].seek == w.handles[h].seek
    ensures Inv(w.disk) && forall i :: 0 <= i < |w.handles| ==> HandleOk(w.disk, w.handles[i])
  {
    hide DecodeTable, StoredBits, Content, DecodeHeader, StoredKey, Files;
    FilesAt(w.disk, SlotWith(Table(w.disk), w.handles[h].sector));
  }

  lemma ReadIsSpec(w: World, op: Op, reply: Reply, w': World)
    requires WorldInv(w) && Next(w, op, reply, w') && (op.OpRead? || op.OpReadAt?)
    ensures WorldInv(w') && SpecNext(Abs(w), op, reply, Abs(w'))
  {
    hide Inv, HandleOk, TargetOf, Files, ReadsAt, OnFile, FileBehind, Slice;
    var position := if op.OpReadAt? then op.position else w.handles[op.handle].seek;
    ReadThrough(w, op.handle, op.numBytes, position, reply.bytes);
    SeekOnly(w, w.disk, op.handle, position + |reply.bytes|);
  }

  lemma SeekIsSpec(w: World, op: Op, reply: Reply, w': World)
    requires WorldInv(w) && Next(w, op, reply, w') && op.OpSeek?
    ensures WorldInv(w') && SpecNext(Abs(w), op, reply, Abs(w'))
  {
    hide Inv, HandleOk, TargetOf, Files;
    SeekOnly(w, w.disk, op.handle, op.position);
  }

  /** Every step of the file system is a step of the specification. */
  lemma StepRefines(w: World, op: Op, reply: Reply, w': World)
    requires WorldInv(w) && Next(w, op, reply, w')
    ensures WorldInv(w') && SpecNext(Abs(w), op, reply, Abs(w'))
  {
    hide Inv, HandleOk, TargetOf, Files;
    match op
    case OpCreate(_, _) => CreateIsSpec(w, op, reply, w');
    case OpRemove(_) => RemoveIsSpec(w, op, reply, w');
    case OpOpen(_) => OpenIsSpec(w, op, reply, w');
    case OpSeek(_, _) => SeekIsSpec(w, op, reply, w');
    case OpWriteAt(_, _, _, _) => WriteIsSpec(w, op, reply, w');
    case OpReadAt(_, _, _) => ReadIsSpec(w, op, reply, w');
    case OpWrite(_, _, _) => WriteIsSpec(w, op, reply, w');
    case OpRead(_, _) => ReadIsSpec(w, op, reply, w');
    case OpReboot =>
  }

  // ----- Whole runs -----

  /** A run: format any disk, then any operations in any order. */
  ghost predicate Run(ws: seq<World>, ops: seq<Op>, replies: seq<Reply>) {
    && |ws| == |ops| + 1 == |replies| + 1
    && ws[0].handles == []
    && (exists d0, f :: FormattedBy(d0, ws[0].disk, f))
    && forall i :: 0 <= i < |ops| ==> WorldInv(ws[i]) ==> Next(ws[i], ops[i], replies[i], ws[i + 1])
  }

  /** In every state of every run the invariant holds. */
  lemma {:induction false} RunKeepsInv(ws: seq<World>, ops: seq<Op>, replies: seq<Reply>, n: nat)
    requires Run(ws, ops, replies) && n <= |ops|
    ensures WorldInv(ws[n])
  {
    hide Inv, Next, FormattedBy, HandleOk;
    if n == 0 {
      var d0, f :| FormattedBy(d0, ws[0].disk, f);
      FormatEffect(d0, ws[0].disk, f);
    } else {
      RunKeepsInv(ws, ops, replies, n - 1);
      StepRefines(ws[n - 1], ops[n - 1], replies[n - 1], ws[n]);
    }
  }

  /** Every run, seen through the abstraction, is a run of the specification from the empty map. */
  lemma RunRefines(ws: seq<World>, ops: seq<Op>, replies: seq<Reply>)
    requires Run(ws, ops, replies)
    ensures forall i :: 0 <= i < |ws| ==> WorldInv(ws[i])
    ensures Abs(ws[0]) == Spec(map[], [])
    ensures forall i :: 0 <= i < |ops| ==> SpecNext(Abs(ws[i]), ops[i], replies[i], Abs(ws[i + 1]))
  {
    hide Inv, Next, FormattedBy, HandleOk, Files, TargetOf, SpecNext;
    forall i | 0 <= i < |ws|
      ensures WorldInv(ws[i])
    {
      RunKeepsInv(ws, ops, replies, i);
    }
    var d0, f :| FormattedBy(d0, ws[0].disk, f);
    FormatEffect(d0, ws[0].disk, f);
    forall i | 0 <= i < |ops|
      ensures SpecNext(Abs(ws[i]), ops[i], replies[i], Abs(ws[i + 1]))
    {
      StepRefines(ws[i], ops[i], replies[i], ws[i + 1]);
    }
  }
}
