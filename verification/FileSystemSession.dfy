/** The file system together with all the files that are open on it: every call of a method is a step of a run, so what
    is proved of runs holds of the objects. */
module FileSystemSessions {
  import opened Bytes
  import opened Common
  import opened Disks
  import opened FileHeaders
  import opened OpenFiles
  import opened Directories
  import opened FileSystemModel
  import opened FileSystemSteps
  import opened FileSystemRuns
  import opened FileSystemRefinement
  import opened FileSystems

  // ----- The effects of the calls are steps -----

  lemma WorldFacts(w: World)
    requires WorldInv(w)
    ensures Inv(w.disk) && Booted(w.disk)
    ensures forall i :: 0 <= i < |w.handles| && w.handles[i].live ==> WellFormed(w.handles[i].header)
  {
    hide DecodeHeader, DecodeTable, Content;
    assert forall i :: 0 <= i < |w.handles| ==> HandleOk(w.disk, w.handles[i]);
  }

  lemma CreateIsStep(w: World, d': DiskImage, name: CString, size: nat, ok: bool)
    requires WorldInv(w) && Inv(w.disk) && CreateStep(w.disk, d', name, size, ok) && (size <= MAX_FILE_SIZE || !ok)
    ensures var w' := World(d', w.handles); Next(w, OpCreate(name, size), Flag(ok), w') && WorldInv(w')
  {
    hide WorldInv, Inv, CreateStep;
    StepRefines(w, OpCreate(name, size), Flag(ok), World(d', w.handles));
  }

  lemma RemoveIsStep(w: World, d': DiskImage, name: CString, ok: bool) returns (w': World)
    requires WorldInv(w) && Inv(w.disk) && RemoveStep(w.disk, d', name, ok)
    ensures Next(w, OpRemove(name), Flag(ok), w') && WorldInv(w') && w'.disk == d' && |w'.handles| == |w.handles|
    ensures forall i :: 0 <= i < |w.handles| ==> w'.handles[i] == w.handles[i].(live := w'.handles[i].live)
  {
    hide WorldInv, Inv, RemoveStep, Key, SpecNext, Abs, SectorNamed, Names;
    WorldFacts(w);
    w' := World(d', if Key(name) in Names(Table(w.disk)) then Invalidate(w.handles, SectorNamed(w.disk, Key(name)))
                    else w.handles);
    StepRefines(w, OpRemove(name), Flag(ok), w');
  }

  lemma OpenIsStep(w: World, name: CString, ok: bool) returns (w': World)
    requires WorldInv(w) && Inv(w.disk) && ok == (Key(name) in Names(Table(w.disk)))
    ensures Next(w, OpOpen(name), Flag(ok), w') && WorldInv(w') && w'.disk == w.disk
    ensures !ok ==> w' == w
    ensures ok ==> var s := SectorNamed(w.disk, Key(name));
                   0 <= s < NUM_SECTORS && w'.handles == w.handles + [Handle(s, HeaderAt(w.disk, s), true, 0)]
  {
    hide DecodeHeader, DecodeTable, Content, Key, StoredKey, HandleOk;
    w' := w;
    if ok {
      var s := SectorNamed(w.disk, Key(name));
      assert InUse(Table(w.disk), SlotOf(Table(w.disk), Key(name))) && s in Heads(Table(w.disk));
      w' := World(w.disk, w.handles + [Handle(s, HeaderAt(w.disk, s), true, 0)]);
    }
    hide Inv;
    StepRefines(w, OpOpen(name), Flag(ok), w');
  }

  lemma LiveHandleOk(w: World, h: nat)
    requires WorldInv(w) && h < |w.handles|
    ensures Inv(w.disk) && HandleOk(w.disk, w.handles[h])
  {
  }

  /** A write through a live handle is a step, with or without the seek position. */
  lemma WriteIsStep(w: World, d': DiskImage, h: nat, from: seq<Byte>, numBytes: int, position: nat, n: nat)
    requires WorldInv(w) && h < |w.handles| && w.handles[h].live && WellFormed(w.handles[h].header)
    requires n == Clip(w.handles[h].header.numBytes, numBytes, position) <= |from|
    requires Written(w.disk, d', w.handles[h].header, position, from[..n])
    ensures var w' := World(d', w.handles);
            Next(w, OpWriteAt(h, from, numBytes, position), Count(n), w') && WorldInv(w')
    ensures var w' := World(d', Seeked(w.handles, h, position + n));
            position == w.handles[h].seek ==> Next(w, OpWrite(h, from, numBytes), Count(n), w') && WorldInv(w')
  {
    hide WorldInv, Inv, HandleOk, Written, WellFormed, SpecNext, Abs, Clip;
    LiveHandleOk(w, h);
    StepRefines(w, OpWriteAt(h, from, numBytes, position), Count(n), World(d', w.handles));
    if position == w.handles[h].seek {
      StepRefines(w, OpWrite(h, from, numBytes), Count(n), World(d', Seeked(w.handles, h, position + n)));
    }
  }

  /** It leaves the bootstrap files alone. */
  lemma WriteKeepsBoot(w: World, d': DiskImage, h: nat, position: nat, data: seq<Byte>)
    requires WorldInv(w) && h < |w.handles| && w.handles[h].live && WellFormed(w.handles[h].header)
    requires Written(w.disk, d', w.handles[h].header, position, data)
    ensures HeaderAt(d', 0) == HeaderAt(w.disk, 0) && HeaderAt(d', 1) == HeaderAt(w.disk, 1)
  {
    hide DecodeHeader, DecodeTable, Content;
    LiveHandleOk(w, h);
    WriteKeeps(w.disk, d', w.handles[h].sector, position, data);
    assert 0 in Heads(Table(w.disk)) && 1 in Heads(Table(w.disk));
  }

  lemma ReadIsStep(w: World, h: nat, numBytes: int, position: nat, bytes: seq<Byte>)
    requires WorldInv(w) && h < |w.handles| && w.handles[h].live && WellFormed(w.handles[h].header)
    requires bytes == Slice(Content(w.disk, w.handles[h].header), numBytes, position)
    ensures Next(w, OpReadAt(h, numBytes, position), Data(bytes), w)
    ensures var w' := World(w.disk, Seeked(w.handles, h, position + |bytes|));
            position == w.handles[h].seek ==> Next(w, OpRead(h, numBytes), Data(bytes), w') && WorldInv(w')
  {
    hide WorldInv, Inv, HandleOk, Content, WellFormed, SpecNext, Abs, Slice;
    LiveHandleOk(w, h);
    if position == w.handles[h].seek {
      StepRefines(w, OpRead(h, numBytes), Data(bytes), World(w.disk, Seeked(w.handles, h, position + |bytes|)));
    }
  }

  lemma SeekIsStep(w: World, h: nat, position: nat)
    requires WorldInv(w) && h < |w.handles|
    ensures var w' := World(w.disk, Seeked(w.handles, h, position));
            Next(w, OpSeek(h, position), Flag(true), w') && WorldInv(w')
  {
    hide Inv, HandleOk;
    StepRefines(w, OpSeek(h, position), Flag(true), World(w.disk, Seeked(w.handles, h, position)));
  }

  // ----- The calls -----

  class Session {
    const fs: FileSystem
    var files: seq<OpenFile>
    ghost var world: World

    /** The object behind a handle. */
    ghost predicate Shows(file: OpenFile, h: Handle)
      reads file, file.hdr, file.hdr.dataSectors
    {
      file.disk == fs.disk && file.hdr.Valid() && file.hdr.View() == h.header && file.seekPosition == h.seek
    }

    ghost predicate Valid()
      reads this, fs.disk, fs.freeMapFile.hdr, fs.freeMapFile.hdr.dataSectors
      reads fs.directoryFile.hdr, fs.directoryFile.hdr.dataSectors
      reads files, set f | f in files :: f.hdr, set f | f in files :: f.hdr.dataSectors
    {
      && fs.Valid() && world.disk == fs.disk.image && WorldInv(world)
      && |files| == |world.handles| && NoDuplicates(files)
      && forall i :: 0 <= i < |files| ==> Shows(files[i], world.handles[i])
    }

    constructor (fs: FileSystem)
      requires fs.Valid()
      ensures Valid() && this.fs == fs && world == World(fs.disk.image, [])
    {
      hide Inv, HeaderAt;
      this.fs, files, world := fs, [], World(fs.disk.image, []);
    }

    method Create(name: CString, initialSize: Int32) returns (ok: bool)
      requires Valid() && 0 <= initialSize
      requires initialSize <= MAX_FILE_SIZE || !Creatable(fs.disk.image, name, initialSize)
      modifies this, fs.disk
      ensures Valid() && files == old(files)
      ensures Next(old(world), OpCreate(name, initialSize), Flag(ok), world)
    {
      hide Inv, WorldInv, CreateStep, Creatable, Next, NoDuplicates, HeaderAt, WellFormed;
      ok := fs.Create(name, initialSize);
      SuccessIsCreatable(world.disk, fs.disk.image, name, initialSize, ok);
      CreateIsStep(world, fs.disk.image, name, initialSize, ok);
      world := World(fs.disk.image, world.handles);
    }

    method Remove(name: CString) returns (ok: bool)
      requires Valid()
      modifies this, fs.disk
      ensures Valid() && files == old(files)
      ensures Next(old(world), OpRemove(name), Flag(ok), world)
    {
      hide Inv, WorldInv, RemoveStep, Next, NoDuplicates, HeaderAt, WellFormed;
      ok := fs.Remove(name);
      world := RemoveIsStep(world, fs.disk.image, name, ok);
    }

    method Open(name: CString) returns (ok: bool)
      requires Valid()
      modifies this
      ensures Valid() && old(files) <= files && |files| == |old(files)| + if ok then 1 else 0
      ensures Next(old(world), OpOpen(name), Flag(ok), world)
    {
      hide Inv, WorldInv, Next, HeaderAt, WellFormed, Content, Files, Key;
      var file := fs.Open(name);
      ok := file != null;
      world := OpenIsStep(world, name, ok);
      if ok {
        files := files + [file];
      }
    }

    method Seek(h: nat, position: nat)
      requires Valid() && h < |files|
      modifies this, files[h]
      ensures Valid() && files == old(files)
      ensures Next(old(world), OpSeek(h, position), Flag(true), world)
    {
      hide Inv, WorldInv, Next, HeaderAt, WellFormed;
      SeekIsStep(world, h, position);
      files[h].Seek(position);
      world := World(world.disk, Seeked(world.handles, h, position));
    }

    /** The file behind a live handle is well formed, whoever holds it. */
    lemma FileIsValid(h: nat)
      requires Valid() && h < |files| && world.handles[h].live
      ensures files[h].Valid() && files[h].disk == fs.disk
    {
      hide Inv, HeaderAt, WellFormed, WorldInv;
      WorldFacts(world);
    }

    method WriteAt(h: nat, from: seq<Byte>, numBytes: int, position: nat) returns (n: nat)
      requires Valid() && h < |files| && world.handles[h].live && |from| >= numBytes
      modifies this, fs.disk
      ensures Valid() && files == old(files)
      ensures Next(old(world), OpWriteAt(h, from, numBytes, position), Count(n), world)
    {
      hide Inv, WorldInv, Next, NoDuplicates, HeaderAt, WellFormed, Written;
      FileIsValid(h);
      n := files[h].WriteAt(from, numBytes, position);
      WriteIsStep(world, fs.disk.image, h, from, numBytes, position, n);
      WriteKeepsBoot(world, fs.disk.image, h, position, from[..n]);
      world := World(fs.disk.image, world.handles);
      WorldFacts(world);
    }

    method Write(h: nat, from: seq<Byte>, numBytes: int) returns (n: nat)
      requires Valid() && h < |files| && world.handles[h].live && |from| >= numBytes
      modifies this, fs.disk, files[h]
      ensures Valid() && files == old(files)
      ensures Next(old(world), OpWrite(h, from, numBytes), Count(n), world)
    {
      hide Inv, WorldInv, Next, HeaderAt, WellFormed, Written;
      FileIsValid(h);
      var position := files[h].seekPosition;
      n := files[h].Write(from, numBytes);
      WriteIsStep(world, fs.disk.image, h, from, numBytes, position, n);
      WriteKeepsBoot(world, fs.disk.image, h, position, from[..n]);
      world := World(fs.disk.image, Seeked(world.handles, h, position + n));
      WorldFacts(world);
    }

    method ReadAt(h: nat, into: array<Byte>, numBytes: int, position: nat) returns (n: nat)
      requires Valid() && h < |files| && world.handles[h].live && into.Length >= numBytes
      modifies into
      ensures Valid() && files == old(files) && world == old(world) && n <= into.Length
      ensures Next(world, OpReadAt(h, numBytes, position), Data(into[..n]), world)
    {
      hide Inv, WorldInv, Next, NoDuplicates, HeaderAt, WellFormed, Content;
      FileIsValid(h);
      n := files[h].ReadAt(into, 0, numBytes, position);
      assert into[..n] == Slice(Content(world.disk, world.handles[h].header), numBytes, position);
      ReadIsStep(world, h, numBytes, position, into[..n]);
    }

    method Read(h: nat, into: array<Byte>, numBytes: int) returns (n: nat)
      requires Valid() && h < |files| && world.handles[h].live && into.Length >= numBytes
      modifies this, into, files[h]
      ensures Valid() && files == old(files) && n <= into.Length
      ensures Next(old(world), OpRead(h, numBytes), Data(into[..n]), world)
    {
      hide Inv, WorldInv, Next, HeaderAt, WellFormed, Content;
      FileIsValid(h);
      var position := files[h].seekPosition;
      n := files[h].Read(into, 0, numBytes);
      assert into[..n] == Slice(Content(world.disk, world.handles[h].header), numBytes, position);
      ReadIsStep(world, h, numBytes, position, into[..n]);
      world := World(world.disk, Seeked(world.handles, h, position + n));
    }
  }
}
