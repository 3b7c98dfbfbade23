/** Whole runs of the file system, and the simple machine over a map of names that they refine. */
module FileSystemRuns {
  import opened Bytes
  import opened Bitmaps
  import opened Disks
  import opened FileHeaders
  import opened PersistentBitmaps
  import opened Directories
  import opened FileSystemModel
  import opened FileSystemSteps
  import opened FileSystemCapacity

  /** The name is new, a directory slot is free, and so are enough sectors. */
  ghost predicate Creatable(d: DiskImage, name: CString, size: nat)
    requires Inv(d)
  {
    && !InTable(Table(d), Key(name))
    && (exists i :: FreeSlot(Table(d), i))
    && 1 + DivRoundUp(size, SECTOR_SIZE) <= |ClearBits(FreeMap(d))|
  }

  /** FileSystem::Create with its three ways to fail; a failed Create writes nothing to the disk. */
  ghost predicate CreateStep(d: DiskImage, d': DiskImage, name: CString, size: nat, ok: bool)
    requires Inv(d)
  {
    ok == Creatable(d, name, size) && if ok then Created(d, d', Key(name), size) else d' == d
  }

  ghost predicate RemoveStep(d: DiskImage, d': DiskImage, name: CString, ok: bool)
    requires Inv(d)
  {
    ok == InTable(Table(d), Key(name)) && if ok then Removed(d, d', Key(name)) else d' == d
  }

  /** Create fails exactly when the file is too long, the name is taken or there are ten files: for files of legal
      length the disk is never full. */
  lemma CreateRefines(d: DiskImage, d': DiskImage, name: CString, size: nat, ok: bool)
    requires Inv(d) && CreateStep(d, d', name, size, ok) && (size <= MAX_FILE_SIZE || !ok)
    ensures Inv(d')
    ensures ok <==> size <= MAX_FILE_SIZE && Key(name) !in Files(d) && |Files(d)| < NUM_DIR_ENTRIES
    ensures !ok ==> d' == d
    ensures ok ==> && Key(name) in Files(d') && |Files(d')[Key(name)]| == size
                   && Files(d') == Files(d)[Key(name) := Files(d')[Key(name)]]
  {
    hide Inv, Key, Files, Created;
    SlotFreeIffFewFiles(d);
    FilesKeys(d, Key(name));
    if size <= MAX_FILE_SIZE {
      if i :| FreeSlot(Table(d), i) {
        AlwaysRoom(d, size, i);
      }
    }
    if ok {
      CreatedEffect(d, d', Key(name), size);
    }
  }

  lemma FilesKeys(d: DiskImage, key: CString)
    requires Inv(d)
    ensures Booted(d) && (key in Files(d) <==> InTable(Table(d), key))
  {
  }

  lemma CreatedEffect(d: DiskImage, d': DiskImage, key: CString, size: nat)
    requires Inv(d) && !InTable(Table(d), key) && Created(d, d', key, size)
    ensures Inv(d') && key in Files(d') && |Files(d')[key]| == size && Files(d') == Files(d)[key := Files(d')[key]]
  {
    hide CreatedBy, Files;
    var c :| CreatedBy(d, d', key, size, c);
    CreateEffect(d, d', key, size, c);
  }

  lemma RemoveRefines(d: DiskImage, d': DiskImage, name: CString, ok: bool)
    requires Inv(d) && RemoveStep(d, d', name, ok)
    ensures Inv(d') && (ok <==> Key(name) in Files(d)) && Files(d') == Files(d) - {Key(name)}
  {
    hide Inv, Key, Files, RemovedBy;
    FilesKeys(d, Key(name));
    if ok {
      var r :| RemovedBy(d, d', Key(name), r);
      RemoveEffect(d, d', Key(name), r);
    }
  }

  /** Create followed by Remove restores both the free map and the files. */
  lemma CreateThenRemove(d: DiskImage, d': DiskImage, d'': DiskImage, name: CString, size: nat)
    requires Inv(d) && CreateStep(d, d', name, size, true) && size <= MAX_FILE_SIZE
    requires Inv(d') && RemoveStep(d', d'', name, true)
    ensures Inv(d'') && Files(d'') == Files(d) && FreeMap(d'') == FreeMap(d)
  {
    hide Inv, Key, Files, CreatedBy, RemovedBy;
    var key := Key(name);
    CreateRefines(d, d', name, size, true);
    RemoveRefines(d', d'', name, true);
    assert Files(d'') == Files(d);
    var c :| CreatedBy(d, d', key, size, c);
    var r :| RemovedBy(d', d'', key, r);
    CreateThenRemoveMap(d, d', d'', key, size, c, r);
  }

  lemma CreateThenRemoveMap(d: DiskImage, d': DiskImage, d'': DiskImage, key: CString, size: nat, c: Creation, r: Removal)
    requires Inv(d) && !InTable(Table(d), key) && CreatedBy(d, d', key, size, c)
    requires Inv(d') && RemovedBy(d', d'', key, r)
    ensures Booted(d'') && FreeMap(d'') == FreeMap(d)
  {
    hide Content, EncodeTable, DecodeTable, StoredBits, DecodeHeader, EncodeHeader, StoredKey;
    CreateWrites(d, d', key, size, c);
    NewFileIsApart(d, d', key, size, c);
    RemoveWrites(d', d'', key, r);
    assert r.slot == c.slot by {
      assert InUse(Table(d'), c.slot) && InUse(Table(d'), r.slot);
    }
    forall b | 0 <= b < NUM_SECTORS
      ensures FreeMap(d'')[b] == FreeMap(d)[b]
    {
      assert FreeMap(d')[b] == (FreeMap(d)[c.sector := true][b] || b in c.header.dataSectors[..c.header.numSectors]);
      assert b in Blocks(d', c.sector) <==> b == c.sector || b in c.header.dataSectors[..c.header.numSectors];
    }
  }
}
