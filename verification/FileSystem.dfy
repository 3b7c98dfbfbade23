/** code/filesys/filesys.cc: the operations themselves, fetching, changing and writing back the
    directory and the free map. Each is tied to the relation whose properties are proved elsewhere. */
module FileSystems {
  import opened Bytes
  import opened Bitmaps
  import opened Disks
  import opened FileHeaders
  import opened OpenFiles
  import PB = PersistentBitmaps
  import opened Directories
  import opened FileSystemModel
  import opened FileSystemSteps
  import opened FileSystemFormat
  import opened FileSystemRuns
  import opened FileSystemRefinement

  class FileSystem {
    const disk: SynchDisk
    const freeMapFile: OpenFile
    const directoryFile: OpenFile

    /** The two bootstrap files stay open, and their cached headers are those on disk. */
    ghost predicate Valid()
      reads disk, freeMapFile.hdr, freeMapFile.hdr.dataSectors, directoryFile.hdr, directoryFile.hdr.dataSectors
    {
      && Inv(disk.image)
      && freeMapFile.Valid() && freeMapFile.disk == disk
      && freeMapFile.hdr.View() == HeaderAt(disk.image, FREE_MAP_SECTOR)
      && directoryFile.Valid() && directoryFile.disk == disk
      && directoryFile.hdr.View() == HeaderAt(disk.image, DIRECTORY_SECTOR)
    }

    /** FileSystem(false): the disk already holds a file system. */
    constructor Boot(disk: SynchDisk)
      requires Inv(disk.image)
      ensures Valid() && this.disk == disk
      ensures fresh(freeMapFile) && fresh(directoryFile)
    {
      this.disk := disk;
      freeMapFile := new OpenFile(disk, FREE_MAP_SECTOR);
      directoryFile := new OpenFile(disk, DIRECTORY_SECTOR);
    }

    /** FileSystem(true): format the disk, whatever it holds. */
    constructor Format(disk: SynchDisk)
      modifies disk
      ensures Valid() && this.disk == disk && Files(disk.image) == map[]
      ensures fresh(freeMapFile) && fresh(directoryFile)
      ensures exists f :: FormattedBy(old(disk.image), disk.image, f)
    {
      hide Inv, FormattedBy, Content, EncodeTable, DecodeTable, PB.StoredBits, DecodeHeader, EncodeHeader;
      this.disk := disk;
      ghost var d := disk.image;
      var mapFile, dirFile, f := FormatDisk(disk);
      freeMapFile := mapFile;
      directoryFile := dirFile;
      FormatEffect(d, disk.image, f);
      FormatWrites(d, disk.image, f);
      assert Booted(disk.image);
    }

    /** A Directory object holding what is on disk. */
    method FetchDirectory() returns (directory: Directory)
      requires Valid()
      ensures fresh(directory) && fresh(directory.table) && directory.Valid() && directory.tableSize == NUM_DIR_ENTRIES
      ensures directory.table[..] == Table(disk.image)
    {
      directory := new Directory(NUM_DIR_ENTRIES);
      directory.FetchFrom(directoryFile);
    }

    /** A Bitmap object holding what is on disk. */
    method FetchFreeMap() returns (freeMap: Bitmap)
      requires Valid()
      ensures fresh(freeMap) && fresh(freeMap.map_) && freeMap.Valid() && freeMap.numBits == NUM_SECTORS
      ensures freeMap.Bits() == FreeMap(disk.image)
    {
      hide PB.DecodeMap, PB.EncodeMap, PB.StoredBits, Content, DecodeTable, DecodeHeader, StoredKey;
      freeMap := new Bitmap(NUM_SECTORS);
      PB.FetchFrom(freeMap, freeMapFile);
    }

    /** Everything worked: the new header, the directory and the free map go to the disk, in this order. */
    method Flush(name: CString, size: Int32, hdr: FileHeader, sector: nat, directory: Directory, freeMap: Bitmap)
      requires Valid() && hdr.Valid() && 0 <= size <= MAX_FILE_SIZE && sector < NUM_SECTORS
      requires directory.Valid() && directory.tableSize == NUM_DIR_ENTRIES
      requires freeMap.Valid() && freeMap.numBits == NUM_SECTORS
      requires IsPlan(disk.image, name, size, sector, hdr.View(), directory.table[..], freeMap.Bits())
      modifies disk
      ensures CreateStep(old(disk.image), disk.image, name, size, true)
    {
      hide Content, EncodeTable, DecodeTable, PB.StoredBits, DecodeHeader, EncodeHeader, CreateStep, IsPlan;
      assert freeMapFile.hdr.View().numBytes == 128 && directoryFile.hdr.View().numBytes == 200;
      hide Inv, WellFormed;
      ghost var d := disk.image;
      hdr.WriteBack(disk, sector);
      ghost var d1 := disk.image;
      SaveTable(directory, directoryFile);
      ghost var d2 := disk.image;
      ghost var data := SaveMap(freeMap, freeMapFile);
      PlanIsDone(d, disk.image, name, size, sector, hdr.View(), directory.table[..], data, d1, d2);
    }

    /** The end of Create: the header sector and the directory slot are found, now the data sectors. */
    method AllocateAndFlush(name: CString, initialSize: Int32, sector: nat, directory: Directory, freeMap: Bitmap)
      returns (success: bool)
      requires Valid() && 0 <= initialSize && sector < NUM_SECTORS
      requires initialSize <= MAX_FILE_SIZE || !Creatable(disk.image, name, initialSize)
      requires directory.Valid() && directory.tableSize == NUM_DIR_ENTRIES
      requires freeMap.Valid() && freeMap.numBits == NUM_SECTORS
      requires IsFirstClear(FreeMap(disk.image), sector) && freeMap.Bits() == FreeMap(disk.image)[sector := true]
      requires !InTable(Table(disk.image), Key(name))
      requires FillsFirst(Table(disk.image), directory.table[..], Key(name), sector)
      modifies disk, freeMap.map_
      ensures CreateStep(old(disk.image), disk.image, name, initialSize, success)
    {
      ghost var d := disk.image;
      hide Inv, CreateStep, Booted, WellFormed, Content, EncodeTable, DecodeTable, PB.StoredBits, DecodeHeader,
           EncodeHeader, Key, StoredKey, Filled, FillsFirst;
      var hdr := new FileHeader();
      RoomOrLegal(d, name, initialSize, sector, directory.table[..]);
      var enough := hdr.Allocate(freeMap, initialSize);
      if !enough {
        CreateFails(d, name, initialSize);
        return false;
      }
      Flush(name, initialSize, hdr, sector, directory, freeMap);
      return true;
    }

    /** The rest of Create, once the name is known to be new. */
    method CreateNew(name: CString, initialSize: Int32, directory: Directory, freeMap: Bitmap) returns (success: bool)
      requires Valid() && 0 <= initialSize
      requires initialSize <= MAX_FILE_SIZE || !Creatable(disk.image, name, initialSize)
      requires directory.Valid() && directory.tableSize == NUM_DIR_ENTRIES && directory.table[..] == Table(disk.image)
      requires freeMap.Valid() && freeMap.numBits == NUM_SECTORS && freeMap.Bits() == FreeMap(disk.image)
      requires !InTable(Table(disk.image), Key(name))
      modifies disk, directory.table, freeMap.map_
      ensures CreateStep(old(disk.image), disk.image, name, initialSize, success)
    {
      ghost var d := disk.image;
      hide Inv, CreateStep, Booted, WellFormed, Content, EncodeTable, DecodeTable, PB.StoredBits, DecodeHeader,
           EncodeHeader, Key, StoredKey, Filled;
      var sector := freeMap.FindAndSet();
      if sector == -1 {
        CreateFails(d, name, initialSize);
        return false;
      }
      var added := directory.Add(name, sector);
      if !added {
        CreateFails(d, name, initialSize);
        return false;
      }
      success := AllocateAndFlush(name, initialSize, sector, directory, freeMap);
    }

    /** Only a file that is too long although there is room for it is excluded: FileHeader::Allocate overruns its
        array. */
    method Create(name: CString, initialSize: Int32) returns (success: bool)
      requires Valid() && 0 <= initialSize
      requires initialSize <= MAX_FILE_SIZE || !Creatable(disk.image, name, initialSize)
      modifies disk
      ensures CreateStep(old(disk.image), disk.image, name, initialSize, success)
      ensures Valid()
    {
      hide Inv, CreateStep, Content, DecodeHeader;
      ghost var d := disk.image;
      success := CreateUnlessPresent(name, initialSize);
      SuccessIsCreatable(d, disk.image, name, initialSize, success);
      CreateKeepsBoot(d, disk.image, name, initialSize, success);
    }

    method CreateUnlessPresent(name: CString, initialSize: Int32) returns (success: bool)
      requires Valid() && 0 <= initialSize
      requires initialSize <= MAX_FILE_SIZE || !Creatable(disk.image, name, initialSize)
      modifies disk
      ensures CreateStep(old(disk.image), disk.image, name, initialSize, success)
    {
      ghost var d := disk.image;
      hide Inv, CreateStep, WellFormed, Content, EncodeTable, DecodeTable, PB.StoredBits, DecodeHeader, EncodeHeader,
           Key, StoredKey;
      var directory := FetchDirectory();
      var present := directory.Find(name);
      FoundIsSector(d, Key(name), present);
      if present != -1 {
        CreateFails(d, name, initialSize);
        return false;
      }
      var freeMap := FetchFreeMap();
      success := CreateNew(name, initialSize, directory, freeMap);
    }

    /** A new handle on the named file, or null; it caches the header that is on the disk. */
    method Open(name: CString) returns (file: OpenFile?)
      requires Valid()
      ensures file == null <==> Key(name) !in Files(disk.image)
      ensures file == null <==> Key(name) !in Names(Table(disk.image))
      ensures file != null ==> && fresh(file) && fresh(file.hdr) && fresh(file.hdr.dataSectors)
                               && file.Valid() && file.disk == disk && file.seekPosition == 0
                               && Content(disk.image, file.hdr.View()) == Files(disk.image)[Key(name)]
      ensures file != null ==> var s := SectorNamed(disk.image, Key(name));
                               0 <= s < NUM_SECTORS && file.hdr.View() == HeaderAt(disk.image, s)
    {
      ghost var d := disk.image;
      var directory := FetchDirectory();
      var sector := directory.Find(name);
      hide Content, DecodeTable, PB.StoredBits, DecodeHeader, Key, StoredKey;
      FoundIsSector(d, Key(name), sector);
      FilesKeys(d, Key(name));
      NamesAreInTable(Table(d), Key(name));
      file := null;
      if sector >= 0 {
        ghost var i :| Holds(Table(d), i, Key(name)) && sector == Table(d)[i].sector;
        assert InUse(Table(d), i) && Table(d)[i].sector in Heads(Table(d));
        FilesAt(d, i);
        assert InUse(Table(d), SlotOf(Table(d), Key(name)));
        file := new OpenFile(disk, sector);
      }
    }

    method Remove(name: CString) returns (success: bool)
      requires Valid()
      modifies disk
      ensures RemoveStep(old(disk.image), disk.image, name, success)
      ensures Valid()
    {
      hide Inv, RemoveStep, Content, DecodeHeader;
      ghost var d := disk.image;
      success := RemoveIfPresent(name);
      RemoveKeepsBoot(d, disk.image, name, success);
    }

    method RemoveIfPresent(name: CString) returns (success: bool)
      requires Valid()
      modifies disk
      ensures RemoveStep(old(disk.image), disk.image, name, success)
    {
      ghost var d := disk.image;
      var directory := FetchDirectory();
      var sector := directory.Find(name);
      hide Content, EncodeTable, DecodeTable, PB.StoredBits, DecodeHeader, Key, StoredKey;
      FoundIsSector(d, Key(name), sector);
      if sector == -1 {
        return false;
      }
      hide RemoveStep;
      ghost var i :| Holds(Table(d), i, Key(name)) && sector == Table(d)[i].sector;
      FileIsMarked(d, i);
      RemoveFrom(name, sector, directory, i);
      return true;
    }

    /** The rest of Remove, once the name has been found in a slot. */
    method RemoveFrom(name: CString, sector: nat, directory: Directory, ghost slot: int)
      requires Valid() && directory.Valid() && directory.tableSize == NUM_DIR_ENTRIES
      requires directory.table[..] == Table(disk.image) && OnlyHolder(Table(disk.image), slot, Key(name))
      requires sector < NUM_SECTORS && sector == Table(disk.image)[slot].sector
      requires WellFormed(HeaderAt(disk.image, sector))
      requires forall b :: b in DataSectors(HeaderAt(disk.image, sector)) ==> 0 <= b < NUM_SECTORS && FreeMap(disk.image)[b]
      modifies disk, directory.table
      ensures RemoveStep(old(disk.image), disk.image, name, true)
    {
      hide Inv, RemoveStep, Booted, WellFormed, Content, EncodeTable, DecodeTable, PB.StoredBits, DecodeHeader, Key,
           StoredKey;
      var fileHdr := new FileHeader();
      fileHdr.FetchFrom(disk, sector);
      var freeMap := FetchFreeMap();
      ReleaseSectors(fileHdr, freeMap, sector);
      var _ := directory.Remove(name);
      FlushRemoved(name, directory, freeMap, slot);
    }

    /** The file's data sectors and its header sector become free in memory. */
    method ReleaseSectors(fileHdr: FileHeader, freeMap: Bitmap, sector: nat)
      requires fileHdr.Valid() && WellFormed(fileHdr.View()) && sector < NUM_SECTORS
      requires freeMap.Valid() && freeMap.numBits == NUM_SECTORS
      requires forall b :: b in DataSectors(fileHdr.View()) ==> freeMap.Bits()[b]
      modifies freeMap.map_
      ensures forall b :: 0 <= b < NUM_SECTORS ==>
                freeMap.Bits()[b] == (old(freeMap.Bits())[b] && b !in {sector} + DataSectors(fileHdr.View()))
    {
      fileHdr.Deallocate(freeMap);
      freeMap.Clear(sector);
    }

    method FlushRemoved(name: CString, directory: Directory, freeMap: Bitmap, ghost slot: int)
      requires Valid()
      requires directory.Valid() && directory.tableSize == NUM_DIR_ENTRIES
      requires freeMap.Valid() && freeMap.numBits == NUM_SECTORS
      requires Holds(Table(disk.image), slot, Key(name)) && 0 <= Table(disk.image)[slot].sector < NUM_SECTORS
      requires directory.table[..] == Table(disk.image)[slot := Table(disk.image)[slot].(inUse := false)]
      requires forall b :: 0 <= b < NUM_SECTORS ==>
                 freeMap.Bits()[b] == (FreeMap(disk.image)[b] && b !in Blocks(disk.image, Table(disk.image)[slot].sector))
      modifies disk
      ensures RemoveStep(old(disk.image), disk.image, name, true)
    {
      hide Content, EncodeTable, DecodeTable, PB.StoredBits, DecodeHeader, Key, StoredKey;
      assert freeMapFile.hdr.View().numBytes == 128 && directoryFile.hdr.View().numBytes == 200;
      hide WellFormed;
      ghost var d := disk.image;
      ghost var data := SaveMap(freeMap, freeMapFile);
      ghost var d1 := disk.image;
      SaveTable(directory, directoryFile);
      assert RemovedBy(d, disk.image, Key(name), Removal(slot, data, d1));
    }
  }

  /** The whole free map goes to its file, which has just the right length. */
  method SaveMap(freeMap: Bitmap, file: OpenFile) returns (ghost data: seq<Byte>)
    requires freeMap.Valid() && freeMap.numBits == NUM_SECTORS && file.Valid() && file.hdr.View().numBytes == 128
    modifies file.disk
    ensures |data| == 128 && PB.StoredBits(data) == freeMap.Bits()
    ensures Written(old(file.disk.image), file.disk.image, file.hdr.View(), 0, data)
  {
    hide PB.EncodeMap, PB.DecodeMap, PB.StoredBits, Written, Content, WellFormed;
    data := PB.EncodeMap(freeMap.map_[..]);
    PB.WriteBack(freeMap, file);
  }

  method SaveTable(directory: Directory, file: OpenFile)
    requires directory.Valid() && directory.tableSize == NUM_DIR_ENTRIES && file.Valid()
    requires file.hdr.View().numBytes == 200
    modifies file.disk
    ensures Written(old(file.disk.image), file.disk.image, file.hdr.View(), 0, EncodeTable(directory.table[..]))
  {
    hide EncodeTable, Written, Content, WellFormed;
    directory.WriteBack(file);
  }

  lemma SuccessIsCreatable(d: DiskImage, d': DiskImage, name: CString, size: nat, ok: bool)
    requires Inv(d) && CreateStep(d, d', name, size, ok)
    ensures ok == Creatable(d, name, size)
  {
  }

  /** Either the length is legal, or too few sectors are left after the header's. */
  lemma RoomOrLegal(d: DiskImage, name: CString, size: nat, sector: int, table: seq<DirectoryEntry>)
    requires Inv(d) && (size <= MAX_FILE_SIZE || !Creatable(d, name, size)) && sector in ClearBits(FreeMap(d))
    requires !InTable(Table(d), Key(name)) && FillsFirst(Table(d), table, Key(name), sector)
    ensures size <= MAX_FILE_SIZE || DivRoundUp(size, SECTOR_SIZE) > |ClearBits(FreeMap(d)[sector := true])|
  {
    hide Key, StoredKey, DecodeTable, PB.StoredBits, Content;
    ClearAfterHeader(d, sector);
  }

  lemma CreateKeepsBoot(d: DiskImage, d': DiskImage, name: CString, size: nat, ok: bool)
    requires Inv(d) && CreateStep(d, d', name, size, ok) && (size <= MAX_FILE_SIZE || !ok)
    ensures Inv(d') && HeaderAt(d', 0) == HeaderAt(d, 0) && HeaderAt(d', 1) == HeaderAt(d, 1)
  {
    hide Inv, CreatedBy, Key;
    CreateRefines(d, d', name, size, ok);
    if ok {
      var c :| CreatedBy(d, d', Key(name), size, c);
      CreateWrites(d, d', Key(name), size, c);
    }
  }

  lemma RemoveKeepsBoot(d: DiskImage, d': DiskImage, name: CString, ok: bool)
    requires Inv(d) && RemoveStep(d, d', name, ok)
    ensures Inv(d') && HeaderAt(d', 0) == HeaderAt(d, 0) && HeaderAt(d', 1) == HeaderAt(d, 1)
  {
    hide Inv, RemovedBy, Key;
    RemoveRefines(d, d', name, ok);
    if ok {
      var r :| RemovedBy(d, d', Key(name), r);
      RemoveWrites(d, d', Key(name), r);
    }
  }

  /** The body of the formatting constructor. */
  method FormatDisk(disk: SynchDisk) returns (mapFile: OpenFile, dirFile: OpenFile, ghost f: Formatting)
    modifies disk
    ensures FormattedBy(old(disk.image), disk.image, f)
    ensures fresh(mapFile) && fresh(mapFile.hdr) && fresh(mapFile.hdr.dataSectors)
    ensures fresh(dirFile) && fresh(dirFile.hdr) && fresh(dirFile.hdr.dataSectors)
    ensures mapFile.Valid() && mapFile.disk == disk && mapFile.hdr.View() == f.mapHdr
    ensures dirFile.Valid() && dirFile.disk == disk && dirFile.hdr.View() == f.dirHdr
  {
    hide Content, EncodeTable, DecodeTable, PB.StoredBits, DecodeHeader, EncodeHeader, FirstFit, WellFormed,
         HeadersMarked;
    ghost var d := disk.image;
    var freeMap := new Bitmap(NUM_SECTORS);
    var directory := new Directory(NUM_DIR_ENTRIES);
    var mapHdr, dirHdr, bits := AllocateBootFiles(freeMap);
    mapHdr.WriteBack(disk, FREE_MAP_SECTOR);
    dirHdr.WriteBack(disk, DIRECTORY_SECTOR);
    ghost var d1 := disk.image;
    HeaderRoundTrip(mapHdr.View());
    HeaderRoundTrip(dirHdr.View());
    mapFile := new OpenFile(disk, FREE_MAP_SECTOR);
    dirFile := new OpenFile(disk, DIRECTORY_SECTOR);
    ghost var data := SaveMap(freeMap, mapFile);
    ghost var d2 := disk.image;
    SaveTable(directory, dirFile);
    f := Formatting(mapHdr.View(), dirHdr.View(), bits, data, directory.table[..], d1, d2);
  }

  /** Mark the two header sectors, then allocate the free map's and the directory's data sectors. */
  method AllocateBootFiles(freeMap: Bitmap) returns (mapHdr: FileHeader, dirHdr: FileHeader, ghost bits: seq<bool>)
    requires freeMap.Valid() && freeMap.numBits == NUM_SECTORS && freeMap.Bits() == seq(NUM_SECTORS, _ => false)
    modifies freeMap.map_
    ensures fresh(mapHdr) && fresh(mapHdr.dataSectors) && mapHdr.Valid() && WellFormed(mapHdr.View())
    ensures fresh(dirHdr) && fresh(dirHdr.dataSectors) && dirHdr.Valid() && WellFormed(dirHdr.View())
    ensures mapHdr.View().numBytes == 128 && mapHdr.View().numSectors == 1
    ensures dirHdr.View().numBytes == 200 && dirHdr.View().numSectors == 2
    ensures FirstFit(HeadersMarked(), bits, mapHdr.View().dataSectors[..1])
    ensures FirstFit(bits, freeMap.Bits(), dirHdr.View().dataSectors[..2])
  {
    hide FirstFit, WellFormed;
    mapHdr := new FileHeader();
    dirHdr := new FileHeader();
    freeMap.Mark(FREE_MAP_SECTOR);
    freeMap.Mark(DIRECTORY_SECTOR);
    assert freeMap.Bits() == HeadersMarked();
    BootHasRoom();
    var mapOk := mapHdr.Allocate(freeMap, FREE_MAP_FILE_SIZE);
    assert mapOk;
    bits := freeMap.Bits();
    BootStillHasRoom(bits, mapHdr.dataSectors[..1]);
    var dirOk := dirHdr.Allocate(freeMap, DIRECTORY_FILE_SIZE);
    assert dirOk;
    BootHeadersOk(bits, freeMap.Bits(), mapHdr.View(), dirHdr.View());
  }

  lemma BootHeadersOk(bits: seq<bool>, bits': seq<bool>, m: Header, t: Header)
    requires m.numBytes == 128 && m.numSectors == 1 && t.numBytes == 200 && t.numSectors == 2
    requires FirstFit(HeadersMarked(), bits, m.dataSectors[..1]) && FirstFit(bits, bits', t.dataSectors[..2])
    ensures WellFormed(m) && WellFormed(t)
  {
  }

  lemma BootHasRoom()
    ensures |ClearBits(HeadersMarked())| >= 1
  {
    assert 2 in ClearBits(HeadersMarked());
  }

  lemma BootStillHasRoom(bits: seq<bool>, taken: seq<int>)
    requires FirstFit(HeadersMarked(), bits, taken) && |taken| == 1
    ensures |ClearBits(bits)| >= 2
  {
    assert taken[0] in ClearBits(HeadersMarked());
    var a := if taken[0] == 2 then 3 else 2;
    var b := if taken[0] == 4 then 5 else 4;
    assert a in ClearBits(bits) && b in ClearBits(bits);
    assert {a, b} <= ClearBits(bits);
    assert |ClearBits(bits)| == |{a, b}| + |ClearBits(bits) - {a, b}|;
  }

  /** `t'` is `t` with its first free slot filled. */
  ghost predicate FillsFirst(t: seq<DirectoryEntry>, t': seq<DirectoryEntry>, key: CString, sector: Int32) {
    exists f :: FreeSlot(t, f) && (forall i :: FreeSlot(t, i) ==> f <= i) && Filled(t, t', f, key, sector)
  }

  /** What Create has worked out in memory by the time it starts to write. */
  ghost predicate IsPlan(d: DiskImage, name: CString, size: nat, sector: int, hdr: Header,
                         table: seq<DirectoryEntry>, bits: seq<bool>)
    requires Booted(d)
  {
    && IsFirstClear(FreeMap(d), sector) && !InTable(Table(d), Key(name))
    && FillsFirst(Table(d), table, Key(name), sector)
    && size <= MAX_FILE_SIZE && hdr.numBytes == size && hdr.numSectors == DivRoundUp(size, SECTOR_SIZE)
    && DivRoundUp(size, SECTOR_SIZE) <= |ClearBits(FreeMap(d)[sector := true])|
    && FirstFit(FreeMap(d)[sector := true], bits, hdr.dataSectors[..hdr.numSectors])
  }

  lemma PlanIsDone(d: DiskImage, d': DiskImage, name: CString, size: nat, sector: int, hdr: Header,
                   table: seq<DirectoryEntry>, data: seq<Byte>, d1: DiskImage, d2: DiskImage)
    requires Inv(d) && 0 <= sector < NUM_SECTORS && |data| == 128
    requires IsPlan(d, name, size, sector, hdr, table, PB.StoredBits(data))
    requires d1 == d[sector := EncodeHeader(hdr)]
    requires Written(d1, d2, HeaderAt(d, 1), 0, EncodeTable(table))
    requires Written(d2, d', HeaderAt(d, 0), 0, data)
    ensures CreateStep(d, d', name, size, true)
  {
    hide Content, EncodeTable, DecodeTable, PB.StoredBits, DecodeHeader, EncodeHeader, Key, StoredKey;
    var f :| FreeSlot(Table(d), f) && (forall i :: FreeSlot(Table(d), i) ==> f <= i)
             && Filled(Table(d), table, f, Key(name), sector);
    assert CreatedBy(d, d', Key(name), size, Creation(sector, f, hdr, table, data, d1, d2));
    ClearAfterHeader(d, sector);
  }

  lemma ClearAfterHeader(d: DiskImage, sector: int)
    requires Booted(d) && sector in ClearBits(FreeMap(d))
    ensures |ClearBits(FreeMap(d)[sector := true])| == |ClearBits(FreeMap(d))| - 1
  {
    hide Booted, FreeMap;
    assert ClearBits(FreeMap(d)[sector := true]) == ClearBits(FreeMap(d)) - {sector};
  }

  /** The four ways out of Create without success. */
  lemma CreateFails(d: DiskImage, name: CString, size: nat)
    requires Inv(d)
    requires || InTable(Table(d), Key(name))
             || ClearBits(FreeMap(d)) == {}
             || !(exists i :: FreeSlot(Table(d), i))
             || exists s :: s in ClearBits(FreeMap(d))
                            && |ClearBits(FreeMap(d)[s := true])| < DivRoundUp(size, SECTOR_SIZE)
    ensures CreateStep(d, d, name, size, false)
  {
    hide Content, DecodeTable, PB.StoredBits, DecodeHeader, Key, StoredKey;
    if s :| s in ClearBits(FreeMap(d)) && |ClearBits(FreeMap(d)[s := true])| < DivRoundUp(size, SECTOR_SIZE) {
      ClearAfterHeader(d, s);
    }
  }

  ghost predicate OnlyHolder(t: seq<DirectoryEntry>, i: int, key: CString) {
    Holds(t, i, key) && forall k :: Holds(t, k, key) ==> k == i
  }

  /** The file in slot `i` is well formed, marked in the free map, and the only one of its name. */
  lemma FileIsMarked(d: DiskImage, i: int)
    requires Inv(d) && InUse(Table(d), i)
    ensures 2 <= Table(d)[i].sector < NUM_SECTORS
    ensures WellFormed(HeaderAt(d, Table(d)[i].sector))
    ensures Table(d)[i].sector !in DataSectors(HeaderAt(d, Table(d)[i].sector))
    ensures forall b :: b in DataSectors(HeaderAt(d, Table(d)[i].sector)) ==> 0 <= b < NUM_SECTORS && FreeMap(d)[b]
    ensures OnlyHolder(Table(d), i, StoredKey(Table(d)[i].name))
  {
    hide Content, DecodeTable, PB.StoredBits, DecodeHeader, StoredKey;
    var s := Table(d)[i].sector;
    assert s in Heads(Table(d));
    forall b | b in DataSectors(HeaderAt(d, s))
      ensures 0 <= b < NUM_SECTORS && FreeMap(d)[b]
    {
      assert Owns(d, s, b);
    }
    forall k | Holds(Table(d), k, StoredKey(Table(d)[i].name))
      ensures k == i
    {
      assert InUse(Table(d), k);
    }
  }

  /** Directory::Find answers -1 exactly for names that are not there: a header is never in a sector below 2. */
  lemma FoundIsSector(d: DiskImage, key: CString, sector: int)
    requires Inv(d)
    requires !InTable(Table(d), key) ==> sector == -1
    requires InTable(Table(d), key) ==> exists i :: Holds(Table(d), i, key) && sector == Table(d)[i].sector
    ensures sector == -1 <==> !InTable(Table(d), key)
  {
  }
}
