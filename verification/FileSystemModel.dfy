/** What is on a Nachos disk, and the invariant that every file system operation keeps.

    The free map and the directory are themselves files: their headers are in sectors 0 and 1, and
    their own sectors are marked in that free map. */
module FileSystemModel {
  import opened Bytes
  import opened Disks
  import opened FileHeaders
  import opened OpenFiles
  import opened PersistentBitmaps
  import opened Directories

  const FREE_MAP_SECTOR := 0
  const DIRECTORY_SECTOR := 1
  const FREE_MAP_FILE_SIZE := 128
  const NUM_DIR_ENTRIES := 10
  const DIRECTORY_FILE_SIZE := 200

  ghost function HeaderAt(d: DiskImage, s: int): Header
    requires 0 <= s < NUM_SECTORS
  {
    DecodeHeader(d[s])
  }

  /** The header sector of a file together with its data sectors. */
  ghost function Blocks(d: DiskImage, s: int): set<int>
    requires 0 <= s < NUM_SECTORS
  {
    {s} + DataSectors(HeaderAt(d, s))
  }

  /** The two bootstrap files are in place and do not overlap. */
  ghost predicate Booted(d: DiskImage) {
    var m, t := HeaderAt(d, 0), HeaderAt(d, 1);
    && WellFormed(m) && m.numBytes == 128
    && WellFormed(t) && t.numBytes == 200
    && 0 !in DataSectors(m) && 1 !in DataSectors(t)
    && Blocks(d, 0) !! Blocks(d, 1)
  }

  /** The free map, read off the disk. */
  ghost function FreeMap(d: DiskImage): (bits: seq<bool>)
    requires Booted(d)
    ensures |bits| == NUM_SECTORS
  {
    StoredBits(Content(d, HeaderAt(d, 0)))
  }

  /** The directory, read off the disk. */
  ghost function Table(d: DiskImage): (t: seq<DirectoryEntry>)
    requires Booted(d)
    ensures |t| == NUM_DIR_ENTRIES
  {
    DecodeTable(Content(d, HeaderAt(d, 1)))
  }

  /** The header sectors of all files: the free map, the directory and the files in the directory. */
  ghost function Heads(t: seq<DirectoryEntry>): set<int> {
    {0, 1} + set i | 0 <= i < |t| && t[i].inUse :: t[i].sector
  }

  ghost predicate InUse(t: seq<DirectoryEntry>, i: int) {
    0 <= i < |t| && t[i].inUse
  }

  /** No two entries in use share a name or a header. */
  ghost predicate TableOk(t: seq<DirectoryEntry>) {
    && (forall i :: InUse(t, i) ==> 2 <= t[i].sector < NUM_SECTORS)
    && (forall i, j :: InUse(t, i) && InUse(t, j) && i != j ==>
          t[i].sector != t[j].sector && StoredKey(t[i].name) != StoredKey(t[j].name))
  }

  /** Sector `b` belongs to the file whose header is in sector `s`. */
  ghost predicate Owns(d: DiskImage, s: int, b: int)
    requires Booted(d)
  {
    0 <= s < NUM_SECTORS && s in Heads(Table(d)) && b in Blocks(d, s)
  }

  /** Every file is well formed, no two share a sector, and the free map marks exactly the sectors
      that belong to some file. */
  ghost predicate Inv(d: DiskImage) {
    && Booted(d)
    && TableOk(Table(d))
    && (forall s :: s in Heads(Table(d)) ==>
          0 <= s < NUM_SECTORS && WellFormed(HeaderAt(d, s)) && s !in DataSectors(HeaderAt(d, s)))
    && (forall s, s' :: s in Heads(Table(d)) && s' in Heads(Table(d)) && s != s' ==> Blocks(d, s) !! Blocks(d, s'))
    && (forall b :: 0 <= b < NUM_SECTORS ==> (FreeMap(d)[b] <==> exists s :: Owns(d, s, b)))
  }

  // ----- The three kinds of disk write -----

  ghost function MetaSectors(d: DiskImage): set<int> {
    Blocks(d, 0) + Blocks(d, 1)
  }

  lemma WholeFile(d: DiskImage, d': DiskImage, h: Header, data: seq<Byte>)
    requires WellFormed(h) && |data| == h.numBytes && Written(d, d', h, 0, data)
    ensures Content(d', h) == data
  {
  }

  /** A sector of neither bootstrap file is overwritten: neither of them notices. */
  lemma StoreOther(d: DiskImage, d': DiskImage)
    requires Booted(d)
    requires forall s :: s in MetaSectors(d) ==> 0 <= s < NUM_SECTORS && d'[s] == d[s]
    ensures Booted(d') && HeaderAt(d', 0) == HeaderAt(d, 0) && HeaderAt(d', 1) == HeaderAt(d, 1)
    ensures FreeMap(d') == FreeMap(d) && Table(d') == Table(d)
  {
    ContentFrame(d, d', HeaderAt(d, 0));
    ContentFrame(d, d', HeaderAt(d, 1));
  }

  lemma StoreTable(d: DiskImage, d': DiskImage, t: seq<DirectoryEntry>)
    requires Booted(d) && |t| == 10 && Written(d, d', HeaderAt(d, 1), 0, EncodeTable(t))
    ensures Booted(d') && HeaderAt(d', 0) == HeaderAt(d, 0) && HeaderAt(d', 1) == HeaderAt(d, 1)
    ensures FreeMap(d') == FreeMap(d) && Table(d') == t
  {
    hide Content, EncodeTable, DecodeTable, StoredBits;
    ContentFrame(d, d', HeaderAt(d, 0));
    WholeFile(d, d', HeaderAt(d, 1), EncodeTable(t));
    TableRoundTrip(t);
  }

  lemma StoreMap(d: DiskImage, d': DiskImage, data: seq<Byte>)
    requires Booted(d) && |data| == 128 && Written(d, d', HeaderAt(d, 0), 0, data)
    ensures Booted(d') && HeaderAt(d', 0) == HeaderAt(d, 0) && HeaderAt(d', 1) == HeaderAt(d, 1)
    ensures FreeMap(d') == StoredBits(data) && Table(d') == Table(d)
  {
    hide Content, DecodeTable, StoredBits;
    ContentFrame(d, d', HeaderAt(d, 1));
    WholeFile(d, d', HeaderAt(d, 0), data);
  }

  // ----- The abstract view: a map from nine-character names to byte strings -----

  ghost function Names(t: seq<DirectoryEntry>): set<CString> {
    set i | 0 <= i < |t| && t[i].inUse :: StoredKey(t[i].name)
  }

  ghost function SlotOf(t: seq<DirectoryEntry>, key: CString): (i: int)
    requires key in Names(t)
    ensures Holds(t, i, key)
  {
    var i :| 0 <= i < |t| && t[i].inUse && StoredKey(t[i].name) == key;
    i
  }

  lemma NamesAreInTable(t: seq<DirectoryEntry>, key: CString)
    ensures key in Names(t) <==> InTable(t, key)
  {
    hide StoredKey;
    if key in Names(t) {
      assert Holds(t, SlotOf(t, key), key);
    }
  }

  ghost function FileAt(d: DiskImage, i: int): seq<Byte>
    requires Inv(d) && InUse(Table(d), i)
  {
    assert Table(d)[i].sector in Heads(Table(d));
    Content(d, HeaderAt(d, Table(d)[i].sector))
  }

  ghost function Files(d: DiskImage): map<CString, seq<Byte>>
    requires Inv(d)
  {
    map k | k in Names(Table(d)) :: FileAt(d, SlotOf(Table(d), k))
  }

  lemma FilesAt(d: DiskImage, i: int)
    requires Inv(d) && InUse(Table(d), i)
    ensures var k := StoredKey(Table(d)[i].name); k in Files(d) && Files(d)[k] == FileAt(d, i)
  {
  }

  /** A map that has the right names and agrees slot by slot is the abstract view. */
  lemma FilesAre(d: DiskImage, m: map<CString, seq<Byte>>)
    requires Inv(d)
    requires forall i :: InUse(Table(d), i) ==>
               StoredKey(Table(d)[i].name) in m && m[StoredKey(Table(d)[i].name)] == FileAt(d, i)
    requires forall k :: k in m ==> InTable(Table(d), k)
    ensures Files(d) == m
  {
    hide StoredKey, FileAt;
    var t := Table(d);
    forall k | k in m
      ensures k in Files(d) && Files(d)[k] == m[k]
    {
      var i :| Holds(t, i, k);
      assert InUse(t, i);
      FilesAt(d, i);
    }
    forall k | k in Files(d)
      ensures k in m
    {
      assert Holds(t, SlotOf(t, k), k);
      assert InUse(t, SlotOf(t, k));
    }
  }

  lemma FilesAdded(d: DiskImage, d': DiskImage, slot: int, key: CString)
    requires Inv(d) && Inv(d') && FreeSlot(Table(d), slot) && !InTable(Table(d), key)
    requires Filled(Table(d), Table(d'), slot, key, Table(d')[slot].sector)
    requires forall i :: InUse(Table(d), i) ==> InUse(Table(d'), i) && FileAt(d', i) == FileAt(d, i)
    ensures InUse(Table(d'), slot) && key !in Files(d) && Files(d') == Files(d)[key := FileAt(d', slot)]
  {
    hide Content, DecodeTable, StoredBits, DecodeHeader, StoredKey, FileAt;
    var t, t' := Table(d), Table(d');
    NamesAreInTable(t, key);
    var m := Files(d)[key := FileAt(d', slot)];
    forall i | InUse(t', i)
      ensures StoredKey(t'[i].name) in m && m[StoredKey(t'[i].name)] == FileAt(d', i)
    {
      if i != slot {
        assert t'[i] == t[i] && InUse(t, i);
        assert !Holds(t, i, key);
        FilesAt(d, i);
      }
    }
    forall k | k in m
      ensures InTable(t', k)
    {
      assert Holds(t', if k == key then slot else SlotOf(t, k), k);
    }
    FilesAre(d', m);
  }

  lemma FilesRemoved(d: DiskImage, d': DiskImage, slot: int, key: CString)
    requires Inv(d) && Inv(d') && Holds(Table(d), slot, key)
    requires Table(d') == Table(d)[slot := Table(d)[slot].(inUse := false)]
    requires forall i :: InUse(Table(d'), i) ==> InUse(Table(d), i) && FileAt(d', i) == FileAt(d, i)
    ensures key in Files(d) && Files(d') == Files(d) - {key}
  {
    hide Content, DecodeTable, StoredBits, DecodeHeader, StoredKey, FileAt;
    var t, t' := Table(d), Table(d');
    assert InUse(t, slot);
    FilesAt(d, slot);
    var m := Files(d) - {key};
    forall i | InUse(t', i)
      ensures StoredKey(t'[i].name) in m && m[StoredKey(t'[i].name)] == FileAt(d', i)
    {
      FilesAt(d, i);
    }
    forall k | k in m
      ensures InTable(t', k)
    {
      assert Holds(t', SlotOf(t, k), k);
    }
    FilesAre(d', m);
  }

  lemma FilesRewritten(d: DiskImage, d': DiskImage, slot: int)
    requires Inv(d) && Inv(d') && Table(d') == Table(d) && InUse(Table(d), slot)
    requires forall i :: InUse(Table(d), i) && i != slot ==> FileAt(d', i) == FileAt(d, i)
    ensures var key := StoredKey(Table(d)[slot].name);
            key in Files(d) && Files(d)[key] == FileAt(d, slot) && Files(d') == Files(d)[key := FileAt(d', slot)]
  {
    hide Content, DecodeTable, StoredBits, DecodeHeader, StoredKey, FileAt;
    var t := Table(d);
    var key := StoredKey(t[slot].name);
    FilesAt(d, slot);
    var m := Files(d)[key := FileAt(d', slot)];
    forall i | InUse(t, i)
      ensures StoredKey(t[i].name) in m && m[StoredKey(t[i].name)] == FileAt(d', i)
    {
      FilesAt(d, i);
    }
    forall k | k in m
      ensures InTable(t, k)
    {
      assert Holds(t, if k == key then slot else SlotOf(t, k), k);
    }
    FilesAre(d', m);
  }
}
