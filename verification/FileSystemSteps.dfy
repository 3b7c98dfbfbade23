/** Create, Remove and writes as relations between disks, and what each keeps. */
module FileSystemSteps {
  import opened Bytes
  import opened Bitmaps
  import opened Disks
  import opened FileHeaders
  import opened OpenFiles
  import opened PersistentBitmaps
  import opened Directories
  import opened FileSystemModel

  /** The choices and intermediate disks of one successful Create. */
  datatype Creation = Creation(sector: int, slot: int, header: Header, table: seq<DirectoryEntry>,
                               data: seq<Byte>, d1: DiskImage, d2: DiskImage)

  /** FileSystem::Create, step by step, from the header sector to the three disk writes. */
  ghost predicate CreatedBy(d: DiskImage, d': DiskImage, key: CString, size: nat, c: Creation)
    requires Inv(d)
  {
    var t, bits := Table(d), FreeMap(d);
    && IsFirstClear(bits, c.sector)
    && FreeSlot(t, c.slot) && (forall i :: FreeSlot(t, i) ==> c.slot <= i)
    && 0 <= c.sector < NUM_SECTORS && Filled(t, c.table, c.slot, key, c.sector)
    && size <= MAX_FILE_SIZE && c.header.numBytes == size && c.header.numSectors == DivRoundUp(size, SECTOR_SIZE)
    && |c.data| == 128
    && FirstFit(bits[c.sector := true], StoredBits(c.data), c.header.dataSectors[..c.header.numSectors])
    && c.d1 == d[c.sector := EncodeHeader(c.header)]
    && Written(c.d1, c.d2, HeaderAt(d, 1), 0, EncodeTable(c.table))
    && Written(c.d2, d', HeaderAt(d, 0), 0, c.data)
  }

  ghost predicate Created(d: DiskImage, d': DiskImage, key: CString, size: nat)
    requires Inv(d)
  {
    exists c :: CreatedBy(d, d', key, size, c)
  }

  /** The three writes of a Create, taken together. */
  lemma CreateWrites(d: DiskImage, d': DiskImage, key: CString, size: nat, c: Creation)
    requires Inv(d) && CreatedBy(d, d', key, size, c)
    ensures Booted(d') && HeaderAt(d', 0) == HeaderAt(d, 0) && HeaderAt(d', 1) == HeaderAt(d, 1)
    ensures FreeMap(d') == StoredBits(c.data) && Table(d') == c.table
    ensures HeaderAt(d', c.sector) == c.header
    ensures forall b :: 0 <= b < NUM_SECTORS && b !in MetaSectors(d) && b != c.sector ==> d'[b] == d[b]
    ensures forall s :: !Owns(d, s, c.sector)
  {
    hide Content, EncodeTable, DecodeTable, StoredBits, DecodeHeader, EncodeHeader;
    assert !FreeMap(d)[c.sector];
    assert 0 in Heads(Table(d)) && 1 in Heads(Table(d));
    assert !Owns(d, 0, c.sector) && !Owns(d, 1, c.sector);
    assert c.sector !in MetaSectors(d);
    StoreOther(d, c.d1);
    StoreTable(c.d1, c.d2, c.table);
    StoreMap(c.d2, d', c.data);
    HeaderRoundTrip(c.header);
  }

  /** The allocator handed out sectors that no file owned, and other than the header's. */
  lemma NewFileIsApart(d: DiskImage, d': DiskImage, key: CString, size: nat, c: Creation)
    requires Inv(d) && CreatedBy(d, d', key, size, c)
    ensures WellFormed(c.header) && c.sector !in DataSectors(c.header)
    ensures forall b :: b in DataSectors(c.header) ==> 0 <= b < NUM_SECTORS && !FreeMap(d)[b]
    ensures forall b :: b in DataSectors(c.header) <==> b in c.header.dataSectors[..c.header.numSectors]
  {
    hide Content, EncodeTable, DecodeTable, StoredBits, DecodeHeader, EncodeHeader;
    var h := c.header;
    var taken := h.dataSectors[..h.numSectors];
    forall i | 0 <= i < h.numSectors
      ensures taken[i] == h.dataSectors[i] && 0 <= taken[i] < NUM_SECTORS && taken[i] != c.sector && !FreeMap(d)[taken[i]]
    {
      assert taken[i] in ClearBits(FreeMap(d)[c.sector := true]);
    }
  }

  /** Files that existed before keep their headers. */
  lemma CreateKeepsHeaders(d: DiskImage, d': DiskImage, key: CString, size: nat, c: Creation, s: int)
    requires Inv(d) && CreatedBy(d, d', key, size, c) && s in Heads(Table(d))
    ensures HeaderAt(d', s) == HeaderAt(d, s) && s != c.sector
  {
    hide Content, EncodeTable, DecodeTable, StoredBits, DecodeHeader, EncodeHeader;
    CreateWrites(d, d', key, size, c);
    assert !Owns(d, s, c.sector);
    if s != 0 && s != 1 {
      assert 0 in Heads(Table(d)) && 1 in Heads(Table(d));
      assert s in Blocks(d, s);
    }
  }

  lemma CreatedHeads(t: seq<DirectoryEntry>, t': seq<DirectoryEntry>, slot: int, key: CString, sector: Int32)
    requires FreeSlot(t, slot) && Filled(t, t', slot, key, sector)
    ensures Heads(t') == Heads(t) + {sector}
  {
    assert forall i :: 0 <= i < |t| && i != slot ==> t'[i] == t[i];
    assert t'[slot].inUse && t'[slot].sector == sector;
  }

  lemma CreatedTable(t: seq<DirectoryEntry>, t': seq<DirectoryEntry>, slot: int, key: CString, sector: Int32)
    requires TableOk(t) && FreeSlot(t, slot) && Filled(t, t', slot, key, sector)
    requires !InTable(t, key) && 2 <= sector < NUM_SECTORS && sector !in Heads(t)
    ensures TableOk(t')
  {
    hide StoredKey;
    forall i | InUse(t', i) && i != slot
      ensures InUse(t, i) && t'[i] == t[i] && t[i].sector != sector && StoredKey(t[i].name) != key
    {
      assert t'[i] == t[i];
      assert t[i].sector in Heads(t);
      assert !Holds(t, i, key);
    }
  }

  lemma CreatedOwner(d: DiskImage, d': DiskImage, key: CString, size: nat, c: Creation, b: int)
    requires Inv(d) && CreatedBy(d, d', key, size, c) && 0 <= b < NUM_SECTORS && Booted(d')
    ensures FreeMap(d')[b] <==> exists s :: Owns(d', s, b)
  {
    hide Content, EncodeTable, DecodeTable, StoredBits, DecodeHeader, EncodeHeader, StoredKey;
    CreateWrites(d, d', key, size, c);
    NewFileIsApart(d, d', key, size, c);
    CreatedHeads(Table(d), Table(d'), c.slot, key, c.sector);
    assert FreeMap(d')[b] == (FreeMap(d)[b] || b in Blocks(d', c.sector));
    if b in Blocks(d', c.sector) {
      assert Owns(d', c.sector, b);
    } else {
      forall s | s in Heads(Table(d))
        ensures Owns(d', s, b) <==> Owns(d, s, b)
      {
        CreateKeepsHeaders(d, d', key, size, c, s);
      }
    }
  }

  lemma CreateKeepsInv(d: DiskImage, d': DiskImage, key: CString, size: nat, c: Creation)
    requires Inv(d) && CreatedBy(d, d', key, size, c) && !InTable(Table(d), key)
    ensures Inv(d')
  {
    hide Content, EncodeTable, DecodeTable, StoredBits, DecodeHeader, EncodeHeader, StoredKey;
    CreateWrites(d, d', key, size, c);
    NewFileIsApart(d, d', key, size, c);
    var t, t' := Table(d), Table(d');
    CreatedHeads(t, t', c.slot, key, c.sector);
    forall s | s in Heads(t)
      ensures HeaderAt(d', s) == HeaderAt(d, s) && s != c.sector
    {
      CreateKeepsHeaders(d, d', key, size, c, s);
    }
    CreatedTable(t, t', c.slot, key, c.sector);
    forall s | s in Heads(t)
      ensures Blocks(d', s) == Blocks(d, s) && Blocks(d, s) !! Blocks(d', c.sector)
    {
      forall b | b in Blocks(d', c.sector)
        ensures b !in Blocks(d, s)
      {
        assert !FreeMap(d)[b];
        assert !Owns(d, s, b);
      }
    }
    forall b | 0 <= b < NUM_SECTORS
      ensures FreeMap(d')[b] <==> exists s :: Owns(d', s, b)
    {
      CreatedOwner(d, d', key, size, c, b);
    }
  }

  /** Files that existed before keep their bytes. */
  lemma CreateKeepsContent(d: DiskImage, d': DiskImage, key: CString, size: nat, c: Creation, s: int)
    requires Inv(d) && CreatedBy(d, d', key, size, c) && s in Heads(Table(d)) && s != 0 && s != 1
    ensures HeaderAt(d', s) == HeaderAt(d, s)
    ensures Content(d', HeaderAt(d, s)) == Content(d, HeaderAt(d, s))
  {
    hide Content, EncodeTable, DecodeTable, StoredBits, DecodeHeader, EncodeHeader;
    CreateWrites(d, d', key, size, c);
    CreateKeepsHeaders(d, d', key, size, c, s);
    assert 0 in Heads(Table(d)) && 1 in Heads(Table(d));
    assert !Owns(d, s, c.sector);
    assert Blocks(d, s) !! Blocks(d, 0) && Blocks(d, s) !! Blocks(d, 1);
    forall b | b in DataSectors(HeaderAt(d, s))
      ensures 0 <= b < NUM_SECTORS && d'[b] == d[b]
    {
      assert b in Blocks(d, s);
    }
    ContentFrame(d, d', HeaderAt(d, s));
  }

  /** A successful Create adds one file of the requested length and changes no other. */
  lemma CreateEffect(d: DiskImage, d': DiskImage, key: CString, size: nat, c: Creation)
    requires Inv(d) && CreatedBy(d, d', key, size, c) && !InTable(Table(d), key)
    ensures Inv(d') && key !in Files(d)
    ensures key in Files(d') && |Files(d')[key]| == size
    ensures Files(d') == Files(d)[key := Files(d')[key]]
  {
    hide Content, EncodeTable, DecodeTable, StoredBits, DecodeHeader, EncodeHeader, StoredKey;
    CreateKeepsInv(d, d', key, size, c);
    CreateWrites(d, d', key, size, c);
    forall i | InUse(Table(d), i)
      ensures InUse(Table(d'), i) && FileAt(d', i) == FileAt(d, i)
    {
      CreateKeepsFile(d, d', key, size, c, i);
    }
    FilesAdded(d, d', c.slot, key);
  }

  lemma CreateKeepsFile(d: DiskImage, d': DiskImage, key: CString, size: nat, c: Creation, i: int)
    requires Inv(d) && Inv(d') && CreatedBy(d, d', key, size, c) && InUse(Table(d), i)
    ensures InUse(Table(d'), i) && FileAt(d', i) == FileAt(d, i)
  {
    hide Content, EncodeTable, DecodeTable, StoredBits, DecodeHeader, EncodeHeader, StoredKey;
    CreateWrites(d, d', key, size, c);
    assert i != c.slot && Table(d')[i] == Table(d)[i] && Table(d)[i].sector in Heads(Table(d));
    CreateKeepsContent(d, d', key, size, c, Table(d)[i].sector);
  }

  // ----- Remove -----

  datatype Removal = Removal(slot: int, data: seq<Byte>, d1: DiskImage)

  /** FileSystem::Remove: clear the file's sectors in the free map, then free its directory slot. */
  ghost predicate RemovedBy(d: DiskImage, d': DiskImage, key: CString, r: Removal)
    requires Inv(d)
  {
    var t, bits := Table(d), FreeMap(d);
    && Holds(t, r.slot, key)
    && 0 <= t[r.slot].sector < NUM_SECTORS
    && |r.data| == 128
    && (forall b :: 0 <= b < NUM_SECTORS ==> StoredBits(r.data)[b] == (bits[b] && b !in Blocks(d, t[r.slot].sector)))
    && Written(d, r.d1, HeaderAt(d, 0), 0, r.data)
    && Written(r.d1, d', HeaderAt(d, 1), 0, EncodeTable(t[r.slot := t[r.slot].(inUse := false)]))
  }

  ghost predicate Removed(d: DiskImage, d': DiskImage, key: CString)
    requires Inv(d)
  {
    exists r :: RemovedBy(d, d', key, r)
  }

  lemma RemoveWrites(d: DiskImage, d': DiskImage, key: CString, r: Removal)
    requires Inv(d) && RemovedBy(d, d', key, r)
    ensures Booted(d') && HeaderAt(d', 0) == HeaderAt(d, 0) && HeaderAt(d', 1) == HeaderAt(d, 1)
    ensures FreeMap(d') == StoredBits(r.data)
    ensures Table(d') == Table(d)[r.slot := Table(d)[r.slot].(inUse := false)]
    ensures forall b :: 0 <= b < NUM_SECTORS && b !in MetaSectors(d) ==> d'[b] == d[b]
  {
    hide Content, EncodeTable, DecodeTable, StoredBits, DecodeHeader, StoredKey;
    StoreMap(d, r.d1, r.data);
    StoreTable(r.d1, d', Table(d)[r.slot := Table(d)[r.slot].(inUse := false)]);
  }

  /** Whatever leaves all sectors outside the bootstrap files alone keeps every file's header and bytes. */
  lemma OtherFilesKept(d: DiskImage, d': DiskImage, s: int)
    requires Inv(d) && Booted(d') && HeaderAt(d', 0) == HeaderAt(d, 0) && HeaderAt(d', 1) == HeaderAt(d, 1)
    requires s in Heads(Table(d))
    requires forall b :: 0 <= b < NUM_SECTORS && b !in MetaSectors(d) && b in Blocks(d, s) ==> d'[b] == d[b]
    ensures HeaderAt(d', s) == HeaderAt(d, s) && Blocks(d', s) == Blocks(d, s)
    ensures s != 0 && s != 1 ==> Content(d', HeaderAt(d, s)) == Content(d, HeaderAt(d, s))
  {
    hide Content, DecodeTable, StoredBits, DecodeHeader;
    if s != 0 && s != 1 {
      assert 0 in Heads(Table(d)) && 1 in Heads(Table(d));
      assert Blocks(d, s) !! Blocks(d, 0) && Blocks(d, s) !! Blocks(d, 1);
      assert s in Blocks(d, s);
      forall b | b in DataSectors(HeaderAt(d, s))
        ensures 0 <= b < NUM_SECTORS && d'[b] == d[b]
      {
        assert b in Blocks(d, s);
      }
      ContentFrame(d, d', HeaderAt(d, s));
    }
  }

  lemma RemovedHeads(t: seq<DirectoryEntry>, slot: int)
    requires TableOk(t) && InUse(t, slot)
    ensures Heads(t[slot := t[slot].(inUse := false)]) == Heads(t) - {t[slot].sector}
    ensures TableOk(t[slot := t[slot].(inUse := false)])
  {
    hide StoredKey;
    var t' := t[slot := t[slot].(inUse := false)];
    assert forall i :: InUse(t', i) <==> InUse(t, i) && i != slot;
    forall s | s in Heads(t) && s != t[slot].sector
      ensures s in Heads(t')
    {
      if s != 0 && s != 1 {
        var i :| 0 <= i < |t| && t[i].inUse && t[i].sector == s;
        assert t'[i].inUse && t'[i].sector == s;
      }
    }
    forall s | s in Heads(t')
      ensures s in Heads(t) && s != t[slot].sector
    {
      if s != 0 && s != 1 {
        var i :| 0 <= i < |t'| && t'[i].inUse && t'[i].sector == s;
        assert InUse(t, i) && t[i].sector == s;
      }
    }
  }

  lemma RemoveKeepsInv(d: DiskImage, d': DiskImage, key: CString, r: Removal)
    requires Inv(d) && RemovedBy(d, d', key, r)
    ensures Inv(d')
  {
    hide Content, EncodeTable, DecodeTable, StoredBits, DecodeHeader, StoredKey;
    RemoveWrites(d, d', key, r);
    var t, t' := Table(d), Table(d');
    var gone := t[r.slot].sector;
    assert InUse(t, r.slot) && gone in Heads(t);
    RemovedHeads(t, r.slot);
    forall s | s in Heads(t)
      ensures HeaderAt(d', s) == HeaderAt(d, s) && Blocks(d', s) == Blocks(d, s)
    {
      OtherFilesKept(d, d', s);
    }
    forall b | 0 <= b < NUM_SECTORS
      ensures FreeMap(d')[b] <==> exists s :: Owns(d', s, b)
    {
      if FreeMap(d')[b] {
        var s :| Owns(d, s, b);
        assert s != gone;
        assert Owns(d', s, b);
      } else {
        forall s
          ensures !Owns(d', s, b)
        {
          assert Owns(d', s, b) ==> Owns(d, s, b) && s != gone;
        }
      }
    }
  }

  lemma RemoveKeepsFile(d: DiskImage, d': DiskImage, key: CString, r: Removal, i: int)
    requires Inv(d) && Inv(d') && RemovedBy(d, d', key, r) && InUse(Table(d'), i)
    ensures i != r.slot && InUse(Table(d), i) && Table(d')[i] == Table(d)[i] && FileAt(d', i) == FileAt(d, i)
  {
    hide Content, EncodeTable, DecodeTable, StoredBits, DecodeHeader, StoredKey;
    RemoveWrites(d, d', key, r);
    assert InUse(Table(d), i);
    assert Table(d)[i].sector in Heads(Table(d));
    OtherFilesKept(d, d', Table(d)[i].sector);
  }

  /** Remove deletes one file and changes no other. */
  lemma RemoveEffect(d: DiskImage, d': DiskImage, key: CString, r: Removal)
    requires Inv(d) && RemovedBy(d, d', key, r)
    ensures Inv(d') && key in Files(d) && Files(d') == Files(d) - {key}
  {
    hide Content, EncodeTable, DecodeTable, StoredBits, DecodeHeader, StoredKey;
    RemoveKeepsInv(d, d', key, r);
    RemoveWrites(d, d', key, r);
    forall i | InUse(Table(d'), i)
      ensures InUse(Table(d), i) && FileAt(d', i) == FileAt(d, i)
    {
      RemoveKeepsFile(d, d', key, r, i);
    }
    FilesRemoved(d, d', r.slot, key);
  }

  // ----- Writing to an open file -----

  /** A write through a handle on the file whose header is in sector `s`. */
  ghost predicate WroteTo(d: DiskImage, d': DiskImage, s: int, position: nat, data: seq<Byte>)
    requires Inv(d)
  {
    s in Heads(Table(d)) && s != 0 && s != 1 && Written(d, d', HeaderAt(d, s), position, data)
  }

  /** A write reaches the sectors of no other file. */
  lemma WriteKeeps(d: DiskImage, d': DiskImage, s: int, position: nat, data: seq<Byte>)
    requires Inv(d) && WroteTo(d, d', s, position, data)
    ensures Inv(d') && FreeMap(d') == FreeMap(d) && Table(d') == Table(d)
    ensures forall o :: o in Heads(Table(d)) ==> HeaderAt(d', o) == HeaderAt(d, o)
    ensures forall o :: o in Heads(Table(d)) && o != s ==> Content(d', HeaderAt(d, o)) == Content(d, HeaderAt(d, o))
  {
    hide Content, EncodeTable, DecodeTable, StoredBits, DecodeHeader, StoredKey;
    var t := Table(d);
    assert 0 in Heads(t) && 1 in Heads(t);
    assert Blocks(d, s) !! Blocks(d, 0) && Blocks(d, s) !! Blocks(d, 1);
    StoreOther(d, d');
    forall o | o in Heads(t)
      ensures HeaderAt(d', o) == HeaderAt(d, o) && Blocks(d', o) == Blocks(d, o)
      ensures o != s ==> Content(d', HeaderAt(d, o)) == Content(d, HeaderAt(d, o))
    {
      if o != s {
        assert Blocks(d, s) !! Blocks(d, o) && o in Blocks(d, o);
        forall b | b in DataSectors(HeaderAt(d, o))
          ensures 0 <= b < NUM_SECTORS && d'[b] == d[b]
        {
          assert b in Blocks(d, o);
        }
        ContentFrame(d, d', HeaderAt(d, o));
      }
    }
    assert forall o, b :: Owns(d', o, b) <==> Owns(d, o, b);
  }

  /** A write splices its bytes into the one file and changes no other. */
  lemma WriteEffect(d: DiskImage, d': DiskImage, slot: int, position: nat, data: seq<Byte>)
    requires Inv(d) && InUse(Table(d), slot) && WroteTo(d, d', Table(d)[slot].sector, position, data)
    ensures Inv(d') && StoredKey(Table(d)[slot].name) in Files(d)
    ensures var key := StoredKey(Table(d)[slot].name); var was := Files(d)[key];
            data == [] || position + |data| <= |was|
    ensures var key := StoredKey(Table(d)[slot].name); var was := Files(d)[key];
            Files(d') == Files(d)[key := if data == [] then was else Splice(was, position, data)]
  {
    hide Content, EncodeTable, DecodeTable, StoredBits, DecodeHeader, StoredKey;
    var s := Table(d)[slot].sector;
    WriteKeeps(d, d', s, position, data);
    forall i | InUse(Table(d), i) && i != slot
      ensures FileAt(d', i) == FileAt(d, i)
    {
      assert Table(d)[i].sector in Heads(Table(d));
    }
    FilesRewritten(d, d', slot);
  }
}
