/** Counting sectors and names: how much a disk that satisfies the invariant can still hold. */
module FileSystemCapacity {
  import opened Bytes
  import opened Bitmaps
  import opened Disks
  import opened FileHeaders
  import opened PersistentBitmaps
  import opened Directories
  import opened FileSystemModel

  lemma {:induction false} CountDistinct(s: seq<int>)
    requires forall i, j :: 0 <= i < j < |s| ==> s[i] != s[j]
    ensures |set x | x in s| == |s|
  {
    if s != [] {
      var last := |s| - 1;
      CountDistinct(s[..last]);
      assert (set x | x in s) == (set x | x in s[..last]) + {s[last]};
    }
  }

  /** A file of n bytes occupies its header and as many sectors as it takes to hold n bytes. */
  lemma CountBlocks(d: DiskImage, s: int)
    requires 0 <= s < NUM_SECTORS && WellFormed(HeaderAt(d, s)) && s !in DataSectors(HeaderAt(d, s))
    ensures |Blocks(d, s)| == 1 + DivRoundUp(HeaderAt(d, s).numBytes, SECTOR_SIZE)
  {
    hide DecodeHeader;
    var h := HeaderAt(d, s);
    var ds: seq<int> := h.dataSectors[..h.numSectors];
    CountDistinct(ds);
    assert DataSectors(h) == set x | x in ds;
  }

  /** The sectors of the bootstrap files and of the first `k` directory entries. */
  ghost function OwnedBelow(d: DiskImage, k: nat): set<int>
    requires Inv(d) && k <= NUM_DIR_ENTRIES
  {
    if k == 0 then MetaSectors(d)
    else OwnedBelow(d, k - 1) + if Table(d)[k - 1].inUse then Blocks(d, Table(d)[k - 1].sector) else {}
  }

  ghost function SectorsBelow(d: DiskImage, k: nat): (n: nat)
    requires Inv(d) && k <= NUM_DIR_ENTRIES
    ensures 5 <= n <= 5 + 31 * k
  {
    if k == 0 then 5
    else SectorsBelow(d, k - 1) + if InUse(Table(d), k - 1) then 1 + DivRoundUp(|FileAt(d, k - 1)|, SECTOR_SIZE) else 0
  }

  lemma {:induction false} OwnedBelowIs(d: DiskImage, k: nat, b: int)
    requires Inv(d) && k <= NUM_DIR_ENTRIES
    ensures b in OwnedBelow(d, k) <==>
              b in MetaSectors(d) || exists i :: 0 <= i < k && Table(d)[i].inUse && b in Blocks(d, Table(d)[i].sector)
  {
    hide DecodeTable, StoredBits, Content, DecodeHeader, StoredKey;
    if k > 0 {
      OwnedBelowIs(d, k - 1, b);
    }
  }

  lemma CountFile(d: DiskImage, i: int)
    requires Inv(d) && InUse(Table(d), i)
    ensures |Blocks(d, Table(d)[i].sector)| == 1 + DivRoundUp(|FileAt(d, i)|, SECTOR_SIZE)
  {
    hide DecodeTable, StoredBits, DecodeHeader, StoredKey;
    assert Table(d)[i].sector in Heads(Table(d));
    CountBlocks(d, Table(d)[i].sector);
  }

  lemma CountMeta(d: DiskImage)
    requires Inv(d)
    ensures |MetaSectors(d)| == 5
  {
    hide DecodeTable, StoredBits, DecodeHeader, StoredKey;
    assert 0 in Heads(Table(d)) && 1 in Heads(Table(d));
    CountBlocks(d, 0);
    CountBlocks(d, 1);
  }

  lemma BlocksAreNew(d: DiskImage, k: nat)
    requires Inv(d) && k < NUM_DIR_ENTRIES && InUse(Table(d), k)
    ensures OwnedBelow(d, k) !! Blocks(d, Table(d)[k].sector)
  {
    hide DecodeTable, StoredBits, Content, DecodeHeader, StoredKey, Blocks, OwnedBelow, MetaSectors;
    assert Table(d)[k].sector in Heads(Table(d));
    forall b | b in Blocks(d, Table(d)[k].sector)
      ensures b !in OwnedBelow(d, k)
    {
      OwnedBelowIs(d, k, b);
      OnlyOwner(d, k, b);
    }
  }

  lemma CountUnion<T>(a: set<T>, b: set<T>)
    requires a !! b
    ensures |a + b| == |a| + |b|
  {
  }

  lemma {:induction false} CountOwned(d: DiskImage, k: nat)
    requires Inv(d) && k <= NUM_DIR_ENTRIES
    ensures |OwnedBelow(d, k)| == SectorsBelow(d, k)
  {
    hide DecodeTable, StoredBits, Content, DecodeHeader, StoredKey, Blocks, MetaSectors, FileAt, WellFormed,
         DataSectors;
    if k == 0 {
      CountMeta(d);
    } else {
      CountOwned(d, k - 1);
      if InUse(Table(d), k - 1) {
        CountFile(d, k - 1);
        BlocksAreNew(d, k - 1);
        CountUnion(OwnedBelow(d, k - 1), Blocks(d, Table(d)[k - 1].sector));
      }
    }
  }

  lemma OnlyOwner(d: DiskImage, j: nat, b: int)
    requires Inv(d) && InUse(Table(d), j) && b in Blocks(d, Table(d)[j].sector)
    ensures b !in MetaSectors(d)
    ensures forall i :: 0 <= i < j && Table(d)[i].inUse ==> b !in Blocks(d, Table(d)[i].sector)
  {
  }

  /** Conservation: the free sectors, the five bootstrap sectors and the sectors of the files add up. */
  lemma SectorsAddUp(d: DiskImage)
    requires Inv(d)
    ensures |ClearBits(FreeMap(d))| + SectorsBelow(d, NUM_DIR_ENTRIES) == NUM_SECTORS
  {
    hide DecodeTable, StoredBits, Content, DecodeHeader, StoredKey, OwnedBelow, SectorsBelow;
    var bits := FreeMap(d);
    forall b
      ensures b in OwnedBelow(d, NUM_DIR_ENTRIES) <==> b in MarkedBelow(bits, NUM_SECTORS)
    {
      OwnedIsMarked(d, b);
    }
    assert OwnedBelow(d, NUM_DIR_ENTRIES) == MarkedBelow(bits, NUM_SECTORS);
    assert ClearBits(bits) == ClearBelow(bits, NUM_SECTORS);
    CountBits(bits, NUM_SECTORS);
    CountOwned(d, NUM_DIR_ENTRIES);
  }

  lemma OwnedIsMarked(d: DiskImage, b: int)
    requires Inv(d)
    ensures b in OwnedBelow(d, NUM_DIR_ENTRIES) <==> 0 <= b < NUM_SECTORS && FreeMap(d)[b]
  {
    hide DecodeTable, StoredBits, Content, DecodeHeader, StoredKey, OwnedBelow;
    var t := Table(d);
    OwnedBelowIs(d, NUM_DIR_ENTRIES, b);
    assert 0 in Heads(t) && 1 in Heads(t);
    if b in MetaSectors(d) {
      assert Owns(d, 0, b) || Owns(d, 1, b);
    } else if i :| 0 <= i < 10 && t[i].inUse && b in Blocks(d, t[i].sector) {
      assert Owns(d, t[i].sector, b);
    }
  }

  /** On this disk geometry the directory is always full before the disk is. */
  lemma AlwaysRoom(d: DiskImage, size: nat, i: int)
    requires Inv(d) && size <= MAX_FILE_SIZE && FreeSlot(Table(d), i)
    ensures 1 + DivRoundUp(size, SECTOR_SIZE) <= |ClearBits(FreeMap(d))|
  {
    hide SectorsBelow, Inv;
    SectorsAddUp(d);
  }

  ghost function NamesBelow(t: seq<DirectoryEntry>, k: nat): set<CString>
    requires k <= |t|
  {
    set i | 0 <= i < k && t[i].inUse :: StoredKey(t[i].name)
  }

  ghost function InUseBelow(t: seq<DirectoryEntry>, k: nat): (n: nat)
    requires k <= |t|
    ensures n <= k
    ensures n == k <==> forall i :: 0 <= i < k ==> t[i].inUse
  {
    if k == 0 then 0 else InUseBelow(t, k - 1) + if t[k - 1].inUse then 1 else 0
  }

  lemma NoNames(t: seq<DirectoryEntry>)
    ensures NamesBelow(t, 0) == {}
  {
  }

  lemma NewName(t: seq<DirectoryEntry>, k: nat)
    requires TableOk(t) && k < |t|
    ensures NamesBelow(t, k + 1) == NamesBelow(t, k) + if t[k].inUse then {StoredKey(t[k].name)} else {}
    ensures t[k].inUse ==> StoredKey(t[k].name) !in NamesBelow(t, k)
  {
    hide StoredKey;
    assert forall i :: 0 <= i <= k && t[i].inUse ==> InUse(t, i);
  }

  lemma {:induction false} CountNames(t: seq<DirectoryEntry>, k: nat)
    requires TableOk(t) && k <= |t|
    ensures |NamesBelow(t, k)| == InUseBelow(t, k)
  {
    hide StoredKey, TableOk, NamesBelow;
    if k == 0 {
      NoNames(t);
    } else {
      CountNames(t, k - 1);
      NewName(t, k - 1);
      if t[k - 1].inUse {
        CountUnion(NamesBelow(t, k - 1), {StoredKey(t[k - 1].name)});
      } else {
        assert NamesBelow(t, k) == NamesBelow(t, k - 1);
      }
    }
  }

  /** There is a free directory slot exactly when there are fewer than ten files. */
  lemma SlotFreeIffFewFiles(d: DiskImage)
    requires Inv(d)
    ensures |Files(d)| <= NUM_DIR_ENTRIES
    ensures (exists i :: FreeSlot(Table(d), i)) <==> |Files(d)| < NUM_DIR_ENTRIES
  {
    hide DecodeTable, StoredBits, Content, DecodeHeader, StoredKey, FileAt;
    var t := Table(d);
    CountNames(t, NUM_DIR_ENTRIES);
    assert NamesBelow(t, NUM_DIR_ENTRIES) == Names(t);
    assert Files(d).Keys == Names(t);
    if i :| 0 <= i < 10 && !t[i].inUse {
      assert FreeSlot(t, i);
    }
  }
}
