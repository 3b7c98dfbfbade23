/** Formatting a disk: the bootstrap of a free map that records its own sectors. */
module FileSystemFormat {
  import opened Bytes
  import opened Bitmaps
  import opened Disks
  import opened FileHeaders
  import opened OpenFiles
  import opened PersistentBitmaps
  import opened Directories
  import opened FileSystemModel

  datatype Formatting = Formatting(mapHdr: Header, dirHdr: Header, bits: seq<bool>, data: seq<Byte>,
                                   table: seq<DirectoryEntry>, d1: DiskImage, d2: DiskImage)

  /** The free map after both header sectors have been marked. */
  ghost function HeadersMarked(): seq<bool> {
    seq(1024, b => b == 0 || b == 1)
  }

  /** FileSystem::FileSystem(true) on a disk with arbitrary contents. */
  ghost predicate FormattedBy(d: DiskImage, d': DiskImage, f: Formatting) {
    && f.mapHdr.numBytes == 128 && f.mapHdr.numSectors == 1
    && f.dirHdr.numBytes == 200 && f.dirHdr.numSectors == 2
    && |f.data| == 128
    && FirstFit(HeadersMarked(), f.bits, f.mapHdr.dataSectors[..1])
    && FirstFit(f.bits, StoredBits(f.data), f.dirHdr.dataSectors[..2])
    && f.d1 == d[0 := EncodeHeader(f.mapHdr)][1 := EncodeHeader(f.dirHdr)]
    && |f.table| == NUM_DIR_ENTRIES && (forall i :: 0 <= i < NUM_DIR_ENTRIES ==> !f.table[i].inUse)
    && WellFormed(f.mapHdr) && Written(f.d1, f.d2, f.mapHdr, 0, f.data)
    && WellFormed(f.dirHdr) && Written(f.d2, d', f.dirHdr, 0, EncodeTable(f.table))
  }

  /** First fit gives the free map sector 2 and the directory sectors 3 and 4. */
  lemma FirstFitSectors(bits: seq<bool>, bits1: seq<bool>, bits2: seq<bool>, m: seq<int>, t: seq<int>)
    requires bits == HeadersMarked() && |m| == 1 && |t| == 2
    requires FirstFit(bits, bits1, m) && FirstFit(bits1, bits2, t)
    ensures m == [2] && t == [3, 4]
    ensures forall b :: 0 <= b < NUM_SECTORS ==> (bits2[b] <==> b < 5)
  {
    assert m[0] in ClearBits(bits) && t[0] in ClearBits(bits1) && t[1] in ClearBits(bits1);
    assert 2 in ClearBits(bits);
    assert 2 !in ClearBits(bits1);
    assert m[0] == 2;
    assert 3 in ClearBits(bits1) && 4 in ClearBits(bits1);
    assert 3 !in ClearBits(bits2);
    assert t[0] == 3;
    assert 4 !in ClearBits(bits2);
    assert t[1] == 4;
  }

  lemma FormatWrites(d: DiskImage, d': DiskImage, f: Formatting)
    requires FormattedBy(d, d', f)
    ensures Booted(d') && HeaderAt(d', 0) == f.mapHdr && HeaderAt(d', 1) == f.dirHdr
    ensures Table(d') == f.table && FreeMap(d') == StoredBits(f.data)
    ensures DataSectors(f.mapHdr) == {2} && DataSectors(f.dirHdr) == {3, 4}
    ensures forall b :: 0 <= b < NUM_SECTORS ==> (FreeMap(d')[b] <==> b < 5)
  {
    hide Content, EncodeTable, DecodeTable, StoredBits, DecodeHeader, EncodeHeader;
    var m: seq<int>, t: seq<int> := f.mapHdr.dataSectors[..1], f.dirHdr.dataSectors[..2];
    FirstFitSectors(HeadersMarked(), f.bits, StoredBits(f.data), m, t);
    assert m[0] == f.mapHdr.dataSectors[0];
    assert t[0] == f.dirHdr.dataSectors[0] && t[1] == f.dirHdr.dataSectors[1];
    assert DataSectors(f.mapHdr) == {2} && DataSectors(f.dirHdr) == {3, 4};
    HeaderRoundTrip(f.mapHdr);
    HeaderRoundTrip(f.dirHdr);
    assert Booted(f.d1);
    StoreMap(f.d1, f.d2, f.data);
    StoreTable(f.d2, d', f.table);
  }

  /** A formatted disk satisfies the invariant, holds no file, and has sectors 0 to 4 in use. */
  lemma FormatEffect(d: DiskImage, d': DiskImage, f: Formatting)
    requires FormattedBy(d, d', f)
    ensures Inv(d') && Files(d') == map[]
    ensures forall b :: 0 <= b < NUM_SECTORS ==> (FreeMap(d')[b] <==> b < 5)
  {
    hide Content, EncodeTable, DecodeTable, StoredBits, DecodeHeader, EncodeHeader, StoredKey;
    FormatWrites(d, d', f);
    assert Heads(Table(d')) == {0, 1};
    forall b | 0 <= b < NUM_SECTORS
      ensures FreeMap(d')[b] <==> exists s :: Owns(d', s, b)
    {
      if b == 0 || b == 2 {
        assert Owns(d', 0, b);
      } else if b < 5 {
        assert Owns(d', 1, b);
      }
    }
    assert Names(Table(d')) == {};
  }
}
