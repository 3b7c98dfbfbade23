/** code/filesys/filehdr.cc: the on-disk index of one file (its "i-node"). */
module FileHeaders {
  import opened Bytes
  import opened Bitmaps
  import opened Disks

  const NUM_DIRECT := 30
  const MAX_FILE_SIZE := 3840

  datatype HeaderData = HeaderData(numBytes: Int32, numSectors: Int32, dataSectors: seq<Int32>)

  /** The value of a file header: exactly one sector's worth of ints. */
  type Header = h: HeaderData | |h.dataSectors| == 30 witness HeaderData(0, 0, seq(30, _ => 0))

  function HeaderWords(h: Header): (ws: seq<Word>)
    ensures |ws| == 32
  {
    [ToWord(h.numBytes), ToWord(h.numSectors)]
    + seq(30, i requires 0 <= i < 30 => ToWord(h.dataSectors[i]))
  }

  /** The header as the 128 bytes that WriteBack stores. */
  function EncodeHeader(h: Header): Sector {
    EncodeWords(HeaderWords(h))
  }

  function DecodeHeader(s: Sector): Header {
    var ws := DecodeWords(s);
    HeaderData(ToInt(ws[0]), ToInt(ws[1]), seq(30, i requires 0 <= i < 30 => ToInt(ws[i + 2])))
  }

  lemma HeaderRoundTrip(h: Header)
    ensures DecodeHeader(EncodeHeader(h)) == h
  {
    hide EncodeWords, DecodeWords;
    WordsRoundTrip(HeaderWords(h));
    var ws := HeaderWords(h);
    assert DecodeWords(EncodeHeader(h)) == ws;
    var h' := DecodeHeader(EncodeHeader(h));
    forall i | 0 <= i < 30
      ensures h'.dataSectors[i] == h.dataSectors[i]
    {
      assert ws[i + 2] == ToWord(h.dataSectors[i]);
      assert h'.dataSectors[i] == ToInt(ws[i + 2]);
      assert ToInt(ToWord(h.dataSectors[i])) == h.dataSectors[i];
    }
  }

  /** The header lies in its sector as 32 little-endian ints: the length, the number of sectors, the sectors in order.
      */
  lemma HeaderLayout(s: Sector)
    ensures var h := DecodeHeader(s);
            && ToWord(h.numBytes) == LittleEndian(s[..4]) && ToWord(h.numSectors) == LittleEndian(s[4..8])
            && forall i :: 0 <= i < 30 ==> ToWord(h.dataSectors[i]) == LittleEndian(s[4 * (i + 2)..4 * (i + 2) + 4])
  {
    hide LittleEndian, DecodeWord;
    DecodedIsLittleEndian(s[..4]);
    DecodedIsLittleEndian(s[4..8]);
    assert s[4 * 0..4 * 0 + 4] == s[..4] && s[4 * 1..4 * 1 + 4] == s[4..8];
    forall i | 0 <= i < 30
      ensures ToWord(DecodeHeader(s).dataSectors[i]) == LittleEndian(s[4 * (i + 2)..4 * (i + 2) + 4])
    {
      DecodedIsLittleEndian(s[4 * (i + 2)..4 * (i + 2) + 4]);
      assert DecodeWords(s)[i + 2] == DecodeWord(s[4 * (i + 2)..4 * (i + 2) + 4]);
      assert DecodeHeader(s).dataSectors[i] == ToInt(DecodeWords(s)[i + 2]);
    }
  }

  /** A header that describes a file: a legal length, and that many distinct sectors of the disk. */
  ghost predicate WellFormed(h: Header) {
    && 0 <= h.numBytes <= MAX_FILE_SIZE
    && h.numSectors == DivRoundUp(h.numBytes, SECTOR_SIZE)
    && (forall i :: 0 <= i < h.numSectors ==> 0 <= h.dataSectors[i] < NUM_SECTORS)
    && (forall i, j :: 0 <= i < j < h.numSectors ==> h.dataSectors[i] != h.dataSectors[j])
  }

  /** The sectors that hold the file's data. */
  ghost function DataSectors(h: Header): set<int> {
    set i | 0 <= i < h.numSectors && i < 30 :: h.dataSectors[i]
  }

  /** The bytes of the file that `h` describes, on disk `d`. */
  ghost function Content(d: DiskImage, h: Header): (s: seq<Byte>)
    requires WellFormed(h)
    ensures |s| == h.numBytes
  {
    seq(h.numBytes, i requires 0 <= i < h.numBytes => d[h.dataSectors[i / 128]][i % 128])
  }

  /** A file's bytes depend on its own data sectors only. */
  lemma ContentFrame(d: DiskImage, d': DiskImage, h: Header)
    requires WellFormed(h)
    requires forall s :: s in DataSectors(h) ==> d'[s] == d[s]
    ensures Content(d', h) == Content(d, h)
  {
  }

  class FileHeader {
    var numBytes: Int32
    var numSectors: Int32
    const dataSectors: array<Int32>

    ghost predicate Valid() {
      dataSectors.Length == NUM_DIRECT
    }

    ghost function View(): Header
      requires Valid()
      reads this, dataSectors
    {
      HeaderData(numBytes, numSectors, dataSectors[..])
    }

    /** There is no initialisation in the source: the fields hold whatever was in memory. */
    constructor ()
      ensures Valid() && fresh(dataSectors)
    {
      dataSectors := new Int32[NUM_DIRECT];
    }

    /** Succeeds exactly when enough sectors are free; then takes the lowest ones.  Only a file that is too long for the
        array of sectors although there is room for it on the disk is excluded: the source overruns the array. */
    method Allocate(freeMap: Bitmap, fileSize: Int32) returns (ok: bool)
      requires Valid() && freeMap.Valid() && freeMap.numBits == NUM_SECTORS
      requires 0 <= fileSize
      requires fileSize <= MAX_FILE_SIZE || DivRoundUp(fileSize, SECTOR_SIZE) > |ClearBits(freeMap.Bits())|
      modifies this, dataSectors, freeMap.map_
      ensures ok <==> DivRoundUp(fileSize, SECTOR_SIZE) <= |ClearBits(old(freeMap.Bits()))|
      ensures !ok ==> freeMap.Bits() == old(freeMap.Bits())
      ensures ok ==> numBytes == fileSize && numSectors == DivRoundUp(fileSize, SECTOR_SIZE) <= NUM_DIRECT
      ensures ok ==> FirstFit(old(freeMap.Bits()), freeMap.Bits(), dataSectors[..numSectors])
    {
      numBytes := fileSize;
      numSectors := DivRoundUp(fileSize, SECTOR_SIZE);
      var free := freeMap.NumClear();
      if free < numSectors {
        return false;
      }
      ghost var bits0 := freeMap.Bits();
      for i := 0 to numSectors
        invariant numBytes == fileSize && numSectors == DivRoundUp(fileSize, SECTOR_SIZE)
        invariant FirstFit(bits0, freeMap.Bits(), dataSectors[..i])
        invariant |ClearBits(freeMap.Bits())| == |ClearBits(bits0)| - i
      {
        ghost var taken := dataSectors[..i];
        ghost var bits := freeMap.Bits();
        var found := freeMap.FindAndSet();
        FirstFitStep(bits0, bits, taken, found);
        dataSectors[i] := found;
        assert dataSectors[..i + 1] == taken + [found];
      }
      return true;
    }

    /** Clears the bits of all the file's data sectors; each one must be set when its turn comes. */
    method Deallocate(freeMap: Bitmap)
      requires Valid() && freeMap.Valid() && freeMap.numBits == NUM_SECTORS
      requires WellFormed(View())
      requires forall s :: s in DataSectors(View()) ==> freeMap.Bits()[s]
      modifies freeMap.map_
      ensures forall b :: 0 <= b < NUM_SECTORS ==>
                freeMap.Bits()[b] == (old(freeMap.Bits())[b] && b !in DataSectors(View()))
    {
      for i := 0 to numSectors
        invariant forall b :: 0 <= b < NUM_SECTORS ==>
                    freeMap.Bits()[b] == (old(freeMap.Bits())[b] && b !in dataSectors[..i])
      {
        assert dataSectors[i] in DataSectors(View());
        var marked := freeMap.Test(dataSectors[i]);
        assert marked;
        freeMap.Clear(dataSectors[i]);
      }
    }

    method FetchFrom(disk: SynchDisk, sector: nat)
      requires Valid() && sector < NUM_SECTORS
      modifies this, dataSectors
      ensures View() == DecodeHeader(disk.image[sector])
    {
      var raw := new Byte[SECTOR_SIZE];
      disk.ReadSector(sector, raw, 0);
      assert raw[..] == disk.image[sector];
      var h := DecodeHeader(raw[..]);
      numBytes, numSectors := h.numBytes, h.numSectors;
      forall i | 0 <= i < NUM_DIRECT {
        dataSectors[i] := h.dataSectors[i];
      }
    }

    method WriteBack(disk: SynchDisk, sector: nat)
      requires Valid() && sector < NUM_SECTORS
      modifies disk
      ensures disk.image == old(disk.image)[sector := EncodeHeader(View())]
    {
      var bytes := EncodeHeader(HeaderData(numBytes, numSectors, dataSectors[..]));
      var raw := new Byte[SECTOR_SIZE](i requires 0 <= i < SECTOR_SIZE => bytes[i]);
      assert raw[0..SECTOR_SIZE] == bytes;
      disk.WriteSector(sector, raw, 0);
    }

    /** The sector that holds the byte at `offset`, whatever the disk holds. */
    method ByteToSector(offset: nat) returns (sector: Int32)
      requires Valid() && offset / SECTOR_SIZE < NUM_DIRECT
      ensures sector == View().dataSectors[offset / SECTOR_SIZE]
      ensures WellFormed(View()) && offset < numBytes ==>
                && sector in DataSectors(View()) && 0 <= sector < NUM_SECTORS
                && forall d: DiskImage :: Content(d, View())[offset] == d[sector][offset % SECTOR_SIZE]
    {
      sector := dataSectors[offset / SECTOR_SIZE];
    }
  }
}
