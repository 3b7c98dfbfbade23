/** code/filesys/openfile.cc: byte-granular access to a file over whole-sector disk requests. */
module OpenFiles {
  import opened Bytes
  import opened Disks
  import opened FileHeaders

  /** How many bytes a request transfers: as many as were asked for, but nothing past the end of the file. */
  function Clip(fileLength: nat, numBytes: int, position: nat): (n: nat)
    ensures position + n <= fileLength || n == 0
    ensures n == 0 || n <= numBytes
    ensures n >= numBytes || position + n >= fileLength
  {
    if numBytes <= 0 || position >= fileLength then 0
    else if position + numBytes > fileLength then fileLength - position
    else numBytes
  }

  /** The bytes that a request of `numBytes` at `position` transfers out of a file. */
  function Slice(file: seq<Byte>, numBytes: int, position: nat): seq<Byte> {
    var n := Clip(|file|, numBytes, position);
    if n == 0 then [] else file[position..position + n]
  }

  /** A buffer whose beginning is overwritten by the file, as far as both reach. */
  function Overlaid(buffer: seq<Byte>, file: seq<Byte>): (r: seq<Byte>)
    ensures |r| == |buffer|
    ensures |file| == |buffer| ==> r == file
    ensures forall i {:trigger r[i]} :: 0 <= i < |r| ==> r[i] == if i < |file| then file[i] else buffer[i]
  {
    if |file| >= |buffer| then file[..|buffer|] else file + buffer[|file|..]
  }

  /** A buffer as far as it fits into a file of `length` bytes. */
  function Cut(buffer: seq<Byte>, length: nat): (r: seq<Byte>)
    ensures |buffer| <= length ==> r == buffer
    ensures r <= buffer && (|r| == length || |r| == |buffer|)
  {
    if |buffer| <= length then buffer else buffer[..length]
  }

  /** Disk `d'` is disk `d` after `data` was stored in the file `h` at byte `position`:
      no sector outside the file changed, and no byte of the file outside the range changed. */
  ghost predicate Written(d: DiskImage, d': DiskImage, h: Header, position: nat, data: seq<Byte>)
    requires WellFormed(h)
  {
    && (forall s :: 0 <= s < NUM_SECTORS && s !in DataSectors(h) ==> d'[s] == d[s])
    && if data == [] then Content(d', h) == Content(d, h)
       else position + |data| <= h.numBytes && Content(d', h) == Splice(Content(d, h), position, data)
  }

  /** `d'` is `d` with sectors first..end-1 of the file `h` replaced by consecutive pieces of `buf`. */
  ghost predicate SectorsReplaced(d: DiskImage, d': DiskImage, h: Header, first: nat, end: nat, buf: seq<Byte>)
    requires WellFormed(h) && first <= end <= h.numSectors && (end - first) * 128 <= |buf|
  {
    && (forall s :: 0 <= s < NUM_SECTORS && (forall j :: first <= j < end ==> h.dataSectors[j] != s) ==> d'[s] == d[s])
    && (forall j, k :: first <= j < end && 0 <= k < 128 ==> d'[h.dataSectors[j]][k] == buf[(j - first) * 128 + k])
  }

  lemma ReplaceNext(d: DiskImage, d1: DiskImage, d2: DiskImage, h: Header, first: nat, i: nat, buf: seq<Byte>)
    requires WellFormed(h) && first <= i < h.numSectors && (i + 1 - first) * 128 <= |buf|
    requires SectorsReplaced(d, d1, h, first, i, buf)
    requires d2 == d1[h.dataSectors[i] := buf[(i - first) * 128..(i - first) * 128 + 128]]
    ensures SectorsReplaced(d, d2, h, first, i + 1, buf)
  {
  }

  lemma ReplacedIsWritten(d: DiskImage, d': DiskImage, h: Header, first: nat, last: nat, buf: seq<Byte>,
                          position: nat, data: seq<Byte>)
    requires WellFormed(h) && 0 < |data| && position + |data| <= h.numBytes
    requires first == position / 128 && last == (position + |data| - 1) / 128
    requires |buf| == (1 + last - first) * 128
    requires SectorsReplaced(d, d', h, first, last + 1, buf)
    requires forall k :: 0 <= k < |buf| && first * 128 + k < h.numBytes ==>
               buf[k] == Splice(Content(d, h), position, data)[first * 128 + k]
    ensures Written(d, d', h, position, data)
  {
    hide Content;
    forall s | 0 <= s < NUM_SECTORS && s !in DataSectors(h)
      ensures d'[s] == d[s]
    {
      assert forall j :: first <= j < last + 1 ==> h.dataSectors[j] in DataSectors(h);
    }
    forall o | 0 <= o < h.numBytes
      ensures Content(d', h)[o] == Splice(Content(d, h), position, data)[o]
    {
      ReplacedByte(d, d', h, first, last + 1, buf, o);
    }
  }

  /** What each byte of the file is once sectors first..end-1 have been replaced. */
  lemma ReplacedByte(d: DiskImage, d': DiskImage, h: Header, first: nat, end: nat, buf: seq<Byte>, o: nat)
    requires WellFormed(h) && first <= end <= h.numSectors && |buf| == (end - first) * 128
    requires SectorsReplaced(d, d', h, first, end, buf) && o < h.numBytes
    ensures Content(d', h)[o] == if first <= o / 128 < end then buf[o - first * 128] else Content(d, h)[o]
  {
  }

  class OpenFile {
    const disk: SynchDisk
    const hdr: FileHeader
    var seekPosition: nat

    ghost predicate Valid()
      reads hdr, hdr.dataSectors
    {
      hdr.Valid() && WellFormed(hdr.View())
    }

    constructor (disk: SynchDisk, sector: nat)
      requires sector < NUM_SECTORS && WellFormed(DecodeHeader(disk.image[sector]))
      ensures Valid() && fresh(hdr) && fresh(hdr.dataSectors) && this.disk == disk
      ensures hdr.View() == DecodeHeader(disk.image[sector]) && seekPosition == 0
    {
      var h := new FileHeader();
      h.FetchFrom(disk, sector);
      this.disk, hdr, seekPosition := disk, h, 0;
    }

    method Seek(position: nat)
      modifies this
      ensures seekPosition == position
    {
      seekPosition := position;
    }

    /** The loop of ReadAt: whole sectors first..last of the file, into `buf`. */
    method ReadSectors(buf: array<Byte>, firstSector: nat, lastSector: nat)
      requires Valid()
      requires firstSector <= lastSector < hdr.View().numSectors
      requires buf.Length == (1 + lastSector - firstSector) * SECTOR_SIZE
      modifies buf
      ensures forall k :: 0 <= k < buf.Length && firstSector * SECTOR_SIZE + k < hdr.View().numBytes ==>
                buf[k] == Content(disk.image, hdr.View())[firstSector * SECTOR_SIZE + k]
    {
      ghost var content := Content(disk.image, hdr.View());
      for i := firstSector to lastSector + 1
        invariant forall k :: 0 <= k < (i - firstSector) * SECTOR_SIZE && firstSector * SECTOR_SIZE + k < |content| ==>
                    buf[k] == content[firstSector * SECTOR_SIZE + k]
      {
        var sector := hdr.ByteToSector(i * SECTOR_SIZE);
        disk.ReadSector(sector, buf, (i - firstSector) * SECTOR_SIZE);
      }
    }

    /** The file's bytes from `position` on, cut at the end of the file, go to `into[at..]`. */
    method ReadAt(into: array<Byte>, at: nat, numBytes: int, position: nat) returns (n: nat)
      requires Valid()
      requires at + Clip(hdr.View().numBytes, numBytes, position) <= into.Length
      modifies into
      ensures n == Clip(hdr.View().numBytes, numBytes, position)
      ensures forall k :: 0 <= k < into.Length ==>
                into[k] == if at <= k < at + n then Content(disk.image, hdr.View())[position + k - at] else old(into[k])
    {
      var fileLength := hdr.numBytes;
      if numBytes <= 0 || position >= fileLength {
        return 0;
      }
      n := if position + numBytes > fileLength then fileLength - position else numBytes;
      var firstSector := position / SECTOR_SIZE;
      var lastSector := (position + n - 1) / SECTOR_SIZE;
      var buf := new Byte[(1 + lastSector - firstSector) * SECTOR_SIZE];
      ReadSectors(buf, firstSector, lastSector);
      ghost var content := Content(disk.image, hdr.View());
      var skip := position - firstSector * SECTOR_SIZE;
      forall k | at <= k < at + n {
        into[k] := buf[skip + k - at];
      }
      assert hdr.View() == old(hdr.View());
      forall k | 0 <= k < into.Length
        ensures into[k] == if at <= k < at + n then content[position + k - at] else old(into[k])
      {
        if at <= k < at + n {
          var b := skip + k - at;
          assert buf[b] == content[firstSector * SECTOR_SIZE + b];
        }
      }
    }

    /** The loop of WriteAt: `buf` replaces sectors first..last of the file. */
    method WriteSectors(buf: array<Byte>, firstSector: nat, lastSector: nat)
      requires Valid()
      requires firstSector <= lastSector < hdr.View().numSectors
      requires buf.Length == (1 + lastSector - firstSector) * SECTOR_SIZE
      modifies disk
      ensures SectorsReplaced(old(disk.image), disk.image, hdr.View(), firstSector, lastSector + 1, buf[..])
    {
      hide Content;
      for i := firstSector to lastSector + 1
        invariant SectorsReplaced(old(disk.image), disk.image, hdr.View(), firstSector, i, buf[..])
      {
        var sector := hdr.ByteToSector(i * SECTOR_SIZE);
        assert sector == hdr.View().dataSectors[i];
        ghost var before := disk.image;
        disk.WriteSector(sector, buf, (i - firstSector) * SECTOR_SIZE);
        ReplaceNext(old(disk.image), before, disk.image, hdr.View(), firstSector, i, buf[..]);
      }
    }

    /** The buffer of WriteAt: the request, and around it what the file holds there now. */
    method FillBuffer(buf: array<Byte>, from: seq<Byte>, position: nat, firstSector: nat, lastSector: nat)
      requires Valid()
      requires 0 < |from| && position + |from| <= hdr.View().numBytes
      requires firstSector == position / SECTOR_SIZE && lastSector == (position + |from| - 1) / SECTOR_SIZE
      requires buf.Length == (1 + lastSector - firstSector) * SECTOR_SIZE
      modifies buf
      ensures forall k :: 0 <= k < buf.Length && firstSector * SECTOR_SIZE + k < hdr.View().numBytes ==>
                buf[k] == Splice(Content(disk.image, hdr.View()), position, from)[firstSector * SECTOR_SIZE + k]
    {
      hide Content;
      ghost var content := Content(disk.image, hdr.View());
      var firstAligned := position == firstSector * SECTOR_SIZE;
      var lastAligned := position + |from| == (lastSector + 1) * SECTOR_SIZE;
      if !firstAligned {
        var _ := ReadAt(buf, 0, SECTOR_SIZE, firstSector * SECTOR_SIZE);
      }
      if !lastAligned && (firstSector != lastSector || firstAligned) {
        var _ := ReadAt(buf, (lastSector - firstSector) * SECTOR_SIZE, SECTOR_SIZE, lastSector * SECTOR_SIZE);
      }
      var skip := position - firstSector * SECTOR_SIZE;
      assert forall k :: (0 <= k < skip || skip + |from| <= k < buf.Length) && firstSector * SECTOR_SIZE + k < |content|
                         ==> buf[k] == content[firstSector * SECTOR_SIZE + k];
      forall k | skip <= k < skip + |from| {
        buf[k] := from[k - skip];
      }
    }

    /** Read-modify-write: the request, cut at the end of the file, is spliced into the file's bytes. */
    method WriteAt(from: seq<Byte>, numBytes: int, position: nat) returns (n: nat)
      requires Valid()
      requires Clip(hdr.View().numBytes, numBytes, position) <= |from|
      modifies disk
      ensures n == Clip(hdr.View().numBytes, numBytes, position)
      ensures Written(old(disk.image), disk.image, hdr.View(), position, from[..n])
    {
      var fileLength := hdr.numBytes;
      if numBytes <= 0 || position >= fileLength {
        return 0;
      }
      n := if position + numBytes > fileLength then fileLength - position else numBytes;
      var firstSector := position / SECTOR_SIZE;
      var lastSector := (position + n - 1) / SECTOR_SIZE;
      var buf := new Byte[(1 + lastSector - firstSector) * SECTOR_SIZE];
      FillBuffer(buf, from[..n], position, firstSector, lastSector);
      WriteSectors(buf, firstSector, lastSector);
      ReplacedIsWritten(old(disk.image), disk.image, hdr.View(), firstSector, lastSector, buf[..], position, from[..n]);
    }

    /** Read and Write move the seek position past the bytes transferred. */
    method Read(into: array<Byte>, at: nat, numBytes: int) returns (n: nat)
      requires Valid()
      requires at + Clip(hdr.View().numBytes, numBytes, seekPosition) <= into.Length
      modifies into, this
      ensures n == Clip(hdr.View().numBytes, numBytes, old(seekPosition))
      ensures seekPosition == old(seekPosition) + n
      ensures forall k :: 0 <= k < into.Length ==>
                into[k] == if at <= k < at + n then Content(disk.image, hdr.View())[old(seekPosition) + k - at]
                           else old(into[k])
    {
      n := ReadAt(into, at, numBytes, seekPosition);
      seekPosition := seekPosition + n;
    }

    method Write(from: seq<Byte>, numBytes: int) returns (n: nat)
      requires Valid()
      requires Clip(hdr.View().numBytes, numBytes, seekPosition) <= |from|
      modifies disk, this
      ensures n == Clip(hdr.View().numBytes, numBytes, old(seekPosition))
      ensures seekPosition == old(seekPosition) + n
      ensures Written(old(disk.image), disk.image, hdr.View(), old(seekPosition), from[..n])
    {
      n := WriteAt(from, numBytes, seekPosition);
      seekPosition := seekPosition + n;
    }
  }
}
