/** The contents of the simulated disk (code/machine/disk.h) behind the synchronous
    interface of code/filesys/synchdisk.cc: one whole sector at a time. */
module Disks {
  import opened Bytes

  const SECTOR_SIZE := 128
  const NUM_SECTORS := 1024

  type Sector = s: seq<Byte> | |s| == 128 witness seq(128, _ => 0)

  const BLANK: Sector := seq(128, _ => 0)

  type DiskImage = d: seq<Sector> | |d| == 1024 witness seq<Sector>(1024, _ => BLANK)

  class SynchDisk {
    var image: DiskImage

    method ReadSector(sectorNumber: nat, data: array<Byte>, at: nat)
      requires sectorNumber < NUM_SECTORS && at + SECTOR_SIZE <= data.Length
      modifies data
      ensures forall i :: 0 <= i < data.Length ==>
                data[i] == if at <= i < at + SECTOR_SIZE then image[sectorNumber][i - at] else old(data[i])
    {
      var sector := image[sectorNumber];
      forall i | 0 <= i < SECTOR_SIZE {
        data[at + i] := sector[i];
      }
    }

    method WriteSector(sectorNumber: nat, data: array<Byte>, at: nat)
      requires sectorNumber < NUM_SECTORS && at + SECTOR_SIZE <= data.Length
      modifies this
      ensures image == old(image)[sectorNumber := data[at..at + SECTOR_SIZE]]
    {
      image := image[sectorNumber := data[at..at + SECTOR_SIZE]];
    }
  }
}
