/** Sequences of OpenFile::Write and OpenFile::Read calls: only the concatenation matters. */
module ChunkedIO {
  import opened Bytes
  import opened Disks
  import opened FileHeaders
  import opened OpenFiles

  function Concat(chunks: seq<seq<Byte>>): seq<Byte> {
    if chunks == [] then [] else chunks[0] + Concat(chunks[1..])
  }

  /** The disks seen by successive Write calls on one handle that starts at `position`. */
  ghost predicate WriteRun(ds: seq<DiskImage>, h: Header, position: nat, chunks: seq<seq<Byte>>)
    requires WellFormed(h)
    decreases |chunks|
  {
    if chunks == [] then |ds| == 1 else
      var n := Clip(h.numBytes, |chunks[0]|, position);
      |ds| > 1 && Written(ds[0], ds[1], h, position, chunks[0][..n]) && WriteRun(ds[1..], h, position + n, chunks[1..])
  }

  /** What successive Read calls return; a negative size transfers nothing. */
  function ReadRun(file: seq<Byte>, position: nat, sizes: seq<int>): seq<Byte>
    decreases |sizes|
  {
    if sizes == [] then [] else
      Slice(file, sizes[0], position) + ReadRun(file, position + Clip(|file|, sizes[0], position), sizes[1..])
  }

  function Total(sizes: seq<int>): nat {
    if sizes == [] then 0 else (if sizes[0] > 0 then sizes[0] else 0) + Total(sizes[1..])
  }

  /** Two adjacent writes are one write. */
  lemma WritesCompose(d: DiskImage, d': DiskImage, d'': DiskImage, h: Header, position: nat, a: seq<Byte>, b: seq<Byte>)
    requires WellFormed(h) && Written(d, d', h, position, a) && Written(d', d'', h, position + |a|, b)
    ensures Written(d, d'', h, position, a + b)
  {
  }

  /** A request split in two transfers the same bytes. */
  lemma ClipSplits(fileLength: nat, a: nat, b: nat, position: nat)
    ensures var n := Clip(fileLength, a, position);
            var m := Clip(fileLength, b, position + n);
            Clip(fileLength, a + b, position) == n + m && (n == a || m == 0)
  {
  }

  lemma SliceSplits(file: seq<Byte>, a: nat, b: nat, position: nat)
    ensures Slice(file, a, position) + Slice(file, b, position + Clip(|file|, a, position))
            == Slice(file, a + b, position)
  {
  }

  lemma EmptyWrite(d: DiskImage, h: Header, position: nat)
    requires WellFormed(h)
    ensures Written(d, d, h, position, [][..Clip(h.numBytes, 0, position)])
  {
  }

  lemma JoinWrites(d: DiskImage, d': DiskImage, d'': DiskImage, h: Header, position: nat, a: seq<Byte>, b: seq<Byte>)
    requires WellFormed(h)
    requires Clip(h.numBytes, |a|, position) <= |a| && Written(d, d', h, position, a[..Clip(h.numBytes, |a|, position)])
    requires var p := position + Clip(h.numBytes, |a|, position);
             Clip(h.numBytes, |b|, p) <= |b| && Written(d', d'', h, p, b[..Clip(h.numBytes, |b|, p)])
    ensures Clip(h.numBytes, |a + b|, position) <= |a + b|
    ensures Written(d, d'', h, position, (a + b)[..Clip(h.numBytes, |a + b|, position)])
  {
    hide Content, Written;
    var n := Clip(h.numBytes, |a|, position);
    var m := Clip(h.numBytes, |b|, position + n);
    ClipSplits(h.numBytes, |a|, |b|, position);
    WritesCompose(d, d', d'', h, position, a[..n], b[..m]);
    assert (a + b)[..n + m] == a[..n] + b[..m];
  }

  lemma {:induction false} WriteRunIsOneWrite(ds: seq<DiskImage>, h: Header, position: nat, chunks: seq<seq<Byte>>)
    requires WellFormed(h) && WriteRun(ds, h, position, chunks)
    ensures |ds| > 0
    ensures var all := Concat(chunks);
            Written(ds[0], ds[|ds| - 1], h, position, all[..Clip(h.numBytes, |all|, position)])
    decreases |chunks|
  {
    hide Content, Clip, Written;
    if chunks == [] {
      EmptyWrite(ds[0], h, position);
    } else {
      var n := Clip(h.numBytes, |chunks[0]|, position);
      var rest := Concat(chunks[1..]);
      WriteRunIsOneWrite(ds[1..], h, position + n, chunks[1..]);
      JoinWrites(ds[0], ds[1], ds[|ds| - 1], h, position, chunks[0], rest);
    }
  }

  lemma NegativeIsNothing(file: seq<Byte>, size: int, position: nat)
    ensures Clip(|file|, size, position) == Clip(|file|, if size > 0 then size else 0, position)
    ensures Slice(file, size, position) == Slice(file, if size > 0 then size else 0, position)
    ensures size <= 0 ==> Slice(file, size, position) == []
  {
  }

  lemma {:induction false} ReadRunIsOneRead(file: seq<Byte>, position: nat, sizes: seq<int>)
    ensures ReadRun(file, position, sizes) == Slice(file, Total(sizes), position)
    decreases |sizes|
  {
    hide Clip, Slice;
    if sizes == [] {
      NegativeIsNothing(file, 0, position);
    } else {
      var size := if sizes[0] > 0 then sizes[0] else 0;
      NegativeIsNothing(file, sizes[0], position);
      ReadRunIsOneRead(file, position + Clip(|file|, size, position), sizes[1..]);
      SliceSplits(file, size, Total(sizes[1..]), position);
    }
  }

  /** Written in any chunks and read back in any chunks: the same bytes, cut at the end of the file. */
  lemma ChunksRoundTrip(ds: seq<DiskImage>, h: Header, position: nat, chunks: seq<seq<Byte>>, sizes: seq<int>)
    requires WellFormed(h) && WriteRun(ds, h, position, chunks) && Total(sizes) == |Concat(chunks)|
    ensures |ds| > 0
    ensures ReadRun(Content(ds[|ds| - 1], h), position, sizes)
            == Concat(chunks)[..Clip(h.numBytes, |Concat(chunks)|, position)]
  {
    hide Content, WriteRun, ReadRun;
    WriteRunIsOneWrite(ds, h, position, chunks);
    ReadRunIsOneRead(Content(ds[|ds| - 1], h), position, sizes);
  }
}
