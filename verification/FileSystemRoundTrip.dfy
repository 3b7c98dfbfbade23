/** Within any run of the whole file system: what is written through a handle in any chunks is what is then read back
    through it in any chunks. */
module FileSystemRoundTrip {
  import opened Bytes
  import opened Disks
  import opened FileHeaders
  import opened OpenFiles
  import opened ChunkedIO
  import opened FileSystemRefinement

  /** Operations `i` onwards are Write calls on handle `h`, one for each chunk. */
  predicate Writes(ops: seq<Op>, i: nat, h: nat, chunks: seq<seq<Byte>>) {
    && i + |chunks| <= |ops|
    && forall k :: i <= k < i + |chunks| ==> ops[k] == OpWrite(h, chunks[k - i], |chunks[k - i]|)
  }

  predicate Reads(ops: seq<Op>, i: nat, h: nat, sizes: seq<int>) {
    && i + |sizes| <= |ops|
    && forall k :: i <= k < i + |sizes| ==> ops[k] == OpRead(h, sizes[k - i])
  }

  /** What the `n` replies from `i` on delivered, one after the other. */
  function Delivered(replies: seq<Reply>, i: nat, n: nat): seq<Byte>
    requires i + n <= |replies|
    decreases n
  {
    if n == 0 then []
    else (if replies[i].Data? then replies[i].bytes else []) + Delivered(replies, i + 1, n - 1)
  }

  /** Handle `h` is open on the file with this header. */
  ghost predicate OnHeader(w: World, h: nat, header: Header) {
    && h < |w.handles| && w.handles[h].live && w.handles[h].header == header
    && WorldInv(w) && WellFormed(header)
  }

  ghost predicate HandleIs(w: World, h: nat, header: Header, seek: nat) {
    OnHeader(w, h, header) && w.handles[h].seek == seek
  }

  lemma LiveHandle(w: World, h: nat)
    requires WorldInv(w) && h < |w.handles| && w.handles[h].live
    ensures HandleIs(w, h, w.handles[h].header, w.handles[h].seek)
  {
    hide DecodeHeader, Content;
    assert HandleOk(w.disk, w.handles[h]);
  }

  function DisksOf(ws: seq<World>, i: nat, n: nat): (ds: seq<DiskImage>)
    requires i + n <= |ws|
    ensures |ds| == n
    ensures forall k {:trigger ds[k]} :: 0 <= k < n ==> ds[k] == ws[i + k].disk
    decreases n
  {
    if n == 0 then [] else [ws[i].disk] + DisksOf(ws, i + 1, n - 1)
  }

  lemma WriteStepIs(w: World, op: Op, reply: Reply, w': World, header: Header, seek: nat)
    requires op.OpWrite? && op.numBytes == |op.from| && HandleIs(w, op.handle, header, seek) && Next(w, op, reply, w')
    requires WorldInv(w')
    ensures var n := Clip(header.numBytes, |op.from|, seek);
            && n <= |op.from| && Written(w.disk, w'.disk, header, seek, op.from[..n])
            && HandleIs(w', op.handle, header, seek + n)
  {
    hide WorldInv, Written, WellFormed;
  }

  lemma ReadStepIs(w: World, op: Op, reply: Reply, w': World, header: Header, seek: nat)
    requires op.OpRead? && HandleIs(w, op.handle, header, seek) && Next(w, op, reply, w') && WorldInv(w')
    ensures reply == Data(Slice(Content(w.disk, header), op.numBytes, seek)) && w'.disk == w.disk
    ensures HandleIs(w', op.handle, header, seek + Clip(header.numBytes, op.numBytes, seek))
  {
    hide WorldInv, Content, WellFormed;
  }

  lemma {:induction false} RunWrites(ws: seq<World>, ops: seq<Op>, replies: seq<Reply>, i: nat, h: nat,
                                     header: Header, seek: nat, chunks: seq<seq<Byte>>)
    requires Run(ws, ops, replies) && Writes(ops, i, h, chunks) && HandleIs(ws[i], h, header, seek)
    ensures WriteRun(DisksOf(ws, i, |chunks| + 1), header, seek, chunks)
    ensures OnHeader(ws[i + |chunks|], h, header)
    decreases |chunks|
  {
    hide Run, Next, OnHeader, WorldInv, Written, WellFormed;
    RunLengths(ws, ops, replies);
    HandleFacts(ws[i], h, header, seek);
    if chunks != [] {
      RunStep(ws, ops, replies, i);
      WriteStepIs(ws[i], ops[i], replies[i], ws[i + 1], header, seek);
      var n := Clip(header.numBytes, |chunks[0]|, seek);
      RunWrites(ws, ops, replies, i + 1, h, header, seek + n, chunks[1..]);
      var ds := DisksOf(ws, i, |chunks| + 1);
      assert ds[1..] == DisksOf(ws, i + 1, |chunks|);
    }
  }

  lemma HandleFacts(w: World, h: nat, header: Header, seek: nat)
    requires HandleIs(w, h, header, seek)
    ensures WorldInv(w) && WellFormed(header)
  {
  }

  lemma RunLengths(ws: seq<World>, ops: seq<Op>, replies: seq<Reply>)
    requires Run(ws, ops, replies)
    ensures |ws| == |ops| + 1 == |replies| + 1
  {
  }

  lemma RunStep(ws: seq<World>, ops: seq<Op>, replies: seq<Reply>, i: nat)
    requires Run(ws, ops, replies) && i < |ops|
    ensures |ws| == |ops| + 1 == |replies| + 1 && WorldInv(ws[i]) && WorldInv(ws[i + 1])
    ensures Next(ws[i], ops[i], replies[i], ws[i + 1])
  {
    hide WorldInv, Next;
    RunKeepsInv(ws, ops, replies, i);
    RunKeepsInv(ws, ops, replies, i + 1);
  }

  lemma {:induction false} RunReads(ws: seq<World>, ops: seq<Op>, replies: seq<Reply>, i: nat, h: nat,
                                    header: Header, seek: nat, sizes: seq<int>)
    requires Run(ws, ops, replies) && Reads(ops, i, h, sizes) && HandleIs(ws[i], h, header, seek)
    ensures Delivered(replies, i, |sizes|) == ReadRun(Content(ws[i].disk, header), seek, sizes)
    decreases |sizes|
  {
    hide Run, Next, HandleIs, WorldInv, Content, WellFormed, Slice;
    RunLengths(ws, ops, replies);
    HandleFacts(ws[i], h, header, seek);
    if sizes != [] {
      RunStep(ws, ops, replies, i);
      ReadStepIs(ws[i], ops[i], replies[i], ws[i + 1], header, seek);
      RunReads(ws, ops, replies, i + 1, h, header, seek + Clip(header.numBytes, sizes[0], seek), sizes[1..]);
    }
  }

  lemma ReadBack(ws: seq<World>, ops: seq<Op>, replies: seq<Reply>, i: nat, h: nat, header: Header, seek: nat,
                 chunks: seq<seq<Byte>>, sizes: seq<int>)
    requires Run(ws, ops, replies) && Writes(ops, i, h, chunks) && HandleIs(ws[i], h, header, seek)
    requires i + |chunks| < |ops| && ops[i + |chunks|] == OpSeek(h, seek)
    requires Reads(ops, i + |chunks| + 1, h, sizes) && Total(sizes) == |Concat(chunks)|
    ensures Delivered(replies, i + |chunks| + 1, |sizes|)
            == Concat(chunks)[..Clip(header.numBytes, |Concat(chunks)|, seek)]
  {
    hide Run, Next, WorldInv, Content, WellFormed, WriteRun, ReadRun, Concat, Total, OnHeader, Delivered, DisksOf, Clip,
         Writes;
    var j := i + |chunks|;
    RunLengths(ws, ops, replies);
    HandleFacts(ws[i], h, header, seek);
    RunWrites(ws, ops, replies, i, h, header, seek, chunks);
    RunStep(ws, ops, replies, j);
    SeekStepIs(ws[j], ops[j], replies[j], ws[j + 1], header);
    RunReads(ws, ops, replies, j + 1, h, header, seek, sizes);
    ChunksRoundTrip(DisksOf(ws, i, |chunks| + 1), header, seek, chunks, sizes);
  }

  lemma SeekStepIs(w: World, op: Op, reply: Reply, w': World, header: Header)
    requires op.OpSeek? && OnHeader(w, op.handle, header) && Next(w, op, reply, w') && WorldInv(w')
    ensures HandleIs(w', op.handle, header, op.position) && w'.disk == w.disk
  {
    hide WorldInv, WellFormed;
  }

  /** Any chunks written from the seek position of a handle on, a Seek back to where they began, and any reads of the
      same total give the concatenation of the chunks, cut at the end of the file. */
  lemma WrittenIsReadBack(ws: seq<World>, ops: seq<Op>, replies: seq<Reply>, i: nat, h: nat,
                          chunks: seq<seq<Byte>>, sizes: seq<int>)
    requires Run(ws, ops, replies) && Writes(ops, i, h, chunks)
    requires h < |ws[i].handles| && ws[i].handles[h].live
    requires i + |chunks| < |ops| && ops[i + |chunks|] == OpSeek(h, ws[i].handles[h].seek)
    requires Reads(ops, i + |chunks| + 1, h, sizes) && Total(sizes) == |Concat(chunks)|
    ensures WellFormed(ws[i].handles[h].header)
    ensures Delivered(replies, i + |chunks| + 1, |sizes|)
            == Concat(chunks)[..Clip(ws[i].handles[h].header.numBytes, |Concat(chunks)|, ws[i].handles[h].seek)]
  {
    hide Run, WorldInv, WellFormed, Concat, Total, OnHeader, Delivered, Clip, Writes;
    RunLengths(ws, ops, replies);
    RunKeepsInv(ws, ops, replies, i);
    var handle := ws[i].handles[h];
    LiveHandle(ws[i], h);
    HandleFacts(ws[i], h, handle.header, handle.seek);
    ReadBack(ws, ops, replies, i, h, handle.header, handle.seek, chunks, sizes);
  }
}
