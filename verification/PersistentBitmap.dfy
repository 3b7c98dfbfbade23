/** code/filesys/pbitmap.cc: a bitmap kept in a file, in the host's layout of its words. */
module PersistentBitmaps {
  import opened Bytes
  import opened Common
  import opened Bitmaps
  import opened FileHeaders
  import opened OpenFiles

  /** The number whose binary digits, least significant first, are `b`. */
  function Pack(b: seq<bool>): (x: nat)
    ensures x < Pow2(|b|)
  {
    if b == [] then 0 else (if b[0] then 1 else 0) + 2 * Pack(b[1..])
  }

  function Unpack(x: nat, n: nat): (b: seq<bool>)
    ensures |b| == n
  {
    if n == 0 then [] else [x % 2 == 1] + Unpack(x / 2, n - 1)
  }

  lemma {:induction false} PackRoundTrip(b: seq<bool>)
    ensures Unpack(Pack(b), |b|) == b
  {
    if b != [] {
      PackRoundTrip(b[1..]);
      assert Pack(b) / 2 == Pack(b[1..]);
      assert b == [b[0]] + b[1..];
    }
  }

  function PackByte(b: seq<bool>): Byte
    requires |b| == 8
  {
    assert Pow2(8) == 256 by {
      assert Pow2(4) == 16;
    }
    Pack(b)
  }

  function UnpackByte(x: Byte): (b: seq<bool>)
    ensures |b| == 8
  {
    Unpack(x, 8)
  }

  /** The word array as bytes: each word least significant byte first. */
  function EncodeMap(ws: seq<BitWord>): (s: seq<Byte>)
    ensures |s| == 4 * |ws|
  {
    seq(4 * |ws|, i requires 0 <= i < 4 * |ws| => PackByte(ws[i / 4][8 * (i % 4)..8 * (i % 4) + 8]))
  }

  function DecodeWordBits(s: seq<Byte>): BitWord
    requires |s| == 4
  {
    seq(32, j requires 0 <= j < 32 => UnpackByte(s[j / 8])[j % 8])
  }

  function DecodeMap(s: seq<Byte>): (ws: seq<BitWord>)
    ensures |ws| == |s| / 4
  {
    seq(|s| / 4, k requires 0 <= k < |s| / 4 => DecodeWordBits(s[4 * k..4 * k + 4]))
  }

  lemma MapRoundTrip(ws: seq<BitWord>)
    ensures DecodeMap(EncodeMap(ws)) == ws
  {
    hide Pack, Unpack;
    forall k | 0 <= k < |ws|
      ensures DecodeMap(EncodeMap(ws))[k] == ws[k]
    {
      WordBitsRoundTrip(ws, k);
    }
  }

  lemma WordBitsRoundTrip(ws: seq<BitWord>, k: nat)
    requires k < |ws|
    ensures DecodeWordBits(EncodeMap(ws)[4 * k..4 * k + 4]) == ws[k]
  {
    hide Pack, Unpack;
    var s := EncodeMap(ws)[4 * k..4 * k + 4];
    forall j | 0 <= j < 32
      ensures DecodeWordBits(s)[j] == ws[k][j]
    {
      var q := j / 8;
      assert (4 * k + q) / 4 == k && (4 * k + q) % 4 == q;
      assert s[q] == PackByte(ws[k][8 * q..8 * q + 8]);
      PackRoundTrip(ws[k][8 * q..8 * q + 8]);
    }
  }

  /** The bitmap stored as the bytes `s`. */
  function StoredBits(s: seq<Byte>): (bits: seq<bool>)
    requires |s| % 4 == 0
    ensures |bits| == 8 * |s|
  {
    BitsOf(DecodeMap(s), 8 * |s|)
  }

  lemma {:induction false} UnpackRoundTrip(x: nat, n: nat)
    requires x < Pow2(n)
    ensures Pack(Unpack(x, n)) == x
    decreases n
  {
    if n > 0 {
      UnpackRoundTrip(x / 2, n - 1);
      assert Unpack(x, n)[1..] == Unpack(x / 2, n - 1);
    }
  }

  lemma BitIndex(q: nat, j: nat)
    requires j < 8
    ensures (8 * q + j) / 32 == q / 4 && (8 * q + j) % 32 == 8 * (q % 4) + j
    ensures (8 * q + j) % 32 / 8 == q % 4 && (8 * q + j) % 32 % 8 == j
  {
  }

  /** Eight bits of the map make one byte of the file, lowest bit first. */
  lemma BitLayout(s: seq<Byte>, q: nat)
    requires |s| % 4 == 0 && q < |s|
    ensures Pack(StoredBits(s)[8 * q..8 * q + 8]) == s[q]
  {
    hide Unpack, Pack, DecodeMap;
    var bits := StoredBits(s)[8 * q..8 * q + 8];
    forall j | 0 <= j < 8
      ensures bits[j] == UnpackByte(s[q])[j]
    {
      BitIndex(q, j);
      assert bits[j] == DecodeMap(s)[q / 4][8 * (q % 4) + j];
      DecodedBit(s, q / 4, q % 4, j);
    }
    assert bits == UnpackByte(s[q]);
    EightBits();
    UnpackRoundTrip(s[q], 8);
  }

  lemma DecodedBit(s: seq<Byte>, k: nat, r: nat, j: nat)
    requires |s| % 4 == 0 && r < 4 && 4 * k + r < |s| && j < 8
    ensures DecodeMap(s)[k][8 * r + j] == UnpackByte(s[4 * k + r])[j]
  {
    hide Unpack;
    assert (8 * r + j) / 8 == r && (8 * r + j) % 8 == j;
    assert s[4 * k..4 * k + 4][r] == s[4 * k + r];
  }

  lemma EightBits()
    ensures Pow2(8) == 256
  {
    assert Pow2(4) == 16;
  }

  /** The words are overwritten by the file, as far as both reach. */
  method FetchFrom(b: Bitmap, file: OpenFile)
    requires b.Valid() && file.Valid()
    modifies b.map_
    ensures b.map_[..] == DecodeMap(Overlaid(EncodeMap(old(b.map_[..])), Content(file.disk.image, file.hdr.View())))
    ensures file.hdr.View().numBytes == 4 * b.numWords && b.numBits == 32 * b.numWords ==>
              b.Bits() == StoredBits(Content(file.disk.image, file.hdr.View()))
  {
    hide EncodeMap, DecodeMap, Content;
    var was := EncodeMap(b.map_[..]);
    var raw := new Byte[b.numWords * 4](i requires 0 <= i < |was| => was[i]);
    var n := file.ReadAt(raw, 0, b.numWords * 4, 0);
    assert raw[..] == Overlaid(was, Content(file.disk.image, file.hdr.View()));
    var ws := DecodeMap(raw[..]);
    forall i | 0 <= i < b.numWords {
      b.map_[i] := ws[i];
    }
    assert b.map_[..] == ws;
  }

  /** The words go to the file, as far as they fit. */
  method WriteBack(b: Bitmap, file: OpenFile)
    requires b.Valid() && file.Valid()
    modifies file.disk
    ensures Written(old(file.disk.image), file.disk.image, file.hdr.View(), 0,
                    Cut(EncodeMap(b.map_[..]), file.hdr.View().numBytes))
    ensures b.numBits == 32 * b.numWords ==> StoredBits(EncodeMap(b.map_[..])) == b.Bits()
  {
    hide EncodeMap, DecodeMap, Content, Written;
    var raw := EncodeMap(b.map_[..]);
    MapRoundTrip(b.map_[..]);
    var n := file.WriteAt(raw, b.numWords * 4, 0);
    assert raw[..n] == Cut(raw, file.hdr.View().numBytes);
  }
}
