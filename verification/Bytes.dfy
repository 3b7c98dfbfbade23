/** Bytes, 32-bit words and the host's (little-endian) memory layout of an int. */
module Bytes {

  type Byte = b: int | 0 <= b < 256

  /** code/lib/utility.h: divide and round up. */
  function DivRoundUp(n: nat, d: nat): (q: nat)
    requires d > 0
    ensures n <= q * d < n + d
  {
    n / d + if n % d > 0 then 1 else 0
  }

  /** The bit pattern of an `unsigned int`. */
  type Word = w: int | 0 <= w < 0x1_0000_0000

  /** A C `int`: 32 bits, two's complement. */
  type Int32 = i: int | -0x8000_0000 <= i < 0x8000_0000

  function ToWord(i: Int32): Word {
    if i < 0 then i + 0x1_0000_0000 else i
  }

  function ToInt(w: Word): Int32 {
    if w < 0x8000_0000 then w else w - 0x1_0000_0000
  }

  function EncodeWord(w: Word): (s: seq<Byte>)
    ensures |s| == 4
  {
    [w % 0x100, w / 0x100 % 0x100, w / 0x100 / 0x100 % 0x100, w / 0x100 / 0x100 / 0x100]
  }

  function DecodeWord(s: seq<Byte>): Word
    requires |s| == 4
  {
    var b0: int, b1: int, b2: int, b3: int := s[0], s[1], s[2], s[3];
    b0 + 0x100 * b1 + 0x1_0000 * b2 + 0x100_0000 * b3
  }

  lemma WordRoundTrip(w: Word)
    ensures DecodeWord(EncodeWord(w)) == w
  {
  }

  /** The number whose base-256 digits are `s`, least significant first. */
  function LittleEndian(s: seq<Byte>): nat {
    if s == [] then 0
    else
      var low: int := s[0];
      low + 0x100 * LittleEndian(s[1..])
  }

  /** The layout is little-endian. */
  lemma DecodedIsLittleEndian(s: seq<Byte>)
    requires |s| == 4
    ensures DecodeWord(s) == LittleEndian(s)
  {
    assert s[1..][1..] == s[2..] && s[2..][1..] == s[3..] && s[3..][1..] == [];
    var b0: int, b1: int, b2: int, b3: int := s[0], s[1], s[2], s[3];
    assert LittleEndian(s[3..]) == b3 && LittleEndian(s[2..]) == b2 + 0x100 * b3;
    assert LittleEndian(s[1..]) == b1 + 0x100 * (b2 + 0x100 * b3);
  }

  lemma CutAt16(w: int, high: int, low: int)
    requires w == 0x1_0000 * high + low && 0 <= low < 0x1_0000
    ensures w % 0x1_0000 == low && w / 0x1_0000 == high
  {
  }

  /** The first bytes of a word are the number modulo a power of 256. */
  lemma EncodedIsLittleEndian(w: Word)
    ensures LittleEndian(EncodeWord(w)[..1]) == w % 0x100
    ensures LittleEndian(EncodeWord(w)[..2]) == w % 0x1_0000
    ensures LittleEndian(EncodeWord(w)[..4]) == w
  {
    var s := EncodeWord(w);
    DecodedIsLittleEndian(s);
    WordRoundTrip(w);
    CutAt16(w, w / 0x100 / 0x100, w % 0x100 + 0x100 * (w / 0x100 % 0x100));
    var b0: int, b1: int := s[0], s[1];
    hide EncodeWord, DecodeWord;
    assert s[..1] == [b0] && s[..2] == [b0, b1] && s[..4] == s;
    assert [b0, b1][1..] == [b1];
  }

  /** An array of words, laid out contiguously. */
  function EncodeWords(ws: seq<Word>): (s: seq<Byte>)
    ensures |s| == 4 * |ws|
  {
    seq(4 * |ws|, i requires 0 <= i < 4 * |ws| => EncodeWord(ws[i / 4])[i % 4])
  }

  function DecodeWords(s: seq<Byte>): (ws: seq<Word>)
    ensures |ws| == |s| / 4
  {
    seq(|s| / 4, k requires 0 <= k < |s| / 4 => DecodeWord(s[4 * k..4 * k + 4]))
  }

  lemma WordsRoundTrip(ws: seq<Word>)
    ensures DecodeWords(EncodeWords(ws)) == ws
  {
  }

  /** `s` with the bytes from `at` on replaced by `data`. */
  function Splice(s: seq<Byte>, at: nat, data: seq<Byte>): (r: seq<Byte>)
    requires at + |data| <= |s|
    ensures |r| == |s|
    ensures forall i :: 0 <= i < |s| ==> r[i] == if at <= i < at + |data| then data[i - at] else s[i]
  {
    s[..at] + data + s[at + |data|..]
  }
}
