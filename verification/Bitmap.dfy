/** code/lib/bitmap.cc: an array of bits stored in 32-bit words, used as an allocator. */
module Bitmaps {
  import opened Bytes

  const BITS_IN_WORD := 32

  /** An `unsigned int`, as its 32 bits, least significant first. */
  type BitWord = w: seq<bool> | |w| == 32 witness seq(32, _ => false)

  /** `1 << i` */
  function OneAt(i: nat): BitWord
    requires i < 32
  {
    seq(32, j => j == i)
  }

  function Or(a: BitWord, b: BitWord): BitWord {
    seq(32, j requires 0 <= j < 32 => a[j] || b[j])
  }

  function And(a: BitWord, b: BitWord): BitWord {
    seq(32, j requires 0 <= j < 32 => a[j] && b[j])
  }

  function Not(a: BitWord): BitWord {
    seq(32, j requires 0 <= j < 32 => !a[j])
  }

  const ZERO: BitWord := seq(32, _ => false)

  /** The bits held by an array of words. */
  function BitsOf(words: seq<BitWord>, numBits: nat): (bits: seq<bool>)
    requires numBits <= 32 * |words|
    ensures |bits| == numBits
  {
    seq(numBits, i requires 0 <= i < numBits => words[i / 32][i % 32])
  }

  /** Changing bit `which % 32` of word `which / 32` changes bit `which` of the map and no other. */
  lemma BitsOfUpdate(words: seq<BitWord>, numBits: nat, which: nat, w': BitWord, value: bool)
    requires which < numBits <= 32 * |words|
    requires w' == words[which / 32][which % 32 := value]
    ensures BitsOf(words[which / 32 := w'], numBits) == BitsOf(words, numBits)[which := value]
  {
  }

  /** The positions of the clear bits: what is still free. */
  function ClearBits(bits: seq<bool>): set<int> {
    set i | 0 <= i < |bits| && !bits[i]
  }

  function ClearBelow(bits: seq<bool>, k: nat): set<int>
    requires k <= |bits|
  {
    set i | 0 <= i < k && !bits[i]
  }

  function MarkedBelow(bits: seq<bool>, k: nat): set<int>
    requires k <= |bits|
  {
    set i | 0 <= i < k && bits[i]
  }

  lemma {:induction false} CountBits(bits: seq<bool>, k: nat)
    requires k <= |bits|
    ensures |ClearBelow(bits, k)| + |MarkedBelow(bits, k)| == k
  {
    if k > 0 {
      CountBits(bits, k - 1);
      ClearBelowStep(bits, k - 1);
      assert MarkedBelow(bits, k) == MarkedBelow(bits, k - 1) + if bits[k - 1] then {k - 1} else {};
    }
  }

  lemma ClearBelowStep(bits: seq<bool>, k: nat)
    requires k < |bits|
    ensures |ClearBelow(bits, k + 1)| == |ClearBelow(bits, k)| + if bits[k] then 0 else 1
  {
    assert ClearBelow(bits, k + 1) == ClearBelow(bits, k) + if bits[k] then {} else {k};
  }

  /** `bits'` is `bits` with exactly `taken` set, and `taken` are the lowest free positions in order. */
  ghost predicate FirstFit(bits: seq<bool>, bits': seq<bool>, taken: seq<int>) {
    && |bits'| == |bits|
    && (forall i :: 0 <= i < |taken| ==> taken[i] in ClearBits(bits))
    && (forall i, j :: 0 <= i < j < |taken| ==> taken[i] < taken[j])
    && (forall b :: 0 <= b < |bits| ==> bits'[b] == (bits[b] || b in taken))
    && (forall b, i :: b in ClearBits(bits') && 0 <= i < |taken| ==> taken[i] < b)
  }

  /** `b` is the lowest clear bit. */
  ghost predicate IsFirstClear(bits: seq<bool>, b: int) {
    b in ClearBits(bits) && forall c :: c in ClearBits(bits) ==> b <= c
  }

  /** Taking the lowest clear bit extends a first-fit allocation by one. */
  lemma FirstFitStep(bits0: seq<bool>, bits: seq<bool>, taken: seq<int>, b: int)
    requires FirstFit(bits0, bits, taken) && IsFirstClear(bits, b)
    ensures FirstFit(bits0, bits[b := true], taken + [b])
    ensures |ClearBits(bits[b := true])| == |ClearBits(bits)| - 1
  {
    assert ClearBits(bits[b := true]) == ClearBits(bits) - {b};
    assert b in ClearBits(bits0);
  }

  class Bitmap {
    const numBits: nat
    const numWords: nat
    const map_: array<BitWord>

    ghost predicate Valid()
    {
      numWords == map_.Length && 0 < numBits <= 32 * numWords < numBits + 32
    }

    ghost function Bits(): (bits: seq<bool>)
      requires Valid()
      reads map_
      ensures |bits| == numBits
    {
      BitsOf(map_[..], numBits)
    }

    constructor (numItems: nat)
      requires numItems > 0
      ensures Valid() && fresh(map_) && numBits == numItems
      ensures Bits() == seq(numItems, _ => false)
      ensures forall w :: 0 <= w < numWords ==> map_[w] == ZERO
    {
      numBits := numItems;
      numWords := DivRoundUp(numItems, BITS_IN_WORD);
      map_ := new BitWord[DivRoundUp(numItems, BITS_IN_WORD)];
      new;
      for i := 0 to numWords
        invariant forall k :: 0 <= k < i ==> map_[k] == ZERO
      {
        map_[i] := ZERO;
      }
      for i := 0 to numBits
        invariant Bits() == seq(numItems, _ => false) && forall w :: 0 <= w < numWords ==> map_[w] == ZERO
      {
        Clear(i);
      }
    }

    method Mark(which: nat)
      requires Valid() && which < numBits
      modifies map_
      ensures Bits() == old(Bits())[which := true]
      ensures map_[..] == old(map_[..])[which / 32 := old(map_[which / 32])[which % 32 := true]]
    {
      var w := which / BITS_IN_WORD;
      var word := Or(map_[w], OneAt(which % BITS_IN_WORD));
      BitsOfUpdate(map_[..], numBits, which, word, true);
      map_[w] := word;
      assert map_[..] == old(map_[..])[w := word];
    }

    method Clear(which: nat)
      requires Valid() && which < numBits
      modifies map_
      ensures Bits() == old(Bits())[which := false]
      ensures map_[..] == old(map_[..])[which / 32 := old(map_[which / 32])[which % 32 := false]]
    {
      var w := which / BITS_IN_WORD;
      var word := And(map_[w], Not(OneAt(which % BITS_IN_WORD)));
      BitsOfUpdate(map_[..], numBits, which, word, false);
      map_[w] := word;
      assert map_[..] == old(map_[..])[w := word];
    }

    method Test(which: nat) returns (isSet: bool)
      requires Valid() && which < numBits
      ensures isSet == Bits()[which]
    {
      var masked := And(map_[which / BITS_IN_WORD], OneAt(which % BITS_IN_WORD));
      assert map_[which / 32][which % 32] == masked[which % 32];
      isSet := masked != ZERO;
    }

    /** The lowest clear bit is returned and set; -1 means that every bit was set. */
    method FindAndSet() returns (found: int)
      requires Valid()
      modifies map_
      ensures found == -1 ==> ClearBits(old(Bits())) == {} && Bits() == old(Bits())
      ensures found != -1 ==> found >= 0 && IsFirstClear(old(Bits()), found)
                              && Bits() == old(Bits())[found := true]
    {
      for i := 0 to numBits
        invariant Bits() == old(Bits())
        invariant forall k :: 0 <= k < i ==> Bits()[k]
      {
        var t := Test(i);
        if !t {
          Mark(i);
          return i;
        }
      }
      return -1;
    }

    method NumClear() returns (count: nat)
      requires Valid()
      ensures count == |ClearBits(Bits())|
    {
      count := 0;
      for i := 0 to numBits
        invariant count == |ClearBelow(Bits(), i)|
      {
        var t := Test(i);
        ClearBelowStep(Bits(), i);
        if !t {
          count := count + 1;
        }
      }
      assert ClearBelow(Bits(), numBits) == ClearBits(Bits());
    }
  }
}
