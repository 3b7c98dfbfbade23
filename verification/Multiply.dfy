/** The bit-serial 64-bit multiplication of code/machine/mipssim.cc. */
module Multiplication {
  import opened Bytes
  import opened Common

  const TWO32 := 0x1_0000_0000
  const TWO64 := 0x1_0000_0000_0000_0000

  /** The value of the register pair hi:lo, as an unsigned and as a two's complement 64-bit number. */
  function Unsigned64(hi: Word, lo: Word): int {
    hi * 0x1_0000_0000 + lo
  }

  function Signed64(hi: Word, lo: Word): int {
    if hi < 0x8000_0000 then Unsigned64(hi, lo) else Unsigned64(hi, lo) - TWO64
  }

  /** `x + y` in unsigned 32-bit arithmetic. */
  function Plus(x: Word, y: Word): Word {
    (x + y) % 0x1_0000_0000
  }

  /** Negation in int arithmetic: the most negative number is its own negation. */
  function Negate(x: Int32): Int32 {
    if x == -0x8000_0000 then x else -x
  }

  /** The bits of the multiplier that iteration `i` has still to look at. `x` is shifted arithmetically, so a
      set top bit keeps coming in from the left: the bits at 32 - i and beyond are not part of it. */
  function Remaining(x: int, i: nat): int
    requires i <= 32
  {
    if x < 0 then x + Pow2(32 - i) else x
  }

  /** Adding the low words, then the high words with the carry, adds the pairs. */
  lemma AddPairs(hi: Word, lo: Word, bHi: Word, bLo: Word)
    requires Unsigned64(hi, lo) + Unsigned64(bHi, bLo) < TWO64
    ensures var lo' := Plus(lo, bLo);
            var hi' := Plus(if lo' < bLo then Plus(hi, 1) else hi, bHi);
            Unsigned64(hi', lo') == Unsigned64(hi, lo) + Unsigned64(bHi, bLo)
  {
  }

  /** Shifting both words left, with the top bit of the low word going into the high word, doubles the pair. */
  lemma DoublePair(bHi: Word, bLo: Word)
    requires 2 * Unsigned64(bHi, bLo) < TWO64
    ensures var top := if bLo >= 0x8000_0000 then 1 else 0;
            var bHi' := Plus(bHi, bHi);
            bHi' + top < TWO32 && Unsigned64(bHi' + top, Plus(bLo, bLo)) == 2 * Unsigned64(bHi, bLo)
  {
  }

  /** Complementing both words and adding one, with a carry, negates the pair. */
  lemma NegatePair(hi: Word, lo: Word)
    requires 0 < Unsigned64(hi, lo)
    ensures var lo' := Plus(0xFFFF_FFFF - lo, 1);
            var hi' := if lo' == 0 then Plus(0xFFFF_FFFF - hi, 1) else 0xFFFF_FFFF - hi;
            Unsigned64(hi', lo') == TWO64 - Unsigned64(hi, lo)
  {
  }

  lemma ShiftRemaining(x: int, i: nat)
    requires i < 32
    ensures Remaining(x / 2, i + 1) == Remaining(x, i) / 2
    ensures x % 2 == Remaining(x, i) % 2
  {
  }

  /** A product, kept apart from linear arithmetic in the proofs. */
  function Times(x: int, y: int): int {
    x * y
  }

  lemma TimesMonotone(x: int, y: int, x': int, y': int)
    requires 0 <= x <= x' && 0 <= y <= y'
    ensures 0 <= Times(x, y) <= Times(x', y')
  {
  }

  /** Looking at one more bit of the multiplier. */
  lemma TimesStep(b: int, r: int)
    ensures Times(b, r) == Times(2 * b, r / 2) + if r % 2 == 1 then b else 0
  {
  }

  lemma TimesSmall(b: int)
    ensures Times(b, 0) == 0 && Times(b, 1) == b && Times(0, b) == 0
  {
  }

  lemma ProductBound(a: Word, b: Word)
    ensures 0 <= Times(a, b) <= 0xFFFF_FFFE_0000_0001 < TWO64
  {
    TimesMonotone(a, b, 0xFFFF_FFFF, 0xFFFF_FFFF);
  }

  /** The multiplicand, shifted `i` times, still fits in 64 bits after one more shift. */
  lemma ShiftedBound(b: Word, i: nat)
    requires i < 32
    ensures 2 * Times(b, Pow2(i)) == Times(b, Pow2(i + 1)) < TWO64
  {
    Pow2AtMost(i + 1);
    TimesMonotone(b, Pow2(i + 1), 0xFFFF_FFFF, TWO32);
    var p := Pow2(i);
    assert Pow2(i + 1) == 2 * p;
    assert b * (2 * p) == 2 * (b * p);
  }

  lemma {:induction false} Pow2AtMost(n: nat)
    requires n <= 32
    ensures Pow2(n) <= TWO32
    decreases 32 - n
  {
    if n < 32 {
      Pow2AtMost(n + 1);
    } else {
      Pow2Of32();
    }
  }

  lemma Pow2Of32()
    ensures Pow2(32) == TWO32
  {
    assert Pow2(8) == 256 by {
      assert Pow2(4) == 16;
    }
    assert Pow2(16) == 65536 by {
      assert Pow2(12) == 4096 by {
        assert Pow2(10) == 1024;
      }
    }
    assert Pow2(24) == 16777216 by {
      assert Pow2(20) == 1048576 by {
        assert Pow2(18) == 262144;
      }
    }
    assert Pow2(28) == 268435456 by {
      assert Pow2(26) == 67108864;
    }
  }

  /** The loop: the product of the bit patterns of the multiplier and the multiplicand. */
  method MultiplyWords(a: Int32, b: Int32) returns (hi: Word, lo: Word)
    requires a != 0 && b != 0
    ensures Unsigned64(hi, lo) == Times(ToWord(a), ToWord(b))
  {
    hide Times;
    ghost var product := Times(ToWord(a), ToWord(b));
    ProductBound(ToWord(a), ToWord(b));
    Pow2Of32();
    TimesSmall(ToWord(b));
    var x: int := a;
    var bLo: Word, bHi: Word := ToWord(b), 0;
    lo, hi := 0, 0;
    assert Remaining(x, 0) == ToWord(a);
    TimesCommute(ToWord(a), ToWord(b));
    for i := 0 to 32
      invariant Unsigned64(bHi, bLo) == Times(ToWord(b), Pow2(i))
      invariant Unsigned64(hi, lo) + Times(Unsigned64(bHi, bLo), Remaining(x, i)) == product
      invariant -0x8000_0000 <= x < 0x8000_0000 && 0 <= Remaining(x, i) < Pow2(32 - i)
    {
      ghost var r := Remaining(x, i);
      ShiftRemaining(x, i);
      TimesStep(Unsigned64(bHi, bLo), r);
      TimesMonotone(0, 0, 2 * Unsigned64(bHi, bLo), r / 2);
      if x % 2 == 1 {
        AddPairs(hi, lo, bHi, bLo);
        lo := Plus(lo, bLo);
        if lo < bLo {
          hi := Plus(hi, 1);
        }
        hi := Plus(hi, bHi);
        if x - x % 2 == 0 {
          TimesSmall(2 * Unsigned64(bHi, bLo));
          break;
        }
      }
      ShiftedBound(ToWord(b), i);
      DoublePair(bHi, bLo);
      bHi := Plus(bHi, bHi);
      if bLo >= 0x8000_0000 {
        bHi := bHi + 1;
      }
      bLo := Plus(bLo, bLo);
      x := x / 2;
    }
    TimesSmall(Unsigned64(bHi, bLo));
  }

  lemma TimesCommute(x: int, y: int)
    ensures Times(x, y) == Times(y, x)
  {
  }

  function Magnitude(x: int): nat {
    if x < 0 then -x else x
  }

  /** Which of the signs of the operands make the product negative, and how its size is found. */
  lemma SignsOfProduct(a: Int32, b: Int32)
    requires a != 0 && b != 0
    ensures var x, y := ToWord(if a < 0 then Negate(a) else a), ToWord(if b < 0 then Negate(b) else b);
            0 < Times(x, y) <= 0x4000_0000_0000_0000
            && a * b == if (a < 0) != (b < 0) then -Times(x, y) else Times(x, y)
  {
    var x, y := Magnitude(a), Magnitude(b);
    assert x == ToWord(if a < 0 then Negate(a) else a) && y == ToWord(if b < 0 then Negate(b) else b);
    TimesMonotone(x, y, 0x8000_0000, 0x8000_0000);
    TimesMonotone(1, 1, x, y);
    SignedTimes(a, b);
  }

  lemma SignedTimes(a: int, b: int)
    ensures a * b == Times(a, b) == Times(-a, -b) && Times(-a, b) == -Times(a, b) == Times(a, -b)
  {
  }

  /** MULT and MULTU: hi:lo is the exact product of the operands, as signed or as unsigned numbers. */
  method Mult(a: Int32, b: Int32, signedArith: bool) returns (hi: Int32, lo: Int32)
    ensures signedArith ==> Signed64(ToWord(hi), ToWord(lo)) == a * b
    ensures !signedArith ==> Unsigned64(ToWord(hi), ToWord(lo)) == ToWord(a) * ToWord(b)
  {
    if a == 0 || b == 0 {
      return 0, 0;
    }
    var negative := false;
    var x, y := a, b;
    if signedArith {
      if x < 0 {
        negative := !negative;
        x := Negate(x);
      }
      if y < 0 {
        negative := !negative;
        y := Negate(y);
      }
    }
    SignsOfProduct(a, b);
    var h, l := MultiplyWords(x, y);
    if negative {
      NegatePair(h, l);
      h := 0xFFFF_FFFF - h;
      l := 0xFFFF_FFFF - l;
      l := Plus(l, 1);
      if l == 0 {
        h := Plus(h, 1);
      }
    }
    hi, lo := ToInt(h), ToInt(l);
  }
}
