/**
 The compact format of difficulty targets: eight bits of size in bytes, a sign bit and 23 bits of
 mantissa, N = mantissa * 256^(size - 3).
 */
module Compact {
  import opened Bits
  import opened Limbs
  import opened Products
  import opened Numbers

  const SIGN: int := 0x80_0000

  function Size(c: uint32): nat { c / 0x100_0000 }

  function Mantissa(c: uint32): nat { c % SIGN }

  predicate SignBit(c: uint32) { c / SIGN % 2 == 1 }

  /** The whole number a compact value stands for, its sign aside. */
  function Magnitude(c: uint32): nat {
    if Size(c) <= 3 then Shr(Mantissa(c), 8 * (3 - Size(c))) else Shl(Mantissa(c), 8 * (Size(c) - 3))
  }

  function Pow256(k: nat): (r: nat)
    ensures r >= 1
  {
    if k == 0 then 1 else 256 * Pow256(k - 1)
  }

  lemma {:induction false} BytesOfPow2(k: nat)
    ensures Pow2(8 * k) == Pow256(k)
  {
    if k > 0 {
      BytesOfPow2(k - 1);
      Pow2Adds(8, 8 * (k - 1));
      assert Pow2(8) == 256;
    }
  }

  /** The 23 lowest bits are the mantissa; the highest byte says how far to move it, and bits moved out are dropped. */
  lemma MagnitudeIs(c: uint32)
    ensures var n, size := c % 0x80_0000, c / 0x100_0000;
            Magnitude(c) == if size >= 3 then n * Pow256(size - 3) else n / Pow256(3 - size)
    ensures SignBit(c) <==> c % 0x100_0000 >= 0x80_0000
  {
    hide Magnitude, SignBit, Pow256;
    MagnitudeMoves(c);
    SignIsBit23(c);
  }

  lemma MagnitudeMoves(c: uint32)
    ensures var n, size := c % 0x80_0000, c / 0x100_0000;
            Magnitude(c) == if size >= 3 then n * Pow256(size - 3) else n / Pow256(3 - size)
  {
    hide Shl, Shr, Pow256;
    if Size(c) > 3 {
      ShlBytes(Mantissa(c), Size(c) - 3);
    } else {
      ShrBytes(Mantissa(c), 3 - Size(c));
      NoBytes();
    }
  }

  lemma ShlBytes(x: nat, k: nat)
    ensures Shl(x, 8 * k) == x * Pow256(k)
  {
    hide Pow2;
    BytesOfPow2(k);
  }

  lemma ShrBytes(x: nat, k: nat)
    ensures Shr(x, 8 * k) == x / Pow256(k)
  {
    hide Shr, Pow2, Pow256;
    BytesOfPow2(k);
    ShrDivides(x, 8 * k);
    var q, p := Shr(x, 8 * k), Pow256(k);
    Distribute(q, 1, p);
    ModUnique(x, q, x - q * p, p);
  }

  lemma NoBytes()
    ensures Pow256(0) == 1
  {
  }

  lemma SignIsBit23(c: uint32)
    ensures SignBit(c) <==> c % 0x100_0000 >= 0x80_0000
  {
    var q, r := c / 0x100_0000, c % 0x100_0000;
    assert c / SIGN == 2 * q + r / SIGN;
  }

  /** What one more in the mantissa is worth. */
  function Unit(c: uint32): nat {
    if Size(c) <= 3 then 1 else Pow2(8 * (Size(c) - 3))
  }

  /** The bytes `x` takes, counting one bit more than its own for the sign. */
  function SizeOf(x: nat): nat {
    if x == 0 then 0 else NumBits(x) / 8 + 1
  }

  /** The leading three of `SizeOf(x)` bytes. */
  function MantissaOf(x: nat): nat {
    if SizeOf(x) <= 3 then Shl(x, 8 * (3 - SizeOf(x))) else Shr(x, 8 * (SizeOf(x) - 3))
  }

  /** The compact value of a number below 2^256. */
  function Encode(x: nat, negative: bool): uint32
    requires x < Pow2(256)
  {
    SizeRange(x);
    MantissaRange(x);
    Pack(SizeOf(x), MantissaOf(x), negative && MantissaOf(x) != 0)
  }

  function Pack(size: nat, mantissa: nat, sign: bool): uint32
    requires size < 256 && mantissa < SIGN
  {
    size * 0x100_0000 + mantissa + if sign then SIGN else 0
  }

  // ---------------------------------------------------------------- shifts

  lemma NumBitsShl(x: nat, k: nat)
    requires x > 0
    ensures Shl(x, k) > 0 && NumBits(Shl(x, k)) == NumBits(x) + k
  {
    NumBitsAbove(0, x, k);
  }

  lemma {:induction false} NumBitsShr(x: nat, k: nat)
    requires k < NumBits(x)
    ensures Shr(x, k) > 0 && NumBits(Shr(x, k)) == NumBits(x) - k
    decreases k
  {
    if k > 0 {
      NumBitsShr(x / 2, k - 1);
    }
  }

  lemma {:induction false} ShrShl(x: nat, k: nat)
    ensures Shr(Shl(x, k), k) == x
  {
    if k > 0 {
      Twice(x, Pow2(k - 1));
      ShrShl(x, k - 1);
    }
  }

  lemma {:induction false} ShrKeepsOrder(x: nat, y: nat, k: nat)
    requires x <= y
    ensures Shr(x, k) <= Shr(y, k)
    decreases k
  {
    if k > 0 {
      ShrKeepsOrder(x / 2, y / 2, k - 1);
    }
  }

  lemma BitsAtLeast(x: nat, k: nat)
    ensures Pow2(k) <= x <==> k < NumBits(x)
  {
    if x < Pow2(k) {
      NumBitsAtMost(x, k);
    } else {
      NumBitsRange(x);
      Pow2Less(k, NumBits(x));
    }
  }

  lemma NoBits(x: nat)
    ensures NumBits(x) == 0 <==> x == 0
  {
  }

  lemma Pow2Of23()
    ensures Pow2(15) == 0x8000 && Pow2(23) == SIGN
  {
    Pow2Of32();
    assert Pow2(16) == 2 * Pow2(15);
    assert Pow2(24) == 2 * Pow2(23);
  }

  // ---------------------------------------------------------------- what compressing does

  lemma SizeRange(x: nat)
    requires x < Pow2(256)
    ensures SizeOf(x) <= 33
  {
    NumBitsAtMost(x, 256);
  }

  /** The mantissa keeps its top byte, so it has 16 to 23 bits. */
  lemma MantissaRange(x: nat)
    ensures MantissaOf(x) < SIGN
    ensures x > 0 ==> MantissaOf(x) >= 0x8000 && NumBits(MantissaOf(x)) == NumBits(x) % 8 + 16
    ensures x == 0 ==> MantissaOf(x) == 0
  {
    hide NumBits, Shl, Shr, Pow2;
    Pow2Of23();
    NoBits(x);
    if x > 0 {
      NumBitsShl(x, 8 * (3 - if SizeOf(x) <= 3 then SizeOf(x) else 3));
      if SizeOf(x) > 3 {
        NumBitsShr(x, 8 * (SizeOf(x) - 3));
      }
      BitsAtLeast(MantissaOf(x), 15);
      BitsAtLeast(MantissaOf(x), 23);
    } else {
      ShlZero(24);
    }
  }

  lemma ShlZero(k: nat)
    ensures Shl(0, k) == 0
  {
  }

  /** The fields of a compact value are what `Encode` put there. */
  lemma EncodeFields(x: nat, negative: bool)
    requires x < Pow2(256)
    ensures Size(Encode(x, negative)) == SizeOf(x)
    ensures Mantissa(Encode(x, negative)) == MantissaOf(x)
    ensures SignBit(Encode(x, negative)) <==> negative && x > 0
  {
    hide SizeOf, MantissaOf, Pow2;
    SizeRange(x);
    MantissaRange(x);
    Packed(SizeOf(x), MantissaOf(x), negative && MantissaOf(x) != 0);
  }

  lemma Packed(size: nat, mantissa: nat, sign: bool)
    requires size < 256 && mantissa < SIGN
    ensures Size(Pack(size, mantissa, sign)) == size && Mantissa(Pack(size, mantissa, sign)) == mantissa
    ensures SignBit(Pack(size, mantissa, sign)) == sign
  {
  }

  /**
   Compressing a number and expanding it again rounds down, by less than one unit of the mantissa,
   and so never overflows. Up to 23 bits nothing is lost.
   */
  lemma RoundsDown(x: nat, negative: bool)
    requires x < Pow2(256)
    ensures Magnitude(Encode(x, negative)) <= x < Magnitude(Encode(x, negative)) + Unit(Encode(x, negative))
    ensures x < SIGN ==> Magnitude(Encode(x, negative)) == x
  {
    hide NumBits, Shr, Pow2, Encode;
    EncodeFields(x, negative);
    Pow2Of23();
    BitsAtLeast(x, 23);
    NoBits(x);
    if SizeOf(x) <= 3 {
      ShrShl(x, 8 * (3 - SizeOf(x)));
    } else {
      var k := 8 * (SizeOf(x) - 3);
      ShrDivides(x, k);
      Distribute(Shr(x, k), 1, Pow2(k));
    }
  }

  /** Rounding down keeps the number of bits and the leading bytes. */
  lemma KeepsLeadingBytes(x: nat, negative: bool)
    requires x < Pow2(256)
    ensures NumBits(Magnitude(Encode(x, negative))) == NumBits(x)
    ensures MantissaOf(Magnitude(Encode(x, negative))) == MantissaOf(x)
  {
    hide NumBits, Shr, Shl, Pow2, Encode;
    EncodeFields(x, negative);
    NoBits(x);
    if SizeOf(x) <= 3 {
      ShrShl(x, 8 * (3 - SizeOf(x)));
    } else {
      var k := 8 * (SizeOf(x) - 3);
      NumBitsShr(x, k);
      NumBitsShl(Shr(x, k), k);
      ShrShl(Shr(x, k), k);
    }
  }

  /** What has been compressed once is not changed by expanding and compressing it again. */
  lemma Settles(x: nat, negative: bool)
    requires x < Pow2(256)
    ensures Magnitude(Encode(x, negative)) <= x
    ensures Encode(Magnitude(Encode(x, negative)), negative) == Encode(x, negative)
  {
    hide NumBits, MantissaOf, Magnitude, Pow2;
    RoundsDown(x, negative);
    KeepsLeadingBytes(x, negative);
    NoBits(x);
    NoBits(Magnitude(Encode(x, negative)));
  }

  /** Compact values without a sign are ordered as the numbers they stand for. */
  lemma KeepsOrder(x: nat, y: nat)
    requires x <= y < Pow2(256)
    ensures Encode(x, false) <= Encode(y, false)
  {
    hide NumBits, Shr, Pow2;
    NoBits(x);
    MantissaRange(x);
    MantissaRange(y);
    if x > 0 {
      BitsAtLeast(x, NumBits(x) - 1);
      BitsAtLeast(y, NumBits(x) - 1);
      if SizeOf(x) == SizeOf(y) {
        var s := SizeOf(x);
        if s <= 3 {
          LeTimes(x, y, Pow2(8 * (3 - s)));
        } else {
          ShrKeepsOrder(x, y, 8 * (s - 3));
        }
      }
    }
  }

  // ---------------------------------------------------------------- what expanding does

  /** A compact value in the form `Encode` gives. */
  predicate Canonical(c: uint32) {
    c == 0 || (Mantissa(c) >= 0x8000 && Size(c) >= 1
               && (Size(c) == 1 ==> Mantissa(c) % 0x1_0000 == 0)
               && (Size(c) == 2 ==> Mantissa(c) % 0x100 == 0))
  }

  lemma LowBytesZero(x: nat)
    requires x > 0
    ensures SizeOf(x) >= 1
    ensures SizeOf(x) == 1 ==> MantissaOf(x) % 0x1_0000 == 0
    ensures SizeOf(x) == 2 ==> MantissaOf(x) % 0x100 == 0
  {
    hide NumBits, Shr, Pow2;
    Pow2Of32();
    ModUnique(x * 0x1_0000, x, 0, 0x1_0000);
    ModUnique(x * 0x100, x, 0, 0x100);
  }

  lemma CanonicalFields(c: uint32)
    requires Canonical(c) && c != 0
    ensures Magnitude(c) > 0
    ensures SizeOf(Magnitude(c)) == Size(c) && MantissaOf(Magnitude(c)) == Mantissa(c)
  {
    hide NumBits, Shl, Shr, Pow2;
    Pow2Of23();
    var m, s := Mantissa(c), Size(c);
    Pow2Of32();
    BitsAtLeast(m, 15);
    BitsAtLeast(m, 16);
    BitsAtLeast(m, 23);
    if s > 3 {
      NumBitsShl(m, 8 * (s - 3));
      ShrShl(m, 8 * (s - 3));
    } else {
      NumBitsShr(m, 8 * (3 - s));
      ZeroBytes(m, s);
    }
  }

  /** Nothing is lost where the lower bits are zero. */
  lemma ShiftBack(m: nat, k: nat)
    requires m % Pow2(k) == 0
    ensures Shl(Shr(m, k), k) == m
  {
    hide Shr, Pow2;
    var p := Pow2(k);
    ShrDivides(m, k);
    var q, r := m / p, m - Shr(m, k) * p;
    Distribute(Shr(m, k), 1, p);
    ModUnique(m, Shr(m, k), r, p);
  }

  /** Shifting zero bytes out and in again changes nothing. */
  lemma ZeroBytes(m: nat, s: nat)
    requires 1 <= s <= 3 && (s == 1 ==> m % 0x1_0000 == 0) && (s == 2 ==> m % 0x100 == 0)
    ensures Shl(Shr(m, 8 * (3 - s)), 8 * (3 - s)) == m
  {
    hide Shr, Pow2, Shl;
    if s == 3 {
      ShrNothing(m);
    } else {
      Pow2Of32();
      ShiftBack(m, 8 * (3 - s));
    }
  }

  lemma ShrNothing(m: nat)
    ensures Shl(Shr(m, 0), 0) == m
  {
  }

  /** Expanding a compact value and compressing it again gives it back exactly when it is canonical. */
  lemma RestoredIff(c: uint32)
    requires Magnitude(c) < Pow2(256)
    ensures Encode(Magnitude(c), SignBit(c)) == c <==> Canonical(c)
  {
    hide NumBits, Magnitude, MantissaOf, SizeOf, Pow2;
    var x := Magnitude(c);
    EncodeFields(x, SignBit(c));
    if c == 0 {
      MagnitudeOfZero();
    } else if Canonical(c) {
      CanonicalFields(c);
    } else if x > 0 {
      MantissaRange(x);
      LowBytesZero(x);
    } else {
      EncodeZero(SignBit(c));
    }
  }

  lemma MagnitudeOfZero()
    ensures Magnitude(0) == 0 && Encode(0, false) == 0
  {
    hide Pow2, Shr;
    ShrOfZero(24);
    ShlZero(24);
  }

  lemma EncodeZero(negative: bool)
    ensures Encode(0, negative) == 0
  {
    ShlZero(24);
  }

  /** The test for overflow that `SetCompact` makes. */
  lemma OverflowTest(c: uint32)
    ensures Magnitude(c) >= Pow2(256) <==>
            Mantissa(c) != 0 && (Size(c) > 34 || (Mantissa(c) > 0xff && Size(c) > 33) || (Mantissa(c) > 0xffff && Size(c) > 32))
  {
    hide NumBits, Shl, Shr, Pow2;
    var m, s := Mantissa(c), Size(c);
    Pow2Of32();
    Pow2Of23();
    NoBits(m);
    BitsAtLeast(m, 8);
    BitsAtLeast(m, 16);
    BitsAtLeast(m, 23);
    BitsAtLeast(Magnitude(c), 256);
    if m == 0 {
      NothingToShift(c);
    } else if s > 3 {
      NumBitsShl(m, 8 * (s - 3));
    } else {
      ShrSmall(m, 8 * (3 - s));
    }
  }

  lemma NothingToShift(c: uint32)
    requires Mantissa(c) == 0
    ensures Magnitude(c) == 0
  {
    hide Pow2, Shr;
    ShrOfZero(if Size(c) <= 3 then 8 * (3 - Size(c)) else 0);
  }

  lemma ShrSmall(x: nat, k: nat)
    ensures NumBits(Shr(x, k)) <= NumBits(x)
  {
    if k < NumBits(x) {
      NumBitsShr(x, k);
    } else {
      BitsAtLeast(x, k);
      ShrDivides(x, k);
      if Shr(x, k) >= 1 {
        LeTimes(1, Shr(x, k), Pow2(k));
      }
    }
  }

  // ---------------------------------------------------------------- what GetCompact computes

  /** The leading bytes without room for a sign. */
  function Leading(x: nat): nat {
    var n := (NumBits(x) + 7) / 8;
    if n <= 3 then Shl(x, 8 * (3 - n)) else Shr(x, 8 * (n - 3))
  }

  /** If the top bit of the leading three bytes is set there is no room for the sign: one byte more is taken. */
  lemma MakesRoom(x: nat)
    ensures Leading(x) < 0x100_0000
    ensures Bit(Leading(x), 23) ==> Shr(Leading(x), 8) == MantissaOf(x) && (NumBits(x) + 7) / 8 + 1 == SizeOf(x)
    ensures !Bit(Leading(x), 23) ==> Leading(x) == MantissaOf(x) && (NumBits(x) + 7) / 8 == SizeOf(x)
  {
    hide NumBits, Shl, Shr, Pow2, Bit;
    NoBits(x);
    if x == 0 {
      ShlZero(24);
      NoTopBit();
    } else {
      LeadingBits(x);
      if NumBits(x) % 8 == 0 {
        OneByteMore(x);
      }
    }
  }

  lemma NoTopBit()
    ensures !Bit(0, 23)
  {
    ShrOfZero(23);
  }

  /** The top bit of the leading bytes is set where the number fills its bytes. */
  lemma LeadingBits(x: nat)
    requires x > 0
    ensures Leading(x) < 0x100_0000 && (Bit(Leading(x), 23) <==> NumBits(x) % 8 == 0)
  {
    hide NumBits, Leading, Pow2, Bit;
    LeadingCount(x);
    Pow2Of32();
    Pow2Of23();
    BitsAtLeast(Leading(x), 23);
    BitsAtLeast(Leading(x), 24);
    TopBit(Leading(x));
  }

  /** Leading bytes have 24 bits but for those that the first of them lacks. */
  lemma LeadingCount(x: nat)
    requires x > 0
    ensures NumBits(Leading(x)) == NumBits(x) + 24 - 8 * ((NumBits(x) + 7) / 8)
  {
    hide NumBits, Shl, Shr;
    var n := (NumBits(x) + 7) / 8;
    if n > 3 {
      NumBitsShr(x, 8 * (n - 3));
    } else {
      NumBitsShl(x, 8 * (3 - n));
    }
  }

  /** A number that fills its bytes moves by one. */
  lemma OneByteMore(x: nat)
    requires x > 0 && NumBits(x) % 8 == 0
    ensures Shr(Leading(x), 8) == MantissaOf(x) && (NumBits(x) + 7) / 8 + 1 == SizeOf(x)
  {
    hide NumBits, Shl, Shr, Pow2;
    var n := NumBits(x) / 8;
    if n < 3 {
      ShlAdds(x, 8 * (2 - n), 8);
      ShrShl(Shl(x, 8 * (2 - n)), 8);
    } else if n > 3 {
      ShrAdds(x, 8 * (n - 3), 8);
    } else {
      ShlNothing(x);
    }
  }

  lemma ShlNothing(x: nat)
    ensures Shl(x, 0) == x
  {
  }

  lemma TopBit(x: nat)
    requires x < 0x100_0000
    ensures Bit(x, 23) <==> x >= SIGN
  {
    hide Shr, Pow2;
    Pow2Of23();
    ShrDivides(x, 23);
  }

  lemma ShlAdds(x: nat, a: nat, b: nat)
    ensures Shl(x, a + b) == Shl(Shl(x, a), b)
  {
    Pow2Adds(a, b);
    Associate(x, Pow2(a), Pow2(b));
  }

  lemma {:induction false} ShrAdds(x: nat, a: nat, b: nat)
    ensures Shr(x, a + b) == Shr(Shr(x, a), b)
    decreases a
  {
    if a > 0 {
      ShrAdds(x / 2, a - 1, b);
    }
  }

  /** Putting the fields together with `|` puts them side by side. */
  lemma OrFields(size: nat, mantissa: nat, sign: bool)
    requires size < 256 && mantissa < SIGN
    ensures Or(mantissa, Shl(size, 24)) == Pack(size, mantissa, false)
    ensures Or(Or(mantissa, Shl(size, 24)), if sign then SIGN else 0) == Pack(size, mantissa, sign)
  {
    hide Or, And, Pow2, Shr;
    Pow2Of32();
    Pow2Of23();
    OrDisjoint(mantissa, size, 24);
    var c: nat := mantissa + size * 0x100_0000;
    OrAnd(c, if sign then SIGN else 0);
    if sign {
      ShrDivides(c, 23);
      AndPow(c, 23);
    } else {
      AndZero(c);
    }
  }
}
