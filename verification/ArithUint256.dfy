/**
 256-bit unsigned integers as eight 32-bit limbs, least significant first. Every operator works on
 the limbs in place; its contract says what it does to the number.
 */
module ArithUint256 {
  import opened Bits
  import opened Compact
  import opened Limbs
  import opened Products
  import opened Numbers

  const WIDTH: int := 8

  /** 2^256 */
  function MOD(): (r: nat)
    ensures r >= 1
  {
    W(WIDTH)
  }

  class BaseUint {
    const pn: array<Limb>

    ghost predicate Valid() { pn.Length == WIDTH }

    /** The number these limbs stand for. */
    ghost function V(): (r: nat)
      requires Valid()
      reads pn
      ensures r < MOD()
    {
      ValBound(pn[..]);
      Val(pn[..])
    }

    constructor (b: uint64)
      ensures Valid() && fresh(pn) && V() == b
    {
      pn := new Limb[WIDTH](i => if i == 0 then b % BASE else if i == 1 then b / BASE else 0);
      new;
      assert pn[..] == [b % BASE, b / BASE, 0, 0, 0, 0, 0, 0];
      TwoLimbs(b % BASE, b / BASE);
    }

    constructor Copy(b: BaseUint)
      requires b.Valid()
      ensures Valid() && fresh(pn) && pn[..] == b.pn[..] && V() == b.V()
    {
      pn := new Limb[WIDTH](i requires 0 <= i < WIDTH reads b.pn => b.pn[i]);
      new;
      assert pn[..] == b.pn[..];
    }

    /** operator=(uint64_t) */
    method Assign(b: uint64)
      requires Valid()
      modifies pn
      ensures V() == b
      ensures b == 0 ==> forall j :: 0 <= j < WIDTH ==> pn[j] == 0
    {
      hide Val, W, Pow2;
      pn[0] := b % BASE;
      pn[1] := b / BASE;
      for i := 2 to WIDTH
        invariant pn[0] == b % BASE && pn[1] == b / BASE && forall j :: 2 <= j < i ==> pn[j] == 0
      {
        pn[i] := 0;
      }
      assert pn[..] == [b % BASE, b / BASE, 0, 0, 0, 0, 0, 0];
      TwoLimbs(b % BASE, b / BASE);
    }

    // -------------------------------------------------------------- + and -

    method AddAssign(b: BaseUint)
      requires Valid() && b.Valid()
      modifies pn
      ensures V() == (old(V()) + old(b.V())) % MOD()
    {
      hide Val, W, Pow2;
      ghost var bs := b.pn[..];
      ghost var start := Val(pn[..]);
      var carry: uint64 := 0;
      ValEmpty(bs);
      for i := 0 to WIDTH
        invariant carry <= 1
        invariant forall j :: i <= j < WIDTH ==> b.pn[j] == bs[j]
        invariant Val(pn[..]) + carry * W(i) == start + Val(bs[..i])
      {
        ghost var before, carry0 := pn[..], carry;
        var n: uint64 := carry + pn[i] + b.pn[i];
        pn[i] := n % BASE;
        carry := n / BASE;
        assert pn[..] == before[i := pn[i]];
        ValUpdate(before, i, pn[i]);
        ValNext(bs, i);
        WNext(i);
        CarryStep(W(i), before[i], n % BASE, carry0, carry, bs[i]);
      }
      assert bs[..WIDTH] == bs;
      ModUnique(start + Val(bs), carry, V(), MOD());
    }

    /** operator++() */
    method Increment()
      requires Valid()
      modifies pn
      ensures V() == (old(V()) + 1) % MOD()
    {
      hide Val, W, Pow2;
      ghost var start := Val(pn[..]);
      WZero();
      var i := 0;
      ghost var before := pn[..];
      pn[i] := (pn[i] + 1) % BASE;
      Bumped(before, pn[..], i);
      while pn[i] == 0 && i < WIDTH - 1
        invariant 0 <= i < WIDTH
        invariant Val(pn[..]) + (if pn[i] == 0 then W(i + 1) else 0) == start + 1
      {
        i := i + 1;
        before := pn[..];
        pn[i] := (pn[i] + 1) % BASE;
        Bumped(before, pn[..], i);
      }
      ModUnique(start + 1, if pn[i] == 0 then 1 else 0, V(), MOD());
    }

    /** operator--() */
    method Decrement()
      requires Valid()
      modifies pn
      ensures V() == (old(V()) - 1) % MOD()
    {
      hide Val, W, Pow2;
      ghost var start := Val(pn[..]);
      WZero();
      var i := 0;
      ghost var before := pn[..];
      pn[i] := (pn[i] - 1) % BASE;
      Dropped(before, pn[..], i);
      while pn[i] == BASE - 1 && i < WIDTH - 1
        invariant 0 <= i < WIDTH
        invariant Val(pn[..]) - (if pn[i] == BASE - 1 then W(i + 1) else 0) == start - 1
      {
        i := i + 1;
        before := pn[..];
        pn[i] := (pn[i] - 1) % BASE;
        Dropped(before, pn[..], i);
      }
      ModUnique(start - 1, if pn[i] == BASE - 1 then -1 else 0, V(), MOD());
    }

    /** operator-() : complement every limb and add one. */
    method Negated() returns (ret: BaseUint)
      requires Valid()
      ensures ret.Valid() && fresh(ret) && fresh(ret.pn)
      ensures ret.V() == (0 - V()) % MOD()
    {
      hide Val, W, Pow2;
      ret := new BaseUint(0);
      for i := 0 to WIDTH
        invariant forall j :: 0 <= j < i ==> ret.pn[j] == BASE - 1 - pn[j]
      {
        ret.pn[i] := BASE - 1 - pn[i];
      }
      Complement(pn[..], ret.pn[..]);
      ret.Increment();
      ModShift(0 - V(), MOD());
    }

    method SubAssign(b: BaseUint)
      requires Valid() && b.Valid()
      modifies pn
      ensures V() == (old(V()) - old(b.V())) % MOD()
    {
      hide Val, W, Pow2;
      ghost var x, y := V(), b.V();
      var neg := b.Negated();
      AddAssign(neg);
      var minus: int := 0 - (y as int);
      ModOfMod(x, minus, MOD());
    }

    // -------------------------------------------------------------- *

    /** operator*=(uint32_t) */
    method MulAssignLimb(b32: Limb)
      requires Valid()
      modifies pn
      ensures V() == (old(V()) * b32) % MOD()
    {
      hide Val, W, Pow2;
      ghost var a := pn[..];
      var carry: uint64 := 0;
      ValEmpty(a);
      for i := 0 to WIDTH
        invariant carry < BASE
        invariant forall j :: i <= j < WIDTH ==> pn[j] == a[j]
        invariant Val(pn[..]) + carry * W(i) == Val(a) - Val(a[..i]) + Val(a[..i]) * b32
      {
        ghost var before, carry0 := pn[..], carry;
        ProductFits(b32, pn[i], carry, 0);
        var n: uint64 := carry + b32 * pn[i];
        pn[i] := n % BASE;
        carry := n / BASE;
        assert pn[..] == before[i := pn[i]];
        ValUpdate(before, i, pn[i]);
        ValNext(a, i);
        WNext(i);
        LimbTimes(W(i), a[i], pn[i], carry0, carry, b32, Val(a[..i]));
      }
      assert a[..WIDTH] == a;
      ModUnique(Val(a) * b32, carry, V(), MOD());
    }

    /**
     operator*=(const base_uint&). The receiver is zeroed before the argument is read, so an object
     multiplied by itself becomes zero.
     */
    method MulAssign(b: BaseUint)
      requires Valid() && b.Valid()
      modifies pn
      ensures b.pn != pn ==> V() == (old(V()) * b.V()) % MOD()
      ensures b.pn == pn ==> V() == 0
    {
      hide Val, W, Pow2;
      var a := new BaseUint.Copy(this);
      Assign(0);
      ghost var was, bs := a.pn[..], b.pn[..];
      ghost var y, lost := Val(bs), 0;
      ValEmpty(was);
      assert b.pn == pn ==> y == 0;
      for j := 0 to WIDTH
        invariant a.pn[..] == was
        invariant b.pn[..] == bs
        invariant lost >= 0 && Val(pn[..]) + lost * MOD() == Val(was[..j]) * y
      {
        ghost var dropped := AddRow(a.pn[j], j, b);
        ValNext(was, j);
        Distribute(Val(was[..j]), was[j] * W(j), y);
        Distribute(lost, dropped, MOD());
        lost := lost + dropped;
      }
      assert was[..WIDTH] == was;
      ModUnique(Val(was) * y, lost, V(), MOD());
    }

    /** The inner loop of the product: one limb of a times b is added from limb j upwards. */
    method AddRow(x: Limb, j: int, b: BaseUint) returns (ghost dropped: nat)
      requires Valid() && b.Valid() && 0 <= j < WIDTH
      requires b.pn == pn ==> forall i :: 0 <= i < WIDTH ==> pn[i] == 0
      modifies pn
      ensures b.pn[..] == old(b.pn[..])
      ensures V() + dropped * MOD() == old(V()) + x * W(j) * old(b.V())
    {
      hide Val, W, Pow2;
      ghost var bs := b.pn[..];
      ghost var start := V();
      var carry: uint64 := 0;
      ValEmpty(bs);
      for i := 0 to WIDTH - j
        invariant carry < BASE
        invariant b.pn[..] == bs
        invariant b.pn == pn ==> carry == 0 && forall k :: 0 <= k < WIDTH ==> pn[k] == 0
        invariant Val(pn[..]) + carry * W(i + j) == start + x * W(j) * Val(bs[..i])
      {
        ghost var before, carry0 := pn[..], carry;
        ProductFits(x, b.pn[i], carry, pn[i + j]);
        var n: uint64 := carry + pn[i + j] + x * b.pn[i];
        pn[i + j] := n % BASE;
        carry := n / BASE;
        assert pn[..] == before[i + j := pn[i + j]];
        RowTurn(before, bs, x, i, j, pn[i + j], carry0, carry, start);
      }
      ghost var high := ValSplit(bs, WIDTH - j);
      WAdds(j, WIDTH - j);
      dropped := RowDrops(x, W(j), Val(bs[..WIDTH - j]), high, W(WIDTH - j), carry, start, V());
    }

    // -------------------------------------------------------------- comparison

    /** Compares from the most significant limb down. */
    method CompareTo(b: BaseUint) returns (r: int)
      requires Valid() && b.Valid()
      ensures r < 0 <==> V() < b.V()
      ensures r > 0 <==> V() > b.V()
    {
      hide Val, W, Pow2;
      var i := WIDTH - 1;
      while i >= 0
        invariant -1 <= i < WIDTH
        invariant pn[i + 1..] == b.pn[i + 1..]
      {
        if pn[i] < b.pn[i] {
          ValLess(pn[..], b.pn[..], i);
          return -1;
        }
        if pn[i] > b.pn[i] {
          ValLess(b.pn[..], pn[..], i);
          return 1;
        }
        assert pn[i..] == [pn[i]] + pn[i + 1..];
        assert b.pn[i..] == [b.pn[i]] + b.pn[i + 1..];
        i := i - 1;
      }
      assert pn[..] == b.pn[..];
      return 0;
    }

    method EqualTo(b: uint64) returns (r: bool)
      requires Valid()
      ensures r <==> V() == b
    {
      hide Val, W, Pow2;
      ghost var other: seq<Limb> := [b % BASE, b / BASE, 0, 0, 0, 0, 0, 0];
      TwoLimbs(b % BASE, b / BASE);
      if V() == b {
        ValInjective(pn[..], other);
      }
      var i := WIDTH - 1;
      while i >= 2
        invariant 1 <= i < WIDTH && forall j :: i < j < WIDTH ==> pn[j] == 0
      {
        if pn[i] != 0 {
          assert pn[..][i] != other[i];
          return false;
        }
        i := i - 1;
      }
      if pn[1] != b / BASE {
        assert pn[..][1] != other[1];
        return false;
      }
      if pn[0] != b % BASE {
        assert pn[..][0] != other[0];
        return false;
      }
      assert pn[..] == other;
      return true;
    }

    /** The position of the highest one bit plus one, or zero. */
    method NumberOfBits() returns (r: nat)
      requires Valid()
      ensures r == NumBits(V()) <= 256
    {
      hide Val, Pow2, NumBits, Shr;
      NumBitsAtMost(V(), 32 * WIDTH);
      var pos := WIDTH - 1;
      while pos >= 0
        invariant -1 <= pos < WIDTH && forall j :: pos < j < WIDTH ==> pn[j] == 0
      {
        if pn[pos] != 0 {
          ValNumBits(pn[..], pos);
          var bits := 31;
          ShrTop(pn[pos]);
          while bits > 0
            invariant 0 <= bits <= 31 && Shr(pn[pos], bits + 1) == 0
          {
            ShrStep(pn[pos], bits);
            if Bit(pn[pos], bits) {
              ShrNumBits(pn[pos], bits);
              return 32 * pos + bits + 1;
            }
            bits := bits - 1;
          }
          ShrNumBits(pn[pos], 0);
          return 32 * pos + 1;
        }
        pos := pos - 1;
      }
      ValZeros(pn[..], 0);
      ValEmpty(pn[..]);
      NumBitsZero();
      return 0;
    }

    // -------------------------------------------------------------- shifts

    /** operator<<= */
    method ShiftLeft(shift: nat)
      requires Valid()
      modifies pn
      ensures V() == (old(V()) * Pow2(shift)) % MOD()
    {
      hide Val, W, Pow2;
      var a := new BaseUint.Copy(this);
      Assign(0);
      var k, s := shift / 32, shift % 32;
      ghost var was := a.pn[..];
      ghost var lost: nat := 0;
      ValEmpty(was);
      for i := 0 to WIDTH
        invariant a.pn[..] == was
        invariant forall j :: i + k < j < WIDTH ==> pn[j] == 0
        invariant i + k < WIDTH ==> pn[i + k] < Pow2(s)
        invariant Val(pn[..]) + lost * MOD() == Val(was[..i]) * Pow2(shift)
      {
        ghost var d := PutLeft(a.pn[i], i + k, s);
        ValNext(was, i);
        ShlWorth(Val(was[..i]), was[i], i, k, s);
        Distribute(lost, d, MOD());
        lost := lost + d;
      }
      assert was[..WIDTH] == was;
      ModUnique(Val(was) * Pow2(shift), lost, V(), MOD());
    }

    /** One turn of the loop of operator<<=: limb `x` moves to limb `j`, its upper bits to the next limb. */
    method PutLeft(x: Limb, j: int, s: int) returns (ghost dropped: nat)
      requires Valid() && j >= 0 && 0 <= s < 32
      requires forall m :: j < m < WIDTH ==> pn[m] == 0
      requires j < WIDTH ==> pn[j] < Pow2(s)
      modifies pn
      ensures forall m :: j + 1 < m < WIDTH ==> pn[m] == 0
      ensures j + 1 < WIDTH ==> pn[j + 1] < Pow2(s)
      ensures V() + dropped * MOD() == old(V()) + x * Pow2(s) * W(j)
    {
      hide Val, W, Pow2, Or, Shl, Shr;
      ghost var v := V();
      ghost var hi, q := SplitShl(x, s);
      if j + 1 < WIDTH && s != 0 {
        OrSets(pn[..], j + 1, hi);
        ghost var before := pn[..];
        pn[j + 1] := Or(pn[j + 1], Shr(x, 32 - s));
        assert pn[..] == before[j + 1 := pn[j + 1]];
      }
      if j < WIDTH {
        OrAdds(pn[..], j, q, s);
        ghost var before := pn[..];
        pn[j] := Or(pn[j], Shl(x, s) % BASE);
        assert pn[..] == before[j := pn[j]];
      }
      dropped := ShlMoves(v, V(), x, hi, q * Pow2(s), s, j);
    }

    /** operator>>= */
    method ShiftRight(shift: nat)
      requires Valid()
      modifies pn
      ensures V() == old(V()) / Pow2(shift)
    {
      hide Val, W, Pow2, Or, Shl, Shr;
      var a := new BaseUint.Copy(this);
      Assign(0);
      var k, s := shift / 32, shift % 32;
      ghost var was := a.pn[..];
      ghost var rest: nat := 0;
      ValEmpty(was);
      WZero();
      for i := 0 to WIDTH
        invariant a.pn[..] == was
        invariant forall j :: 0 <= j < WIDTH && i - k <= j ==> pn[j] == 0
        invariant 0 < i - k ==> pn[i - k - 1] < Pow2(32 - s)
        invariant rest < if i <= k then W(i) else Pow2(shift)
        invariant i <= k ==> Val(pn[..]) == 0
        invariant Val(was[..i]) == Val(pn[..]) * Pow2(shift) + rest
      {
        ghost var v := Val(pn[..]);
        ghost var hi, lo := PutRight(a.pn[i], i - k, s);
        ValNext(was, i);
        rest := ShrMoves(v, Val(pn[..]), Val(was[..i]), was[i], hi, lo, s, i, k, rest);
      }
      assert was[..WIDTH] == was;
      if WIDTH <= k {
        ShiftAtLeast(WIDTH, shift);
      }
      ModUnique(Val(was), V(), rest, Pow2(shift));
    }

    /** One turn of the loop of operator>>=: limb `x` moves to limb `j`, its lower bits to the limb below. */
    method PutRight(x: Limb, j: int, s: int) returns (ghost hi: nat, ghost lo: nat)
      requires Valid() && j < WIDTH && 0 <= s < 32
      requires forall m :: 0 <= m < WIDTH && j <= m ==> pn[m] == 0
      requires 0 < j ==> pn[j - 1] < Pow2(32 - s)
      modifies pn
      ensures forall m :: 0 <= m < WIDTH && j + 1 <= m ==> pn[m] == 0
      ensures 0 <= j ==> pn[j] < Pow2(32 - s)
      ensures x == hi * Pow2(s) + lo && lo < Pow2(s)
      ensures V() == old(V()) + (if j > 0 then lo * Pow2(32 - s) * W(j - 1) else 0) + (if j >= 0 then hi * W(j) else 0)
    {
      hide Val, W, Pow2, Or, Shl, Shr;
      hi, lo := SplitShr(x, s);
      if j - 1 >= 0 && s != 0 {
        PutLow(x, j - 1, s, hi, lo);
      }
      if j >= 0 {
        ghost var before := pn[..];
        OrSets(before, j, hi);
        pn[j] := Or(pn[j], Shr(x, s));
        assert pn[..] == before[j := pn[j]];
      }
    }

    method PutLow(x: Limb, j: int, s: int, ghost hi: nat, ghost lo: nat)
      requires Valid() && 0 <= j < WIDTH && 0 < s < 32 && pn[j] < Pow2(32 - s)
      requires Shl(x, 32 - s) % BASE == lo * Pow2(32 - s) && (lo + 1) * Pow2(32 - s) <= BASE
      modifies pn
      ensures forall m :: 0 <= m < WIDTH && m != j ==> pn[m] == old(pn[m])
      ensures V() == old(V()) + lo * Pow2(32 - s) * W(j)
    {
      hide Val, W, Pow2, Or, Shl;
      ghost var before := pn[..];
      OrAdds(before, j, lo, 32 - s);
      pn[j] := Or(pn[j], Shl(x, 32 - s) % BASE);
      assert pn[..] == before[j := pn[j]];
    }

    // -------------------------------------------------------------- /

    /** pn[shift / 32] |= (1 << (shift & 31)) */
    method SetBit(shift: int, ghost q: nat)
      requires Valid() && 0 <= shift < 256 && QuotientBits(pn[..], shift, q, 0)
      modifies pn
      ensures V() == old(V()) + Pow2(shift)
      ensures QuotientBits(pn[..], shift, q, 1)
    {
      hide Val, QuotientBits, Or, Shl;
      ghost var before := pn[..];
      BitSet(before, shift, q);
      pn[shift / 32] := Or(pn[shift / 32], Shl(1, shift % 32));
      assert pn[..] == before[shift / 32 := pn[shift / 32]];
    }

    /** One turn of the division: subtracts and sets the bit, if the shifted divisor still goes in. */
    method TakeAway(num: BaseUint, div: BaseUint, shift: int, ghost q: nat) returns (ghost bit: nat)
      requires Valid() && num.Valid() && div.Valid() && pn != num.pn && pn != div.pn && num.pn != div.pn
      requires 0 <= shift < 256 && QuotientBits(pn[..], shift, q, 0)
      modifies pn, num.pn
      ensures QuotientBits(pn[..], shift, q, bit)
      ensures old(num.V()) >= div.V() ==> num.V() == old(num.V()) - div.V() && V() == old(V()) + Pow2(shift)
      ensures old(num.V()) < div.V() ==> num.V() == old(num.V()) && V() == old(V())
    {
      hide Val, W, Pow2, QuotientBits;
      bit := 0;
      var c := num.CompareTo(div);
      if c >= 0 {
        SmallMod(num.V() - div.V(), MOD());
        num.SubAssign(div);
        SetBit(shift, q);
        bit := 1;
      }
    }

    /**
     operator/=. Long division, one bit of the quotient at a time; `leftover` is what is left in the
     local copy of the dividend. Dividing by zero throws, after the receiver has been zeroed.
     */
    method DivAssign(b: BaseUint) returns (thrown: bool, ghost leftover: nat)
      requires Valid() && b.Valid()
      modifies pn
      ensures thrown <==> old(b.V()) == 0
      ensures thrown ==> V() == 0
      ensures !thrown ==> V() == old(V()) / old(b.V()) && leftover == old(V()) % old(b.V())
    {
      hide Val, W, Pow2, NumBits, QuotientBits, Divided;
      ghost var n, d := V(), b.V();
      var div := new BaseUint.Copy(b);
      var num := new BaseUint.Copy(this);
      Assign(0);
      var numBits := num.NumberOfBits();
      var divBits := div.NumberOfBits();
      BitsOf(n);
      BitsOf(d);
      if divBits == 0 {
        return true, 0;
      }
      if divBits > numBits {
        FewerBits(n, d);
        ModUnique(n, 0, n, d);
        return false, n;
      }
      var shift: int := numBits - divBits;
      div.ShiftLeft(shift);
      Aligned(n, d, shift);
      ghost var q := 0;
      NoBitsYet(pn[..], shift);
      DivisionStarts(n, d, d * Pow2(shift + 1));
      while shift >= 0
        invariant -1 <= shift < 256
        invariant Divided(n, d, V(), num.V(), d * Pow2(shift + 1))
        invariant shift >= 0 ==> div.V() == d * Pow2(shift)
        invariant shift >= 0 ==> QuotientBits(pn[..], shift, q, 0)
      {
        Halves(d, shift);
        DivisionStep(n, d, V(), num.V(), Pow2(shift));
        ghost var bit := TakeAway(num, div, shift, q);
        div.ShiftRight(1);
        q := NextBit(pn[..], shift, q, bit);
        shift := shift - 1;
      }
      thrown, leftover := false, num.V();
      DivisionEnds(n, d, V(), leftover);
    }

    // -------------------------------------------------------------- compact format

    method GetLow64() returns (r: uint64)
      requires Valid()
      ensures r == V() % (BASE * BASE)
    {
      hide Val, W, Pow2, Or;
      LowLimbs(pn[..]);
      OrBase(pn[0], pn[1]);
      r := Or(pn[0], Shl(pn[1], 32));
    }

    method SetCompact(nCompact: uint32) returns (negative: bool, overflow: bool)
      requires Valid()
      modifies pn
      ensures V() == Magnitude(nCompact) % MOD()
      ensures overflow <==> Magnitude(nCompact) >= MOD()
      ensures negative <==> SignBit(nCompact) && Magnitude(nCompact) != 0
    {
      hide Val, Pow2, Shr, Shl;
      var nSize := nCompact / 0x100_0000;
      var nWord := nCompact % SIGN;
      OverflowTest(nCompact);
      if nSize <= 3 {
        nWord := Shr(nWord, 8 * (3 - nSize));
        ShrShrinks(Mantissa(nCompact), 8 * (3 - nSize));
        MODIsLarge();
        SmallMod(nWord, MOD());
        Assign(nWord);
      } else {
        Assign(nWord);
        ShiftLeft(8 * (nSize - 3));
        ShlKeepsZero(nWord, 8 * (nSize - 3));
      }
      negative := nWord != 0 && SignBit(nCompact);
      overflow := nWord != 0 && (nSize > 34 || (nWord > 0xff && nSize > 33) || (nWord > 0xffff && nSize > 32));
    }

    method GetCompact(fNegative: bool) returns (r: uint32)
      requires Valid()
      ensures r == Encode(V(), fNegative)
    {
      hide Val, Pow2, Or, Shr, Shl, NumBits, MantissaOf, Bit, SizeOf, Leading, Pack;
      MODIsLarge();
      var bits := NumberOfBits();
      var nSize := (bits + 7) / 8;
      var nCompact := LeadingBytes(nSize);
      MakesRoom(V());
      if Bit(nCompact, 23) {
        nCompact := Shr(nCompact, 8);
        nSize := nSize + 1;
      }
      SizeRange(V());
      MantissaRange(V());
      assert nCompact / SIGN == 0;
      assert nSize < 256;
      OrFields(nSize, nCompact, fNegative && nCompact != 0);
      Packed(nSize, nCompact, false);
      nCompact := Or(nCompact, Shl(nSize, 24));
      r := Or(nCompact, if fNegative && nCompact % SIGN != 0 then SIGN else 0);
    }

    /** The first half of GetCompact: three bytes of the number, truncated to 32 bits. */
    method LeadingBytes(nSize: int) returns (r: uint32)
      requires Valid() && nSize == (NumBits(V()) + 7) / 8
      ensures r == Leading(V())
    {
      hide Val, Pow2, Or, Shr, Shl, NumBits, Bit, SizeOf, MantissaOf;
      MakesRoom(V());
      if nSize <= 3 {
        FewBits(V());
        var low := GetLow64();
        SmallMod(Leading(V()), BASE);
        r := Shl(low, 8 * (3 - nSize)) % BASE;
      } else {
        var bn := new BaseUint.Copy(this);
        bn.ShiftRight(8 * (nSize - 3));
        ShrIsDiv(V(), 8 * (nSize - 3));
        SmallMod(bn.V(), BASE * BASE);
        SmallMod(bn.V(), BASE);
        var low := bn.GetLow64();
        r := low % BASE;
      }
    }
  }

  // ---------------------------------------------------------------- bits

  lemma NumBitsZero()
    ensures NumBits(0) == 0
  {
  }

  /** A limb has no bit above bit 31. */
  lemma ShrTop(x: Limb)
    ensures Shr(x, 32) == 0
  {
    ShrDivides(x, 32);
    Pow2Of32();
    ModUnique(x, 0, x, BASE);
    ModUnique(x, Shr(x, 32), x - Shr(x, 32) * BASE, BASE);
  }

  lemma {:induction false} ShrStep(x: nat, k: nat)
    ensures Shr(x, k + 1) == Shr(x, k) / 2
    decreases k
  {
    if k > 0 {
      ShrStep(x / 2, k - 1);
    }
  }

  /** The highest bit that is set is bit k. */
  lemma ShrNumBits(x: nat, k: nat)
    requires x > 0 && Shr(x, k + 1) == 0 && (k == 0 || Shr(x, k) % 2 == 1)
    ensures NumBits(x) == k + 1
  {
    ShrDivides(x, k);
    ShrDivides(x, k + 1);
    ShrStep(x, k);
    if Shr(x, k) >= 1 {
      LeTimes(1, Shr(x, k), Pow2(k));
    }
    NumBitsUnique(x, k + 1);
  }

  // ---------------------------------------------------------------- compact format

  lemma LowLimbs(p: seq<Limb>)
    requires |p| == WIDTH
    ensures Val(p) % (BASE * BASE) == p[0] + p[1] * BASE
  {
    hide Val, W, Pow2;
    var high := ValSplit(p, 2);
    ValEmpty(p);
    ValNext(p, 0);
    ValNext(p, 1);
    WZero();
    WNext(0);
    WNext(1);
    ModUnique(Val(p), high, p[0] + p[1] * BASE, BASE * BASE);
  }

  lemma FewBits(x: nat)
    requires NumBits(x) <= 24
    ensures x % (BASE * BASE) == x
  {
    Pow2Of32();
    BitsAtLeast(x, 24);
    SmallMod(x, BASE * BASE);
  }

  lemma OrBase(lo: Limb, hi: Limb)
    ensures Or(lo, Shl(hi, 32)) == lo + hi * BASE < BASE * BASE
  {
    Pow2Of32();
    OrDisjoint(lo, hi, 32);
  }

  lemma ShrIsDiv(x: nat, k: nat)
    ensures Shr(x, k) == x / Pow2(k)
  {
    hide Shr, Pow2;
    ShrDivides(x, k);
    Distribute(Shr(x, k), 1, Pow2(k));
    ModUnique(x, Shr(x, k), x - Shr(x, k) * Pow2(k), Pow2(k));
  }

  lemma ShrShrinks(x: nat, k: nat)
    ensures Shr(x, k) <= x
  {
    ShrIsDiv(x, k);
    LeTimes(1, Pow2(k), x / Pow2(k));
  }

  lemma ShlKeepsZero(x: nat, k: nat)
    ensures Shl(x, k) == x * Pow2(k)
    ensures Shl(x, k) == 0 <==> x == 0
  {
    LeTimes(1, Pow2(k), x);
  }

  lemma MODIsLarge()
    ensures MOD() == Pow2(256) > BASE * BASE
  {
    hide Pow2;
    WZero();
    WNext(0);
    WNext(1);
    WNext(2);
    WAdds(3, 5);
    LeTimes(1, W(5), W(3));
  }

  // ---------------------------------------------------------------- division

  lemma BitsOf(x: nat)
    ensures NumBits(x) == 0 <==> x == 0
    ensures x > 0 ==> Pow2(NumBits(x) - 1) <= x < Pow2(NumBits(x))
  {
    if x > 0 {
      NumBitsRange(x);
    }
  }

  lemma FewerBits(n: nat, d: nat)
    requires NumBits(n) < NumBits(d)
    ensures n < d
  {
    BitsOf(n);
    BitsOf(d);
    Pow2Grows(NumBits(n), NumBits(d) - 1);
  }

  /** Aligning the divisor with the dividend loses none of its bits. */
  lemma Aligned(n: nat, d: nat, shift: nat)
    requires d > 0 && NumBits(n) == NumBits(d) + shift <= 256
    ensures d * Pow2(shift) < MOD() && (d * Pow2(shift)) % MOD() == d * Pow2(shift)
    ensures n < d * Pow2(shift + 1)
  {
    hide Pow2, NumBits;
    AlignedFits(d, shift);
    AlignedAbove(n, d, shift);
    LeTimes(0, d, Pow2(shift));
    SmallMod(d * Pow2(shift), MOD());
  }

  lemma AlignedFits(d: nat, shift: nat)
    requires d > 0 && NumBits(d) + shift <= 256
    ensures d * Pow2(shift) < MOD()
  {
    hide Pow2, NumBits;
    BitsOf(d);
    Pow2Adds(NumBits(d), shift);
    LtTimes(d, Pow2(NumBits(d)), Pow2(shift));
    Pow2Grows(NumBits(d) + shift, 32 * WIDTH);
  }

  lemma AlignedAbove(n: nat, d: nat, shift: nat)
    requires d > 0 && NumBits(n) == NumBits(d) + shift
    ensures n < d * Pow2(shift + 1)
  {
    hide Pow2, NumBits;
    BitsOf(n);
    BitsOf(d);
    Pow2Adds(NumBits(d) - 1, shift + 1);
    LeTimes(Pow2(NumBits(d) - 1), d, Pow2(shift + 1));
  }

  /** Halving the aligned divisor is exact until it is back where it started. */
  lemma Halves(d: nat, shift: nat)
    ensures d * Pow2(shift + 1) == 2 * (d * Pow2(shift))
    ensures shift > 0 ==> d * Pow2(shift) / Pow2(1) == d * Pow2(shift - 1)
  {
    Twice(d, Pow2(shift));
    if shift > 0 {
      Twice(d, Pow2(shift - 1));
      assert Pow2(1) == 2;
    }
  }

  /** Above bit `shift` limb shift / 32 holds `q`; that bit is `bit`; all bits below it are zero. */
  ghost predicate QuotientBits(p: seq<Limb>, shift: nat, q: nat, bit: nat) {
    |p| == WIDTH && shift < 256
    && p[shift / 32] == q * Pow2(shift % 32 + 1) + bit * Pow2(shift % 32)
    && forall j :: 0 <= j < shift / 32 ==> p[j] == 0
  }

  lemma Nothing(x: int)
    ensures 0 * x == 0
  {
  }

  lemma NoBitsYet(p: seq<Limb>, shift: nat)
    requires |p| == WIDTH && shift < 256 && forall j :: 0 <= j < WIDTH ==> p[j] == 0
    ensures QuotientBits(p, shift, 0, 0)
  {
    Nothing(Pow2(shift % 32 + 1));
    Nothing(Pow2(shift % 32));
  }

  lemma NextBit(p: seq<Limb>, shift: nat, q: nat, bit: nat) returns (q': nat)
    requires QuotientBits(p, shift, q, bit)
    ensures shift > 0 ==> QuotientBits(p, shift - 1, q', 0)
  {
    hide Pow2;
    if shift % 32 == 0 {
      q' := 0;
      if shift > 0 {
        Nothing(Pow2((shift - 1) % 32 + 1));
        Nothing(Pow2((shift - 1) % 32));
      }
    } else {
      q' := 2 * q + bit;
      assert (shift - 1) / 32 == shift / 32 && (shift - 1) % 32 + 1 == shift % 32;
      OneMoreBit(q, bit, shift % 32);
      Nothing(Pow2((shift - 1) % 32));
    }
  }

  lemma OneMoreBit(q: nat, bit: nat, s: nat)
    ensures (2 * q + bit) * Pow2(s) == q * Pow2(s + 1) + bit * Pow2(s)
  {
    Twice(q, Pow2(s));
    Distribute(2 * q, bit, Pow2(s));
    Associate(2, q, Pow2(s));
  }

  /** What a long division keeps: quotient so far, what is left of the dividend, and how little that is. */
  ghost predicate Divided(n: int, d: int, quotient: int, left: nat, bound: int) {
    n == quotient * d + left && left < bound
  }

  lemma DivisionStarts(n: nat, d: nat, bound: int)
    requires n < bound
    ensures Divided(n, d, 0, n, bound)
  {
  }

  /** One bit of the quotient: the divisor, shifted to stand at that bit, is taken away if it fits. */
  lemma DivisionStep(n: int, d: int, quotient: int, left: nat, w: int)
    requires Divided(n, d, quotient, left, 2 * (d * w))
    ensures left >= d * w ==> Divided(n, d, quotient + w, left - d * w, d * w)
    ensures left < d * w ==> Divided(n, d, quotient, left, d * w)
  {
    Distribute(quotient, w, d);
  }

  lemma DivisionEnds(n: int, d: int, quotient: int, left: nat)
    requires d > 0 && Divided(n, d, quotient, left, d * Pow2(0))
    ensures quotient == n / d && left == n % d
  {
    ModUnique(n, quotient, left, d);
  }

  lemma RoomAbove(q: nat, a: nat, b: nat)
    requires q * b < a * b
    ensures q * b + b <= a * b
  {
    if a <= q {
      LeTimes(a, q, b);
    }
    LeTimes(q + 1, a, b);
    Distribute(q, 1, b);
  }

  lemma BitSet(p: seq<Limb>, shift: nat, q: nat)
    requires |p| == WIDTH && QuotientBits(p, shift, q, 0)
    ensures Or(p[shift / 32], Shl(1, shift % 32)) < BASE
    ensures var r := p[shift / 32 := Or(p[shift / 32], Shl(1, shift % 32))];
            Val(r) == Val(p) + Pow2(shift) && QuotientBits(r, shift, q, 1)
  {
    hide Val, W, Pow2, Or, Shl;
    var k, s := shift / 32, shift % 32;
    BitFits(q, s);
    ValUpdate(p, k, Or(p[k], Shl(1, s)));
    ShiftSplits(k, s);
    Distribute(p[k], Pow2(s), W(k));
  }

  lemma BitFits(q: nat, s: nat)
    requires s < 32 && q * Pow2(s + 1) < BASE
    ensures Or(q * Pow2(s + 1), Shl(1, s)) == q * Pow2(s + 1) + Pow2(s) < BASE
  {
    OrAbove(Pow2(s), q, s + 1);
    Pow2Adds(31 - s, s + 1);
    Pow2Of32();
    RoomAbove(q, Pow2(31 - s), Pow2(s + 1));
    assert Pow2(s) < Pow2(s + 1) && Shl(1, s) == Pow2(s);
  }

  // ---------------------------------------------------------------- steps of the loops

  lemma ValEmpty(p: seq<Limb>)
    ensures Val(p[..0]) == 0
  {
  }

  lemma WZero()
    ensures W(0) == 1
  {
  }

  /** A limb goes up by one: to zero, with a carry of one to the next, or without a carry. */
  lemma Bumped(before: seq<Limb>, now: seq<Limb>, i: nat)
    requires i < |before| == |now| && now == before[i := now[i]]
    requires now[i] == if before[i] == BASE - 1 then 0 else before[i] + 1
    ensures Val(now) + (if now[i] == 0 then W(i + 1) else 0) == Val(before) + W(i)
  {
    hide Val, Pow2, W;
    ValUpdate(before, i, now[i]);
    WNext(i);
    var d: int := now[i];
    Rolls(d - before[i], W(i));
  }

  lemma Dropped(before: seq<Limb>, now: seq<Limb>, i: nat)
    requires i < |before| == |now| && now == before[i := now[i]]
    requires now[i] == if before[i] == 0 then BASE - 1 else before[i] - 1
    ensures Val(now) - (if now[i] == BASE - 1 then W(i + 1) else 0) == Val(before) - W(i)
  {
    hide Val, Pow2, W;
    ValUpdate(before, i, now[i]);
    WNext(i);
    var d: int := now[i];
    Rolls(d - before[i], W(i));
  }

  lemma Rolls(d: int, w: int)
    ensures d == 1 ==> d * w == w
    ensures d == -1 ==> d * w == -w
    ensures d == 1 - BASE ==> d * w == w - w * BASE
    ensures d == BASE - 1 ==> d * w == w * BASE - w
  {
  }

  /** A number and its complement add up to all ones. */
  lemma {:induction false} Complement(p: seq<Limb>, q: seq<Limb>)
    requires |p| == |q| && forall i :: 0 <= i < |p| ==> q[i] == BASE - 1 - p[i]
    ensures Val(p) + Val(q) == W(|p|) - 1
  {
    hide W, Val;
    if p == [] {
      WZero();
      ValEmpty(p);
      assert p[..0] == p && q == p;
    } else {
      var n := |p| - 1;
      Complement(p[..n], q[..n]);
      WNext(n);
      ComplementLimb(p[n], W(n));
      ValNext(p, n);
      ValNext(q, n);
      assert p[..n + 1] == p && q[..n + 1] == q;
    }
  }

  lemma ComplementLimb(x: int, w: int)
    ensures x * w + (BASE - 1 - x) * w == w * BASE - w
  {
    Distribute(x, BASE - 1 - x, w);
    Distribute(BASE, -1, w);
  }

  lemma ModShift(x: int, m: int)
    requires m > 0
    ensures (x + m) % m == x % m
  {
    ModUnique(x + m, x / m + 1, x % m, m);
  }

  lemma ModOfMod(x: int, y: int, m: int)
    requires m > 0
    ensures (x + y % m) % m == (x + y) % m
  {
    var s := x + y % m;
    assert y == y / m * m + y % m;
    Distribute(s / m, y / m, m);
    ModUnique(x + y, s / m + y / m, s % m, m);
  }

  lemma ProductFits(x: int, y: int, carry: int, limb: int)
    requires 0 <= x < BASE && 0 <= y < BASE && 0 <= carry < BASE && 0 <= limb < BASE
    ensures 0 <= carry + limb + x * y < BASE * BASE
  {
    LeTimes(x, BASE - 1, y);
    LeTimes(0, x, y);
  }

  lemma LimbTimes(w: int, was: int, now: int, carry: int, carry': int, b: int, low: int)
    requires now + carry' * BASE == carry + b * was
    ensures (now - was) * w + carry' * (w * BASE) + was * w + low * b == carry * w + (low + was * w) * b
  {
    CarryStep(w, was, now, carry, carry', b * was - was);
    Distribute(b * was - was, was, w);
    Distribute(low, was * w, b);
    Associate(b, was, w);
  }

  /** One turn of the loop over a row of the product. */
  lemma RowTurn(p: seq<Limb>, bs: seq<Limb>, x: Limb, i: nat, j: nat, now: Limb, carry: int, carry': int, start: int)
    requires |p| == WIDTH == |bs| && i + j < WIDTH && now + carry' * BASE == carry + p[i + j] + x * bs[i]
    requires Val(p) + carry * W(i + j) == start + x * W(j) * Val(bs[..i])
    ensures Val(p[i + j := now]) + carry' * W(i + 1 + j) == start + x * W(j) * Val(bs[..i + 1])
  {
    hide Val, W;
    ValUpdate(p, i + j, now);
    ValNext(bs, i);
    WNext(i + j);
    WAdds(j, i);
    CarryStep(W(i + j), p[i + j], now, carry, carry', x * bs[i]);
    RowStep(x, W(j), Val(bs[..i]), bs[i], W(i));
  }

  lemma RowStep(x: int, wj: int, low: int, limb: int, wi: int)
    ensures x * wj * (low + limb * wi) == x * wj * low + (x * limb) * (wj * wi)
  {
    Distribute(low, limb * wi, x * wj);
    assert (limb * wi) * (x * wj) == (x * limb) * (wj * wi) by {
      Associate(limb, wi, x * wj);
      Associate(wi, x, wj);
      Associate(x, limb, wj * wi);
      Associate(x, wi, wj);
      Associate(limb, x, wi * wj);
    }
  }

  lemma RowDrops(x: nat, wj: nat, low: int, high: nat, wi: nat, carry: nat, start: int, now: int) returns (dropped: nat)
    requires now + carry * (wj * wi) == start + x * wj * low
    ensures now + dropped * (wj * wi) == start + x * wj * (low + high * wi)
  {
    RowStep(x, wj, low, high, wi);
    dropped := carry + x * high;
    Distribute(carry, x * high, wj * wi);
  }

  /** A limb shifted left: what leaves it at the top and what stays. */
  lemma SplitShl(x: Limb, s: nat) returns (hi: nat, q: nat)
    requires s < 32
    ensures hi == (if s != 0 then Shr(x, 32 - s) else 0) < Pow2(s)
    ensures Shl(x, s) % BASE == q * Pow2(s) && (q + 1) * Pow2(s) <= BASE
    ensures x * Pow2(s) == hi * BASE + q * Pow2(s)
  {
    if s == 0 {
      hi, q := 0, x;
    } else {
      var q', lo := SplitShr(x, 32 - s);
      hi, q := q', lo;
    }
  }

  /** A limb shifted right: what stays, and what leaves it at the bottom for the limb below. */
  lemma SplitShr(x: Limb, s: nat) returns (hi: nat, lo: nat)
    requires s <= 32
    ensures hi == Shr(x, s) < Pow2(32 - s) && lo < Pow2(s) && x == hi * Pow2(s) + lo
    ensures s == 0 ==> lo == 0
    ensures s != 0 ==> Shl(x, 32 - s) % BASE == lo * Pow2(32 - s) && (lo + 1) * Pow2(32 - s) <= BASE
    ensures x * Pow2(32 - s) == hi * BASE + lo * Pow2(32 - s)
  {
    hide Pow2;
    hi := Shr(x, s);
    ShrDivides(x, s);
    lo := x - hi * Pow2(s);
    Distribute(hi, 1, Pow2(s));
    Pow2Adds(s, 32 - s);
    Pow2Of32();
    if Pow2(32 - s) <= hi {
      LeTimes(Pow2(32 - s), hi, Pow2(s));
    }
    Distribute(hi * Pow2(s), lo, Pow2(32 - s));
    Associate(hi, Pow2(s), Pow2(32 - s));
    LeTimes(lo + 1, Pow2(s), Pow2(32 - s));
    Distribute(lo, 1, Pow2(32 - s));
    LeTimes(0, lo, Pow2(32 - s));
    ModUnique(Shl(x, 32 - s), hi, lo * Pow2(32 - s), BASE);
  }

  lemma OrSets(p: seq<Limb>, j: nat, x: Limb)
    requires j < |p| && p[j] == 0
    ensures Or(p[j], x) == x
    ensures Val(p[j := x]) == Val(p) + x * W(j)
  {
    ValUpdate(p, j, x);
  }

  lemma OrAdds(p: seq<Limb>, j: nat, q: nat, s: nat)
    requires j < |p| && p[j] < Pow2(s) && (q + 1) * Pow2(s) <= BASE
    ensures Or(p[j], q * Pow2(s)) == p[j] + q * Pow2(s) < BASE
    ensures Val(p[j := p[j] + q * Pow2(s)]) == Val(p) + q * Pow2(s) * W(j)
  {
    hide Val, W, Pow2;
    Distribute(q, 1, Pow2(s));
    OrDisjoint(p[j], q, s);
    ValUpdate(p, j, p[j] + q * Pow2(s));
  }

  lemma ShlMoves(v: int, v': int, x: nat, hi: nat, lo: nat, s: nat, j: nat) returns (d: nat)
    requires x * Pow2(s) == hi * BASE + lo
    requires v' == v + (if j + 1 < WIDTH then hi * W(j + 1) else 0) + (if j < WIDTH then lo * W(j) else 0)
    ensures v' + d * MOD() == v + x * Pow2(s) * W(j)
  {
    hide W, Pow2;
    WNext(j);
    Distribute(hi * BASE, lo, W(j));
    Associate(hi, BASE, W(j));
    if j + 1 < WIDTH {
      d := 0;
    } else if j < WIDTH {
      d := hi;
    } else {
      WAdds(j - WIDTH, WIDTH);
      d := x * Pow2(s) * W(j - WIDTH);
      Associate(x * Pow2(s), W(j - WIDTH), MOD());
    }
  }

  /** Shifting by 32 * k + s bits is moving k limbs and shifting by s bits. */
  lemma ShiftSplits(k: nat, s: nat)
    ensures Pow2(32 * k + s) == W(k) * Pow2(s)
  {
    Pow2Adds(32 * k, s);
  }

  lemma ShiftAtLeast(k: nat, shift: nat)
    requires 32 * k <= shift
    ensures W(k) <= Pow2(shift)
  {
    Pow2Grows(32 * k, shift);
  }

  lemma ShlWorth(low: int, x: int, i: nat, k: nat, s: nat)
    ensures (low + x * W(i)) * Pow2(32 * k + s) == low * Pow2(32 * k + s) + x * Pow2(s) * W(i + k)
  {
    hide W, Pow2;
    ShiftSplits(k, s);
    WAdds(i, k);
    Distribute(low, x * W(i), Pow2(32 * k + s));
    Regroup(x, W(i), W(k), Pow2(s));
  }

  lemma Regroup(x: int, a: int, b: int, c: int)
    ensures (x * a) * (b * c) == x * c * (a * b)
  {
    Associate(x, a, b * c);
    Associate(x, c, a * b);
    Associate(a, b, c);
  }

  lemma ShrMoves(v: int, v': int, low: int, x: Limb, hi: nat, lo: nat, s: nat, i: nat, k: nat, rest: nat)
    returns (rest': nat)
    requires s < 32 && x == hi * Pow2(s) + lo && lo < Pow2(s)
    requires v' == v + (if i > k then lo * Pow2(32 - s) * W(i - k - 1) else 0) + (if i >= k then hi * W(i - k) else 0)
    requires rest < (if i <= k then W(i) else Pow2(32 * k + s)) && (i <= k ==> v == 0)
    requires low == v * Pow2(32 * k + s) + rest
    ensures low + x * W(i) == v' * Pow2(32 * k + s) + rest'
    ensures rest' < (if i + 1 <= k then W(i + 1) else Pow2(32 * k + s)) && (i + 1 <= k ==> v' == 0)
  {
    hide W, Pow2;
    if i < k {
      TopLimb(rest, x, W(i));
      WNext(i);
      rest' := rest + x * W(i);
    } else {
      Distribute(hi * Pow2(s), lo, W(i));
      ShrHigh(hi, s, i, k);
      if i == k {
        ShiftSplits(k, s);
        LeTimes(lo + 1, Pow2(s), W(k));
        Distribute(lo, 1, W(k));
        LeTimes(0, lo, W(k));
        rest' := rest + lo * W(k);
      } else {
        ShrLow(lo, s, i, k);
        Distribute(v + lo * Pow2(32 - s) * W(i - k - 1), hi * W(i - k), Pow2(32 * k + s));
        Distribute(v, lo * Pow2(32 - s) * W(i - k - 1), Pow2(32 * k + s));
        rest' := rest;
      }
    }
  }

  lemma ShrHigh(hi: int, s: nat, i: nat, k: nat)
    requires i >= k
    ensures hi * W(i - k) * Pow2(32 * k + s) == hi * Pow2(s) * W(i)
  {
    hide W, Pow2;
    WAdds(i - k, k);
    ShiftSplits(k, s);
    Regroup(hi, W(i - k), W(k), Pow2(s));
  }

  lemma ShrLow(lo: int, s: nat, i: nat, k: nat)
    requires s < 32 && i > k
    ensures lo * Pow2(32 - s) * W(i - k - 1) * Pow2(32 * k + s) == lo * W(i)
  {
    hide W, Pow2;
    ShiftSplits(k, s);
    Pow2Adds(32 - s, s);
    Pow2Of32();
    WAdds(i - k - 1, k);
    WNext(i - 1);
    RegroupAll(lo, Pow2(32 - s), W(i - k - 1), W(k), Pow2(s));
  }

  lemma RegroupAll(x: int, a: int, b: int, c: int, d: int)
    ensures x * a * b * (c * d) == x * ((b * c) * (a * d))
  {
    Associate(x * a, b, c * d);
    Associate(b, c, d);
    Associate(x, a, b * c * d);
    Associate(b * c, a, d);
    Associate(a, b * c, d);
  }
}
