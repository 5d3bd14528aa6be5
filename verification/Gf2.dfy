/**
 * Polynomials over GF(2) modulo the CRC-32 polynomial, one bit per coefficient, the lowest power in the most
 * significant bit.
 */
module Gf2 {
  const POLY: bv32 := 0xedb88320
  const ONE: bv32 := 0x8000_0000

  /** Addition. */
  function Add(a: bv32, b: bv32): bv32 {
    a ^ b
  }

  /** Multiplication by x. */
  function Times(p: bv32): bv32 {
    if p & 1 == 1 then (p >> 1) ^ POLY else p >> 1
  }

  /** Multiplication by x^n. */
  function TimesN(n: nat, p: bv32): bv32 {
    if n == 0 then p else TimesN(n - 1, Times(p))
  }

  /** `b`, if the coefficient of `a` selected by the mask `m` is one. */
  function Pick(a: bv32, m: bv32, b: bv32): bv32 {
    if a & m != 0 then b else 0
  }

  /** The terms of the product of `a` and `b` from the coefficient of `a` at mask `m` on, with `b` for that one. */
  function MulFrom(a: bv32, m: bv32, b: bv32): bv32
    decreases m
  {
    if m == 0 then 0 else Add(Pick(a, m, b), MulFrom(a, m >> 1, Times(b)))
  }

  /** The product: the sum of the x^i * b over all i whose coefficient in `a` is one. */
  function Mul(a: bv32, b: bv32): bv32 {
    MulFrom(a, ONE, b)
  }

  function XPow(n: nat): bv32 {
    TimesN(n, ONE)
  }

  lemma AddCommutes(a: bv32, b: bv32)
    ensures Add(a, b) == Add(b, a)
  {
  }

  lemma AddAssociates(a: bv32, b: bv32, c: bv32)
    ensures Add(Add(a, b), c) == Add(a, Add(b, c))
  {
    assert (a ^ b) ^ c == a ^ (b ^ c);
  }

  lemma AddExchange(a: bv32, b: bv32, c: bv32, d: bv32)
    ensures Add(Add(a, b), Add(c, d)) == Add(Add(a, c), Add(b, d))
  {
    hide Add;
    AddAssociates(a, b, Add(c, d));
    AddAssociates(b, c, d);
    AddCommutes(b, c);
    AddAssociates(c, b, d);
    AddAssociates(a, c, Add(b, d));
  }

  lemma AddZero(a: bv32)
    ensures Add(a, 0) == a && Add(0, a) == a
  {
  }

  lemma AddSelf(a: bv32)
    ensures Add(a, a) == 0
  {
  }

  lemma XorShift(a: bv32, b: bv32)
    ensures (a ^ b) >> 1 == (a >> 1) ^ (b >> 1)
  {
  }

  lemma XorBit(a: bv32, b: bv32)
    ensures (a ^ b) & 1 == (a & 1) ^ (b & 1)
  {
  }

  lemma LowBit(a: bv32)
    ensures a & 1 == 0 || a & 1 == 1
  {
  }

  function Half(p: bv32): bv32 {
    p >> 1
  }

  function Odd(p: bv32): bool {
    p & 1 == 1
  }

  lemma HalfAdd(a: bv32, b: bv32)
    ensures Half(Add(a, b)) == Add(Half(a), Half(b))
  {
    XorShift(a, b);
  }

  lemma OddAdd(a: bv32, b: bv32)
    ensures Odd(Add(a, b)) == (Odd(a) != Odd(b))
  {
    XorBit(a, b);
    LowBit(a);
    LowBit(b);
  }

  lemma TimesOdd(p: bv32)
    requires Odd(p)
    ensures Times(p) == Add(Half(p), POLY)
  {
  }

  lemma TimesEven(p: bv32)
    requires !Odd(p)
    ensures Times(p) == Half(p)
  {
  }

  lemma TimesIs(p: bv32)
    ensures Times(p) == Add(Half(p), if Odd(p) then POLY else 0)
  {
    hide Times, Add, Half, Odd;
    if Odd(p) {
      TimesOdd(p);
    } else {
      TimesEven(p);
      AddZero(Half(p));
    }
  }

  lemma TimesLinear(a: bv32, b: bv32)
    ensures Times(Add(a, b)) == Add(Times(a), Times(b))
  {
    hide Times, Add, Half, Odd;
    TimesIs(a);
    TimesIs(b);
    TimesIs(Add(a, b));
    HalfAdd(a, b);
    OddAdd(a, b);
    AddExchange(Half(a), if Odd(a) then POLY else 0, Half(b), if Odd(b) then POLY else 0);
    AddZero(POLY);
    AddZero(0);
    AddSelf(POLY);
  }

  lemma TimesZero()
    ensures Times(0) == 0
  {
  }

  lemma TimesNonzero(p: bv32)
    requires p != 0
    ensures Times(p) != 0
  {
  }

  lemma {:induction false} TimesNLinear(n: nat, a: bv32, b: bv32)
    ensures TimesN(n, Add(a, b)) == Add(TimesN(n, a), TimesN(n, b))
  {
    hide Times, Add;
    if n > 0 {
      TimesLinear(a, b);
      TimesNLinear(n - 1, Times(a), Times(b));
    }
  }

  lemma {:induction false} TimesNZero(n: nat)
    ensures TimesN(n, 0) == 0
  {
    hide Times, Add;
    if n > 0 {
      TimesZero();
      TimesNZero(n - 1);
    }
  }

  lemma {:induction false} TimesNNonzero(n: nat, p: bv32)
    requires p != 0
    ensures TimesN(n, p) != 0
  {
    hide Times, Add;
    if n > 0 {
      TimesNonzero(p);
      TimesNNonzero(n - 1, Times(p));
    }
  }

  lemma {:induction false} TimesNAdd(m: nat, n: nat, p: bv32)
    ensures TimesN(m + n, p) == TimesN(n, TimesN(m, p))
  {
    hide Times, Add;
    if m > 0 {
      TimesNAdd(m - 1, n, Times(p));
      assert TimesN(m + n, p) == TimesN(m - 1 + n, Times(p));
    }
  }

  lemma {:induction false} MulFromLinear(a: bv32, m: bv32, b: bv32, c: bv32)
    ensures MulFrom(a, m, Add(b, c)) == Add(MulFrom(a, m, b), MulFrom(a, m, c))
    decreases m
  {
    hide Times, Add;
    if m == 0 {
      AddZero(0);
    } else {
      TimesLinear(b, c);
      MulFromLinear(a, m >> 1, Times(b), Times(c));
      AddExchange(Pick(a, m, b), Pick(a, m, c), MulFrom(a, m >> 1, Times(b)), MulFrom(a, m >> 1, Times(c)));
      AddZero(0);
    }
  }

  lemma {:induction false} MulFromZero(a: bv32, m: bv32)
    ensures MulFrom(a, m, 0) == 0
    decreases m
  {
    hide Times, Add;
    if m != 0 {
      TimesZero();
      AddZero(0);
      MulFromZero(a, m >> 1);
    }
  }

  /** Multiplying by `a` commutes with multiplying by x. */
  lemma {:induction false} MulFromTimes(a: bv32, m: bv32, b: bv32)
    ensures MulFrom(a, m, Times(b)) == Times(MulFrom(a, m, b))
    decreases m
  {
    hide Times, Add;
    if m == 0 {
      TimesZero();
    } else {
      MulFromTimes(a, m >> 1, Times(b));
      TimesLinear(Pick(a, m, b), MulFrom(a, m >> 1, Times(b)));
      TimesZero();
    }
  }

  lemma {:induction false} MulTimesN(a: bv32, n: nat, b: bv32)
    ensures Mul(a, TimesN(n, b)) == TimesN(n, Mul(a, b))
  {
    hide Times, Add;
    if n > 0 {
      MulTimesN(a, n - 1, Times(b));
      MulFromTimes(a, ONE, b);
    }
  }

  /** Two multiplications may be exchanged. */
  lemma {:induction false} MulMulFrom(a: bv32, b: bv32, m: bv32, c: bv32)
    ensures Mul(a, MulFrom(b, m, c)) == MulFrom(b, m, Mul(a, c))
    decreases m
  {
    hide Times, Add;
    if m == 0 {
      MulFromZero(a, ONE);
    } else {
      MulMulFrom(a, b, m >> 1, Times(c));
      MulFromTimes(a, ONE, c);
      MulFromLinear(a, ONE, Pick(b, m, c), MulFrom(b, m >> 1, Times(c)));
      MulFromZero(a, ONE);
    }
  }

  function Below(m: bv32): bv32 {
    m | (m - 1)
  }

  predicate OneBit(m: bv32) {
    m != 0 && m & (m - 1) == 0
  }

  lemma BelowPred(m: bv32)
    requires OneBit(m) && m != 1
    ensures m - 1 == Below(m >> 1)
  {
  }

  lemma AndOr(a: bv32, m: bv32, n: bv32)
    requires m & n == 0
    ensures a & (m | n) == (a & m) ^ (a & n)
  {
  }

  lemma PickBit(a: bv32, m: bv32)
    requires OneBit(m)
    ensures a & m == Pick(a, m, m)
  {
  }

  lemma OneBitHalf(m: bv32)
    requires OneBit(m) && m != 1
    ensures OneBit(m >> 1)
  {
  }

  lemma BelowHalf(a: bv32, m: bv32)
    requires OneBit(m) && m != 1
    ensures a & Below(m) == Add(Pick(a, m, m), a & Below(m >> 1))
  {
    BelowPred(m);
    AndOr(a, m, m - 1);
    PickBit(a, m);
  }

  lemma TimesOneBit(m: bv32)
    requires OneBit(m) && m != 1
    ensures Times(m) == m >> 1
  {
  }

  lemma LastBit(a: bv32)
    ensures MulFrom(a, 1, 1) == a & Below(1)
  {
    assert MulFrom(a, 0, Times(1)) == 0;
  }

  /** One is neutral: the bits of `a` are its coefficients. */
  lemma {:induction false} MulFromOne(a: bv32, m: bv32)
    requires OneBit(m)
    ensures MulFrom(a, m, m) == a & Below(m)
    decreases m
  {
    hide Times, Add, OneBit, Below;
    if m == 1 {
      LastBit(a);
    } else {
      OneBitHalf(m);
      TimesOneBit(m);
      BelowHalf(a, m);
      MulFromOne(a, m >> 1);
    }
  }

  lemma MulOne(a: bv32)
    ensures Mul(a, ONE) == a
  {
    MulFromOne(a, ONE);
  }

  lemma MulCommutes(a: bv32, b: bv32)
    ensures Mul(a, b) == Mul(b, a)
  {
    hide MulFrom;
    MulOne(a);
    MulOne(b);
    MulMulFrom(a, b, ONE, ONE);
  }

  lemma MulAssociates(a: bv32, b: bv32, c: bv32)
    ensures Mul(a, Mul(b, c)) == Mul(Mul(a, b), c)
  {
    hide MulFrom;
    MulCommutes(b, c);
    MulMulFrom(a, c, ONE, b);
    MulCommutes(c, Mul(a, b));
  }

  /** Multiplication by the power x^n is multiplication by x, n times. */
  lemma MulXPow(n: nat, a: bv32)
    ensures Mul(XPow(n), a) == TimesN(n, a)
  {
    hide MulFrom, TimesN;
    MulCommutes(XPow(n), a);
    MulTimesN(a, n, ONE);
    MulOne(a);
  }

  lemma XPowAdd(m: nat, n: nat)
    ensures XPow(m + n) == Mul(XPow(m), XPow(n))
  {
    hide MulFrom, TimesN;
    TimesNAdd(n, m, ONE);
    MulXPow(m, XPow(n));
  }

  lemma XPowNonzero(n: nat)
    ensures XPow(n) != 0
  {
    TimesNNonzero(n, ONE);
  }

  lemma NoneLast(a: bv32, b: bv32)
    requires a & Below(1) == 0
    ensures MulFrom(a, 1, b) == 0
  {
    assert MulFrom(a, 0, Times(b)) == 0;
  }

  lemma NoneHalf(a: bv32, m: bv32)
    requires OneBit(m) && m != 1 && a & Below(m) == 0
    ensures a & Below(m >> 1) == 0 && a & m == 0
  {
  }

  /** With no coefficient left at or below the mask there is nothing more to add. */
  lemma {:induction false} MulFromNone(a: bv32, m: bv32, b: bv32)
    requires OneBit(m) && a & Below(m) == 0
    ensures MulFrom(a, m, b) == 0
    decreases m
  {
    hide Times, Add, OneBit, Below;
    if m == 1 {
      NoneLast(a, b);
    } else {
      OneBitHalf(m);
      NoneHalf(a, m);
      MulFromNone(a, m >> 1, Times(b));
      AddZero(0);
    }
  }
}
