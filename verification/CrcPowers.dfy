/** Multiplication and powers of x modulo the CRC polynomial. */
module CrcPowers {
  import opened Gf2
  import opened Arithmetic
  import opened PowerTable

  /** Some coefficient of `a` is one at the mask `m` or below it. */
  predicate Left(a: bv32, m: bv32) {
    a & Below(m) != 0
  }

  predicate More(a: bv32, m: bv32) {
    a & (m - 1) != 0
  }

  predicate Has(a: bv32, m: bv32) {
    a & m != 0
  }

  /** Between the rounds of multmodp: `p` lacks the terms from mask `m` on, and there is one to come. */
  ghost predicate Multiplying(a: bv32, m: bv32, c: bv32, p: bv32, product: bv32) {
    OneBit(m) && Left(a, m) && Add(p, MulFrom(a, m, c)) == product
  }

  lemma MultStart(a: bv32, b: bv32)
    requires a != 0
    ensures Multiplying(a, ONE, b, 0, Mul(a, b))
  {
    hide Add;
    AddZero(MulFrom(a, ONE, b));
    assert a & 0xffff_ffff == a;
  }

  lemma LastHalf()
    ensures 1 as bv32 >> 1 == 0
  {
  }

  lemma MultLast(a: bv32, m: bv32, c: bv32, p: bv32, product: bv32)
    requires Multiplying(a, m, c, p, product) && Has(a, m) && !More(a, m)
    ensures Add(p, c) == product
  {
    hide Add, Times, OneBit, Below;
    AddZero(c);
    AddAssociates(p, c, 0);
    if m == 1 {
      LastHalf();
    } else {
      OneBitHalf(m);
      BelowPred(m);
      MulFromNone(a, m >> 1, Times(c));
    }
  }

  lemma PickHas(a: bv32, m: bv32, c: bv32)
    ensures Pick(a, m, c) == if Has(a, m) then c else 0
  {
  }

  lemma HalfLess(m: bv32)
    requires OneBit(m)
    ensures m >> 1 < m && m != 0
  {
  }

  lemma NotLast(a: bv32, m: bv32)
    requires OneBit(m) && Left(a, m) && (Has(a, m) ==> More(a, m))
    ensures m != 1 && More(a, m)
  {
    AndOr(a, m, m - 1);
  }

  lemma NextMask(a: bv32, m: bv32)
    requires OneBit(m) && Left(a, m) && (Has(a, m) ==> More(a, m))
    ensures OneBit(m >> 1) && Left(a, m >> 1) && m >> 1 < m && m != 0
  {
    hide OneBit, Below;
    NotLast(a, m);
    OneBitHalf(m);
    BelowPred(m);
    HalfLess(m);
  }

  lemma MultNext(a: bv32, m: bv32, c: bv32, p: bv32, product: bv32)
    requires Multiplying(a, m, c, p, product) && (Has(a, m) ==> More(a, m))
    ensures m >> 1 < m
    ensures Multiplying(a, m >> 1, Times(c), if Has(a, m) then Add(p, c) else p, product)
  {
    hide Add, Times, OneBit, Left, More, Has, Pick;
    NextMask(a, m);
    AddZero(p);
    PickHas(a, m, c);
    AddAssociates(p, Pick(a, m, c), MulFrom(a, m >> 1, Times(c)));
  }

  /** The product of two polynomials, the first one not zero. */
  method MultModP(a: bv32, b: bv32) returns (p: bv32)
    requires a != 0
    ensures p == Mul(a, b)
  {
    hide Times, Add, Multiplying, Mul, MulFrom, Has, More;
    var m, c: bv32 := ONE, b;
    p := 0;
    MultStart(a, b);
    while true
      invariant Multiplying(a, m, c, p, Mul(a, b))
      decreases m
    {
      ghost var p0 := p;
      if Has(a, m) {
        p := Add(p, c);
        if !More(a, m) {
          MultLast(a, m, c, p0, Mul(a, b));
          break;
        }
      }
      MultNext(a, m, c, p0, Mul(a, b));
      m := m >> 1;
      c := Times(c);
    }
  }

  /** Entry `k` of the table is x^(2^k). */
  ghost predicate IsPowerTable(table: seq<bv32>) {
    |table| == 32 && forall k: nat {:trigger table[k]} | k < 32 :: table[k] == XPow(Pow2(k))
  }

  lemma FirstIsX()
    ensures XPow(Pow2(0)) == 0x4000_0000
  {
    FirstPower();
  }

  lemma NextSquare(k: nat)
    ensures Mul(XPow(Pow2(k)), XPow(Pow2(k))) == XPow(Pow2(k + 1))
  {
    hide Mul, XPow;
    XPowAdd(Pow2(k), Pow2(k));
  }

  /** The table of powers, each entry the square of the one before. */
  method MakePowerTable(table: array<bv32>)
    requires table.Length == 32
    modifies table
    ensures IsPowerTable(table[..])
  {
    hide Mul, XPow, Pow2;
    var p: bv32 := 0x4000_0000;
    FirstIsX();
    table[0] := p;
    for n := 1 to 32
      invariant p == XPow(Pow2(n - 1))
      invariant forall k: nat {:trigger table[k]} | k < n :: table[k] == XPow(Pow2(k))
    {
      XPowNonzero(Pow2(n - 1));
      p := MultModP(p, p);
      table[n] := p;
      NextSquare(n - 1);
    }
  }

  function Scaled(n: nat, k: nat): nat {
    n * Pow2(k)
  }

  /** x^(2^k) depends on k modulo 32 only. */
  lemma Period(k: nat)
    ensures XPow(Pow2(k % 32)) == XPow(Pow2(k))
  {
    hide XPow, Header, Pow2;
    HeaderIsPower(k);
    HeaderIsPower(k % 32);
  }

  lemma SplitOdd(n: nat, k: nat)
    requires n % 2 == 1
    ensures Scaled(n, k) == Scaled(n / 2, k + 1) + Pow2(k)
  {
    var h := n / 2;
    Regroup(h, 2, Pow2(k), 1);
    assert n == h * 2 + 1;
  }

  lemma PowOdd(n: nat, k: nat, p: bv32)
    requires n % 2 == 1
    ensures Mul(XPow(Scaled(n / 2, k + 1)), Mul(XPow(Pow2(k)), p)) == Mul(XPow(Scaled(n, k)), p)
  {
    hide Mul, XPow, Scaled, Pow2;
    var e := Scaled(n / 2, k + 1);
    SplitOdd(n, k);
    XPowAdd(e, Pow2(k));
    MulAssociates(XPow(e), XPow(Pow2(k)), p);
  }

  lemma PowEven(n: nat, k: nat)
    requires n % 2 == 0
    ensures Scaled(n / 2, k + 1) == Scaled(n, k)
  {
    var h := n / 2;
    Regroup(h, 2, Pow2(k), 0);
    assert n == h * 2;
  }

  lemma PowDone(p: bv32, k: nat)
    ensures Mul(XPow(Scaled(0, k)), p) == p
  {
    hide Mul;
    MulXPow(0, p);
  }

  /** x^(n * 2^k): the table is read modulo 32, which is right because its powers repeat. */
  method X2nModP(table: seq<bv32>, n0: nat, k0: nat) returns (p: bv32)
    requires IsPowerTable(table)
    ensures p == XPow(Scaled(n0, k0)) && p != 0
  {
    hide Mul, XPow, Pow2, Scaled;
    var n: nat, k: nat := n0, k0;
    p := ONE;
    MulOne(XPow(Scaled(n0, k0)));
    while n != 0
      invariant Mul(XPow(Scaled(n, k)), p) == XPow(Scaled(n0, k0))
    {
      if n % 2 == 1 {
        PowOdd(n, k, p);
        Period(k);
        XPowNonzero(Pow2(k));
        p := MultModP(table[k % 32], p);
      } else {
        PowEven(n, k);
      }
      n := n / 2;
      k := k + 1;
    }
    PowDone(p, k);
    XPowNonzero(Scaled(n0, k0));
  }
}
