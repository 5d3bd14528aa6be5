/** The CRC-32 of a string of octets, one octet at a time (section 8 of RFC 1952), and its linearity. */
module CrcBytes {
  import opened Gf2
  import opened Arithmetic
  import opened CrcPowers

  type octet = bv8

  function Wide(b: octet): bv32 {
    b as bv32
  }

  function Low(c: bv32): octet {
    (c & 0xff) as bv8
  }

  function High(c: bv32): bv32 {
    c >> 8
  }

  /** Take in one octet: eight multiplications by x. */
  function Step(c: bv32, b: octet): bv32 {
    TimesN(8, Add(c, Wide(b)))
  }

  function Fold(c: bv32, m: seq<octet>): bv32
    decreases |m|
  {
    if m == [] then c else Fold(Step(c, m[0]), m[1..])
  }

  function Not(c: bv32): bv32 {
    Add(c, 0xffff_ffff)
  }

  /** What crc32 is to return: the remainder, complemented before and after. */
  function Crc(c: bv32, m: seq<octet>): bv32 {
    Not(Fold(Not(c), m))
  }

  lemma {:induction false} FoldConcat(c: bv32, a: seq<octet>, b: seq<octet>)
    ensures Fold(c, a + b) == Fold(Fold(c, a), b)
    decreases |a|
  {
    hide Step;
    if a == [] {
      assert a + b == b;
    } else {
      assert (a + b)[1..] == a[1..] + b;
      FoldConcat(Step(c, a[0]), a[1..], b);
    }
  }

  lemma FoldSnoc(c: bv32, a: seq<octet>, b: octet)
    ensures Fold(c, a + [b]) == Step(Fold(c, a), b)
  {
    hide Step;
    FoldConcat(c, a, [b]);
    assert [b][1..] == [];
  }

  lemma StepAdd(c: bv32, d: bv32, b: octet)
    ensures Step(Add(c, d), b) == Add(TimesN(8, c), Step(d, b))
  {
    hide Add, TimesN, Wide;
    AddAssociates(c, d, Wide(b));
    TimesNLinear(8, c, Add(d, Wide(b)));
  }

  /** The register's initial value only adds its own product with a power of x. */
  lemma {:induction false} FoldAdd(c: bv32, d: bv32, m: seq<octet>)
    ensures Fold(Add(c, d), m) == Add(TimesN(8 * |m|, c), Fold(d, m))
    decreases |m|
  {
    hide Add, Step, Times;
    if m != [] {
      StepAdd(c, d, m[0]);
      FoldAdd(TimesN(8, c), Step(d, m[0]), m[1..]);
      TimesNAdd(8, 8 * (|m| - 1), c);
    }
  }

  lemma FoldFrom(c: bv32, m: seq<octet>)
    ensures Fold(c, m) == Add(TimesN(8 * |m|, c), Fold(0, m))
  {
    hide Add, Fold, TimesN;
    FoldAdd(c, 0, m);
    AddZero(c);
  }

  // ----- octets of the register -----

  function ShiftN(n: nat, v: bv32): bv32 {
    if n == 0 then v else ShiftN(n - 1, v >> 1)
  }

  /** The `n` lowest bits are zero. */
  predicate LowZero(n: nat, v: bv32) {
    n == 0 || (v & 1 == 0 && LowZero(n - 1, v >> 1))
  }

  lemma EvenTimes(v: bv32)
    requires v & 1 == 0
    ensures Times(v) == v >> 1
  {
  }

  /** As long as no one falls out, multiplication by x is a mere shift. */
  lemma {:induction false} NoCarry(n: nat, v: bv32)
    requires LowZero(n, v)
    ensures TimesN(n, v) == ShiftN(n, v)
  {
    if n > 0 {
      EvenTimes(v);
      NoCarry(n - 1, v >> 1);
    }
  }

  lemma ShiftEight(v: bv32)
    ensures ShiftN(8, v) == v >> 8
  {
    assert v >> 1 >> 1 == v >> 2 && v >> 2 >> 1 == v >> 3 && v >> 3 >> 1 == v >> 4 && v >> 4 >> 1 == v >> 5;
    assert v >> 5 >> 1 == v >> 6 && v >> 6 >> 1 == v >> 7 && v >> 7 >> 1 == v >> 8;
    assert ShiftN(0, v >> 8) == v >> 8;
    assert ShiftN(2, v >> 6) == v >> 8;
    assert ShiftN(4, v >> 4) == v >> 8;
    assert ShiftN(6, v >> 2) == v >> 8;
  }

  lemma ZeroBits(v: bv32)
    requires v & 0xff == 0
    ensures v & 1 == 0 && (v >> 1) & 1 == 0 && (v >> 2) & 1 == 0 && (v >> 3) & 1 == 0
    ensures (v >> 4) & 1 == 0 && (v >> 5) & 1 == 0 && (v >> 6) & 1 == 0 && (v >> 7) & 1 == 0
  {
  }

  lemma LowZeroEight(v: bv32)
    requires v & 0xff == 0
    ensures LowZero(8, v)
  {
    assert v >> 1 >> 1 == v >> 2 && v >> 2 >> 1 == v >> 3 && v >> 3 >> 1 == v >> 4 && v >> 4 >> 1 == v >> 5;
    assert v >> 5 >> 1 == v >> 6 && v >> 6 >> 1 == v >> 7 && v >> 7 >> 1 == v >> 8;
    ZeroBits(v);
    assert LowZero(0, v >> 8);
    assert LowZero(2, v >> 6);
    assert LowZero(4, v >> 4);
    assert LowZero(6, v >> 2);
  }

  lemma SplitLow(c: bv32)
    ensures c == Add(c & 0xffff_ff00, Wide(Low(c)))
  {
  }

  lemma ClearLow(c: bv32)
    ensures (c & 0xffff_ff00) & 0xff == 0 && (c & 0xffff_ff00) >> 8 == High(c)
  {
  }

  /** Eight multiplications by x: shift by an octet, and add what the low octet contributes. */
  lemma ByTable(c: bv32)
    ensures TimesN(8, c) == Add(High(c), TimesN(8, Wide(Low(c))))
  {
    hide Add, TimesN, Wide, Low, High;
    SplitLow(c);
    ClearLow(c);
    LowZeroEight(c & 0xffff_ff00);
    NoCarry(8, c & 0xffff_ff00);
    ShiftEight(c & 0xffff_ff00);
    TimesNLinear(8, c & 0xffff_ff00, Wide(Low(c)));
  }

  // ----- the octet table -----

  type Table = seq<bv32>

  ghost predicate IsCrcTable(table: Table) {
    |table| == 256 && forall i: int {:trigger table[i]} | 0 <= i < 256 :: table[i] == TimesN(8, Wide(i as octet))
  }

  function At(table: Table, b: octet): bv32
    requires |table| == 256
  {
    table[b as int]
  }

  lemma AtRight(table: Table, b: octet)
    requires IsCrcTable(table)
    ensures At(table, b) == TimesN(8, Wide(b))
  {
    hide TimesN, Wide;
  }

  method TableEntry(i: octet) returns (p: bv32)
    ensures p == TimesN(8, Wide(i))
  {
    hide Times, Wide;
    p := Wide(i);
    for j := 0 to 8
      invariant TimesN(8 - j, p) == TimesN(8, Wide(i))
    {
      p := Times(p);
    }
  }

  method MakeCrcTable(table: array<bv32>)
    requires table.Length == 256
    modifies table
    ensures IsCrcTable(table[..])
  {
    hide TimesN, Wide;
    for i := 0 to 256
      invariant forall k: int {:trigger table[k]} | 0 <= k < i :: table[k] == TimesN(8, Wide(k as octet))
    {
      var p := TableEntry(i as octet);
      table[i] := p;
    }
  }

  /** One octet by the table. */
  function TableStep(table: Table, c: bv32, b: octet): bv32
    requires |table| == 256
  {
    Add(High(c), At(table, Low(Add(c, Wide(b)))))
  }

  lemma HighAdd(c: bv32, b: octet)
    ensures High(Add(c, Wide(b))) == High(c)
  {
  }

  lemma TableStepRight(table: Table, c: bv32, b: octet)
    requires IsCrcTable(table)
    ensures TableStep(table, c, b) == Step(c, b)
  {
    hide Add, TimesN, Wide, Low, High, At;
    AtRight(table, Low(Add(c, Wide(b))));
    ByTable(Add(c, Wide(b)));
    HighAdd(c, b);
  }

  // ----- combination -----

  lemma NotNot(c: bv32)
    ensures Not(Not(c)) == c
  {
  }

  /** Going on from a CRC is the CRC of the concatenation. */
  lemma CrcConcat(c: bv32, a: seq<octet>, b: seq<octet>)
    ensures Crc(Crc(c, a), b) == Crc(c, a + b)
  {
    hide Add, Fold, Not;
    NotNot(Fold(Not(c), a));
    FoldConcat(Not(c), a, b);
  }

  /** The part of the CRC of a concatenation that is due to the first string. */
  lemma CrcShift(c: bv32, m: seq<octet>)
    ensures Crc(c, m) == Add(TimesN(8 * |m|, c), Crc(0, m))
  {
    hide Add, Fold, TimesN;
    FoldAdd(c, 0xffff_ffff, m);
    AddZero(0xffff_ffff);
    AddAssociates(TimesN(8 * |m|, c), Fold(0xffff_ffff, m), 0xffff_ffff);
  }

  lemma ScaledEight(n: nat)
    ensures Scaled(n, 3) == 8 * n
  {
    assert Pow2(3) == 8;
  }

  /** `crc32_combine_gen64`: the operator for a second string of `len2` octets. */
  method CombineGen(powers: seq<bv32>, len2: nat) returns (op: bv32)
    requires IsPowerTable(powers)
    ensures op == XPow(8 * len2) && op != 0
  {
    hide XPow, Pow2, Scaled;
    ScaledEight(len2);
    op := X2nModP(powers, len2, 3);
  }

  /** `crc32_combine_op`. */
  method CombineOp(crc1: bv32, crc2: bv32, op: bv32, ghost len2: nat) returns (crc: bv32)
    requires op == XPow(8 * len2) && op != 0
    ensures forall m: seq<octet> | |m| == len2 && crc2 == Crc(0, m) :: crc == Crc(crc1, m)
  {
    hide Add, Mul, XPow, Crc, TimesN;
    var shifted := MultModP(op, crc1);
    crc := Add(shifted, crc2);
    MulXPow(8 * len2, crc1);
    forall m: seq<octet> | |m| == len2 && crc2 == Crc(0, m) ensures crc == Crc(crc1, m) {
      CrcShift(crc1, m);
    }
  }

  /** `crc32_combine64`: the CRC of a concatenation from the CRCs of its parts and the length of the second. */
  method Combine(powers: seq<bv32>, crc1: bv32, crc2: bv32, len2: nat) returns (crc: bv32)
    requires IsPowerTable(powers)
    ensures forall m: seq<octet> | |m| == len2 && crc2 == Crc(0, m) :: crc == Crc(crc1, m)
    ensures forall a: seq<octet>, b: seq<octet> | |b| == len2 && crc1 == Crc(0, a) && crc2 == Crc(0, b) ::
      crc == Crc(0, a + b)
  {
    hide Add, Mul, XPow, Crc, TimesN;
    var op := CombineGen(powers, len2);
    crc := CombineOp(crc1, crc2, op, len2);
    forall a: seq<octet>, b: seq<octet> | |b| == len2 && crc1 == Crc(0, a) && crc2 == Crc(0, b)
      ensures crc == Crc(0, a + b) {
      CrcConcat(0, a, b);
    }
  }
}
