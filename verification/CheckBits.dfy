/** Single bits of 32-bit words: rotation, exclusive or, and the order of the bits reversed. */
module CheckBits {
  import opened Gf2

  function Double(v: bv32): bv32 {
    v << 1
  }

  function Mask(j: nat): bv32 {
    if j == 0 then 1 else Double(Mask(j - 1))
  }

  function Meets(v: bv32, m: bv32): bool {
    v & m != 0
  }

  /** Bit `j`, the lowest being number 0. */
  function Bit(v: bv32, j: nat): bool {
    Meets(v, Mask(j))
  }

  lemma LastMask()
    ensures Mask(31) == 0x8000_0000
  {
    assert Mask(2) == 4;
    assert Mask(4) == 0x10;
    assert Mask(6) == 0x40;
    assert Mask(8) == 0x100;
    assert Mask(10) == 0x400;
    assert Mask(12) == 0x1000;
    assert Mask(14) == 0x4000;
    assert Mask(16) == 0x1_0000;
    assert Mask(18) == 0x4_0000;
    assert Mask(20) == 0x10_0000;
    assert Mask(22) == 0x40_0000;
    assert Mask(24) == 0x100_0000;
    assert Mask(26) == 0x400_0000;
    assert Mask(28) == 0x1000_0000;
    assert Mask(30) == 0x4000_0000;
  }

  predicate Single(m: bv32) {
    m != 0 && m & (m - 1) == 0
  }

  lemma SingleDouble(m: bv32)
    requires Single(m) && Double(m) != 0
    ensures Single(Double(m))
  {
  }

  lemma {:induction false} ZeroMask(j: nat, k: nat)
    requires Mask(j) == 0 && j <= k
    ensures Mask(k) == 0
    decreases k - j
  {
    if j < k { ZeroMask(j + 1, k); }
  }

  lemma {:induction false} MaskSingle(j: nat)
    requires j < 32
    ensures Single(Mask(j)) && (j < 31 ==> Mask(j) != 0x8000_0000)
  {
    LastMask();
    if Mask(j) == 0 { ZeroMask(j, 31); }
    if j < 31 && Mask(j + 1) == 0 { ZeroMask(j + 1, 31); }
    if j > 0 {
      MaskSingle(j - 1);
      SingleDouble(Mask(j - 1));
    }
  }

  // ----- rotation and exclusive or -----

  function RotateLeft(v: bv32): bv32 {
    (v << 1) | (v >> 31)
  }

  lemma RotatedAt(v: bv32, m: bv32)
    requires Single(m) && m != 0x8000_0000
    ensures Meets(RotateLeft(v), Double(m)) <==> Meets(v, m)
  {
  }

  lemma RotatedLow(v: bv32)
    ensures Meets(RotateLeft(v), 1) <==> Meets(v, 0x8000_0000)
  {
  }

  /** Every bit moves to the next place, the highest to the lowest. */
  lemma RotatedBit(v: bv32, j: nat)
    requires j < 32
    ensures Bit(RotateLeft(v), j) == Bit(v, (j - 1) % 32)
  {
    hide RotateLeft, Single, Double, Meets;
    if j == 0 {
      LastMask();
      RotatedLow(v);
    } else {
      MaskSingle(j - 1);
      RotatedAt(v, Mask(j - 1));
    }
  }

  function And(a: bv32, m: bv32): bv32 {
    a & m
  }

  lemma MeetsAnd(a: bv32, m: bv32)
    ensures Meets(a, m) <==> And(a, m) != 0
  {
  }

  lemma AllOrNone(a: bv32, m: bv32)
    requires Single(m)
    ensures And(a, m) == 0 || And(a, m) == m
  {
  }

  lemma AndXor(a: bv32, b: bv32, m: bv32)
    ensures And(Add(a, b), m) == Add(And(a, m), And(b, m))
  {
    AndXorBits(a, b, m);
  }

  lemma AndXorBits(a: bv32, b: bv32, m: bv32)
    ensures (a ^ b) & m == (a & m) ^ (b & m)
  {
  }

  lemma XoredAt(a: bv32, b: bv32, m: bv32)
    requires Single(m) && m != 0
    ensures Meets(Add(a, b), m) <==> Meets(a, m) != Meets(b, m)
  {
    hide Meets, And, Add, Single;
    AllOrNone(a, m);
    AllOrNone(b, m);
    AndXor(a, b, m);
    MeetsAnd(a, m);
    MeetsAnd(b, m);
    MeetsAnd(Add(a, b), m);
    AddZero(0);
    AddZero(m);
    AddSelf(m);
  }

  lemma SingleSome(m: bv32)
    requires Single(m)
    ensures m != 0
  {
  }

  lemma XoredBit(a: bv32, b: bv32, j: nat)
    requires j < 32
    ensures Bit(Add(a, b), j) == (Bit(a, j) != Bit(b, j))
  {
    hide Single, Meets, Add;
    MaskSingle(j);
    SingleSome(Mask(j));
    XoredAt(a, b, Mask(j));
  }

  // ----- reversal -----

  function SwapOnes(v: bv32): bv32 {
    ((v >> 1) & 0x5555_5555) | ((v & 0x5555_5555) << 1)
  }

  function SwapTwos(v: bv32): bv32 {
    ((v >> 2) & 0x3333_3333) | ((v & 0x3333_3333) << 2)
  }

  function SwapFours(v: bv32): bv32 {
    ((v >> 4) & 0x0f0f_0f0f) | ((v & 0x0f0f_0f0f) << 4)
  }

  function SwapOctets(v: bv32): bv32 {
    (v << 24) | ((v & 0xff00) << 8) | ((v >> 8) & 0xff00) | (v >> 24)
  }

  /** The bits in the opposite order. */
  function Reverse(v: bv32): bv32 {
    SwapOctets(SwapFours(SwapTwos(SwapOnes(v))))
  }

  /** The bits of an octet in the opposite order. */
  function Reverse8(b: bv8): bv8 {
    SwapFours8(SwapTwos8(SwapOnes8(b)))
  }

  function SwapOnes8(b: bv8): bv8 {
    ((b >> 1) & 0x55) | ((b & 0x55) << 1)
  }

  function SwapTwos8(b: bv8): bv8 {
    ((b >> 2) & 0x33) | ((b & 0x33) << 2)
  }

  function SwapFours8(b: bv8): bv8 {
    (b >> 4) | (b << 4)
  }

  lemma ReverseAdd(a: bv32, b: bv32)
    ensures Reverse(Add(a, b)) == Add(Reverse(a), Reverse(b))
  {
  }

  lemma ReverseTwice(v: bv32)
    ensures Reverse(Reverse(v)) == v
  {
  }

  lemma OnesAnd(v: bv32, m: bv32)
    ensures SwapOnes(And(v, m)) == And(SwapOnes(v), SwapOnes(m))
  {
  }

  lemma TwosAnd(v: bv32, m: bv32)
    ensures SwapTwos(And(v, m)) == And(SwapTwos(v), SwapTwos(m))
  {
  }

  lemma FoursAnd(v: bv32, m: bv32)
    ensures SwapFours(And(v, m)) == And(SwapFours(v), SwapFours(m))
  {
  }

  lemma OctetsAnd(v: bv32, m: bv32)
    ensures SwapOctets(And(v, m)) == And(SwapOctets(v), SwapOctets(m))
  {
  }

  lemma ReverseAnd(v: bv32, m: bv32)
    ensures Reverse(And(v, m)) == And(Reverse(v), Reverse(m))
  {
    hide SwapOnes, SwapTwos, SwapFours, SwapOctets, And;
    OnesAnd(v, m);
    var v1, m1 := SwapOnes(v), SwapOnes(m);
    TwosAnd(v1, m1);
    var v2, m2 := SwapTwos(v1), SwapTwos(m1);
    FoursAnd(v2, m2);
    OctetsAnd(SwapFours(v2), SwapFours(m2));
  }

  lemma ReverseNothing()
    ensures Reverse(0) == 0
  {
  }

  lemma ReverseMeets(v: bv32, m: bv32)
    ensures Meets(v, m) <==> Meets(Reverse(v), Reverse(m))
  {
    hide Reverse, And, Meets;
    MeetsAnd(v, m);
    MeetsAnd(Reverse(v), Reverse(m));
    ReverseAnd(v, m);
    ReverseNothing();
    ReverseTwice(And(v, m));
  }

  lemma ReverseDoubled(m: bv32, r: bv32)
    requires Single(m) && m != 0x8000_0000 && Single(r) && Single(Double(r)) && Reverse(m) == Double(r)
    ensures Reverse(Double(m)) == r
  {
  }

  lemma {:induction false} ReversedMask(j: nat)
    requires j < 32
    ensures Reverse(Mask(j)) == Mask(31 - j)
  {
    hide Reverse, Single, Double;
    LastMask();
    if j == 0 {
      FirstReversed();
    } else {
      ReversedMask(j - 1);
      MaskSingle(j - 1);
      MaskSingle(31 - j);
      MaskSingle(32 - j);
      ReverseDoubled(Mask(j - 1), Mask(31 - j));
    }
  }

  lemma FirstReversed()
    ensures Reverse(1) == 0x8000_0000
  {
  }

  lemma ReversedBit(v: bv32, j: nat)
    requires j < 32
    ensures Bit(Reverse(v), j) == Bit(v, 31 - j)
  {
    hide Reverse, Single, Meets;
    ReversedMask(31 - j);
    ReverseMeets(v, Mask(31 - j));
  }

  // ----- words with the same bits -----

  lemma SingleHalf(m: bv32)
    requires Single(m) && m != 1
    ensures Single(Half(m)) && Double(Half(m)) == m && Half(m) < m
  {
  }

  lemma {:induction false} SingleIsMask(m: bv32) returns (j: nat)
    requires Single(m)
    ensures m == Mask(j)
    decreases m
  {
    hide Single, Double, Half;
    if m == 1 {
      j := 0;
    } else {
      SingleHalf(m);
      j := SingleIsMask(Half(m));
      j := j + 1;
    }
  }

  /** Words that are not the same differ in some bit. */
  lemma Difference(a: bv32, b: bv32) returns (m: bv32)
    requires a != b
    ensures Single(m) && Meets(Add(a, b), m)
  {
    var d := a ^ b;
    m := d & (0 - d);
  }

  lemma {:induction false} NoneAbove(j: nat)
    requires j >= 32
    ensures Mask(j) == 0
  {
    LastMask();
    if j > 32 { NoneAbove(j - 1); }
  }

  lemma NoBit(v: bv32, j: nat)
    requires j >= 32
    ensures !Bit(v, j)
  {
    NoneAbove(j);
  }

  lemma SameBits(a: bv32, b: bv32)
    requires forall j: nat | j < 32 :: Bit(a, j) == Bit(b, j)
    ensures a == b
  {
    hide Single, Double, Meets, Add, Mask;
    if a != b {
      var m := Difference(a, b);
      var j := SingleIsMask(m);
      if j >= 32 { NoBit(Add(a, b), j); } else { XoredBit(a, b, j); }
    }
  }

  lemma DownAt(v: bv32, m: bv32)
    requires Single(m)
    ensures Meets(Half(v), m) <==> Meets(v, Double(m))
  {
  }

  lemma UpAt(v: bv32, m: bv32)
    requires Single(m) && m != 0x8000_0000
    ensures Meets(Double(v), Double(m)) <==> Meets(v, m)
  {
  }

  lemma UpLow(v: bv32)
    ensures !Meets(Double(v), 1)
  {
  }

  lemma DownBit(v: bv32, j: nat)
    requires j < 32
    ensures Bit(Half(v), j) == Bit(v, j + 1)
  {
    hide Single, Double, Half, Meets;
    MaskSingle(j);
    DownAt(v, Mask(j));
  }

  lemma UpBit(v: bv32, j: nat)
    requires j < 32
    ensures Bit(Double(v), j) == (j > 0 && Bit(v, j - 1))
  {
    hide Single, Double, Meets;
    if j == 0 {
      UpLow(v);
    } else {
      MaskSingle(j - 1);
      UpAt(v, Mask(j - 1));
    }
  }

  lemma ReverseShift(v: bv32)
    ensures Reverse(Half(v)) == Double(Reverse(v))
  {
    hide Reverse, Bit, Double, Half;
    forall j: nat | j < 32 ensures Bit(Reverse(Half(v)), j) == Bit(Double(Reverse(v)), j) {
      ReversedBit(Half(v), j);
      DownBit(v, 31 - j);
      UpBit(Reverse(v), j);
      if j > 0 { ReversedBit(v, j - 1); } else { NoBit(v, 32); }
    }
    SameBits(Reverse(Half(v)), Double(Reverse(v)));
  }

  function UpOctet(v: bv32): bv32 {
    v << 8
  }

  function DownOctet(v: bv32): bv32 {
    v >> 8
  }

  function Up(n: nat, v: bv32): bv32
    requires n <= 32
  {
    v << n
  }

  function Down(n: nat, v: bv32): bv32
    requires n <= 32
  {
    v >> n
  }

  lemma DownTwo(v: bv32)
    ensures Half(Half(v)) == Down(2, v)
  {
  }

  lemma DownFourBits(v: bv32)
    ensures v >> 2 >> 2 == v >> 4
  {
  }

  lemma DownFour(v: bv32)
    ensures Down(2, Down(2, v)) == Down(4, v)
  {
    DownFourBits(v);
  }

  lemma DownEightBits(v: bv32)
    ensures v >> 4 >> 4 == v >> 8
  {
  }

  lemma DownEight(v: bv32)
    ensures Down(4, Down(4, v)) == DownOctet(v)
  {
    DownEightBits(v);
  }

  lemma UpTwo(v: bv32)
    ensures Double(Double(v)) == Up(2, v)
  {
  }

  lemma UpFourBits(v: bv32)
    ensures v << 2 << 2 == v << 4
  {
  }

  lemma UpFour(v: bv32)
    ensures Up(2, Up(2, v)) == Up(4, v)
  {
    UpFourBits(v);
  }

  lemma UpEightBits(v: bv32)
    ensures v << 4 << 4 == v << 8
  {
  }

  lemma UpEight(v: bv32)
    ensures Up(4, Up(4, v)) == UpOctet(v)
  {
    UpEightBits(v);
  }

  lemma ReverseTwo(v: bv32)
    ensures Reverse(Down(2, v)) == Up(2, Reverse(v))
  {
    hide Reverse, Half, Double, Up, Down;
    ReverseShift(v);
    ReverseShift(Half(v));
    DownTwo(v);
    UpTwo(Reverse(v));
  }

  lemma ReverseFour(v: bv32)
    ensures Reverse(Down(4, v)) == Up(4, Reverse(v))
  {
    hide Reverse, Up, Down;
    ReverseTwo(v);
    ReverseTwo(Down(2, v));
    DownFour(v);
    UpFour(Reverse(v));
  }

  lemma ReverseOctet(v: bv32)
    ensures Reverse(DownOctet(v)) == UpOctet(Reverse(v))
  {
    hide Reverse, Up, Down, UpOctet, DownOctet;
    ReverseFour(v);
    ReverseFour(Down(4, v));
    DownEight(v);
    UpEight(Reverse(v));
  }
}
