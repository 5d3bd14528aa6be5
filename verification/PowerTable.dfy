/** The table of the powers x^(2^k), and that squaring its last entry leads back to the first: x^(2^32) is x. */
module PowerTable {
  import opened Gf2
  import opened Arithmetic

  /** The table as the generated header lists it. */
  function Header(k: nat): bv32 {
    match k
    case 0 => 0x40000000
    case 1 => 0x20000000
    case 2 => 0x08000000
    case 3 => 0x00800000
    case 4 => 0x00008000
    case 5 => 0xedb88320
    case 6 => 0xb1e6b092
    case 7 => 0xa06a2517
    case 8 => 0xed627dae
    case 9 => 0x88d14467
    case 10 => 0xd7bbfe6a
    case 11 => 0xec447f11
    case 12 => 0x8e7ea170
    case 13 => 0x6427800e
    case 14 => 0x4d47bae0
    case 15 => 0x09fe548f
    case 16 => 0x83852d0f
    case 17 => 0x30362f1a
    case 18 => 0x7b5a9cc3
    case 19 => 0x31fec169
    case 20 => 0x9fec022a
    case 21 => 0x6c8dedc4
    case 22 => 0x15d6874d
    case 23 => 0x5fde7a4e
    case 24 => 0xbad90e37
    case 25 => 0x2e4e5eef
    case 26 => 0x4eaba214
    case 27 => 0xa8a472c0
    case 28 => 0x429a969e
    case 29 => 0x148d302a
    case 30 => 0xc40ba6d0
    case _ => 0xc4e22c3c
  }

  // The product in rounds of two, four and eight terms.

  function Times2(b: bv32): bv32 {
    Times(Times(b))
  }

  function Mul2(a: bv32, m: bv32, b: bv32): bv32 {
    Add(Pick(a, m, b), Pick(a, m >> 1, Times(b)))
  }

  function Times4(b: bv32): bv32 {
    Times2(Times2(b))
  }

  function Mul4(a: bv32, m: bv32, b: bv32): bv32 {
    Add(Mul2(a, m, b), Mul2(a, m >> 2, Times2(b)))
  }

  function Times8(b: bv32): bv32 {
    Times4(Times4(b))
  }

  function Mul8(a: bv32, m: bv32, b: bv32): bv32 {
    Add(Mul4(a, m, b), Mul4(a, m >> 4, Times4(b)))
  }

  lemma NoMask(a: bv32, b: bv32)
    ensures MulFrom(a, 0, b) == 0
  {
  }

  lemma Unroll(a: bv32, m: bv32, b: bv32)
    ensures MulFrom(a, m, b) == Add(Pick(a, m, b), MulFrom(a, m >> 1, Times(b)))
  {
    hide Times;
    if m == 0 {
      NoMask(a, Times(b));
    }
  }

  lemma Shifts(m: bv32)
    ensures m >> 1 >> 1 == m >> 2 && m >> 2 >> 2 == m >> 4 && m >> 4 >> 4 == m >> 8
  {
  }

  lemma Unroll2(a: bv32, m: bv32, b: bv32)
    ensures MulFrom(a, m, b) == Add(Mul2(a, m, b), MulFrom(a, m >> 2, Times2(b)))
  {
    hide Add, Times, Pick, MulFrom;
    Shifts(m);
    Unroll(a, m, b);
    Unroll(a, m >> 1, Times(b));
    AddAssociates(Pick(a, m, b), Pick(a, m >> 1, Times(b)), MulFrom(a, m >> 2, Times2(b)));
  }

  lemma Unroll4(a: bv32, m: bv32, b: bv32)
    ensures MulFrom(a, m, b) == Add(Mul4(a, m, b), MulFrom(a, m >> 4, Times4(b)))
  {
    hide Add, Times2, Mul2, MulFrom;
    Shifts(m);
    Unroll2(a, m, b);
    Unroll2(a, m >> 2, Times2(b));
    AddAssociates(Mul2(a, m, b), Mul2(a, m >> 2, Times2(b)), MulFrom(a, m >> 4, Times4(b)));
  }

  lemma Unroll8(a: bv32, m: bv32, b: bv32)
    ensures MulFrom(a, m, b) == Add(Mul8(a, m, b), MulFrom(a, m >> 8, Times8(b)))
  {
    hide Add, Times4, Mul4, MulFrom;
    Shifts(m);
    Unroll4(a, m, b);
    Unroll4(a, m >> 4, Times4(b));
    AddAssociates(Mul4(a, m, b), Mul4(a, m >> 4, Times4(b)), MulFrom(a, m >> 8, Times8(b)));
  }

  /** The product `p` of `a` and `b`, from the values the four rounds start from and yield. */
  lemma MulRounds(a: bv32, b: bv32, b1: bv32, b2: bv32, b3: bv32, p0: bv32, p1: bv32, p2: bv32, p3: bv32)
    requires Mul8(a, 0x8000_0000, b) == p0 && Times8(b) == b1
    requires Mul8(a, 0x0080_0000, b1) == p1 && Times8(b1) == b2
    requires Mul8(a, 0x0000_8000, b2) == p2 && Times8(b2) == b3
    requires Mul8(a, 0x0000_0080, b3) == p3
    ensures Mul(a, b) == Add(p0, Add(p1, Add(p2, p3)))
  {
    hide Add, Times8, Mul8, MulFrom;
    Unroll8(a, 0x8000_0000, b);
    Unroll8(a, 0x0080_0000, b1);
    Unroll8(a, 0x0000_8000, b2);
    Unroll8(a, 0x0000_0080, b3);
    NoMask(a, Times8(b3));
    AddZero(p3);
  }

  // The squares, one by one.

  lemma Square0()
    ensures Mul(0x40000000, 0x40000000) == 0x20000000
  {
    hide Mul, MulFrom;
    MulRounds(0x40000000, 0x40000000, 0x00400000, 0x00004000, 0x00000040,
              0x20000000, 0x00000000, 0x00000000, 0x00000000);
  }

  lemma Square1()
    ensures Mul(0x20000000, 0x20000000) == 0x08000000
  {
    hide Mul, MulFrom;
    MulRounds(0x20000000, 0x20000000, 0x00200000, 0x00002000, 0x00000020,
              0x08000000, 0x00000000, 0x00000000, 0x00000000);
  }

  lemma Square2()
    ensures Mul(0x08000000, 0x08000000) == 0x00800000
  {
    hide Mul, MulFrom;
    MulRounds(0x08000000, 0x08000000, 0x00080000, 0x00000800, 0x00000008,
              0x00800000, 0x00000000, 0x00000000, 0x00000000);
  }

  lemma Square3()
    ensures Mul(0x00800000, 0x00800000) == 0x00008000
  {
    hide Mul, MulFrom;
    MulRounds(0x00800000, 0x00800000, 0x00008000, 0x00000080, 0xedb88320,
              0x00000000, 0x00008000, 0x00000000, 0x00000000);
  }

  lemma Square4()
    ensures Mul(0x00008000, 0x00008000) == 0xedb88320
  {
    hide Mul, MulFrom;
    MulRounds(0x00008000, 0x00008000, 0x00000080, 0xedb88320, 0x3b83984b,
              0x00000000, 0x00000000, 0xedb88320, 0x00000000);
  }

  lemma Square5()
    ensures Mul(0xedb88320, 0xedb88320) == 0xb1e6b092
  {
    hide Mul, MulFrom;
    MulRounds(0xedb88320, 0xedb88320, 0x3b83984b, 0xe1351b80, 0xed59b63b,
              0xdebb9ec5, 0x2c1c24b0, 0xe373a5d9, 0xa032af3e);
  }

  lemma Square6()
    ensures Mul(0xb1e6b092, 0xb1e6b092) == 0xa06a2517
  {
    hide Mul, MulFrom;
    MulRounds(0xb1e6b092, 0xb1e6b092, 0x1eb014d8, 0x8816eaf2, 0x533b85da,
              0x2da721a4, 0xc01df89f, 0x20754fa0, 0x6da5b38c);
  }

  lemma Square7()
    ensures Mul(0xa06a2517, 0xa06a2517) == 0xed627dae
  {
    hide Mul, MulFrom;
    MulRounds(0xa06a2517, 0xa06a2517, 0x8373efe2, 0x4e87f0bb, 0x5cfdedf4,
              0x13146ee2, 0x5eea55b2, 0xbb428015, 0x1bdec6eb);
  }

  lemma Square8()
    ensures Mul(0xed627dae, 0xed627dae) == 0x88d14467
  {
    hide Mul, MulFrom;
    MulRounds(0xed627dae, 0xed627dae, 0x3183ec92, 0x1e307184, 0xeacb7748,
              0xd7862165, 0x81d8485d, 0xa4ada4ae, 0x7a2289f1);
  }

  lemma Square9()
    ensures Mul(0x88d14467, 0x88d14467) == 0xd7bbfe6a
  {
    hide Mul, MulFrom;
    MulRounds(0x88d14467, 0x88d14467, 0xd35e25bf, 0x5b0df038, 0x2859b56e,
              0xd059211d, 0x5b3372ff, 0xb43a552d, 0xe8ebf8a5);
  }

  lemma Square10()
    ensures Mul(0xd7bbfe6a, 0xd7bbfe6a) == 0xec447f11
  {
    hide Mul, MulFrom;
    MulRounds(0xd7bbfe6a, 0xd7bbfe6a, 0xadb033b8, 0xc5178b8d, 0x93cce816,
              0xe6d91417, 0x87eb8ad7, 0x2eaa6940, 0xa3dc8891);
  }

  lemma Square11()
    ensures Mul(0xec447f11, 0xec447f11) == 0x8e7ea170
  {
    hide Mul, MulFrom;
    MulRounds(0xec447f11, 0xec447f11, 0x6a5c648d, 0x9363a3f9, 0xc4f2291b,
              0xcd61e292, 0x98adbb28, 0x40adad7a, 0x9b1f55b0);
  }

  lemma Square12()
    ensures Mul(0x8e7ea170, 0x8e7ea170) == 0x6427800e
  {
    hide Mul, MulFrom;
    MulRounds(0x8e7ea170, 0x8e7ea170, 0x508b0f9d, 0x8eee64f6, 0x5450b94d,
              0xf60f0579, 0x02608d82, 0xe84c0c71, 0x78040484);
  }

  lemma Square13()
    ensures Mul(0x6427800e, 0x6427800e) == 0x4d47bae0
  {
    hide Mul, MulFrom;
    MulRounds(0x6427800e, 0x6427800e, 0xe7dc0a87, 0x733bca89, 0x9417004e,
              0x9586ee18, 0x7c4621ac, 0x733bca89, 0xd7bcbfdd);
  }

  lemma Square14()
    ensures Mul(0x4d47bae0, 0x4d47bae0) == 0x09fe548f
  {
    hide Mul, MulFrom;
    MulRounds(0x4d47bae0, 0x4d47bae0, 0xa047a5c2, 0x75cae439, 0x5f7042ec,
              0xbbe3d6cc, 0xaf59a17c, 0x7a50501e, 0x67147321);
  }

  lemma Square15()
    ensures Mul(0x09fe548f, 0x09fe548f) == 0x83852d0f
  {
    hide Mul, MulFrom;
    MulRounds(0x09fe548f, 0x09fe548f, 0x7d0e60e5, 0xd01d1897, 0x6ebb1bff,
              0x473ed69e, 0xb2a96733, 0xfc859d7b, 0x8a9701d9);
  }

  lemma Square16()
    ensures Mul(0x83852d0f, 0x83852d0f) == 0x30362f1a
  {
    hide Mul, MulFrom;
    MulRounds(0x83852d0f, 0x83852d0f, 0x903c98bc, 0xc247c33f, 0xb6a46afe,
              0x55ec7205, 0x6b491e3e, 0x19212bda, 0x17b268fb);
  }

  lemma Square17()
    ensures Mul(0x30362f1a, 0x30362f1a) == 0x7b5a9cc3
  {
    hide Mul, MulFrom;
    MulRounds(0x30362f1a, 0x30362f1a, 0xfd52cf55, 0x1bfcf7b4, 0xcc178b62,
              0x916f8c95, 0x30e06b37, 0x6277c6dc, 0xb8a2bdbd);
  }

  lemma Square18()
    ensures Mul(0x7b5a9cc3, 0x7b5a9cc3) == 0x31fec169
  {
    hide Mul, MulFrom;
    MulRounds(0x7b5a9cc3, 0x7b5a9cc3, 0x0216c996, 0x196e20b8, 0xc5a3559e,
              0x3a64b615, 0xb206f068, 0x6dc23631, 0xd45eb125);
  }

  lemma Square19()
    ensures Mul(0x31fec169, 0x31fec169) == 0x9fec022a
  {
    hide Mul, MulFrom;
    MulRounds(0x31fec169, 0x31fec169, 0x345f273d, 0x585c1336, 0xcfe2c98a,
              0x2f4c4755, 0xf8ba019e, 0x30c68ff8, 0x78dccb19);
  }

  lemma Square20()
    ensures Mul(0x9fec022a, 0x9fec022a) == 0x6c8dedc4
  {
    hide Mul, MulFrom;
    MulRounds(0x9fec022a, 0x9fec022a, 0xdb2425d4, 0x816532e8, 0xae500f78,
              0xfd3a47eb, 0x2b1ebf40, 0xd4d33723, 0x6e7a224c);
  }

  lemma Square21()
    ensures Mul(0x6c8dedc4, 0x6c8dedc4) == 0x15d6874d
  {
    hide Mul, MulFrom;
    MulRounds(0x6c8dedc4, 0x6c8dedc4, 0x9c658b44, 0x712de002, 0xee7f4ccc,
              0x657b5d79, 0x3ea95ef6, 0x9d85f556, 0xd3817194);
  }

  lemma Square22()
    ensures Mul(0x15d6874d, 0x15d6874d) == 0x5fde7a4e
  {
    hide Mul, MulFrom;
    MulRounds(0x15d6874d, 0x15d6874d, 0x0878ebaa, 0x360b321d, 0x633067eb,
              0x875af905, 0xc8939c47, 0x08ba57fc, 0x18ad48f0);
  }

  lemma Square23()
    ensures Mul(0x5fde7a4e, 0x5fde7a4e) == 0xbad90e37
  {
    hide Mul, MulFrom;
    MulRounds(0x5fde7a4e, 0x5fde7a4e, 0x913bb2ed, 0xde2aa577, 0xcebfce3a,
              0x98071500, 0xf687f957, 0x4476e3a1, 0x902f01c1);
  }

  lemma Square24()
    ensures Mul(0xbad90e37, 0xbad90e37) == 0x2e4e5eef
  {
    hide Mul, MulFrom;
    MulRounds(0xbad90e37, 0xbad90e37, 0xb8077c01, 0x77bf37ea, 0x40a8b451,
              0x6e7c57ac, 0xdc9b8619, 0x60a82fd8, 0xfc01a082);
  }

  lemma Square25()
    ensures Mul(0x2e4e5eef, 0x2e4e5eef) == 0x4eaba214
  {
    hide Mul, MulFrom;
    MulRounds(0x2e4e5eef, 0x2e4e5eef, 0x309bb1b7, 0x5535bd9e, 0x17e28bfe,
              0xb26c0fdc, 0xed6087d6, 0xfe9f6265, 0xef38487b);
  }

  lemma Square26()
    ensures Mul(0x4eaba214, 0x4eaba214) == 0xa8a472c0
  {
    hide Mul, MulFrom;
    MulRounds(0x4eaba214, 0x4eaba214, 0x1a947fdf, 0x16765b3a, 0xc61aafe9,
              0xeb912b3f, 0x4e74cde5, 0x50dbfdf2, 0x5d9a69e8);
  }

  lemma Square27()
    ensures Mul(0xa8a472c0, 0xa8a472c0) == 0x429a969e
  {
    hide Mul, MulFrom;
    MulRounds(0xa8a472c0, 0xa8a472c0, 0x9bcc66c2, 0x75f16ffa, 0x5d1dea6d,
              0x8807295c, 0x49ee8f00, 0x1d58acb9, 0x9e2b9c7b);
  }

  lemma Square28()
    ensures Mul(0x429a969e, 0x429a969e) == 0x148d302a
  {
    hide Mul, MulFrom;
    MulRounds(0x429a969e, 0x429a969e, 0x17f524d5, 0xf6aed37f, 0xc04cc27e,
              0x7e99d81b, 0xc5906160, 0x4b73e2a7, 0xe4f76bf6);
  }

  lemma Square29()
    ensures Mul(0x148d302a, 0x148d302a) == 0xc40ba6d0
  {
    hide Mul, MulFrom;
    MulRounds(0x148d302a, 0x148d302a, 0xdbaf44e6, 0x49b2e809, 0x79950a4c,
              0x1f82dfe0, 0x28c64b69, 0x56e8865b, 0xa5a7b402);
  }

  lemma Square30()
    ensures Mul(0xc40ba6d0, 0xc40ba6d0) == 0xc4e22c3c
  {
    hide Mul, MulFrom;
    MulRounds(0xc40ba6d0, 0xc40ba6d0, 0x8617d972, 0xbe8d07c9, 0xe206f713,
              0x4d96abae, 0x02c3416b, 0xa4f876f9, 0x2f4fb000);
  }

  lemma Square31()
    ensures Mul(0xc4e22c3c, 0xc4e22c3c) == 0x40000000
  {
    hide Mul, MulFrom;
    MulRounds(0xc4e22c3c, 0xc4e22c3c, 0x2fab9eab, 0x412bd1fe, 0x5a44f4ca,
              0x00bec93b, 0x9a96b67d, 0xe65e84ab, 0x3c76fbed);
  }

  function Following(k: nat): nat
    requires k < 32
  {
    if k == 31 then 0 else k + 1
  }

  lemma Entries0()
    ensures Header(0) == 0x40000000
    ensures Header(1) == 0x20000000
    ensures Header(2) == 0x08000000
    ensures Header(3) == 0x00800000
    ensures Header(4) == 0x00008000
    ensures Header(5) == 0xedb88320
    ensures Header(6) == 0xb1e6b092
    ensures Header(7) == 0xa06a2517
    ensures Header(8) == 0xed627dae
  {
  }

  lemma SquaresFrom0(k: nat)
    requires 0 <= k < 8
    ensures Mul(Header(k), Header(k)) == Header(Following(k))
  {
    hide Mul, Header;
    Entries0();
    match k
    case 0 => Square0();
    case 1 => Square1();
    case 2 => Square2();
    case 3 => Square3();
    case 4 => Square4();
    case 5 => Square5();
    case 6 => Square6();
    case _ => Square7();
  }

  lemma Entries8()
    ensures Header(8) == 0xed627dae
    ensures Header(9) == 0x88d14467
    ensures Header(10) == 0xd7bbfe6a
    ensures Header(11) == 0xec447f11
    ensures Header(12) == 0x8e7ea170
    ensures Header(13) == 0x6427800e
    ensures Header(14) == 0x4d47bae0
    ensures Header(15) == 0x09fe548f
    ensures Header(16) == 0x83852d0f
  {
  }

  lemma SquaresFrom8(k: nat)
    requires 8 <= k < 16
    ensures Mul(Header(k), Header(k)) == Header(Following(k))
  {
    hide Mul, Header;
    Entries8();
    match k
    case 8 => Square8();
    case 9 => Square9();
    case 10 => Square10();
    case 11 => Square11();
    case 12 => Square12();
    case 13 => Square13();
    case 14 => Square14();
    case _ => Square15();
  }

  lemma Entries16()
    ensures Header(16) == 0x83852d0f
    ensures Header(17) == 0x30362f1a
    ensures Header(18) == 0x7b5a9cc3
    ensures Header(19) == 0x31fec169
    ensures Header(20) == 0x9fec022a
    ensures Header(21) == 0x6c8dedc4
    ensures Header(22) == 0x15d6874d
    ensures Header(23) == 0x5fde7a4e
    ensures Header(24) == 0xbad90e37
  {
  }

  lemma SquaresFrom16(k: nat)
    requires 16 <= k < 24
    ensures Mul(Header(k), Header(k)) == Header(Following(k))
  {
    hide Mul, Header;
    Entries16();
    match k
    case 16 => Square16();
    case 17 => Square17();
    case 18 => Square18();
    case 19 => Square19();
    case 20 => Square20();
    case 21 => Square21();
    case 22 => Square22();
    case _ => Square23();
  }

  lemma Entries24()
    ensures Header(24) == 0xbad90e37
    ensures Header(25) == 0x2e4e5eef
    ensures Header(26) == 0x4eaba214
    ensures Header(27) == 0xa8a472c0
    ensures Header(28) == 0x429a969e
    ensures Header(29) == 0x148d302a
    ensures Header(30) == 0xc40ba6d0
    ensures Header(31) == 0xc4e22c3c
    ensures Header(0) == 0x40000000
  {
  }

  lemma SquaresFrom24(k: nat)
    requires 24 <= k < 32
    ensures Mul(Header(k), Header(k)) == Header(Following(k))
  {
    hide Mul, Header;
    Entries24();
    match k
    case 24 => Square24();
    case 25 => Square25();
    case 26 => Square26();
    case 27 => Square27();
    case 28 => Square28();
    case 29 => Square29();
    case 30 => Square30();
    case _ => Square31();
  }

  /** Each entry is the square of the one before it, and the first that of the last. */
  lemma Squares(k: nat)
    requires k < 32
    ensures Mul(Header(k), Header(k)) == Header((k + 1) % 32)
  {
    hide Mul, Header;
    assert (k + 1) % 32 == Following(k);
    if k < 8 {
      SquaresFrom0(k);
    } else if k < 16 {
      SquaresFrom8(k);
    } else if k < 24 {
      SquaresFrom16(k);
    } else {
      SquaresFrom24(k);
    }
  }

  lemma NextSlot(k: nat)
    requires k > 0
    ensures ((k - 1) % 32 + 1) % 32 == k % 32
  {
    var q := (k - 1) / 32;
    var r := k - 1 - 32 * q;
    if r == 31 {
      RemainderIs(k, 32, q + 1, 0);
    } else {
      RemainderIs(k, 32, q, r + 1);
    }
    RemainderIs(k - 1, 32, q, r);
    RemainderIs(r + 1, 32, if r == 31 then 1 else 0, if r == 31 then 0 else r + 1);
  }

  lemma FirstPower()
    ensures Header(0) == XPow(Pow2(0))
  {
    assert TimesN(1, ONE) == TimesN(0, Times(ONE));
  }

  /** Entry `k` modulo 32 is x^(2^k), for every k: the powers x^(2^k) repeat after 32 of them. */
  lemma {:induction false} HeaderIsPower(k: nat)
    ensures Header(k % 32) == XPow(Pow2(k))
  {
    hide Mul, Header, XPow;
    if k == 0 {
      FirstPower();
    } else {
      HeaderIsPower(k - 1);
      Squares((k - 1) % 32);
      NextSlot(k);
      XPowAdd(Pow2(k - 1), Pow2(k - 1));
    }
  }
}
