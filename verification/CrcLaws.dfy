/** What a CRC-32 is, told without its register, and the residue that marks a string followed by its own CRC. */
module CrcLaws {
  import opened Gf2
  import opened CrcPowers
  import opened CrcBytes
  import opened CrcWords

  /** The polynomial of a string: octet `k` times x^(8 * (|m| - k)), summed. */
  function Terms(m: seq<bv8>): bv32
    decreases |m|
  {
    if m == [] then 0 else Add(Mul(XPow(8 * |m|), m[0] as bv32), Terms(m[1..]))
  }

  lemma {:induction false} FoldIsTerms(m: seq<bv8>)
    ensures Fold(0, m) == Terms(m)
    decreases |m|
  {
    hide Add, TimesN, Mul, XPow;
    if m != [] {
      var w := m[0] as bv32;
      AddZero(w);
      FoldFrom(TimesN(8, w), m[1..]);
      TimesNAdd(8, 8 * (|m| - 1), w);
      MulXPow(8 * |m|, w);
      FoldIsTerms(m[1..]);
    }
  }

  lemma CrcSum(c: bv32, m: seq<bv8>)
    ensures Crc(c, m) == Add(0xffff_ffff, Add(Mul(XPow(8 * |m|), Add(c, 0xffff_ffff)), Terms(m)))
  {
    hide Add, TimesN, Mul, XPow, Fold, Terms;
    var d := Add(c, 0xffff_ffff);
    FoldFrom(d, m);
    MulXPow(8 * |m|, d);
    FoldIsTerms(m);
    AddCommutes(0xffff_ffff, Fold(d, m));
  }

  /**
   * The CRC of a string: 32 ones, plus the initial value with all its bits turned over and moved to the left of the
   * string, plus the polynomial of the string.
   */
  lemma CrcIsPolynomial(c: bv32, m: seq<bv8>)
    ensures Crc(c, m) == 0xffff_ffff ^ (Mul(XPow(8 * |m|), c ^ 0xffff_ffff) ^ Terms(m))
  {
    hide Crc, Mul, XPow, Terms;
    CrcSum(c, m);
  }

  /** The four octets of a CRC as gzip writes them, the lowest first. */
  function Octets(c: bv32): (w: seq<bv8>)
    ensures |w| == 4
  {
    [(c & 0xff) as bv8, ((c >> 8) & 0xff) as bv8, ((c >> 16) & 0xff) as bv8, ((c >> 24) & 0xff) as bv8]
  }

  lemma FirstStep()
    ensures Step(0x00000000, 0xff) == 0x2d02ef8d
  {
    assert Wide(0xff) == 0xff && Add(0x00000000, 0xff) == 0x000000ff;
    assert Times(0x000000ff) == 0xedb8835f;
    assert Times(0xedb8835f) == 0x9b64c28f;
    assert Times(0x9b64c28f) == 0xa00ae267;
    assert Times(0xa00ae267) == 0xbdbdf213;
    assert Times(0xbdbdf213) == 0xb3667a29;
    assert Times(0xb3667a29) == 0xb40bbe34;
    assert Times(0xb40bbe34) == 0x5a05df1a;
    assert Times(0x5a05df1a) == 0x2d02ef8d;
    assert TimesN(0, 0x2d02ef8d) == 0x2d02ef8d;
    assert TimesN(2, 0xb40bbe34) == 0x2d02ef8d;
    assert TimesN(4, 0xbdbdf213) == 0x2d02ef8d;
    assert TimesN(6, 0x9b64c28f) == 0x2d02ef8d;
  }

  lemma SecondStep()
    ensures Step(0x2d02ef8d, 0xff) == 0xbe2612ff
  {
    assert Wide(0xff) == 0xff && Add(0x2d02ef8d, 0xff) == 0x2d02ef72;
    assert Times(0x2d02ef72) == 0x168177b9;
    assert Times(0x168177b9) == 0xe6f838fc;
    assert Times(0xe6f838fc) == 0x737c1c7e;
    assert Times(0x737c1c7e) == 0x39be0e3f;
    assert Times(0x39be0e3f) == 0xf167843f;
    assert Times(0xf167843f) == 0x950b413f;
    assert Times(0x950b413f) == 0xa73d23bf;
    assert Times(0xa73d23bf) == 0xbe2612ff;
    assert TimesN(0, 0xbe2612ff) == 0xbe2612ff;
    assert TimesN(2, 0x950b413f) == 0xbe2612ff;
    assert TimesN(4, 0x39be0e3f) == 0xbe2612ff;
    assert TimesN(6, 0xe6f838fc) == 0xbe2612ff;
  }

  lemma ThirdStep()
    ensures Step(0xbe2612ff, 0xff) == 0x00be2612
  {
    assert Wide(0xff) == 0xff && Add(0xbe2612ff, 0xff) == 0xbe261200;
    assert Times(0xbe261200) == 0x5f130900;
    assert Times(0x5f130900) == 0x2f898480;
    assert Times(0x2f898480) == 0x17c4c240;
    assert Times(0x17c4c240) == 0x0be26120;
    assert Times(0x0be26120) == 0x05f13090;
    assert Times(0x05f13090) == 0x02f89848;
    assert Times(0x02f89848) == 0x017c4c24;
    assert Times(0x017c4c24) == 0x00be2612;
    assert TimesN(0, 0x00be2612) == 0x00be2612;
    assert TimesN(2, 0x02f89848) == 0x00be2612;
    assert TimesN(4, 0x0be26120) == 0x00be2612;
    assert TimesN(6, 0x2f898480) == 0x00be2612;
  }

  lemma FourthStep()
    ensures Step(0x00be2612, 0xff) == 0xdebb20e3
  {
    assert Wide(0xff) == 0xff && Add(0x00be2612, 0xff) == 0x00be26ed;
    assert Times(0x00be26ed) == 0xede79056;
    assert Times(0xede79056) == 0x76f3c82b;
    assert Times(0x76f3c82b) == 0xd6c16735;
    assert Times(0xd6c16735) == 0x86d830ba;
    assert Times(0x86d830ba) == 0x436c185d;
    assert Times(0x436c185d) == 0xcc0e8f0e;
    assert Times(0xcc0e8f0e) == 0x66074787;
    assert Times(0x66074787) == 0xdebb20e3;
    assert TimesN(0, 0xdebb20e3) == 0xdebb20e3;
    assert TimesN(2, 0xcc0e8f0e) == 0xdebb20e3;
    assert TimesN(4, 0x86d830ba) == 0xdebb20e3;
    assert TimesN(6, 0x76f3c82b) == 0xdebb20e3;
  }

  lemma OctetsOpposed(c: bv32)
    ensures Xor8(Low(c), Low(c ^ 0xffff_ffff)) == 0xff
    ensures (c ^ 0xffff_ffff) >> 8 == High(c) ^ 0x00ff_ffff
  {
  }

  lemma LowBits(c: bv32)
    ensures Octets(c) == [Low(c), Low(High(c)), Low(High(High(c))), Low(High(High(High(c))))]
  {
    assert c >> 8 >> 8 == c >> 16;
    assert c >> 16 >> 8 == c >> 24;
  }

  lemma Opposed(r: bv32)
    ensures var c := r ^ 0xffff_ffff;
      && Xor8(Low(r), Low(c)) == 0xff && Xor8(Low(High(r)), Low(High(c))) == 0xff
      && Xor8(Low(High(High(r))), Low(High(High(c)))) == 0xff
      && Xor8(Low(High(High(High(r)))), Low(High(High(High(c))))) == 0xff
  {
    OctetsOpposed(r);
    OctetsOpposed(High(r));
    OctetsOpposed(High(High(r)));
  }

  lemma {:induction false} MixFour(c: bv32, a: bv8, b: bv8, d: bv8, e: bv8)
    ensures Mix(c, [a, b, d, e]) == [Xor8(Low(c), a), Xor8(Low(High(c)), b), Xor8(Low(High(High(c))), d),
      Xor8(Low(High(High(High(c)))), e)]
  {
    hide Xor8, Low, High;
    assert [a, b, d, e][1..] == [b, d, e] && [b, d, e][1..] == [d, e] && [d, e][1..] == [e];
    assert [e][1..] == [];
    assert Mix(High(High(c)), [d, e]) == [Xor8(Low(High(High(c))), d), Xor8(Low(High(High(High(c)))), e)];
  }

  lemma FoldOnes()
    ensures Fold(0, [0xff, 0xff, 0xff, 0xff]) == 0xdebb20e3
  {
    hide Step;
    var w: seq<bv8> := [0xff, 0xff, 0xff, 0xff];
    assert w[1..] == [0xff, 0xff, 0xff] && w[1..][1..] == [0xff, 0xff] && w[1..][1..][1..] == [0xff];
    assert w[1..][1..][1..][1..] == [];
    FirstStep();
    SecondStep();
    ThirdStep();
    FourthStep();
    assert Fold(0x00be2612, w[1..][1..][1..]) == 0xdebb20e3;
    assert Fold(0xbe2612ff, w[1..][1..]) == 0xdebb20e3;
  }

  /** A string followed by its CRC has always the same CRC. */
  lemma Residue(m: seq<bv8>)
    ensures Crc(0, m + Octets(Crc(0, m))) == 0x2144_df1c
  {
    hide Step, Fold, Mix, Fits, Octets, Xor8, Low, High;
    var r := Fold(0xffff_ffff, m);
    var c := Crc(0, m);
    assert c == r ^ 0xffff_ffff;
    FoldConcat(0xffff_ffff, m, Octets(c));
    AddZero(r);
    FitsFour(4, r);
    FoldMix(0, r, Octets(c));
    LowBits(c);
    MixFour(r, Low(c), Low(High(c)), Low(High(High(c))), Low(High(High(High(c)))));
    Opposed(r);
    FoldOnes();
  }
}
