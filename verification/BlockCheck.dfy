/** The table of the block check, and what the check is: the CRC-32 whose bits and octets are read the other way. */
module BlockCheck {
  import opened Bytes
  import opened Gf2
  import opened CrcBytes
  import opened CrcWords
  import opened CheckBits
  import opened StreamFormat
  import B = BlockCrc

  /** `BZ2_crc32Table`, eight entries a row. */
  function Row(k: nat): (r: seq<bv32>)
    ensures |r| == 8
  {
    match k
    case 0 => [0x0000_0000, 0x04c1_1db7, 0x0982_3b6e, 0x0d43_26d9, 0x1304_76dc, 0x17c5_6b6b,
      0x1a86_4db2, 0x1e47_5005]
    case 1 => [0x2608_edb8, 0x22c9_f00f, 0x2f8a_d6d6, 0x2b4b_cb61, 0x350c_9b64, 0x31cd_86d3,
      0x3c8e_a00a, 0x384f_bdbd]
    case 2 => [0x4c11_db70, 0x48d0_c6c7, 0x4593_e01e, 0x4152_fda9, 0x5f15_adac, 0x5bd4_b01b,
      0x5697_96c2, 0x5256_8b75]
    case 3 => [0x6a19_36c8, 0x6ed8_2b7f, 0x639b_0da6, 0x675a_1011, 0x791d_4014, 0x7ddc_5da3,
      0x709f_7b7a, 0x745e_66cd]
    case 4 => [0x9823_b6e0, 0x9ce2_ab57, 0x91a1_8d8e, 0x9560_9039, 0x8b27_c03c, 0x8fe6_dd8b,
      0x82a5_fb52, 0x8664_e6e5]
    case 5 => [0xbe2b_5b58, 0xbaea_46ef, 0xb7a9_6036, 0xb368_7d81, 0xad2f_2d84, 0xa9ee_3033,
      0xa4ad_16ea, 0xa06c_0b5d]
    case 6 => [0xd432_6d90, 0xd0f3_7027, 0xddb0_56fe, 0xd971_4b49, 0xc736_1b4c, 0xc3f7_06fb,
      0xceb4_2022, 0xca75_3d95]
    case 7 => [0xf23a_8028, 0xf6fb_9d9f, 0xfbb8_bb46, 0xff79_a6f1, 0xe13e_f6f4, 0xe5ff_eb43,
      0xe8bc_cd9a, 0xec7d_d02d]
    case 8 => [0x3486_7077, 0x3047_6dc0, 0x3d04_4b19, 0x39c5_56ae, 0x2782_06ab, 0x2343_1b1c,
      0x2e00_3dc5, 0x2ac1_2072]
    case 9 => [0x128e_9dcf, 0x164f_8078, 0x1b0c_a6a1, 0x1fcd_bb16, 0x018a_eb13, 0x054b_f6a4,
      0x0808_d07d, 0x0cc9_cdca]
    case 10 => [0x7897_ab07, 0x7c56_b6b0, 0x7115_9069, 0x75d4_8dde, 0x6b93_dddb, 0x6f52_c06c,
      0x6211_e6b5, 0x66d0_fb02]
    case 11 => [0x5e9f_46bf, 0x5a5e_5b08, 0x571d_7dd1, 0x53dc_6066, 0x4d9b_3063, 0x495a_2dd4,
      0x4419_0b0d, 0x40d8_16ba]
    case 12 => [0xaca5_c697, 0xa864_db20, 0xa527_fdf9, 0xa1e6_e04e, 0xbfa1_b04b, 0xbb60_adfc,
      0xb623_8b25, 0xb2e2_9692]
    case 13 => [0x8aad_2b2f, 0x8e6c_3698, 0x832f_1041, 0x87ee_0df6, 0x99a9_5df3, 0x9d68_4044,
      0x902b_669d, 0x94ea_7b2a]
    case 14 => [0xe0b4_1de7, 0xe475_0050, 0xe936_2689, 0xedf7_3b3e, 0xf3b0_6b3b, 0xf771_768c,
      0xfa32_5055, 0xfef3_4de2]
    case 15 => [0xc6bc_f05f, 0xc27d_ede8, 0xcf3e_cb31, 0xcbff_d686, 0xd5b8_8683, 0xd179_9b34,
      0xdc3a_bded, 0xd8fb_a05a]
    case 16 => [0x690c_e0ee, 0x6dcd_fd59, 0x608e_db80, 0x644f_c637, 0x7a08_9632, 0x7ec9_8b85,
      0x738a_ad5c, 0x774b_b0eb]
    case 17 => [0x4f04_0d56, 0x4bc5_10e1, 0x4686_3638, 0x4247_2b8f, 0x5c00_7b8a, 0x58c1_663d,
      0x5582_40e4, 0x5143_5d53]
    case 18 => [0x251d_3b9e, 0x21dc_2629, 0x2c9f_00f0, 0x285e_1d47, 0x3619_4d42, 0x32d8_50f5,
      0x3f9b_762c, 0x3b5a_6b9b]
    case 19 => [0x0315_d626, 0x07d4_cb91, 0x0a97_ed48, 0x0e56_f0ff, 0x1011_a0fa, 0x14d0_bd4d,
      0x1993_9b94, 0x1d52_8623]
    case 20 => [0xf12f_560e, 0xf5ee_4bb9, 0xf8ad_6d60, 0xfc6c_70d7, 0xe22b_20d2, 0xe6ea_3d65,
      0xeba9_1bbc, 0xef68_060b]
    case 21 => [0xd727_bbb6, 0xd3e6_a601, 0xdea5_80d8, 0xda64_9d6f, 0xc423_cd6a, 0xc0e2_d0dd,
      0xcda1_f604, 0xc960_ebb3]
    case 22 => [0xbd3e_8d7e, 0xb9ff_90c9, 0xb4bc_b610, 0xb07d_aba7, 0xae3a_fba2, 0xaafb_e615,
      0xa7b8_c0cc, 0xa379_dd7b]
    case 23 => [0x9b36_60c6, 0x9ff7_7d71, 0x92b4_5ba8, 0x9675_461f, 0x8832_161a, 0x8cf3_0bad,
      0x81b0_2d74, 0x8571_30c3]
    case 24 => [0x5d8a_9099, 0x594b_8d2e, 0x5408_abf7, 0x50c9_b640, 0x4e8e_e645, 0x4a4f_fbf2,
      0x470c_dd2b, 0x43cd_c09c]
    case 25 => [0x7b82_7d21, 0x7f43_6096, 0x7200_464f, 0x76c1_5bf8, 0x6886_0bfd, 0x6c47_164a,
      0x6104_3093, 0x65c5_2d24]
    case 26 => [0x119b_4be9, 0x155a_565e, 0x1819_7087, 0x1cd8_6d30, 0x029f_3d35, 0x065e_2082,
      0x0b1d_065b, 0x0fdc_1bec]
    case 27 => [0x3793_a651, 0x3352_bbe6, 0x3e11_9d3f, 0x3ad0_8088, 0x2497_d08d, 0x2056_cd3a,
      0x2d15_ebe3, 0x29d4_f654]
    case 28 => [0xc5a9_2679, 0xc168_3bce, 0xcc2b_1d17, 0xc8ea_00a0, 0xd6ad_50a5, 0xd26c_4d12,
      0xdf2f_6bcb, 0xdbee_767c]
    case 29 => [0xe3a1_cbc1, 0xe760_d676, 0xea23_f0af, 0xeee2_ed18, 0xf0a5_bd1d, 0xf464_a0aa,
      0xf927_8673, 0xfde6_9bc4]
    case 30 => [0x89b8_fd09, 0x8d79_e0be, 0x803a_c667, 0x84fb_dbd0, 0x9abc_8bd5, 0x9e7d_9662,
      0x933e_b0bb, 0x97ff_ad0c]
    case _ => [0xafb0_10b1, 0xab71_0d06, 0xa632_2bdf, 0xa2f3_3668, 0xbcb4_666d, 0xb875_7bda,
      0xb536_5d03, 0xb1f7_40b4]
  }

  function Entry(i: nat): bv32 {
    Row(i / 8)[i % 8]
  }

  /** Multiplication by x where the highest power is the most significant bit. */
  function Shift(p: bv32): bv32 {
    if p & 0x8000_0000 != 0 then (p << 1) ^ 0x04c1_1db7 else p << 1
  }

  function Shifted(p: bv32, one: bool): bv32 {
    Shift(p) ^ (if one then 0x04c1_1db7 else 0)
  }

  predicate PairOk(row: nat, c: nat)
    requires c < 4
  {
    && Row(row)[2 * c] == Shifted(Row(row / 2)[4 * (row % 2) + c], false)
    && Row(row)[2 * c + 1] == Shifted(Row(row / 2)[4 * (row % 2) + c], true)
  }

  predicate RowOk(row: nat) {
    PairOk(row, 0) && PairOk(row, 1) && PairOk(row, 2) && PairOk(row, 3)
  }

  lemma Row0Ok()
    ensures RowOk(0)
  {
  }

  lemma Row1Ok()
    ensures RowOk(1)
  {
  }

  lemma Row2Ok()
    ensures RowOk(2)
  {
  }

  lemma Row3Ok()
    ensures RowOk(3)
  {
  }

  lemma Row4Ok()
    ensures RowOk(4)
  {
  }

  lemma Row5Ok()
    ensures RowOk(5)
  {
  }

  lemma Row6Ok()
    ensures RowOk(6)
  {
  }

  lemma Row7Ok()
    ensures RowOk(7)
  {
  }

  lemma Row8Ok()
    ensures RowOk(8)
  {
  }

  lemma Row9Ok()
    ensures RowOk(9)
  {
  }

  lemma Row10Ok()
    ensures RowOk(10)
  {
  }

  lemma Row11Ok()
    ensures RowOk(11)
  {
  }

  lemma Row12Ok()
    ensures RowOk(12)
  {
  }

  lemma Row13Ok()
    ensures RowOk(13)
  {
  }

  lemma Row14Ok()
    ensures RowOk(14)
  {
  }

  lemma Row15Ok()
    ensures RowOk(15)
  {
  }

  lemma Row16Ok()
    ensures RowOk(16)
  {
  }

  lemma Row17Ok()
    ensures RowOk(17)
  {
  }

  lemma Row18Ok()
    ensures RowOk(18)
  {
  }

  lemma Row19Ok()
    ensures RowOk(19)
  {
  }

  lemma Row20Ok()
    ensures RowOk(20)
  {
  }

  lemma Row21Ok()
    ensures RowOk(21)
  {
  }

  lemma Row22Ok()
    ensures RowOk(22)
  {
  }

  lemma Row23Ok()
    ensures RowOk(23)
  {
  }

  lemma Row24Ok()
    ensures RowOk(24)
  {
  }

  lemma Row25Ok()
    ensures RowOk(25)
  {
  }

  lemma Row26Ok()
    ensures RowOk(26)
  {
  }

  lemma Row27Ok()
    ensures RowOk(27)
  {
  }

  lemma Row28Ok()
    ensures RowOk(28)
  {
  }

  lemma Row29Ok()
    ensures RowOk(29)
  {
  }

  lemma Row30Ok()
    ensures RowOk(30)
  {
  }

  lemma Row31Ok()
    ensures RowOk(31)
  {
  }

  lemma RowsOk(row: nat)
    requires row < 32
    ensures RowOk(row)
  {
    hide RowOk;
    match row
    case 0 => Row0Ok();
    case 1 => Row1Ok();
    case 2 => Row2Ok();
    case 3 => Row3Ok();
    case 4 => Row4Ok();
    case 5 => Row5Ok();
    case 6 => Row6Ok();
    case 7 => Row7Ok();
    case 8 => Row8Ok();
    case 9 => Row9Ok();
    case 10 => Row10Ok();
    case 11 => Row11Ok();
    case 12 => Row12Ok();
    case 13 => Row13Ok();
    case 14 => Row14Ok();
    case 15 => Row15Ok();
    case 16 => Row16Ok();
    case 17 => Row17Ok();
    case 18 => Row18Ok();
    case 19 => Row19Ok();
    case 20 => Row20Ok();
    case 21 => Row21Ok();
    case 22 => Row22Ok();
    case 23 => Row23Ok();
    case 24 => Row24Ok();
    case 25 => Row25Ok();
    case 26 => Row26Ok();
    case 27 => Row27Ok();
    case 28 => Row28Ok();
    case 29 => Row29Ok();
    case 30 => Row30Ok();
    case _ => Row31Ok();
  }

  /** Every entry is made from the one of half its index. */
  lemma EntryHalved(i: nat)
    requires i < 256
    ensures Entry(i) == Shifted(Entry(i / 2), i % 2 == 1)
  {
    hide Row, Shifted;
    var row, c := i / 8, i % 8 / 2;
    RowsOk(row);
    assert PairOk(row, c);
    assert i / 2 / 8 == row / 2 && i / 2 % 8 == 4 * (row % 2) + c;
  }

  // ----- what the entries are -----

  function Contribution(w: bv32): bv32 {
    Reverse(TimesN(8, w))
  }

  lemma PolyReversed()
    ensures Reverse(POLY) == 0x04c1_1db7
  {
  }

  lemma ShiftTop(p: bv32)
    requires Meets(p, 0x8000_0000)
    ensures Shift(p) == Add(Double(p), 0x04c1_1db7)
  {
  }

  lemma ShiftLow(p: bv32)
    requires !Meets(p, 0x8000_0000)
    ensures Shift(p) == Double(p)
  {
  }

  lemma ShiftedIs(p: bv32, one: bool)
    ensures Shifted(p, one) == Add(Shift(p), if one then 0x04c1_1db7 else 0)
  {
    hide Shift;
  }

  lemma OddIsLow(p: bv32)
    ensures Odd(p) <==> Meets(p, 1)
  {
  }

  lemma OddReversed(p: bv32)
    ensures Odd(p) <==> Meets(Reverse(p), 0x8000_0000)
  {
    hide Reverse, Meets, Odd;
    LastMask();
    ReversedBit(p, 31);
    OddIsLow(p);
  }

  /** Multiplication by x in the other direction. */
  lemma ReverseTimes(p: bv32)
    ensures Reverse(Times(p)) == Shift(Reverse(p))
  {
    hide Shift, Reverse, Meets, Odd, Add, Double, Half, Times;
    TimesIs(p);
    OddReversed(p);
    ReverseAdd(Half(p), if Odd(p) then POLY else 0);
    ReverseShift(p);
    PolyReversed();
    ReverseNothing();
    AddZero(Double(Reverse(p)));
    if Odd(p) { ShiftTop(Reverse(p)); } else { ShiftLow(Reverse(p)); }
  }

  lemma LastOctet()
    ensures Contribution(0x80) == 0x04c1_1db7
  {
    assert Times(0x80) == 0x40 && Times(0x40) == 0x20 && Times(0x20) == 0x10 && Times(0x10) == 8;
    assert Times(8) == 4 && Times(4) == 2 && Times(2) == 1 && Times(1) == POLY;
    assert TimesN(0, POLY) == POLY;
    assert TimesN(2, 2) == POLY;
    assert TimesN(4, 8) == POLY;
    assert TimesN(6, 0x20) == POLY;
    PolyReversed();
  }

  lemma NoContribution()
    ensures Contribution(0) == 0
  {
    hide Reverse, TimesN;
    TimesNZero(8);
    ReverseNothing();
  }

  /** The octets of the halves of an index. */
  lemma OctetHalved(b: bv8)
    ensures Wide(Reverse8(b)) == Add(Half(Wide(Reverse8(b >> 1))), if b & 1 == 1 then 0x80 else 0)
    ensures !Odd(Wide(Reverse8(b >> 1)))
  {
  }

  lemma HalfIndex(b: bv8)
    ensures (b >> 1) as int == (b as int) / 2
  {
  }

  lemma LowIndex(b: bv8)
    ensures b & 1 == 1 <==> (b as int) % 2 == 1
  {
  }

  function EntryOf(b: bv8): bv32 {
    Entry(b as int)
  }

  /** An entry is what the octet with its bits reversed contributes to a CRC-32, reversed again. */
  lemma {:induction false} EntryIs(b: bv8)
    ensures EntryOf(b) == Contribution(Wide(Reverse8(b)))
    decreases b as int
  {
    hide Row, Entry, Contribution, Shifted, Reverse8, Wide, Half, Odd, Times, TimesN, Add, Double, Meets, Reverse;
    if b == 0 {
      EntryZero();
    } else {
      var h := b >> 1;
      HalfIndex(b);
      LowIndex(b);
      EntryIs(h);
      EntryHalved(b as int);
      OctetHalved(b);
      ContributionHalved(Wide(Reverse8(h)), b & 1 == 1);
    }
  }

  lemma EntryZero()
    ensures Entry(0) == Contribution(Wide(Reverse8(0)))
  {
    hide Contribution;
    assert Wide(Reverse8(0)) == 0;
    NoContribution();
  }

  lemma ContributionHalved(w: bv32, one: bool)
    requires !Odd(w)
    ensures Contribution(Add(Half(w), if one then 0x80 else 0)) == Shifted(Contribution(w), one)
  {
    hide Shifted, Shift, Half, Odd, Times, TimesN, Add, Reverse;
    ShiftedIs(Contribution(w), one);
    var x: bv32 := if one then 0x80 else 0;
    TimesEven(w);
    TimesNLinear(8, Times(w), x);
    TimesNAdd(1, 8, w);
    TimesNAdd(8, 1, w);
    TimesOnce(w);
    TimesOnce(TimesN(8, w));
    ReverseAdd(Times(TimesN(8, w)), TimesN(8, x));
    ReverseTimes(TimesN(8, w));
    LastOctet();
    NoContribution();
  }

  lemma TimesOnce(w: bv32)
    ensures TimesN(1, w) == Times(w)
  {
    assert TimesN(0, Times(w)) == Times(w);
  }

  // ----- the check -----

  function TopOctet(v: bv32): bv8 {
    (v >> 24) as bv8
  }

  lemma OnesTop(v: bv32)
    ensures TopOctet(SwapOnes(v)) == SwapOnes8(TopOctet(v))
  {
  }

  lemma TwosTop(v: bv32)
    ensures TopOctet(SwapTwos(v)) == SwapTwos8(TopOctet(v))
  {
  }

  lemma FoursTop(v: bv32)
    ensures TopOctet(SwapFours(v)) == SwapFours8(TopOctet(v))
  {
  }

  lemma OctetsTop(v: bv32)
    ensures Low(SwapOctets(v)) == TopOctet(v)
  {
  }

  lemma LowReversed(v: bv32)
    ensures Low(Reverse(v)) == Reverse8(TopOctet(v))
  {
    hide Low, SwapOnes, SwapTwos, SwapFours, SwapOctets, SwapOnes8, SwapTwos8, SwapFours8, TopOctet;
    OnesTop(v);
    TwosTop(SwapOnes(v));
    FoursTop(SwapTwos(SwapOnes(v)));
    OctetsTop(SwapFours(SwapTwos(SwapOnes(v))));
  }

  lemma Reverse8Xor(a: bv8, b: bv8)
    ensures Reverse8(Xor8(a, b)) == Xor8(Reverse8(a), Reverse8(b))
  {
  }

  lemma LowMixed(c: bv32, b: bv8)
    ensures Low(Add(c, Wide(b))) == Xor8(Low(c), b)
  {
  }

  lemma HighIs(c: bv32)
    ensures High(c) == DownOctet(c)
  {
  }

  /** The table is the one of the program. */
  ghost predicate IsTable(t: B.Table) {
    forall i: int {:trigger t[i]} | 0 <= i < 256 :: t[i] == Entry(i)
  }

  /** An octet with its bits in the opposite order. */
  function Flip(ch: byte): bv8 {
    Reverse8(ch as bv8)
  }

  lemma UpdateShape(t: B.Table, c: bv32, ch: byte)
    ensures B.Update(t, c, ch) == Add(UpOctet(c), t[B.Index(c, ch) as int])
  {
    hide B.Index, Add, UpOctet;
    AddUp(c, t[B.Index(c, ch) as int]);
  }

  lemma AddUp(c: bv32, e: bv32)
    ensures (c << 8) ^ e == Add(UpOctet(c), e)
  {
  }

  lemma IndexIs(c: bv32, ch: byte)
    ensures B.Index(c, ch) == Xor8(TopOctet(c), ch as bv8)
  {
  }

  lemma UpdateEntry(t: B.Table, c: bv32, ch: byte)
    requires IsTable(t)
    ensures B.Update(t, c, ch) == Add(UpOctet(c), EntryOf(Xor8(TopOctet(c), ch as bv8)))
  {
    hide B.Update, B.Index, Add, UpOctet, TopOctet, Xor8, Entry;
    UpdateShape(t, c, ch);
    IndexIs(c, ch);
  }

  lemma FlipMixed(c: bv32, ch: byte)
    ensures Reverse8(Xor8(TopOctet(c), ch as bv8)) == Low(Add(Reverse(c), Wide(Flip(ch))))
  {
    hide Reverse8, Reverse, Low, Add, Wide, TopOctet, Xor8;
    Reverse8Xor(TopOctet(c), ch as bv8);
    LowReversed(c);
    LowMixed(Reverse(c), Flip(ch));
  }

  /** One byte of the check is one octet of a CRC-32. */
  lemma UpdateIs(t: B.Table, c: bv32, ch: byte)
    requires IsTable(t)
    ensures B.Update(t, c, ch) == Reverse(Step(Reverse(c), Flip(ch)))
  {
    hide Reverse, Reverse8, Flip, TimesN, Add, Wide, Low, High, UpOctet, DownOctet, TopOctet, EntryOf, Xor8, B.Update,
      IsTable;
    var c', x := Reverse(c), Add(Reverse(c), Wide(Flip(ch)));
    UpdateEntry(t, c, ch);
    EntryIs(Xor8(TopOctet(c), ch as bv8));
    FlipMixed(c, ch);
    ByTable(x);
    HighAdd(c', Flip(ch));
    HighIs(c');
    ReverseAdd(High(c'), TimesN(8, Wide(Low(x))));
    ReverseOctet(c');
    ReverseTwice(c);
  }

  /** The octets of a text, the bits of each in the opposite order. */
  function Reversed(text: seq<byte>): (r: seq<octet>)
    ensures |r| == |text|
  {
    seq(|text|, i requires 0 <= i < |text| => Flip(text[i]))
  }

  lemma {:induction false} FoldIs(t: B.Table, c: bv32, text: seq<byte>)
    requires IsTable(t)
    ensures B.Fold(t, c, text) == Reverse(Fold(Reverse(c), Reversed(text)))
  {
    hide Reverse, Flip, Step, B.Update, Fold, IsTable;
    if text == [] {
      assert Reversed(text) == [];
      FoldNone(Reverse(c));
      ReverseTwice(c);
    } else {
      var n := |text| - 1;
      FoldIs(t, c, text[..n]);
      assert Reversed(text) == Reversed(text[..n]) + [Flip(text[n])];
      FoldSnoc(Reverse(c), Reversed(text[..n]), Flip(text[n]));
      UpdateIs(t, B.Fold(t, c, text[..n]), text[n]);
      ReverseTwice(Fold(Reverse(c), Reversed(text[..n])));
    }
  }

  lemma FoldNone(c: bv32)
    ensures Fold(c, []) == c
  {
  }

  lemma OnesReversed()
    ensures Reverse(0xffff_ffff) == 0xffff_ffff && B.INITIAL == 0xffff_ffff
  {
  }

  lemma FinaliseIs(c: bv32)
    ensures B.Finalise(c) == Add(c, 0xffff_ffff)
  {
  }

  /**
   * With the table of the program, the check of a block is the CRC-32 of its text taken most significant bit first: the
   * CRC of the octets with their bits reversed, itself reversed.
   */
  lemma CheckIsCrc(t: B.Table, text: seq<byte>)
    requires IsTable(t)
    ensures B.CheckOf(t, text) == Reverse(Crc(0, Reversed(text)))
  {
    hide Reverse, Reversed, Fold, Add, B.Fold, B.Finalise, IsTable;
    var f := Fold(0xffff_ffff, Reversed(text));
    OnesReversed();
    FoldIs(t, 0xffff_ffff, text);
    FinaliseIs(Reverse(f));
    ReverseAdd(f, 0xffff_ffff);
    AddZero(0xffff_ffff);
  }

  function ProgramTable(): (t: B.Table)
    ensures IsTable(t)
  {
    seq(256, i requires 0 <= i < 256 => Entry(i))
  }

  // ----- the combined check -----

  /** Where a bit of block `i` of `n` must be to get to place `j`. */
  function Origin(n: nat, j: nat, i: nat): nat {
    (j - (n - 1 - i)) % 32
  }

  /** The blocks whose bit `j`, moved on by one place for each later block, is set. */
  ghost function Contributing(bs: seq<Block>, j: nat): set<nat> {
    set i: nat | i < |bs| && Bit(bs[i].crc, Origin(|bs|, j, i))
  }

  lemma CombineShape(combined: bv32, crc: bv32)
    ensures B.Combine(combined, crc) == Add(RotateLeft(combined), crc)
  {
  }

  lemma ContributingMore(bs: seq<Block>, j: nat)
    requires bs != [] && j < 32
    ensures var n := |bs| - 1;
      Contributing(bs, j) ==
        Contributing(bs[..n], (j - 1) % 32) + if Bit(bs[n].crc, j) then {n} else {}
  {
    hide Bit;
    var n, j' := |bs| - 1, (j - 1) % 32;
    forall i: nat | i < n ensures Origin(|bs|, j, i) == Origin(n, j', i) {
      TurnedOnce(j, n - 1 - i);
    }
  }

  lemma TurnedOnce(j: int, k: int)
    ensures (j - (k + 1)) % 32 == ((j - 1) % 32 - k) % 32
  {
  }

  /**
   * A bit of the combined check is set if it is set in an odd number of the blocks, each check having been rotated to
   * the left once for every block after its own.
   */
  lemma {:induction false} CombinedBit(bs: seq<Block>, j: nat)
    requires j < 32
    ensures Bit(CombinedOf(bs), j) <==> |Contributing(bs, j)| % 2 == 1
    decreases |bs|
  {
    hide Bit, B.Combine, Contributing, RotateLeft, Add;
    if bs == [] {
      NoBits(j);
      assert Contributing(bs, j) == {} by { NoneContributes(j); }
    } else {
      var n := |bs| - 1;
      var before := CombinedOf(bs[..n]);
      CombinedBit(bs[..n], (j - 1) % 32);
      CombineShape(before, bs[n].crc);
      RotatedBit(before, j);
      XoredBit(RotateLeft(before), bs[n].crc, j);
      ContributingMore(bs, j);
      NotAmong(bs[..n], (j - 1) % 32, n);
    }
  }

  lemma NoBits(j: nat)
    ensures !Bit(0, j)
  {
    assert 0 & Mask(j) == 0;
  }

  lemma NoneContributes(j: nat)
    ensures Contributing([], j) == {}
  {
  }

  lemma NotAmong(bs: seq<Block>, j: nat, n: nat)
    requires n >= |bs|
    ensures n !in Contributing(bs, j)
  {
  }
}
