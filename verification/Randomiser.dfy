/**
 * Randomised blocks: every so often the low bit of a byte was flipped before sorting, and the decoder flips it back.
 */
module Randomiser {
  import opened Bytes

  /** The distances between flipped bytes: rows of sixteen, in eight groups of four. */
  function Rows0(i: nat): (r: seq<nat>)
    requires i < 4
    ensures |r| == 16 && forall k | 0 <= k < 16 :: r[k] >= 2
  {
    if i == 0 then [619, 720, 127, 481, 931, 816, 813, 233, 566, 247, 985, 724, 205, 454, 863, 491]
    else if i == 1 then [741, 242, 949, 214, 733, 859, 335, 708, 621, 574, 73, 654, 730, 472, 419, 436]
    else if i == 2 then [278, 496, 867, 210, 399, 680, 480, 51, 878, 465, 811, 169, 869, 675, 611, 697]
    else [867, 561, 862, 687, 507, 283, 482, 129, 807, 591, 733, 623, 150, 238, 59, 379]
  }

  function Rows1(i: nat): (r: seq<nat>)
    requires i < 4
    ensures |r| == 16 && forall k | 0 <= k < 16 :: r[k] >= 2
  {
    if i == 0 then [684, 877, 625, 169, 643, 105, 170, 607, 520, 932, 727, 476, 693, 425, 174, 647]
    else if i == 1 then [73, 122, 335, 530, 442, 853, 695, 249, 445, 515, 909, 545, 703, 919, 874, 474]
    else if i == 2 then [882, 500, 594, 612, 641, 801, 220, 162, 819, 984, 589, 513, 495, 799, 161, 604]
    else [958, 533, 221, 400, 386, 867, 600, 782, 382, 596, 414, 171, 516, 375, 682, 485]
  }

  function Rows2(i: nat): (r: seq<nat>)
    requires i < 4
    ensures |r| == 16 && forall k | 0 <= k < 16 :: r[k] >= 2
  {
    if i == 0 then [911, 276, 98, 553, 163, 354, 666, 933, 424, 341, 533, 870, 227, 730, 475, 186]
    else if i == 1 then [263, 647, 537, 686, 600, 224, 469, 68, 770, 919, 190, 373, 294, 822, 808, 206]
    else if i == 2 then [184, 943, 795, 384, 383, 461, 404, 758, 839, 887, 715, 67, 618, 276, 204, 918]
    else [873, 777, 604, 560, 951, 160, 578, 722, 79, 804, 96, 409, 713, 940, 652, 934]
  }

  function Rows3(i: nat): (r: seq<nat>)
    requires i < 4
    ensures |r| == 16 && forall k | 0 <= k < 16 :: r[k] >= 2
  {
    if i == 0 then [970, 447, 318, 353, 859, 672, 112, 785, 645, 863, 803, 350, 139, 93, 354, 99]
    else if i == 1 then [820, 908, 609, 772, 154, 274, 580, 184, 79, 626, 630, 742, 653, 282, 762, 623]
    else if i == 2 then [680, 81, 927, 626, 789, 125, 411, 521, 938, 300, 821, 78, 343, 175, 128, 250]
    else [170, 774, 972, 275, 999, 639, 495, 78, 352, 126, 857, 956, 358, 619, 580, 124]
  }

  function Rows4(i: nat): (r: seq<nat>)
    requires i < 4
    ensures |r| == 16 && forall k | 0 <= k < 16 :: r[k] >= 2
  {
    if i == 0 then [737, 594, 701, 612, 669, 112, 134, 694, 363, 992, 809, 743, 168, 974, 944, 375]
    else if i == 1 then [748, 52, 600, 747, 642, 182, 862, 81, 344, 805, 988, 739, 511, 655, 814, 334]
    else if i == 2 then [249, 515, 897, 955, 664, 981, 649, 113, 974, 459, 893, 228, 433, 837, 553, 268]
    else [926, 240, 102, 654, 459, 51, 686, 754, 806, 760, 493, 403, 415, 394, 687, 700]
  }

  function Rows5(i: nat): (r: seq<nat>)
    requires i < 4
    ensures |r| == 16 && forall k | 0 <= k < 16 :: r[k] >= 2
  {
    if i == 0 then [946, 670, 656, 610, 738, 392, 760, 799, 887, 653, 978, 321, 576, 617, 626, 502]
    else if i == 1 then [894, 679, 243, 440, 680, 879, 194, 572, 640, 724, 926, 56, 204, 700, 707, 151]
    else if i == 2 then [457, 449, 797, 195, 791, 558, 945, 679, 297, 59, 87, 824, 713, 663, 412, 693]
    else [342, 606, 134, 108, 571, 364, 631, 212, 174, 643, 304, 329, 343, 97, 430, 751]
  }

  function Rows6(i: nat): (r: seq<nat>)
    requires i < 4
    ensures |r| == 16 && forall k | 0 <= k < 16 :: r[k] >= 2
  {
    if i == 0 then [497, 314, 983, 374, 822, 928, 140, 206, 73, 263, 980, 736, 876, 478, 430, 305]
    else if i == 1 then [170, 514, 364, 692, 829, 82, 855, 953, 676, 246, 369, 970, 294, 750, 807, 827]
    else if i == 2 then [150, 790, 288, 923, 804, 378, 215, 828, 592, 281, 565, 555, 710, 82, 896, 831]
    else [547, 261, 524, 462, 293, 465, 502, 56, 661, 821, 976, 991, 658, 869, 905, 758]
  }

  function Rows7(i: nat): (r: seq<nat>)
    requires i < 4
    ensures |r| == 16 && forall k | 0 <= k < 16 :: r[k] >= 2
  {
    if i == 0 then [745, 193, 768, 550, 608, 933, 378, 286, 215, 979, 792, 961, 61, 688, 793, 644]
    else if i == 1 then [986, 403, 106, 366, 905, 644, 372, 567, 466, 434, 645, 210, 389, 550, 919, 135]
    else if i == 2 then [780, 773, 635, 389, 707, 100, 626, 958, 165, 504, 920, 176, 193, 713, 857, 265]
    else [203, 50, 668, 108, 645, 990, 626, 197, 510, 357, 358, 850, 858, 364, 936, 638]
  }

  function RNum(k: nat): (r: nat)
    requires k < 512
    ensures r >= 2
  {
    var i := k / 16;
    var row :=
      if i < 4 then Rows0(i) else if i < 8 then Rows1(i - 4) else if i < 12 then Rows2(i - 8)
        else if i < 16 then Rows3(i - 12)
      else if i < 20 then Rows4(i - 16) else if i < 24 then Rows5(i - 20) else if i < 28 then Rows6(i - 24)
        else Rows7(i - 28);
    row[k % 16]
  }

  /** The distance to go, and the place of the next one in the table. */
  datatype Mask = Mask(rNToGo: nat, rTPos: nat)

  /** `BZ_RAND_INIT_MASK`. */
  const INIT_MASK := Mask(0, 0)

  /** `BZ_RAND_UPD_MASK`. */
  function Updated(m: Mask): (r: Mask)
    requires m.rTPos < 512
    ensures r.rTPos < 512
  {
    if m.rNToGo == 0 then
      Mask(RNum(m.rTPos) - 1, if m.rTPos + 1 == 512 then 0 else m.rTPos + 1)
    else
      Mask(m.rNToGo - 1, m.rTPos)
  }

  /** After `k` updates. */
  function MaskAt(k: nat): (m: Mask)
    ensures m.rTPos < 512
  {
    if k == 0 then INIT_MASK else Updated(MaskAt(k - 1))
  }

  /** `BZ_RAND_MASK` and what it is for. */
  function Flipped(ch: byte, m: Mask): byte {
    if m.rNToGo != 1 then ch else if ch % 2 == 0 then ch + 1 else ch - 1
  }

  /** Byte `k` that is fetched from a block. */
  function Unmasked(randomised: bool, k: nat, ch: byte): byte {
    if randomised then Flipped(ch, MaskAt(k + 1)) else ch
  }

  /** The sum of the first `j` distances; the table is repeated. */
  function Distance(j: nat): nat {
    if j == 0 then 0 else Distance(j - 1) + RNum((j - 1) % 512)
  }

  lemma UnmaskedTwice(randomised: bool, k: nat, ch: byte)
    ensures Unmasked(randomised, k, Unmasked(randomised, k, ch)) == ch
  {
    hide MaskAt;
  }

  lemma WrapNext(j: nat)
    ensures (j + 1) % 512 == if j % 512 + 1 == 512 then 0 else j % 512 + 1
  {
  }

  /** The counters, told by the distances: some number of them has begun. */
  lemma {:induction false} MaskIs(k: nat) returns (j: nat)
    ensures k <= Distance(j) && MaskAt(k) == Mask(Distance(j) - k, j % 512)
    ensures k > 0 ==> j > 0 && Distance(j - 1) < k
  {
    hide RNum;
    if k == 0 {
      j := 0;
    } else {
      j := MaskIs(k - 1);
      if k - 1 == Distance(j) {
        WrapNext(j);
        j := j + 1;
      }
    }
  }

  lemma {:induction false} DistanceGrows(i: nat, j: nat)
    requires i < j
    ensures Distance(i) + 2 <= Distance(j)
    decreases j
  {
    hide RNum;
    if i + 1 < j { DistanceGrows(i, j - 1); }
  }

  /** Exactly the bytes two before the end of a distance are flipped. */
  lemma FlippedAt(k: nat)
    ensures MaskAt(k + 1).rNToGo == 1 <==> exists j :: Distance(j) == k + 2
  {
    hide MaskAt, Distance;
    var j := MaskIs(k + 1);
    assert MaskAt(k + 1).rNToGo == 1 ==> Distance(j) == k + 2;
    forall i | Distance(i) == k + 2 ensures MaskAt(k + 1).rNToGo == 1 {
      if i < j {
        if i < j - 1 { DistanceGrows(i, j - 1); }
      } else if j < i {
        DistanceGrows(j, i);
      }
    }
  }
}
