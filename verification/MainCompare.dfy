/** The comparison of the main sorter: two rotations byte by byte, with the help of what is already sorted. */
module MainCompare {
  import opened Bytes
  import opened Rotations
  import opened RotationRanks

  /** How far rotations are read behind the end of the block. */
  const OVERSHOOT := 34

  type u16 = x: int | 0 <= x < 0x1_0000

  /** The block, with its first bytes repeated behind it. */
  ghost predicate Wrapped(b: seq<byte>, block: seq<byte>) {
    |b| > OVERSHOOT && |block| == |b| + OVERSHOOT && forall k | 0 <= k < |block| :: block[k] == At(b, k)
  }

  /**
   * The quadrant values of two places with the same byte, where they differ, order the rotations that start there. (Two
   * equal rotations may have different values.)
   */
  ghost predicate Hinted(b: seq<byte>, quadrant: seq<u16>) {
    && |b| > 0 && |quadrant| == |b| + OVERSHOOT
    && forall i, j | 0 <= i < |quadrant| && 0 <= j < |quadrant| && quadrant[i] < quadrant[j] && At(b, i) == At(b, j) ::
         Ord(b, i, j, |b|) <= 0
  }

  /** The block repeated for ever reads the same from place `i` on as from place `j` on. */
  ghost predicate SameFrom(b: seq<byte>, i: nat, j: nat)
    requires |b| > 0
  {
    forall t: nat :: Agree(b, i, j, t)
  }

  lemma SameFromNext(b: seq<byte>, i: nat, j: nat)
    requires |b| > 0 && SameFrom(b, i, j)
    ensures At(b, i) == At(b, j) && SameFrom(b, i + 1, j + 1)
  {
    assert Agree(b, i, j, 0);
    var k, l := i + 1, j + 1;
    forall t: nat ensures Agree(b, k, l, t) {
      assert Agree(b, i, j, t + 1);
      assert k + t == i + (t + 1) && l + t == j + (t + 1);
    }
  }

  lemma SameFromWrap(b: seq<byte>, i: nat, j: nat)
    requires |b| > 0 && SameFrom(b, i, j) && i >= |b|
    ensures SameFrom(b, i - |b|, j)
  {
    var k := i - |b|;
    forall t: nat ensures Agree(b, k, j, t) {
      assert Agree(b, i, j, t);
      AtPeriod(b, k + t);
      assert k + t + |b| == i + t;
    }
  }

  /** A comparison of the rotations at `x1` and `x2` that has found `t` equal bytes and goes on at `i1` and `i2`. */
  ghost predicate Comparing(b: seq<byte>, x1: nat, x2: nat, i1: nat, i2: nat, t: nat) {
    && |b| > 0 && Ord(b, x1, x2, t) == 0 && SameFrom(b, i1, x1 + t) && SameFrom(b, i2, x2 + t)
    && Ord(b, i1, i2, |b|) == Ord(b, x1, x2, |b|)
  }

  lemma ComparingStart(b: seq<byte>, x1: nat, x2: nat)
    requires |b| > 0
    ensures Comparing(b, x1, x2, x1, x2, 0)
  {
  }

  lemma ComparingNext(b: seq<byte>, x1: nat, x2: nat, i1: nat, i2: nat, t: nat)
    requires Comparing(b, x1, x2, i1, i2, t)
    ensures At(b, i1) == At(b, i2) ==> Comparing(b, x1, x2, i1 + 1, i2 + 1, t + 1)
    ensures At(b, i1) != At(b, i2) ==> Ord(b, x1, x2, |b|) == Sgn(At(b, i1) - At(b, i2))
  {
    hide At, SameFrom;
    SameFromNext(b, i1, x1 + t);
    SameFromNext(b, i2, x2 + t);
    OrdNext(b, i1, i2);
    assert x1 + (t + 1) == x1 + t + 1 && x2 + (t + 1) == x2 + t + 1;
  }

  lemma ComparingWrap(b: seq<byte>, x1: nat, x2: nat, i1: nat, i2: nat, t: nat)
    requires Comparing(b, x1, x2, i1, i2, t)
    ensures i1 >= |b| ==> Comparing(b, x1, x2, i1 - |b|, i2, t)
    ensures i2 >= |b| ==> Comparing(b, x1, x2, i1, i2 - |b|, t)
  {
    hide At, Ord, SameFrom;
    if i1 >= |b| {
      SameFromWrap(b, i1, x1 + t);
      OrdPeriods(b, i1 - |b|, i2, |b|);
    }
    if i2 >= |b| {
      SameFromWrap(b, i2, x2 + t);
      OrdPeriods(b, i1, i2 - |b|, |b|);
    }
  }

  /** What is known when the bytes and the quadrants at hand have been looked at. */
  ghost predicate Told(b: seq<byte>, x1: nat, x2: nat, greater: bool)
    requires |b| > 0
  {
    if greater then Ord(b, x1, x2, |b|) >= 0 else Ord(b, x1, x2, |b|) <= 0
  }

  lemma QuadrantTells(b: seq<byte>, quadrant: seq<u16>, x1: nat, x2: nat, i1: nat, i2: nat, t: nat)
    requires Comparing(b, x1, x2, i1, i2, t) && Hinted(b, quadrant) && i1 < |quadrant| && i2 < |quadrant|
    requires At(b, i1) == At(b, i2) && quadrant[i1] != quadrant[i2]
    ensures Told(b, x1, x2, quadrant[i1] > quadrant[i2])
  {
    hide At, SameFrom;
    OrdAnti(b, i1, i2, |b|);
  }

  /** One byte further: either the comparison is decided, or the bytes are equal. */
  method CompareByte(block: array<byte>, i1: nat, i2: nat, ghost b: seq<byte>, ghost x1: nat, ghost x2: nat,
      ghost t: nat) returns (decided: bool, greater: bool)
    requires Wrapped(b, block[..]) && Comparing(b, x1, x2, i1, i2, t) && i1 < block.Length && i2 < block.Length
    ensures decided ==> Told(b, x1, x2, greater)
    ensures !decided ==> At(b, i1) == At(b, i2) && Comparing(b, x1, x2, i1 + 1, i2 + 1, t + 1)
  {
    hide At, Comparing;
    ComparingNext(b, x1, x2, i1, i2, t);
    var c1, c2 := block[i1], block[i2];
    assert c1 == block[..][i1] && c2 == block[..][i2];
    decided, greater := c1 != c2, c1 > c2;
  }

  /** One byte and its quadrants. */
  method CompareBoth(block: array<byte>, quadrant: array<u16>, i1: nat, i2: nat, ghost b: seq<byte>, ghost x1: nat,
      ghost x2: nat, ghost t: nat) returns (decided: bool, greater: bool)
    requires Wrapped(b, block[..]) && Hinted(b, quadrant[..]) && Comparing(b, x1, x2, i1, i2, t)
    requires i1 < block.Length && i2 < block.Length
    ensures decided ==> Told(b, x1, x2, greater)
    ensures !decided ==> Comparing(b, x1, x2, i1 + 1, i2 + 1, t + 1)
  {
    hide At, Comparing, Told;
    decided, greater := CompareByte(block, i1, i2, b, x1, x2, t);
    if decided { return; }
    var s1, s2 := quadrant[i1], quadrant[i2];
    if s1 != s2 {
      QuadrantTells(b, quadrant[..], x1, x2, i1, i2, t);
      decided, greater := true, s1 > s2;
    }
  }

  /** After a whole period of equal bytes the rotations are equal. */
  lemma ComparedAll(b: seq<byte>, x1: nat, x2: nat, i1: nat, i2: nat, t: nat)
    requires Comparing(b, x1, x2, i1, i2, t) && t >= |b|
    ensures Told(b, x1, x2, false)
  {
    hide At, Ord, SameFrom;
    OrdWhole(b, x1, x2, t);
  }

  lemma ComparedEqual(b: seq<byte>, x1: nat, x2: nat, i1: nat, i2: nat, t: nat)
    requires Comparing(b, x1, x2, i1, i2, t)
    ensures Ord(b, x1, x2, t) == 0
  {
  }

  /** A round of eight bytes with their quadrants, after which both places are brought back into the block. */
  method CompareRound(block: array<byte>, quadrant: array<u16>, nblock: nat, from1: nat, from2: nat, ghost b: seq<byte>,
      ghost x1: nat, ghost x2: nat, ghost t: nat) returns (decided: bool, greater: bool, i1: nat, i2: nat)
    requires Wrapped(b, block[..]) && Hinted(b, quadrant[..]) && Comparing(b, x1, x2, from1, from2, t) && nblock == |b|
    requires from1 + 7 < block.Length && from2 + 7 < block.Length
    ensures decided ==> Told(b, x1, x2, greater)
    ensures !decided ==> i1 < nblock && i2 < nblock && Comparing(b, x1, x2, i1, i2, t + 8)
  {
    hide At, Comparing, Told, Hinted;
    i1, i2, decided, greater := from1, from2, false, false;
    for m := 0 to 8
      invariant i1 == from1 + m && i2 == from2 + m && Comparing(b, x1, x2, i1, i2, t + m)
    {
      decided, greater := CompareBoth(block, quadrant, i1, i2, b, x1, x2, t + m);
      if decided { return; }
      i1, i2 := i1 + 1, i2 + 1;
    }
    ComparingWrap(b, x1, x2, i1, i2, t + 8);
    if i1 >= nblock { i1 := i1 - nblock; }
    ComparingWrap(b, x1, x2, i1, i2, t + 8);
    if i2 >= nblock { i2 := i2 - nblock; }
  }

  /**
   * `mainGtU`: whether the rotation at `x1` is greater than the one at `x2`. The first twelve bytes are compared
   * without the quadrants. Where the rotations are equal, either answer may come out.
   */
  method MainGtU(x1: nat, x2: nat, block: array<byte>, quadrant: array<u16>, nblock: nat, budget0: int,
      ghost b: seq<byte>) returns (greater: bool, budget: int)
    requires Wrapped(b, block[..]) && Hinted(b, quadrant[..]) && nblock == |b|
    requires x1 < nblock + 15 && x2 < nblock + 15
    ensures Told(b, x1, x2, greater)
    ensures budget <= budget0 && (budget < budget0 ==> Ord(b, x1, x2, 12 + 8 * (budget0 - budget)) == 0)
  {
    hide At, Comparing, Told, Hinted, Ord;
    var i1: nat, i2: nat, decided := x1, x2, false;
    budget := budget0;
    ComparingStart(b, x1, x2);
    for m := 0 to 12
      invariant i1 == x1 + m && i2 == x2 + m && Comparing(b, x1, x2, i1, i2, m)
    {
      decided, greater := CompareByte(block, i1, i2, b, x1, x2, m);
      if decided { return; }
      i1, i2 := i1 + 1, i2 + 1;
    }
    var k: int := nblock + 8;
    ghost var t := 12;
    while k >= 0
      invariant i1 + 7 < block.Length && i2 + 7 < block.Length && t + k == nblock + 20 && k >= -8
      invariant Comparing(b, x1, x2, i1, i2, t) && t == 12 + 8 * (budget0 - budget)
    {
      ComparedEqual(b, x1, x2, i1, i2, t);
      decided, greater, i1, i2 := CompareRound(block, quadrant, nblock, i1, i2, b, x1, x2, t);
      if decided { return; }
      t, k, budget := t + 8, k - 8, budget - 1;
    }
    ComparedEqual(b, x1, x2, i1, i2, t);
    ComparedAll(b, x1, x2, i1, i2, t);
    greater := false;
  }
}
