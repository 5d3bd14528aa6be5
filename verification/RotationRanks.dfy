/** Rotations compared beyond the bytes they share, and their ranks: numbers that order as the rotations do. */
module RotationRanks {
  import opened Bytes
  import opened Permutations
  import opened Rotations

  /** Rotations that share their first `d` bytes compare as the rotations that start behind these. */
  lemma OrdBehind(b: seq<byte>, x: nat, y: nat, d: nat)
    requires |b| > 0 && Ord(b, x, y, d) == 0
    ensures Ord(b, x + d, y + d, |b|) == Ord(b, x, y, |b|)
  {
    hide *;
    OrdSplit(b, x, y, d, |b|);
    OrdWhole(b, x, y, d + |b|);
  }

  lemma OrdFirst(b: seq<byte>, x: nat, y: nat)
    requires |b| > 0
    ensures Ord(b, x, y, 1) == Sgn(At(b, x) - At(b, y))
  {
    assert Ord(b, x, y, 0) == 0;
  }

  /** A first byte that differs decides; otherwise the rest does. */
  lemma OrdNext(b: seq<byte>, x: nat, y: nat)
    requires |b| > 0
    ensures At(b, x) == At(b, y) ==> Ord(b, x + 1, y + 1, |b|) == Ord(b, x, y, |b|)
    ensures At(b, x) != At(b, y) ==> Ord(b, x, y, |b|) == Sgn(At(b, x) - At(b, y))
  {
    hide At, Ord;
    OrdFirst(b, x, y);
    if At(b, x) == At(b, y) {
      OrdBehind(b, x, y, 1);
    } else {
      OrdSplit(b, x, y, 1, |b| - 1);
    }
  }

  /** Places a whole number of periods apart. */
  lemma OrdPeriods(b: seq<byte>, x: nat, y: nat, h: nat)
    requires |b| > 0
    ensures Ord(b, x + |b|, y, h) == Ord(b, x, y, h) == Ord(b, x, y + |b|, h)
  {
    hide *;
    OrdPeriod(b, x, y, h);
    OrdPeriod(b, y, x, h);
    OrdAnti(b, x, y, h);
    OrdAnti(b, x, y + |b|, h);
  }

  /** The ranks order the rotations of `b`: equal rotations have equal ranks. */
  ghost predicate Ranked(b: seq<byte>, ranks: seq<nat>) {
    && |ranks| == |b| > 0
    && forall x: nat, y: nat | x < |b| && y < |b| :: ranks[x] <= ranks[y] <==> Ord(b, x, y, |b|) <= 0
  }

  ghost function Lower(b: seq<byte>, x: nat): set<nat>
    requires |b| > 0
  {
    set y: nat | y < |b| && Ord(b, y, x, |b|) < 0
  }

  ghost function Ranks(b: seq<byte>): (ranks: seq<nat>)
    ensures |ranks| == |b|
    ensures forall x: nat | x < |b| :: ranks[x] == |Lower(b, x)|
  {
    seq(|b|, x requires 0 <= x < |b| => |Lower(b, x)|)
  }

  lemma LowerGrows(b: seq<byte>, x: nat, y: nat)
    requires |b| > 0 && x < |b| && y < |b|
    ensures Ord(b, x, y, |b|) <= 0 ==> |Lower(b, x)| <= |Lower(b, y)|
    ensures Ord(b, x, y, |b|) < 0 ==> |Lower(b, x)| < |Lower(b, y)|
  {
    hide Ord;
    if Ord(b, x, y, |b|) <= 0 {
      forall z | z in Lower(b, x) ensures z in Lower(b, y) { OrdTrans(b, z, x, y, |b|); }
      SubsetCount(Lower(b, x), Lower(b, y));
      if Ord(b, x, y, |b|) < 0 {
        OrdAnti(b, x, x, |b|);
        assert x in Lower(b, y) && x !in Lower(b, x);
        SubsetCount(Lower(b, x) + {x}, Lower(b, y));
      }
    }
  }

  lemma RanksOrder(b: seq<byte>)
    requires |b| > 0
    ensures Ranked(b, Ranks(b))
  {
    hide Ord, Lower;
    var ranks := Ranks(b);
    forall x: nat, y: nat | x < |b| && y < |b| ensures ranks[x] <= ranks[y] <==> Ord(b, x, y, |b|) <= 0 {
      LowerGrows(b, x, y);
      LowerGrows(b, y, x);
      OrdAnti(b, x, y, |b|);
    }
  }
}
