/** What of a sorted block does not depend on which sorter has sorted it. */
module SortedOrders {
  import opened Bytes
  import opened Rotations
  import opened Permutations
  import opened BlockSort
  import opened InverseBwt

  lemma SortedRises(b: seq<byte>, f: seq<nat>)
    requires SortedRotations(b, f)
    ensures |f| == |b| > 0 && IsPermutation(f) && Rising(b, f) && forall p | 0 <= p < |f| :: f[p] < |b|
  {
    hide IsPermutation, Ord;
    assert IsPermutation(f);
    forall p | 0 <= p < |f| ensures f[p] < |b| { PermutationInRange(f, p); }
  }

  /** Any two sorted orders of the rotations have the same last column. */
  lemma SameColumn(b: seq<byte>, f: seq<nat>, g: seq<nat>)
    requires SortedRotations(b, f) && SortedRotations(b, g)
    ensures LastColumn(b, f) == LastColumn(b, g)
  {
    hide SortedRotations, IsPermutation, Ord, At, Rising;
    SortedRises(b, f);
    SortedRises(b, g);
    forall i: nat | i < |b| ensures LastColumn(b, f)[i] == LastColumn(b, g)[i] {
      SortedListsAgree(b, f, g, i);
      ByteBefore(b, f[i], g[i]);
    }
  }

  lemma LastByte(b: seq<byte>, x: nat)
    requires x < |b|
    ensures At(b, x + (|b| - 1)) == b[Back(x, 1, |b|)]
  {
    var z := Back(x, 1, |b|);
    AtPeriod(b, z);
    assert x + (|b| - 1) == z || x + (|b| - 1) == z + |b|;
  }

  lemma ByteBefore(b: seq<byte>, x: nat, y: nat)
    requires x < |b| && y < |b| && Ord(b, x, y, |b|) == 0
    ensures b[Back(x, 1, |b|)] == b[Back(y, 1, |b|)]
  {
    hide Ord, At;
    OrdZero(b, x, y, |b|);
    assert Agree(b, x, y, |b| - 1);
    LastByte(b, x);
    LastByte(b, y);
  }

  /** The block is no rotation of itself but the whole one: no shorter string makes it up by repetition. */
  ghost predicate Primitive(b: seq<byte>) {
    forall y | 0 < y < |b| :: Rotation(b, y) != Rotation(b, 0)
  }

  /** All sorted orders have the block itself in one row. */
  ghost predicate RowForced(b: seq<byte>, f: seq<nat>) {
    forall g: seq<nat>, p: nat, q: nat |
      SortedRotations(b, g) && p < |f| && q < |g| && f[p] == 0 && g[q] == 0 :: p == q
  }

  lemma SameRotation(b: seq<byte>, x: nat, y: nat)
    requires x < |b| && y < |b|
    ensures Ord(b, x, y, |b|) == 0 <==> Rotation(b, x) == Rotation(b, y)
  {
    hide Ord, Rotation, At, Agree;
    OrdZero(b, x, y, |b|);
    forall t: nat | t < |b| ensures Agree(b, x, y, t) <==> Rotation(b, x)[t] == Rotation(b, y)[t] {
      RotationsAgree(b, x, y, t);
    }
  }

  lemma PrimitiveForces(b: seq<byte>, f: seq<nat>, g: seq<nat>, p: nat, q: nat)
    requires SortedRotations(b, f) && SortedRotations(b, g) && Primitive(b)
    requires p < |f| && q < |g| && f[p] == 0 && g[q] == 0
    ensures p == q
  {
    hide SortedRotations, IsPermutation, Ord, Rotation, Rising;
    SortedRises(b, f);
    SortedRises(b, g);
    SortedListsAgree(b, f, g, p);
    OrdAnti(b, 0, g[p], |b|);
    SameRotation(b, g[p], 0);
    PermutationOneToOne(g, p, q);
  }

  function Exchanged(f: seq<nat>, p: nat, q: nat): seq<nat>
    requires p < |f| && q < |f|
  {
    f[p := f[q]][q := f[p]]
  }

  /** Equal rotations may change places. */
  lemma ExchangeSorted(b: seq<byte>, f: seq<nat>, p: nat, q: nat)
    requires SortedRotations(b, f) && p < |f| && q < |f| && f[p] < |b| && f[q] < |b| && Ord(b, f[p], f[q], |b|) == 0
    ensures SortedRotations(b, Exchanged(f, p, q))
  {
    hide Ord;
    var g := Exchanged(f, p, q);
    SwapRearranges(f, p, q);
    SortedRises(b, f);
    forall i, j | 0 <= i < j < |g| ensures Ord(b, g[i], g[j], |b|) <= 0 {
      SameAs(b, f, p, q, i);
      SameAs(b, f, p, q, j);
      assert Ord(b, f[i], f[j], |b|) <= 0;
      OrdTrans(b, g[i], f[i], f[j], |b|);
      OrdTrans(b, g[i], f[j], g[j], |b|);
    }
  }

  lemma SameAs(b: seq<byte>, f: seq<nat>, p: nat, q: nat, i: nat)
    requires |b| > 0 && p < |f| && q < |f| && i < |f| && Ord(b, f[p], f[q], |b|) == 0
    ensures Ord(b, Exchanged(f, p, q)[i], f[i], |b|) == 0 == Ord(b, f[i], Exchanged(f, p, q)[i], |b|)
  {
    hide Ord;
    OrdSame(b, f[i], |b|);
    OrdAnti(b, f[p], f[q], |b|);
  }

  /**
   * The row of the block, the one other thing the stream says of the order, is the same for every sorter if and only if
   * the block is primitive.
   */
  lemma RowForcedIff(b: seq<byte>, f: seq<nat>)
    requires SortedRotations(b, f)
    ensures RowForced(b, f) <==> Primitive(b)
  {
    hide SortedRotations, IsPermutation, Ord, Rotation, Rising;
    SortedRises(b, f);
    if Primitive(b) {
      forall g: seq<nat>, p: nat, q: nat | SortedRotations(b, g) && p < |f| && q < |g| && f[p] == 0 && g[q] == 0
        ensures p == q
      {
        PrimitiveForces(b, f, g, p, q);
      }
    } else {
      var y :| 0 < y < |b| && Rotation(b, y) == Rotation(b, 0);
      var p := PermutationOnto(f, 0);
      var q := PermutationOnto(f, y);
      SameRotation(b, 0, y);
      ExchangeSorted(b, f, p, q);
      assert Exchanged(f, p, q)[q] == 0 && p != q;
    }
  }
}
