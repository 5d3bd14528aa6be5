/** Undoing the rotation sort: the decoder's `tt` vector and the walk along it. */
module InverseBwt {
  import opened Bytes
  import opened Rotations
  import opened Permutations
  import opened RadixPass
  import opened BlockSort

  /** The byte before each sorted rotation. */
  ghost function LastColumn(b: seq<byte>, ptr: seq<nat>): (l: seq<byte>)
    requires SortedRotations(b, ptr)
    ensures |l| == |b|
    ensures forall i | 0 <= i < |ptr| :: ptr[i] < |b| && l[i] == b[Back(ptr[i], 1, |b|)]
  {
    assert forall i | 0 <= i < |ptr| :: ptr[i] < |b| by {
      forall i | 0 <= i < |ptr| ensures ptr[i] < |b| { PermutationInRange(ptr, i); }
    }
    seq(|b|, i requires 0 <= i < |b| => b[Back(ptr[i], 1, |b|)])
  }

  /** Row of entry `x` in the stable sort of `l`. */
  ghost function Rank(l: seq<byte>, x: nat): (r: nat)
    requires x < |l|
  {
    Start(l, l[x]) + multiset(l[..x])[l[x]]
  }

  lemma {:induction false} PrefixCountMonotone(l: seq<byte>, x: nat, y: nat, c: byte)
    requires x <= y <= |l|
    ensures multiset(l[..x])[c] <= multiset(l[..y])[c]
  {
    if x < y {
      PrefixCountMonotone(l, x, y - 1, c);
      PrefixCount(l, y - 1, c);
    }
  }

  lemma RankInBucket(l: seq<byte>, x: nat)
    requires x < |l|
    ensures Rank(l, x) < |l| && InBucket(l, l[x], Rank(l, x))
  {
    PrefixCount(l, x, l[x]);
    PrefixCountAtMost(l, x + 1, l[x]);
    StartNext(l, l[x]);
  }

  /** Ranks grow with the byte and, among equal bytes, with the position. */
  lemma RankOrder(l: seq<byte>, x: nat, y: nat)
    requires x < |l| && y < |l| && (l[x] < l[y] || (l[x] == l[y] && x < y))
    ensures Rank(l, x) < Rank(l, y)
  {
    if l[x] < l[y] {
      RankInBucket(l, x);
      RankInBucket(l, y);
      StartMonotone(l, l[x] + 1, l[y]);
    } else {
      PrefixCount(l, x, l[x]);
      PrefixCountMonotone(l, x + 1, y, l[x]);
    }
  }

  /** `t` undoes the ranks: the decoder's T vector. */
  ghost predicate UndoesRank(l: seq<byte>, t: seq<nat>) {
    && |t| == |l| && IsPermutation(t)
    && forall j | 0 <= j < |t| :: t[j] < |l| && Rank(l, t[j]) == j
  }

  ghost predicate Rising(b: seq<byte>, s: seq<nat>)
    requires |b| > 0
  {
    forall p, q | 0 <= p < q < |s| :: Ord(b, s[p], s[q], |b|) <= 0
  }

  lemma OrdBelow(b: seq<byte>, i: nat, j: nat, k: nat)
    requires |b| > 0 && Ord(b, i, j, |b|) <= 0 && Ord(b, j, k, |b|) < 0
    ensures Ord(b, i, k, |b|) < 0
  {
    OrdTrans(b, i, j, k, |b|);
  }

  lemma Distinct(s: seq<nat>)
    requires IsPermutation(s)
    ensures forall p, q | 0 <= p < q < |s| :: s[p] != s[q]
  {
    forall p, q | 0 <= p < q < |s| ensures s[p] != s[q] {
      if s[p] == s[q] { PermutationOneToOne(s, p, q); }
    }
  }

  lemma NotBelow(b: seq<byte>, s: seq<nat>, u: seq<nat>, j: nat)
    requires |b| > 0 && |s| == |u| == |b| && IsPermutation(s) && IsPermutation(u)
    requires Rising(b, s) && Rising(b, u) && j < |b|
    ensures Ord(b, s[j], u[j], |b|) >= 0
  {
    if Ord(b, s[j], u[j], |b|) < 0 {
      forall i | 0 <= i <= j ensures s[i] in u[..j] {
        if i == j { OrdSame(b, s[j], |b|); }
        OrdBelow(b, s[i], s[j], u[j]);
        PermutationInRange(s, i);
        var k := PermutationOnto(u, s[i]);
        if k >= j {
          if k == j { OrdSame(b, u[j], |b|); }
          OrdAnti(b, s[i], u[j], |b|);
        }
        assert u[..j][k] == s[i];
      }
      Distinct(s);
      Distinct(u);
      DistinctCount(s[..j + 1]);
      DistinctCount(u[..j]);
      assert Elements(s[..j + 1]) <= Elements(u[..j]);
      SubsetCount(Elements(s[..j + 1]), Elements(u[..j]));
    }
  }

  /** Two sorted lists of all the rotations hold equal rotations row by row. */
  lemma SortedListsAgree(b: seq<byte>, s: seq<nat>, u: seq<nat>, j: nat)
    requires |b| > 0 && |s| == |u| == |b| && IsPermutation(s) && IsPermutation(u)
    requires Rising(b, s) && Rising(b, u) && j < |b|
    ensures Ord(b, s[j], u[j], |b|) == 0
  {
    NotBelow(b, s, u, j);
    NotBelow(b, u, s, j);
    OrdAnti(b, s[j], u[j], |b|);
  }

  /** Rotations one to the left of the rows, taken in stable order of the last column. */
  ghost function LeftRotations(b: seq<byte>, ptr: seq<nat>, t: seq<nat>): (u: seq<nat>)
    requires SortedRotations(b, ptr) && UndoesRank(LastColumn(b, ptr), t)
    ensures |u| == |b| && forall j | 0 <= j < |b| :: ptr[t[j]] < |b| && u[j] == Back(ptr[t[j]], 1, |b|)
  {
    assert |LastColumn(b, ptr)| == |b|;
    seq(|b|, j requires 0 <= j < |b| => Back(ptr[t[j]], 1, |b|))
  }

  lemma LeftRotationsPermute(b: seq<byte>, ptr: seq<nat>, t: seq<nat>)
    requires SortedRotations(b, ptr) && UndoesRank(LastColumn(b, ptr), t)
    ensures IsPermutation(LeftRotations(b, ptr, t))
  {
    var u := LeftRotations(b, ptr, t);
    Distinct(ptr);
    Distinct(t);
    DistinctIsPermutation(u);
  }

  lemma OrdAfterByte(b: seq<byte>, i: nat, j: nat)
    requires i < |b| && j < |b| && b[i] == b[j] && Ord(b, i + 1, j + 1, |b|) <= 0
    ensures Ord(b, i, j, |b|) <= 0
  {
    var n := |b|;
    assert Ord(b, i, j, 0) == 0;
    OrdSplit(b, i, j, 1, n - 1);
    if Ord(b, i + 1, j + 1, n - 1) != 0 {
      OrdDecided(b, i + 1, j + 1, n - 1, n);
    }
  }

  lemma BackRises(b: seq<byte>, x: nat, y: nat)
    requires x < |b| && y < |b|
    requires var i, j := Back(x, 1, |b|), Back(y, 1, |b|); b[i] < b[j] || (b[i] == b[j] && Ord(b, x, y, |b|) <= 0)
    ensures Ord(b, Back(x, 1, |b|), Back(y, 1, |b|), |b|) <= 0
  {
    var n := |b|;
    var i, j := Back(x, 1, n), Back(y, 1, n);
    if b[i] < b[j] {
      assert Ord(b, i, j, 0) == 0;
      OrdDecided(b, i, j, 1, n);
    } else {
      OrdAhead(b, i, j, 1, n);
      OrdAfterByte(b, i, j);
    }
  }

  lemma LeftRotationsRise(b: seq<byte>, ptr: seq<nat>, t: seq<nat>)
    requires SortedRotations(b, ptr) && UndoesRank(LastColumn(b, ptr), t)
    ensures Rising(b, LeftRotations(b, ptr, t))
  {
    var l, u := LastColumn(b, ptr), LeftRotations(b, ptr, t);
    forall p, q | 0 <= p < q < |u| ensures Ord(b, u[p], u[q], |b|) <= 0 {
      var x, y := t[p], t[q];
      assert Rank(l, x) == p && Rank(l, y) == q;
      if l[y] < l[x] || (l[y] == l[x] && y < x) {
        RankOrder(l, y, x);
      }
      assert x != y;
      BackRises(b, ptr[x], ptr[y]);
    }
  }

  lemma Ranges(b: seq<byte>, ptr: seq<nat>, t: seq<nat>)
    requires SortedRotations(b, ptr) && UndoesRank(LastColumn(b, ptr), t)
    ensures |ptr| == |t| == |b| > 0 && (forall j | 0 <= j < |t| :: t[j] < |t|)
      && forall j | 0 <= j < |ptr| :: ptr[j] < |b|
  {
    forall j | 0 <= j < |ptr| ensures ptr[j] < |b| { PermutationInRange(ptr, j); }
  }

  /** Row `j` and the rotation one to the left of row `t[j]` are equal strings. */
  lemma LeftIsSame(b: seq<byte>, ptr: seq<nat>, t: seq<nat>, j: nat)
    requires SortedRotations(b, ptr) && UndoesRank(LastColumn(b, ptr), t) && j < |b|
    ensures |ptr| == |t| == |b| && t[j] < |b| && ptr[t[j]] < |b|
    ensures Ord(b, ptr[j], Back(ptr[t[j]], 1, |b|), |b|) == 0
  {
    var u := LeftRotations(b, ptr, t);
    LeftRotationsPermute(b, ptr, t);
    LeftRotationsRise(b, ptr, t);
    SortedListsAgree(b, ptr, u, j);
    Ranges(b, ptr, t);
  }

  lemma BackAgrees(b: seq<byte>, x: nat, y: nat, k: nat)
    requires |b| > 0 && y < |b| && Ord(b, x, Back(y, 1, |b|), |b|) == 0
    ensures At(b, y + k) == At(b, x + 1 + k)
  {
    hide At, Ord;
    var n, z := |b|, Back(y, 1, |b|);
    OrdZero(b, x, z, n);
    AtAgree(b, x, z, k + 1);
    assert x + (k + 1) == x + 1 + k;
    if z + 1 != y {
      AtPeriod(b, y + k);
      assert z + (k + 1) == y + k + n;
    }
  }

  /**
   * The key step: the row that T leads to from row `j` starts, as a string, one byte after row `j`. It holds for
   * periodic blocks too, where equal rotations may stand in any order.
   */
  lemma StepRotates(b: seq<byte>, ptr: seq<nat>, t: seq<nat>, j: nat, k: nat)
    requires SortedRotations(b, ptr) && UndoesRank(LastColumn(b, ptr), t) && j < |b|
    ensures |ptr| == |t| == |b| && t[j] < |b|
    ensures At(b, ptr[t[j]] + k) == At(b, ptr[j] + 1 + k)
  {
    hide At, Ord, SortedRotations, UndoesRank, LastColumn;
    LeftIsSame(b, ptr, t, j);
    BackAgrees(b, ptr[j], ptr[t[j]], k);
  }

  /** Rows visited by the walk: from row `r`, `k` steps along T. */
  ghost function Walk(t: seq<nat>, r: nat, k: nat): (p: nat)
    requires r < |t| && forall j | 0 <= j < |t| :: t[j] < |t|
    ensures p < |t|
  {
    if k == 0 then r else t[Walk(t, r, k - 1)]
  }

  /** After `k` steps from the row of the block itself the walk is at a row equal to the block rotated by `k`. */
  lemma {:induction false} WalkRotates(b: seq<byte>, ptr: seq<nat>, t: seq<nat>, origPtr: nat, k: nat, m: nat)
    requires SortedRotations(b, ptr) && UndoesRank(LastColumn(b, ptr), t)
    requires origPtr < |b| == |ptr| && ptr[origPtr] == 0
    ensures |ptr| == |t| == |b| && forall j | 0 <= j < |t| :: t[j] < |t|
    ensures At(b, ptr[Walk(t, origPtr, k)] + m) == At(b, k + m)
  {
    hide At, Ord, SortedRotations, UndoesRank, LastColumn;
    Ranges(b, ptr, t);
    if k > 0 {
      var p := Walk(t, origPtr, k - 1);
      StepRotates(b, ptr, t, p, m);
      WalkRotates(b, ptr, t, origPtr, k - 1, m + 1);
      assert ptr[p] + 1 + m == ptr[p] + (m + 1);
      assert k - 1 + (m + 1) == k + m;
    }
  }

  /** The last column at the `k+1`-st row of the walk is byte `k` of the block, repeated for ever. */
  lemma WalkSpellsBlock(b: seq<byte>, ptr: seq<nat>, t: seq<nat>, origPtr: nat, k: nat)
    requires SortedRotations(b, ptr) && UndoesRank(LastColumn(b, ptr), t)
    requires origPtr < |b| == |ptr| && ptr[origPtr] == 0
    ensures |ptr| == |t| == |b| && forall j | 0 <= j < |t| :: t[j] < |t|
    ensures LastColumn(b, ptr)[Walk(t, origPtr, k + 1)] == At(b, k)
  {
    hide At, Ord, SortedRotations, UndoesRank, Walk;
    Ranges(b, ptr, t);
    var n, p := |b|, Walk(t, origPtr, k + 1);
    WalkRotates(b, ptr, t, origPtr, k + 1, n - 1);
    var x := Back(ptr[p], 1, n);
    AtPeriod(b, x);
    assert ptr[p] + (n - 1) == if ptr[p] == 0 then x else x + n;
    AtPeriod(b, k);
    assert k + 1 + (n - 1) == k + n;
  }
}
