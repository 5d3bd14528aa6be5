/** The fallback sorter's inner sort: order a range of `fmap` by the class of each entry. */
module FallbackQuickSort {
  import opened Arithmetic
  import opened Permutations

  const SMALL_THRESH := 10
  const STACK_SIZE := 100

  ghost predicate InClasses(ec: seq<nat>, f: seq<nat>, lo: int, hi: int) {
    forall k | 0 <= k < |f| && lo <= k < hi :: f[k] < |ec|
  }

  ghost function Class(ec: seq<nat>, x: nat): nat {
    if x < |ec| then ec[x] else 0
  }

  /** `f[lo..hi)` is in non-decreasing order of class. */
  ghost predicate ClassSorted(ec: seq<nat>, f: seq<nat>, lo: int, hi: int) {
    forall p, q | 0 <= lo <= p < q < hi <= |f| :: Class(ec, f[p]) <= Class(ec, f[q])
  }

  lemma RearrangedInClasses(ec: seq<nat>, s: seq<nat>, t: seq<nat>, lo: int, hi: int)
    requires 0 <= lo <= hi <= |s| && Rearranged(s, t, lo, hi) && InClasses(ec, s, lo, hi)
    ensures InClasses(ec, t, lo, hi)
  {
    forall k | 0 <= k < |t| && lo <= k < hi ensures t[k] < |ec| {
      var p := RearrangedFrom(s, t, lo, hi, k);
    }
  }

  /** `f[lo..hi)` without entry `hole` is in non-decreasing order of class. */
  ghost predicate SortedExcept(ec: seq<nat>, f: seq<nat>, lo: int, hi: int, hole: int) {
    forall p, q | 0 <= lo <= p < q < hi <= |f| && p != hole && q != hole :: Class(ec, f[p]) <= Class(ec, f[q])
  }

  /** State of an insertion that started at `i` and whose moving entry is now at `hole`. */
  ghost predicate Inserting(ec: seq<nat>, was: seq<nat>, g: seq<nat>, i: int, hi: int, hole: int)
    requires 0 <= i <= hole < hi <= |g|
  {
    && Rearranged(was, g, i, hi)
    && InClasses(ec, g, i, hi)
    && SortedExcept(ec, g, i, hi, hole)
    && forall k | i <= k < hole :: Class(ec, g[k]) < Class(ec, g[hole])
  }

  function Swapped(s: seq<nat>, i: int, j: int): (r: seq<nat>)
    requires 0 <= i < |s| && 0 <= j < |s|
    ensures |r| == |s|
  {
    s[i := s[j]][j := s[i]]
  }

  lemma InsertingStep(ec: seq<nat>, was: seq<nat>, g: seq<nat>, i: int, hi: int, hole: int)
    requires 0 <= i <= hole < hole + 1 < hi <= |g|
    requires Inserting(ec, was, g, i, hi, hole)
    requires Class(ec, g[hole]) > Class(ec, g[hole + 1])
    ensures Inserting(ec, was, Swapped(g, hole, hole + 1), i, hi, hole + 1)
  {
    SwapRearranges(g, hole, hole + 1);
  }

  lemma InsertingDone(ec: seq<nat>, was: seq<nat>, g: seq<nat>, i: int, hi: int, hole: int)
    requires 0 <= i <= hole < hi <= |g|
    requires Inserting(ec, was, g, i, hi, hole)
    requires hole + 1 < hi ==> Class(ec, g[hole]) <= Class(ec, g[hole + 1])
    ensures ClassSorted(ec, g, i, hi) && Rearranged(was, g, i, hi)
  {
    forall p, q | i <= p < q < hi ensures Class(ec, g[p]) <= Class(ec, g[q]) {
      if p == hole && q > hole + 1 {
        assert Class(ec, g[hole + 1]) <= Class(ec, g[q]);
      }
    }
  }

  lemma InsertingStart(ec: seq<nat>, f: seq<nat>, i: int, hi: int)
    requires 0 <= i < hi <= |f| && InClasses(ec, f, i, hi) && ClassSorted(ec, f, i + 1, hi)
    ensures Inserting(ec, f, f, i, hi, i)
  {
  }

  lemma InsertingAt(ec: seq<nat>, was: seq<nat>, g: seq<nat>, i: int, hi: int, hole: int, k: int)
    requires 0 <= i <= hole < hi <= |g| && i <= k < hi && Inserting(ec, was, g, i, hi, hole)
    ensures g[k] < |ec| && |was| == |g|
  {
  }

  /** Copying the entry `gap` further on into the hole exchanges it with the moving entry. */
  lemma HoleMoves(a: seq<nat>, tmp: nat, hole: int, gap: int)
    requires 0 <= hole < hole + gap < |a|
    ensures a[hole := a[hole + gap]][hole + gap := tmp] == Swapped(a[hole := tmp], hole, hole + gap)
  {
  }

  /** One insertion of the last loop: stride 1. */
  method InsertByOne(fmap: array<nat>, eclass: array<nat>, i: int, hi: int)
    requires fmap != eclass
    requires 0 <= i <= hi < fmap.Length
    requires InClasses(eclass[..], fmap[..], i, hi + 1)
    requires ClassSorted(eclass[..], fmap[..], i + 1, hi + 1)
    modifies fmap
    ensures Rearranged(old(fmap[..]), fmap[..], i, hi + 1)
    ensures ClassSorted(eclass[..], fmap[..], i, hi + 1)
  {
    hide Inserting, Rearranged, ClassSorted, InClasses, Swapped;
    ghost var was, g, ec := fmap[..], fmap[..], eclass[..];
    InsertingStart(ec, was, i, hi + 1);
    InsertingAt(ec, was, g, i, hi + 1, i, i);
    var tmp := fmap[i];
    var cls := eclass[tmp];
    var j := i + 1;
    assert g == fmap[..][j - 1 := tmp];
    while j <= hi
      invariant i + 1 <= j <= hi + 1
      invariant eclass[..] == ec && g == fmap[..][j - 1 := tmp]
      invariant Inserting(ec, was, g, i, hi + 1, j - 1)
    {
      InsertingAt(ec, was, g, i, hi + 1, j - 1, j);
      assert g[j] == fmap[j];
      if cls <= eclass[fmap[j]] { break; }
      InsertingStep(ec, was, g, i, hi + 1, j - 1);
      ghost var a := fmap[..];
      HoleMoves(a, tmp, j - 1, 1);
      fmap[j - 1] := fmap[j];
      assert fmap[..] == a[j - 1 := a[j]];
      g := Swapped(g, j - 1, j);
      j := j + 1;
    }
    InsertingDone(ec, was, g, i, hi + 1, j - 1);
    fmap[j - 1] := tmp;
    assert fmap[..] == g;
  }

  lemma RearrangedSwap(was: seq<nat>, g: seq<nat>, lo: int, hi: int, p: int, q: int)
    requires 0 <= lo <= p < hi <= |g| && lo <= q < hi && Rearranged(was, g, lo, hi)
    ensures Rearranged(was, Swapped(g, p, q), lo, hi)
  {
    SwapRearranges(g, p, q);
  }

  lemma RearrangedSelf<T>(s: seq<T>, lo: int, hi: int)
    ensures Rearranged(s, s, lo, hi)
  {
  }

  /** One insertion of the first loop: stride 4 only rearranges. */
  method InsertByFour(fmap: array<nat>, eclass: array<nat>, i: int, hi: int)
    requires fmap != eclass
    requires 0 <= i <= hi - 4 && hi < fmap.Length
    requires InClasses(eclass[..], fmap[..], i, hi + 1)
    modifies fmap
    ensures Rearranged(old(fmap[..]), fmap[..], i, hi + 1)
  {
    hide Rearranged, Swapped;
    ghost var was, g, ec := fmap[..], fmap[..], eclass[..];
    assert Rearranged(was, g, i, hi + 1) by { RearrangedSelf(was, i, hi + 1); }
    var tmp := fmap[i];
    var cls := eclass[tmp];
    var j := i + 4;
    assert g == fmap[..][j - 4 := tmp];
    while j <= hi
      invariant i + 4 <= j <= hi + 4
      invariant eclass[..] == ec && g == fmap[..][j - 4 := tmp]
      invariant Rearranged(was, g, i, hi + 1) && InClasses(ec, was, i, hi + 1)
    {
      RearrangedInClasses(ec, was, g, i, hi + 1);
      assert g[j] == fmap[j];
      if cls <= eclass[fmap[j]] { break; }
      RearrangedSwap(was, g, i, hi + 1, j - 4, j);
      ghost var a := fmap[..];
      HoleMoves(a, tmp, j - 4, 4);
      fmap[j - 4] := fmap[j];
      assert fmap[..] == a[j - 4 := a[j]];
      g := Swapped(g, j - 4, j);
      j := j + 4;
    }
    fmap[j - 4] := tmp;
    assert fmap[..] == g;
  }

  method SimpleSort(fmap: array<nat>, eclass: array<nat>, lo: int, hi: int)
    requires fmap != eclass
    requires 0 <= lo <= hi + 1 && hi < fmap.Length
    requires InClasses(eclass[..], fmap[..], lo, hi + 1)
    modifies fmap
    ensures Rearranged(old(fmap[..]), fmap[..], lo, hi + 1)
    ensures InClasses(eclass[..], fmap[..], lo, hi + 1)
    ensures ClassSorted(eclass[..], fmap[..], lo, hi + 1)
  {
    if lo == hi { return; }
    ghost var was := fmap[..];
    if hi - lo > 3 {
      var i := hi - 4;
      while i >= lo
        invariant lo - 1 <= i <= hi - 4
        invariant Rearranged(was, fmap[..], lo, hi + 1)
        invariant InClasses(eclass[..], fmap[..], lo, hi + 1)
      {
        InsertByFour(fmap, eclass, i, hi);
        RearrangedInClasses(eclass[..], was, fmap[..], lo, hi + 1);
        i := i - 1;
      }
    }
    var i := hi - 1;
    while i >= lo
      invariant i <= hi - 1 && (lo - 1 <= i || i == hi - 1)
      invariant Rearranged(was, fmap[..], lo, hi + 1)
      invariant InClasses(eclass[..], fmap[..], lo, hi + 1)
      invariant ClassSorted(eclass[..], fmap[..], i + 1, hi + 1)
    {
      InsertByOne(fmap, eclass, i, hi);
      RearrangedInClasses(eclass[..], was, fmap[..], lo, hi + 1);
      i := i - 1;
    }
  }

  /** Three-way classification of `[lo, hi]` against `med`, equal entries at both ends. */
  ghost predicate Split(ec: seq<nat>, f: seq<nat>, med: nat, lo: int, ltLo: int, unLo: int, unHi: int, gtHi: int,
      hi: int) {
    && 0 <= lo <= ltLo <= unLo <= unHi + 1 && unHi <= gtHi <= hi < |f|
    && (forall k | lo <= k < ltLo || gtHi < k <= hi :: Class(ec, f[k]) == med)
    && (forall k | ltLo <= k < unLo :: Class(ec, f[k]) < med)
    && (forall k | unHi < k <= gtHi :: Class(ec, f[k]) > med)
  }

  method Swap(fmap: array<nat>, i: int, j: int)
    requires 0 <= i < fmap.Length && 0 <= j < fmap.Length
    modifies fmap
    ensures fmap[..] == Swapped(old(fmap[..]), i, j)
    ensures multiset(fmap[..]) == multiset(old(fmap[..]))
  {
    ghost var was := fmap[..];
    fmap[i], fmap[j] := fmap[j], fmap[i];
    assert fmap[..] == Swapped(was, i, j);
    SwapRearranges(was, i, j);
  }

  /** A partition in progress over `[lo, hi]`, whose entries were `was` at the start. */
  ghost predicate Parting(ec: seq<nat>, was: seq<nat>, f: seq<nat>, med: nat, lo: int, ltLo: int, unLo: int, unHi: int,
      gtHi: int, hi: int) {
    Split(ec, f, med, lo, ltLo, unLo, unHi, gtHi, hi) && Rearranged(was, f, lo, hi + 1) && InClasses(ec, f, lo, hi + 1)
  }

  lemma PartingAt(ec: seq<nat>, was: seq<nat>, f: seq<nat>, med: nat, lo: int, ltLo: int, unLo: int, unHi: int,
      gtHi: int, hi: int, k: int)
    requires Parting(ec, was, f, med, lo, ltLo, unLo, unHi, gtHi, hi) && lo <= k <= hi
    ensures 0 <= lo <= ltLo <= unLo && unHi <= gtHi <= hi < |f| && f[k] < |ec|
  {
  }

  lemma PartingUp(ec: seq<nat>, was: seq<nat>, f: seq<nat>, med: nat, lo: int, ltLo: int, unLo: int, unHi: int,
      gtHi: int, hi: int)
    requires Parting(ec, was, f, med, lo, ltLo, unLo, unHi, gtHi, hi) && unLo <= unHi
    ensures Class(ec, f[unLo]) < med ==> Parting(ec, was, f, med, lo, ltLo, unLo + 1, unHi, gtHi, hi)
    ensures Class(ec, f[unLo]) == med ==>
              Parting(ec, was, Swapped(f, unLo, ltLo), med, lo, ltLo + 1, unLo + 1, unHi, gtHi, hi)
  {
    SwapRearranges(f, unLo, ltLo);
  }

  lemma PartingDown(ec: seq<nat>, was: seq<nat>, f: seq<nat>, med: nat, lo: int, ltLo: int, unLo: int, unHi: int,
      gtHi: int, hi: int)
    requires Parting(ec, was, f, med, lo, ltLo, unLo, unHi, gtHi, hi) && unLo <= unHi
    ensures Class(ec, f[unHi]) > med ==> Parting(ec, was, f, med, lo, ltLo, unLo, unHi - 1, gtHi, hi)
    ensures Class(ec, f[unHi]) == med ==>
              Parting(ec, was, Swapped(f, unHi, gtHi), med, lo, ltLo, unLo, unHi - 1, gtHi - 1, hi)
  {
    SwapRearranges(f, unHi, gtHi);
  }

  lemma PartingRange(ec: seq<nat>, was: seq<nat>, f: seq<nat>, med: nat, lo: int, ltLo: int, unLo: int, unHi: int,
      gtHi: int, hi: int)
    requires Parting(ec, was, f, med, lo, ltLo, unLo, unHi, gtHi, hi)
    ensures 0 <= lo <= ltLo <= unLo <= unHi + 1 && unHi <= gtHi <= hi < |f|
  {
  }

  /** An exchange on the right leaves the entry the scan from the left has stopped at. */
  lemma SwapElsewhere(f: seq<nat>, i: int, j: int, k: int)
    requires 0 <= k < i <= j < |f|
    ensures |Swapped(f, i, j)| == |f| && Swapped(f, i, j)[k] == f[k]
  {
  }

  method PartitionUp(fmap: array<nat>, eclass: array<nat>, ghost was: seq<nat>, med: nat, lo: int, ltLo0: int,
      unLo0: int, unHi: int, gtHi: int, hi: int) returns (ltLo: int, unLo: int)
    requires fmap != eclass
    requires Parting(eclass[..], was, fmap[..], med, lo, ltLo0, unLo0, unHi, gtHi, hi)
    modifies fmap
    ensures unLo0 <= unLo <= unHi + 1
    ensures Parting(eclass[..], was, fmap[..], med, lo, ltLo, unLo, unHi, gtHi, hi)
    ensures unLo <= unHi ==> Class(eclass[..], fmap[unLo]) > med
  {
    hide Parting, Split, InClasses, Rearranged, Swapped;
    PartingRange(eclass[..], was, fmap[..], med, lo, ltLo0, unLo0, unHi, gtHi, hi);
    ltLo, unLo := ltLo0, unLo0;
    ghost var ec := eclass[..];
    while unLo <= unHi
      invariant unLo0 <= unLo <= unHi + 1 && eclass[..] == ec
      invariant Parting(ec, was, fmap[..], med, lo, ltLo, unLo, unHi, gtHi, hi)
    {
      PartingAt(ec, was, fmap[..], med, lo, ltLo, unLo, unHi, gtHi, hi, unLo);
      PartingUp(ec, was, fmap[..], med, lo, ltLo, unLo, unHi, gtHi, hi);
      if eclass[fmap[unLo]] == med {
        Swap(fmap, unLo, ltLo);
        ltLo := ltLo + 1;
      } else if eclass[fmap[unLo]] > med {
        break;
      }
      unLo := unLo + 1;
    }
  }

  method PartitionDown(fmap: array<nat>, eclass: array<nat>, ghost was: seq<nat>, med: nat, lo: int, ltLo: int,
      unLo: int, unHi0: int, gtHi0: int, hi: int) returns (unHi: int, gtHi: int)
    requires fmap != eclass
    requires Parting(eclass[..], was, fmap[..], med, lo, ltLo, unLo, unHi0, gtHi0, hi)
    modifies fmap
    ensures unLo - 1 <= unHi <= unHi0
    ensures Parting(eclass[..], was, fmap[..], med, lo, ltLo, unLo, unHi, gtHi, hi)
    ensures unLo <= unHi ==> Class(eclass[..], fmap[unHi]) < med && fmap[unLo] == old(fmap[unLo])
  {
    hide Parting, Split, InClasses, Rearranged, Swapped;
    PartingRange(eclass[..], was, fmap[..], med, lo, ltLo, unLo, unHi0, gtHi0, hi);
    unHi, gtHi := unHi0, gtHi0;
    ghost var ec, f0 := eclass[..], fmap[..];
    while unLo <= unHi
      invariant unLo - 1 <= unHi <= unHi0 && eclass[..] == ec
      invariant Parting(ec, was, fmap[..], med, lo, ltLo, unLo, unHi, gtHi, hi)
      invariant unLo <= unHi ==> 0 <= unLo < |f0| && fmap[unLo] == f0[unLo]
    {
      PartingAt(ec, was, fmap[..], med, lo, ltLo, unLo, unHi, gtHi, hi, unHi);
      PartingDown(ec, was, fmap[..], med, lo, ltLo, unLo, unHi, gtHi, hi);
      if eclass[fmap[unHi]] == med {
        if unLo < unHi { SwapElsewhere(fmap[..], unHi, gtHi, unLo); }
        Swap(fmap, unHi, gtHi);
        gtHi := gtHi - 1;
      } else if eclass[fmap[unHi]] < med {
        break;
      }
      unHi := unHi - 1;
    }
  }

  lemma PartingExchange(ec: seq<nat>, was: seq<nat>, f: seq<nat>, med: nat, lo: int, ltLo: int, unLo: int, unHi: int,
      gtHi: int, hi: int)
    requires Parting(ec, was, f, med, lo, ltLo, unLo, unHi, gtHi, hi) && unLo <= unHi
    requires Class(ec, f[unLo]) > med && Class(ec, f[unHi]) < med
    ensures Parting(ec, was, Swapped(f, unLo, unHi), med, lo, ltLo, unLo + 1, unHi - 1, gtHi, hi)
  {
    SwapRearranges(f, unLo, unHi);
  }

  method Partition(fmap: array<nat>, eclass: array<nat>, med: nat, lo: int, hi: int)
    returns (ltLo: int, unLo: int, unHi: int, gtHi: int)
    requires fmap != eclass
    requires 0 <= lo <= hi < fmap.Length && InClasses(eclass[..], fmap[..], lo, hi + 1)
    modifies fmap
    ensures unHi == unLo - 1
    ensures Parting(eclass[..], old(fmap[..]), fmap[..], med, lo, ltLo, unLo, unHi, gtHi, hi)
  {
    ltLo, unLo, unHi, gtHi := lo, lo, hi, hi;
    ghost var ec, was := eclass[..], fmap[..];
    while true
      invariant Parting(ec, was, fmap[..], med, lo, ltLo, unLo, unHi, gtHi, hi)
      decreases unHi - unLo
    {
      ltLo, unLo := PartitionUp(fmap, eclass, was, med, lo, ltLo, unLo, unHi, gtHi, hi);
      unHi, gtHi := PartitionDown(fmap, eclass, was, med, lo, ltLo, unLo, unHi, gtHi, hi);
      if unLo > unHi { break; }
      PartingExchange(ec, was, fmap[..], med, lo, ltLo, unLo, unHi, gtHi, hi);
      Swap(fmap, unLo, unHi);
      unLo, unHi := unLo + 1, unHi - 1;
    }
  }

  function Partner(k: int, p1: int, p2: int, n: int): int {
    if p1 <= k < p1 + n then k + (p2 - p1) else if p2 <= k < p2 + n then k - (p2 - p1) else k
  }

  /** `g` is `f` with the disjoint ranges `[p1, p1+n)` and `[p2, p2+n)` exchanged. */
  ghost predicate ExchangedRanges(f: seq<nat>, g: seq<nat>, p1: int, p2: int, n: int)
    requires 0 <= p1 && 0 <= n && p1 + n <= p2 && p2 + n <= |f| == |g|
  {
    forall k {:trigger g[k]} | 0 <= k < |g| :: g[k] == f[Partner(k, p1, p2, n)]
  }

  lemma ExchangedOneMore(f: seq<nat>, g: seq<nat>, p1: int, p2: int, n: int)
    requires 0 <= p1 && 0 <= n && p1 + n < p2 && p2 + n < |f| == |g|
    requires ExchangedRanges(f, g, p1, p2, n)
    ensures ExchangedRanges(f, Swapped(g, p1 + n, p2 + n), p1, p2, n + 1)
  {
  }

  lemma ExchangedRearranges(f: seq<nat>, g: seq<nat>, p1: int, p2: int, n: int, lo: int, hi: int)
    requires 0 <= lo <= p1 && 0 <= n && p1 + n <= p2 && p2 + n <= hi <= |f| == |g|
    requires ExchangedRanges(f, g, p1, p2, n) && multiset(f) == multiset(g)
    ensures Rearranged(f, g, lo, hi)
  {
    forall k | 0 <= k < |f| && !(lo <= k < hi) ensures f[k] == g[k] {
      assert g[k] == f[Partner(k, p1, p2, n)];
    }
  }

  method SwapRanges(fmap: array<nat>, p1: int, p2: int, n: int)
    requires 0 <= p1 && 0 <= n && p1 + n <= p2 && p2 + n <= fmap.Length
    modifies fmap
    ensures multiset(fmap[..]) == multiset(old(fmap[..]))
    ensures ExchangedRanges(old(fmap[..]), fmap[..], p1, p2, n)
  {
    var y := 0;
    while y < n
      invariant 0 <= y <= n
      invariant multiset(fmap[..]) == multiset(old(fmap[..]))
      invariant ExchangedRanges(old(fmap[..]), fmap[..], p1, p2, y)
    {
      ExchangedOneMore(old(fmap[..]), fmap[..], p1, p2, y);
      Swap(fmap, p1 + y, p2 + y);
      y := y + 1;
    }
  }

  /** `[lo, n]` below `med`, `(n, m)` equal to it, `[m, hi]` above it. */
  ghost predicate ThreeParts(ec: seq<nat>, f: seq<nat>, med: nat, lo: int, n: int, m: int, hi: int) {
    && 0 <= lo <= n + 1 <= m <= hi + 1 <= |f|
    && (forall k | lo <= k <= n :: Class(ec, f[k]) < med)
    && (forall k | n < k < m :: Class(ec, f[k]) == med)
    && (forall k | m <= k <= hi :: Class(ec, f[k]) > med)
  }

  function Min(a: int, b: int): int {
    if a < b then a else b
  }

  ghost predicate HalfGathered(ec: seq<nat>, f: seq<nat>, med: nat, lo: int, ltLo: int, unLo: int, unHi: int,
      gtHi: int, hi: int) {
    && 0 <= lo <= ltLo <= unLo == unHi + 1 <= gtHi + 1 <= hi + 1 <= |f|
    && (forall k | lo <= k < lo + unLo - ltLo :: Class(ec, f[k]) < med)
    && (forall k | lo + unLo - ltLo <= k < unLo :: Class(ec, f[k]) == med)
    && (forall k | gtHi < k <= hi :: Class(ec, f[k]) == med)
    && (forall k | unHi < k <= gtHi :: Class(ec, f[k]) > med)
  }

  lemma GatherLow(ec: seq<nat>, f: seq<nat>, g: seq<nat>, med: nat, lo: int, ltLo: int, unLo: int, unHi: int,
      gtHi: int, hi: int, n: int)
    requires unHi == unLo - 1 && Split(ec, f, med, lo, ltLo, unLo, unHi, gtHi, hi)
    requires n == Min(ltLo - lo, unLo - ltLo) && |g| == |f| && ExchangedRanges(f, g, lo, unLo - n, n)
    ensures HalfGathered(ec, g, med, lo, ltLo, unLo, unHi, gtHi, hi)
  {
    forall k | lo <= k < unLo
      ensures if k < lo + unLo - ltLo then Class(ec, g[k]) < med else Class(ec, g[k]) == med
    {
      assert g[k] == f[Partner(k, lo, unLo - n, n)];
    }
  }

  lemma SplitBounds(ec: seq<nat>, f: seq<nat>, med: nat, lo: int, ltLo: int, unLo: int, unHi: int, gtHi: int, hi: int)
    requires Split(ec, f, med, lo, ltLo, unLo, unHi, gtHi, hi)
    ensures 0 <= lo <= ltLo <= unLo <= unHi + 1 && unHi <= gtHi <= hi < |f|
  {
  }

  lemma HalfGatheredRange(ec: seq<nat>, f: seq<nat>, med: nat, lo: int, ltLo: int, unLo: int, unHi: int, gtHi: int,
      hi: int)
    requires HalfGathered(ec, f, med, lo, ltLo, unLo, unHi, gtHi, hi)
    ensures 0 <= lo <= ltLo <= unLo == unHi + 1 <= gtHi + 1 <= hi + 1 <= |f|
  {
  }

  method GatherBelow(fmap: array<nat>, ghost ec: seq<nat>, ghost med: nat, lo: int, ltLo: int, unLo: int,
      ghost unHi: int, ghost gtHi: int, ghost hi: int)
    requires unHi == unLo - 1 && Split(ec, fmap[..], med, lo, ltLo, unLo, unHi, gtHi, hi)
    modifies fmap
    ensures Rearranged(old(fmap[..]), fmap[..], lo, hi + 1)
    ensures HalfGathered(ec, fmap[..], med, lo, ltLo, unLo, unHi, gtHi, hi)
  {
    hide HalfGathered, Split, ExchangedRanges, Rearranged;
    SplitBounds(ec, fmap[..], med, lo, ltLo, unLo, unHi, gtHi, hi);
    ghost var f := fmap[..];
    var n := Min(ltLo - lo, unLo - ltLo);
    SwapRanges(fmap, lo, unLo - n, n);
    GatherLow(ec, f, fmap[..], med, lo, ltLo, unLo, unHi, gtHi, hi, n);
    ExchangedRearranges(f, fmap[..], lo, unLo - n, n, lo, hi + 1);
  }

  lemma GatherHigh(ec: seq<nat>, f: seq<nat>, g: seq<nat>, med: nat, lo: int, ltLo: int, unLo: int, unHi: int,
      gtHi: int, hi: int, m: int)
    requires HalfGathered(ec, f, med, lo, ltLo, unLo, unHi, gtHi, hi)
    requires m == Min(hi - gtHi, gtHi - unHi) && |g| == |f| && ExchangedRanges(f, g, unLo, hi - m + 1, m)
    ensures ThreeParts(ec, g, med, lo, lo + unLo - ltLo - 1, hi - (gtHi - unHi) + 1, hi)
  {
    forall k | unLo <= k <= hi
      ensures if k >= hi - (gtHi - unHi) + 1 then Class(ec, g[k]) > med else Class(ec, g[k]) == med
    {
      assert g[k] == f[Partner(k, unLo, hi - m + 1, m)];
    }
  }

  method GatherAbove(fmap: array<nat>, ghost ec: seq<nat>, ghost med: nat, ghost lo: int, ghost ltLo: int, unLo: int,
      unHi: int, gtHi: int, hi: int)
    requires HalfGathered(ec, fmap[..], med, lo, ltLo, unLo, unHi, gtHi, hi)
    modifies fmap
    ensures Rearranged(old(fmap[..]), fmap[..], lo, hi + 1)
    ensures ThreeParts(ec, fmap[..], med, lo, lo + unLo - ltLo - 1, hi - (gtHi - unHi) + 1, hi)
  {
    hide HalfGathered, ThreeParts, ExchangedRanges, Rearranged;
    HalfGatheredRange(ec, fmap[..], med, lo, ltLo, unLo, unHi, gtHi, hi);
    ghost var f := fmap[..];
    var m := Min(hi - gtHi, gtHi - unHi);
    SwapRanges(fmap, unLo, hi - m + 1, m);
    GatherHigh(ec, f, fmap[..], med, lo, ltLo, unLo, unHi, gtHi, hi, m);
    ExchangedRearranges(f, fmap[..], unLo, hi - m + 1, m, lo, hi + 1);
  }

  /** Move the two runs of equal entries from the ends to the middle. */
  method GatherEqual(fmap: array<nat>, ghost ec: seq<nat>, ghost med: nat, lo: int, ltLo: int, unLo: int, unHi: int,
      gtHi: int, hi: int) returns (n: int, m: int)
    requires unHi == unLo - 1 && Split(ec, fmap[..], med, lo, ltLo, unLo, unHi, gtHi, hi)
    modifies fmap
    ensures Rearranged(old(fmap[..]), fmap[..], lo, hi + 1)
    ensures n == lo + unLo - ltLo - 1 && m == hi - (gtHi - unHi) + 1
    ensures ThreeParts(ec, fmap[..], med, lo, n, m, hi)
  {
    GatherBelow(fmap, ec, med, lo, ltLo, unLo, unHi, gtHi, hi);
    GatherAbove(fmap, ec, med, lo, ltLo, unLo, unHi, gtHi, hi);
    n := lo + unLo - ltLo - 1;
    m := hi - (gtHi - unHi) + 1;
  }

  ghost predicate Covered(st: seq<(int, int)>, p: int, q: int) {
    exists k | 0 <= k < |st| :: st[k].0 <= p && q <= st[k].1
  }

  /** Every pair of entries is in order or lies inside one range still to be sorted. */
  ghost predicate SortedButFor(ec: seq<nat>, f: seq<nat>, st: seq<(int, int)>, lo: int, hi: int) {
    forall p, q | 0 <= lo <= p < q <= hi < |f| :: Class(ec, f[p]) <= Class(ec, f[q]) || Covered(st, p, q)
  }

  ghost predicate DisjointRanges(st: seq<(int, int)>, lo: int, hi: int) {
    && (forall k | 0 <= k < |st| :: lo <= st[k].0 <= st[k].1 + 1 && st[k].1 <= hi)
    && (forall j, k | 0 <= j < k < |st| :: st[j].1 < st[k].0 || st[k].1 < st[j].0)
  }

  lemma CoveredMore(st: seq<(int, int)>, more: seq<(int, int)>, p: int, q: int)
    requires Covered(more, p, q)
    ensures Covered(st + more, p, q)
  {
    var k :| 0 <= k < |more| && more[k].0 <= p && q <= more[k].1;
    assert (st + more)[|st| + k] == more[k];
  }

  /** Places inside one range, not both in the one on top, are inside a range that stays. */
  lemma CoveredStays(st: seq<(int, int)>, top: (int, int), more: seq<(int, int)>, p: int, q: int, lo: int, hi: int)
    requires DisjointRanges(st + [top], lo, hi) && Covered(st + [top], p, q) && p < q
    requires !(top.0 <= p <= top.1 && top.0 <= q <= top.1)
    ensures Covered(st + more, p, q) && !(top.0 <= p <= top.1) && !(top.0 <= q <= top.1)
  {
    var all := st + [top];
    var k :| 0 <= k < |all| && all[k].0 <= p && q <= all[k].1;
    assert all[|st|] == top;
    assert k < |st| && (st + more)[k] == st[k] == all[k];
  }

  lemma TopWithin(st: seq<(int, int)>, top: (int, int), lo: int, hi: int)
    requires DisjointRanges(st + [top], lo, hi)
    ensures lo <= top.0 && top.1 <= hi
  {
    assert (st + [top])[|st|] == top;
  }

  /** Sorting or splitting the range on top of the stack leaves the rest of the order intact. */
  lemma RefineRange(ec: seq<nat>, f: seq<nat>, g: seq<nat>, st: seq<(int, int)>, top: (int, int),
      more: seq<(int, int)>, lo: int, hi: int)
    requires 0 <= lo && hi < |f|
    requires DisjointRanges(st + [top], lo, hi) && SortedButFor(ec, f, st + [top], lo, hi)
    requires Rearranged(f, g, top.0, top.1 + 1) && 0 <= top.0 && top.1 < |g|
    requires forall p, q | top.0 <= p < q <= top.1 :: Class(ec, g[p]) <= Class(ec, g[q]) || Covered(more, p, q)
    ensures SortedButFor(ec, g, st + more, lo, hi)
  {
    hide Covered, DisjointRanges, Class;
    TopWithin(st, top, lo, hi);
    forall p, q | lo <= p < q <= hi ensures Class(ec, g[p]) <= Class(ec, g[q]) || Covered(st + more, p, q) {
      var pIn, qIn := top.0 <= p <= top.1, top.0 <= q <= top.1;
      if pIn && qIn {
        if Class(ec, g[p]) > Class(ec, g[q]) { CoveredMore(st, more, p, q); }
      } else {
        var p0, q0 := p, q;
        if pIn { p0 := RearrangedFrom(f, g, top.0, top.1 + 1, p); }
        if qIn { q0 := RearrangedFrom(f, g, top.0, top.1 + 1, q); }
        assert p0 < q0 && g[p] == f[p0] && g[q] == f[q0];
        if Class(ec, f[p0]) > Class(ec, f[q0]) { CoveredStays(st, top, more, p0, q0, lo, hi); }
      }
    }
  }

  /** `n` halved `k` times: no range at depth `k` of the stack is longer. */
  function Halved(n: nat, k: nat): nat {
    if k == 0 then n else Halved(n, k - 1) / 2
  }

  lemma {:induction false} HalvedShort(n: nat, k: nat, m: nat)
    requires k <= m && n < Pow2(m)
    ensures Halved(n, k) < Pow2(m - k)
  {
    if k > 0 {
      HalvedShort(n, k - 1, m);
    }
  }

  lemma {:induction false} HalvedMonotone(n: nat, j: nat, k: nat)
    requires j <= k
    ensures Halved(n, k) <= Halved(n, j)
  {
    if j < k {
      HalvedMonotone(n, j, k - 1);
    }
  }

  /** A range of more than 10 entries lies fewer than 31 deep, whatever a 32-bit block length. */
  lemma DeepRangesAreShort(n: nat, k: nat)
    requires n < 0x8000_0000 && Halved(n, k) > 10
    ensures k < 31
  {
    if k >= 31 {
      HalvedMonotone(n, 31, k);
      assert Pow2(8) == 0x100;
      assert Pow2(16) == 0x1_0000;
      assert Pow2(24) == 0x100_0000;
      assert Pow2(31) == 0x8000_0000;
      HalvedShort(n, 31, 31);
    }
  }

  ghost predicate Halving(st: seq<(int, int)>, n: nat) {
    forall k | 0 <= k < |st| :: st[k].1 - st[k].0 + 1 <= Halved(n, k)
  }

  /** Termination measure of the stack. */
  ghost function Work(st: seq<(int, int)>): int {
    if st == [] then 0 else Work(st[..|st| - 1]) + 2 * (st[|st| - 1].1 - st[|st| - 1].0 + 1) + 1
  }

  lemma {:induction false} WorkNonNegative(st: seq<(int, int)>, lo: int, hi: int)
    requires DisjointRanges(st, lo, hi)
    ensures Work(st) >= |st|
  {
    if st != [] {
      WorkNonNegative(st[..|st| - 1], lo, hi);
    }
  }

  lemma WorkPush(st: seq<(int, int)>, a: (int, int), b: (int, int))
    ensures Work(st + [a, b]) == Work(st) + 2 * (a.1 - a.0 + 1 + b.1 - b.0 + 1) + 2
    ensures Work(st + [a]) == Work(st) + 2 * (a.1 - a.0 + 1) + 1
  {
    assert (st + [a, b])[..|st| + 1] == st + [a];
    assert (st + [a])[..|st|] == st;
  }

  lemma SplitRange(ec: seq<nat>, f: seq<nat>, g: seq<nat>, st: seq<(int, int)>, top: (int, int), med: nat, n: int,
      m: int, a: (int, int), b: (int, int), lo: int, hi: int)
    requires 0 <= lo && hi < |f|
    requires DisjointRanges(st + [top], lo, hi) && SortedButFor(ec, f, st + [top], lo, hi)
    requires Rearranged(f, g, top.0, top.1 + 1) && ThreeParts(ec, g, med, top.0, n, m, top.1)
    requires (a == (top.0, n) && b == (m, top.1)) || (b == (top.0, n) && a == (m, top.1))
    ensures SortedButFor(ec, g, st + [a, b], lo, hi)
  {
    forall p, q | top.0 <= p < q <= top.1 ensures Class(ec, g[p]) <= Class(ec, g[q]) || Covered([a, b], p, q) {
      assert [a, b][0] == a && [a, b][1] == b;
    }
    RefineRange(ec, f, g, st, top, [a, b], lo, hi);
  }

  lemma PushDisjoint(st: seq<(int, int)>, top: (int, int), n: int, m: int, a: (int, int), b: (int, int), lo: int,
      hi: int)
    requires DisjointRanges(st + [top], lo, hi)
    requires top.0 <= n + 1 <= m - 1 <= top.1
    requires (a == (top.0, n) && b == (m, top.1)) || (b == (top.0, n) && a == (m, top.1))
    ensures DisjointRanges(st + [a, b], lo, hi)
  {
    var all, s := st + [a, b], st + [top];
    assert s[|st|] == top;
    forall k | 0 <= k < |st| ensures all[k] == s[k] { }
    forall j, k | 0 <= j < k < |all| ensures all[j].1 < all[k].0 || all[k].1 < all[j].0 {
      if j < |st| <= k {
        assert s[j].1 < s[|st|].0 || s[|st|].1 < s[j].0;
      }
    }
  }

  lemma PushHalving(st: seq<(int, int)>, top: (int, int), a: (int, int), b: (int, int), size: nat)
    requires Halving(st + [top], size)
    requires a.1 - a.0 >= b.1 - b.0 && (a.1 - a.0 + 1) + (b.1 - b.0 + 1) <= top.1 - top.0 + 1
    requires a.1 - a.0 + 1 >= 0 && b.1 - b.0 + 1 >= 0
    ensures Halving(st + [a, b], size)
  {
    var all, s := st + [a, b], st + [top];
    assert s[|st|] == top;
    forall k | 0 <= k < |all| ensures all[k].1 - all[k].0 + 1 <= Halved(size, k) {
      if k < |st| { assert all[k] == s[k]; }
    }
  }

  /** What the explicit stack `st` guarantees about the entries `f` of `[lo, hi]`, which started as `was`. */
  ghost predicate StackState(ec: seq<nat>, was: seq<nat>, f: seq<nat>, st: seq<(int, int)>, lo: int, hi: int) {
    && 0 <= lo <= hi < |f|
    && Rearranged(was, f, lo, hi + 1) && InClasses(ec, f, lo, hi + 1)
    && DisjointRanges(st, lo, hi) && Halving(st, hi - lo + 1)
    && SortedButFor(ec, f, st, lo, hi)
  }

  lemma StackIsShort(ec: seq<nat>, was: seq<nat>, f: seq<nat>, st: seq<(int, int)>, top: (int, int), lo: int, hi: int)
    requires StackState(ec, was, f, st + [top], lo, hi)
    requires hi - lo < 0x7fff_ffff && top.1 - top.0 >= SMALL_THRESH
    ensures |st| < 31
  {
    assert (st + [top])[|st|] == top;
    DeepRangesAreShort(hi - lo + 1, |st|);
  }

  lemma PopSorted(ec: seq<nat>, was: seq<nat>, f: seq<nat>, g: seq<nat>, st: seq<(int, int)>, top: (int, int), lo: int,
      hi: int)
    requires StackState(ec, was, f, st + [top], lo, hi)
    requires lo <= top.0 && top.1 <= hi && Rearranged(f, g, top.0, top.1 + 1) && InClasses(ec, g, top.0, top.1 + 1)
    requires ClassSorted(ec, g, top.0, top.1 + 1)
    ensures StackState(ec, was, g, st, lo, hi)
  {
    var s := st + [top];
    assert st == s[..|st|];
    RefineRange(ec, f, g, st, top, [], lo, hi);
    assert st + [] == st;
    RearrangedInClasses(ec, was, was, lo, lo);
    assert forall k | 0 <= k < |st| :: st[k] == s[k];
    assert forall k | lo <= k <= hi :: g[k] < |ec| by {
      forall k | lo <= k <= hi ensures g[k] < |ec| {
        if !(top.0 <= k <= top.1) { assert g[k] == f[k]; }
      }
    }
  }

  lemma PopSplit(ec: seq<nat>, was: seq<nat>, f: seq<nat>, g: seq<nat>, st: seq<(int, int)>, top: (int, int), med: nat,
      n: int, m: int, a: (int, int), b: (int, int), lo: int, hi: int)
    requires StackState(ec, was, f, st + [top], lo, hi)
    requires lo <= top.0 && top.1 <= hi && Rearranged(f, g, top.0, top.1 + 1) && InClasses(ec, g, top.0, top.1 + 1)
    requires ThreeParts(ec, g, med, top.0, n, m, top.1) && n + 1 < m
    requires (a == (top.0, n) && b == (m, top.1)) || (b == (top.0, n) && a == (m, top.1))
    requires a.1 - a.0 >= b.1 - b.0
    ensures StackState(ec, was, g, st + [a, b], lo, hi)
    ensures Work(st + [a, b]) < Work(st + [top])
  {
    SplitRange(ec, f, g, st, top, med, n, m, a, b, lo, hi);
    PushDisjoint(st, top, n, m, a, b, lo, hi);
    PushHalving(st, top, a, b, hi - lo + 1);
    WorkPush(st, a, b);
    WorkPush(st, top, top);
    forall k | lo <= k <= hi ensures g[k] < |ec| {
      if !(top.0 <= k <= top.1) { assert g[k] == f[k]; }
    }
  }

  /** Some entry equals the pivot, so a partition always sets at least one entry aside. */
  lemma PivotIsSomewhere(ec: seq<nat>, f: seq<nat>, g: seq<nat>, med: nat, lo: int, n: int, m: int, hi: int, at: int)
    requires Rearranged(f, g, lo, hi + 1) && lo <= at <= hi && ThreeParts(ec, g, med, lo, n, m, hi)
    requires Class(ec, f[at]) == med
    ensures n + 1 < m
  {
    RearrangedSym(f, g, lo, hi + 1);
    var q := RearrangedFrom(g, f, lo, hi + 1, at);
  }

  /** Partition a range about the class of entry `at`; `done` when all its entries are equal. */
  method SplitAbout(fmap: array<nat>, eclass: array<nat>, lo: int, hi: int, at: int)
    returns (done: bool, n: int, m: int, ghost med: nat)
    requires fmap != eclass
    requires 0 <= lo <= at <= hi < fmap.Length && InClasses(eclass[..], fmap[..], lo, hi + 1)
    modifies fmap
    ensures Rearranged(old(fmap[..]), fmap[..], lo, hi + 1) && InClasses(eclass[..], fmap[..], lo, hi + 1)
    ensures done ==> ClassSorted(eclass[..], fmap[..], lo, hi + 1)
    ensures !done ==> ThreeParts(eclass[..], fmap[..], med, lo, n, m, hi) && n + 1 < m
  {
    ghost var ec, f := eclass[..], fmap[..];
    var pivot := eclass[fmap[at]];
    med := pivot;
    var ltLo, unLo, unHi, gtHi := Partition(fmap, eclass, pivot, lo, hi);
    if gtHi < ltLo {
      return true, lo, hi, med;
    }
    done := false;
    n, m := GatherEqual(fmap, ec, med, lo, ltLo, unLo, unHi, gtHi, hi);
    PivotIsSomewhere(ec, f, fmap[..], med, lo, n, m, hi, at);
    RearrangedInClasses(ec, f, fmap[..], lo, hi + 1);
  }

  /** Sort or partition the range on top of the stack; the ranges it leaves, larger one first. */
  method RefineTop(fmap: array<nat>, eclass: array<nat>, lo: int, hi: int, r0: int,
                   ghost was: seq<nat>, ghost rest: seq<(int, int)>, ghost loSt: int, ghost hiSt: int)
    returns (done: bool, a: (int, int), b: (int, int), r: int)
    requires 0 <= r0 < 32768 && fmap != eclass && |was| == fmap.Length && hiSt - loSt < 0x7fff_ffff
    requires StackState(eclass[..], was, fmap[..], rest + [(lo, hi)], loSt, hiSt)
    modifies fmap
    ensures StackState(eclass[..], was, fmap[..], if done then rest else rest + [a, b], loSt, hiSt)
    ensures 0 <= r < 32768
    ensures !done ==> |rest| < 31 && Work(rest + [a, b]) < Work(rest + [(lo, hi)])
  {
    ghost var ec, f, top := eclass[..], fmap[..], (lo, hi);
    assert (rest + [top])[|rest|] == top;
    a, b, r := (lo, hi), (lo, hi), r0;
    if hi - lo < SMALL_THRESH {
      SimpleSort(fmap, eclass, lo, hi);
      PopSorted(ec, was, f, fmap[..], rest, top, loSt, hiSt);
      return true, a, b, r;
    }
    StackIsShort(ec, was, f, rest, top, loSt, hiSt);
    r := (r * 7621 + 1) % 32768;
    var r3 := r % 3;
    var at := if r3 == 0 then lo else if r3 == 1 then (lo + hi) / 2 else hi;
    var n, m;
    ghost var med;
    done, n, m, med := SplitAbout(fmap, eclass, lo, hi, at);
    if done {
      PopSorted(ec, was, f, fmap[..], rest, top, loSt, hiSt);
    } else {
      a, b := if n - lo > hi - m then (lo, n) else (m, hi), if n - lo > hi - m then (m, hi) else (lo, n);
      PopSplit(ec, was, f, fmap[..], rest, top, med, n, m, a, b, loSt, hiSt);
    }
  }

  lemma PopWork(rest: seq<(int, int)>, top: (int, int), lo: int, hi: int)
    requires DisjointRanges(rest + [top], lo, hi)
    ensures 0 <= Work(rest) < Work(rest + [top])
  {
    assert (rest + [top])[|rest|] == top;
    assert forall k | 0 <= k < |rest| :: rest[k] == (rest + [top])[k];
    WorkNonNegative(rest, lo, hi);
    WorkPush(rest, top, top);
  }

  /** The two stack arrays hold the ranges of `st`. */
  ghost predicate Mirrors(los: seq<int>, his: seq<int>, st: seq<(int, int)>) {
    && |st| <= |los| == |his|
    && forall k {:trigger st[k]} | 0 <= k < |st| :: los[k] == st[k].0 && his[k] == st[k].1
  }

  method Push(stackLo: array<int>, stackHi: array<int>, sp: int, a: (int, int), b: (int, int),
      ghost rest: seq<(int, int)>)
    requires stackLo != stackHi && sp == |rest| && sp + 2 <= stackLo.Length
    requires Mirrors(stackLo[..], stackHi[..], rest)
    modifies stackLo, stackHi
    ensures Mirrors(stackLo[..], stackHi[..], rest + [a, b])
  {
    stackLo[sp], stackHi[sp] := a.0, a.1;
    stackLo[sp + 1], stackHi[sp + 1] := b.0, b.1;
  }

  lemma PopMirrors(los: seq<int>, his: seq<int>, st: seq<(int, int)>)
    requires Mirrors(los, his, st) && st != []
    ensures var n := |st| - 1;
            st == st[..n] + [(los[n], his[n])] && Mirrors(los, his, st[..n])
  {
  }

  lemma StackStart(ec: seq<nat>, f: seq<nat>, lo: int, hi: int)
    requires 0 <= lo <= hi < |f| && InClasses(ec, f, lo, hi + 1)
    ensures StackState(ec, f, f, [(lo, hi)], lo, hi)
  {
    forall p, q | lo <= p < q <= hi ensures Covered([(lo, hi)], p, q) {
      assert [(lo, hi)][0] == (lo, hi);
    }
  }

  lemma StackEmpty(ec: seq<nat>, was: seq<nat>, f: seq<nat>, lo: int, hi: int)
    requires StackState(ec, was, f, [], lo, hi)
    ensures Rearranged(was, f, lo, hi + 1) && ClassSorted(ec, f, lo, hi + 1)
  {
  }

  lemma StackTopWork(ec: seq<nat>, was: seq<nat>, f: seq<nat>, rest: seq<(int, int)>, top: (int, int), lo: int, hi: int)
    requires StackState(ec, was, f, rest + [top], lo, hi)
    ensures 0 <= Work(rest) < Work(rest + [top])
  {
    PopWork(rest, top, lo, hi);
  }

  lemma MirrorsOne(los: seq<int>, his: seq<int>)
    requires |los| == |his| > 0
    ensures Mirrors(los, his, [(los[0], his[0])])
  {
  }

  method QuickSort3(fmap: array<nat>, eclass: array<nat>, loSt: int, hiSt: int)
    requires fmap != eclass
    requires 0 <= loSt <= hiSt < fmap.Length && hiSt - loSt < 0x7fff_ffff
    requires InClasses(eclass[..], fmap[..], loSt, hiSt + 1)
    modifies fmap
    ensures Rearranged(old(fmap[..]), fmap[..], loSt, hiSt + 1)
    ensures ClassSorted(eclass[..], fmap[..], loSt, hiSt + 1)
  {
    hide StackState, Mirrors, Work, Rearranged, ClassSorted, InClasses;
    ghost var ec, was := eclass[..], fmap[..];
    StackStart(ec, was, loSt, hiSt);
    var stackLo, stackHi := new int[STACK_SIZE], new int[STACK_SIZE];
    var r, sp := 0, 1;
    stackLo[0], stackHi[0] := loSt, hiSt;
    ghost var st := [(loSt, hiSt)];
    MirrorsOne(stackLo[..], stackHi[..]);
    while sp > 0
      invariant eclass[..] == ec && 0 <= r < 32768
      invariant sp == |st| <= 33
      invariant Mirrors(stackLo[..], stackHi[..], st)
      invariant StackState(ec, was, fmap[..], st, loSt, hiSt)
      decreases Work(st)
    {
      assert sp < STACK_SIZE - 1;
      sp := sp - 1;
      var lo, hi := stackLo[sp], stackHi[sp];
      ghost var rest := st[..sp];
      PopMirrors(stackLo[..], stackHi[..], st);
      StackTopWork(ec, was, fmap[..], rest, (lo, hi), loSt, hiSt);
      var done, a, b;
      done, a, b, r := RefineTop(fmap, eclass, lo, hi, r, was, rest, loSt, hiSt);
      ghost var f := fmap[..];
      if done {
        st := rest;
      } else {
        Push(stackLo, stackHi, sp, a, b, rest);
        st := rest + [a, b];
        sp := sp + 2;
      }
      assert fmap[..] == f;
    }
    assert st == [];
    StackEmpty(ec, was, fmap[..], loSt, hiSt);
  }
}
