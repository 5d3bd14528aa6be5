/** The start of the main sort: rows bucketed by their first two bytes, and the order in which buckets are taken up. */
module MainBuckets {
  import opened Bytes
  import opened Rotations
  import opened Permutations
  import opened RadixPass
  import opened FallbackQuickSort
  import opened MainCompare
  import opened MainQuickSort

  const PAIRS := 65536

  /** The first two bytes of the rotation at `x`. */
  ghost function Pair(b: seq<byte>, x: nat): (k: nat)
    requires |b| > 0
    ensures k < PAIRS
  {
    256 * At(b, x) + At(b, x + 1)
  }

  ghost function Pairs(b: seq<byte>): (keys: seq<int>)
    ensures |keys| == |b| && forall x | 0 <= x < |b| :: keys[x] == Pair(b, x) && 0 <= keys[x] < PAIRS
  {
    seq(|b|, x requires 0 <= x < |b| => Pair(b, x))
  }

  lemma PairsSize(b: seq<byte>)
    ensures |Pairs(b)| == |b|
  {
  }

  lemma SuffixCount(keys: seq<int>, i: nat, c: int)
    requires i < |keys|
    ensures multiset(keys[i..])[c] == multiset(keys[i + 1..])[c] + if keys[i] == c then 1 else 0
  {
    assert keys[i..] == [keys[i]] + keys[i + 1..];
  }

  lemma SuffixCountAtMost(keys: seq<int>, i: nat, c: int)
    requires i <= |keys|
    ensures multiset(keys[i..])[c] <= multiset(keys)[c]
  {
    assert keys == keys[..i] + keys[i..];
  }

  /** No key is below 0, and all are below the number of keys there can be. */
  lemma {:induction false} StartAll(keys: seq<int>, k: int)
    requires forall x | 0 <= x < |keys| :: 0 <= keys[x] < k
    ensures Start(keys, 0) == 0 && Start(keys, k) == |keys|
  {
    if keys != [] {
      StartAll(keys[..|keys| - 1], k);
    }
  }

  /** The pair of bytes at `i`, from the one at `i + 1`. */
  lemma PairBefore(b: seq<byte>, i: nat, j: nat)
    requires i < |b| && j < PAIRS && j / 256 == At(b, i + 1)
    ensures j / 256 + 256 * (b[i] as int) == Pairs(b)[i] < PAIRS && Pairs(b)[i] / 256 == At(b, i)
  {
  }

  lemma PairAfterLast(b: seq<byte>)
    requires |b| > 0
    ensures At(b, |b|) == b[0]
  {
  }

  /** The pairs of bytes are counted from the last row to the first, and the quadrants of the block are cleared. */
  method CountPairs(block: array<byte>, quadrant: array<u16>, ftab: array<nat>, nblock: nat, ghost b: seq<byte>)
    requires block as object !in {quadrant as object, ftab} && quadrant as object != ftab as object
    requires 0 < nblock == |b| <= block.Length && nblock <= quadrant.Length && block[..nblock] == b
    requires ftab.Length == PAIRS + 1
    modifies quadrant, ftab
    ensures forall c | 0 <= c < PAIRS :: ftab[c] == multiset(Pairs(b))[c]
    ensures ftab[PAIRS] == 0 && forall k | 0 <= k < nblock :: quadrant[k] == 0
  {
    hide At, Pairs;
    for k := 0 to PAIRS + 1
      invariant forall c | 0 <= c < k :: ftab[c] == 0
    {
      ftab[k] := 0;
    }
    ghost var keys := Pairs(b);
    assert |keys| == |b| by { PairsSize(b); }
    assert keys[nblock..] == [];
    PairAfterLast(b);
    assert block[..nblock][0] == b[0];
    var j: nat := block[0] as int * 256;
    var i := nblock;
    while i > 0
      invariant 0 <= i <= nblock && j < PAIRS && j / 256 == At(b, i)
      invariant forall c | 0 <= c < PAIRS :: ftab[c] == multiset(keys[i..])[c]
      invariant ftab[PAIRS] == 0 && forall k | i <= k < nblock :: quadrant[k] == 0
    {
      i := i - 1;
      PairBefore(b, i, j);
      assert block[..nblock][i] == b[i];
      forall c: int ensures multiset(keys[i..])[c] == multiset(keys[i + 1..])[c] + if keys[i] == c then 1 else 0 {
        SuffixCount(keys, i, c);
      }
      quadrant[i] := 0;
      j := j / 256 + 256 * (block[i] as int);
      ftab[j] := ftab[j] + 1;
    }
    assert keys[0..] == keys;
  }

  /** The first bytes of the block are repeated behind it. */
  method SetOvershoot(block: array<byte>, quadrant: array<u16>, nblock: nat, ghost b: seq<byte>)
    requires block as object != quadrant as object && OVERSHOOT < nblock == |b|
    requires block.Length == quadrant.Length == nblock + OVERSHOOT && block[..nblock] == b
    modifies block, quadrant
    ensures Wrapped(b, block[..]) && forall k | 0 <= k < nblock :: quadrant[k] == old(quadrant[k])
    ensures forall k | nblock <= k < quadrant.Length :: quadrant[k] == 0
  {
    hide At;
    var i := 0;
    while i < OVERSHOOT
      invariant 0 <= i <= OVERSHOOT && block[..nblock] == b
      invariant forall k | 0 <= k < i :: block[nblock + k] == b[k]
      invariant forall k | 0 <= k < nblock :: quadrant[k] == old(quadrant[k])
      invariant forall k | nblock <= k < nblock + i :: quadrant[k] == 0
    {
      assert block[..nblock][i] == b[i];
      block[nblock + i] := block[i];
      quadrant[nblock + i] := 0;
      i := i + 1;
    }
    forall k | 0 <= k < block.Length ensures block[..][k] == At(b, k) {
      if k < nblock {
        AtPeriod(b, k);
        assert block[..nblock][k] == b[k];
      } else {
        AtPeriod(b, k - nblock);
        assert block[nblock + (k - nblock)] == b[k - nblock];
      }
    }
  }

  /** Turn counts into bucket ends. */
  method AccumulatePairs(ftab: array<nat>, ghost keys: seq<int>)
    requires ftab.Length == PAIRS + 1 && ftab[PAIRS] == 0
    requires forall c | 0 <= c < PAIRS :: ftab[c] == multiset(keys)[c]
    requires forall x | 0 <= x < |keys| :: 0 <= keys[x] < PAIRS
    modifies ftab
    ensures forall c | 0 <= c < PAIRS :: ftab[c] == Start(keys, c + 1)
    ensures ftab[PAIRS] == |keys|
  {
    hide Start;
    StartAll(keys, PAIRS);
    StartNext(keys, 0);
    var i := 1;
    while i <= PAIRS
      invariant 1 <= i <= PAIRS + 1
      invariant forall c | 0 <= c < PAIRS :: ftab[c] == if c < i then Start(keys, c + 1) else multiset(keys)[c]
      invariant ftab[PAIRS] == if i == PAIRS + 1 then |keys| else 0
    {
      if i < PAIRS { StartNext(keys, i); }
      ftab[i] := ftab[i] + ftab[i - 1];
      i := i + 1;
    }
  }

  /** Free places of each bucket while the rows from `i` on have been placed. */
  ghost predicate FreePlaces(keys: seq<int>, ft: seq<nat>, i: nat) {
    && |ft| == PAIRS + 1 && i <= |keys| && (forall x | 0 <= x < |keys| :: 0 <= keys[x] < PAIRS)
    && forall c | 0 <= c < PAIRS :: ft[c] + multiset(keys[i..])[c] == Start(keys, c + 1)
  }

  lemma FreePlacesNext(keys: seq<int>, ft: seq<nat>, i: nat)
    requires i < |keys| && FreePlaces(keys, ft, i + 1)
    ensures 0 <= keys[i] < PAIRS && 0 < ft[keys[i]] <= |keys| && InBucket(keys, keys[i], ft[keys[i]] - 1)
    ensures FreePlaces(keys, ft[keys[i] := ft[keys[i]] - 1], i)
  {
    hide Start;
    forall c: int ensures multiset(keys[i..])[c] == multiset(keys[i + 1..])[c] + if keys[i] == c then 1 else 0 {
      SuffixCount(keys, i, c);
    }
    SuffixCountAtMost(keys, i, keys[i]);
    StartNext(keys, keys[i]);
  }

  /** The rows from `i` on are placed from the ends of their buckets down; row `x` went to `slot[x]`. */
  ghost predicate PlacedFrom(keys: seq<int>, f: seq<nat>, ft: seq<nat>, slot: seq<nat>, i: nat) {
    && |f| == |keys| == |slot| && |ft| == PAIRS + 1
    && forall x | i <= x < |keys| ::
         && 0 <= keys[x] < PAIRS && slot[x] < |keys| && ft[keys[x]] <= slot[x] && InBucket(keys, keys[x], slot[x])
         && f[slot[x]] == x
  }

  lemma PlaceFromNext(keys: seq<int>, f: seq<nat>, ft: seq<nat>, slot: seq<nat>, i: nat, k: nat)
    requires i < |keys| && PlacedFrom(keys, f, ft, slot, i + 1)
    requires 0 <= keys[i] < PAIRS && ft[keys[i]] == k + 1 <= |keys| && InBucket(keys, keys[i], k)
    ensures PlacedFrom(keys, f[k := i], ft[keys[i] := k], slot[i := k], i)
  {
    hide InBucket;
    var j := keys[i];
    var f1, ft1, slot1 := f[k := i], ft[j := k], slot[i := k];
    forall x | i <= x < |keys|
      ensures && 0 <= keys[x] < PAIRS && slot1[x] < |keys| && ft1[keys[x]] <= slot1[x]
        && InBucket(keys, keys[x], slot1[x]) && f1[slot1[x]] == x
    {
      if x > i && slot[x] == k {
        BucketsDisjoint(keys, keys[x], j, k);
      }
    }
  }

  lemma PlacedFromAll(keys: seq<int>, f: seq<nat>, ft: seq<nat>, slot: seq<nat>)
    requires PlacedFrom(keys, f, ft, slot, 0)
    ensures Grouped(keys, f)
  {
    hide InBucket, IsPermutation;
    InverseIsPermutation(f, slot);
    forall p: nat | p < |f| ensures f[p] < |keys| && InBucket(keys, keys[f[p]], p) {
      assert slot[f[p]] == p;
    }
  }

  /** All rows placed, the counters are at the starts. */
  lemma FreePlacesEnd(keys: seq<int>, ft: seq<nat>)
    requires FreePlaces(keys, ft, 0)
    ensures forall c | 0 <= c < PAIRS :: ft[c] == Start(keys, c)
  {
    hide Start;
    assert keys[0..] == keys;
    forall c | 0 <= c < PAIRS ensures ft[c] == Start(keys, c) { StartNext(keys, c); }
  }

  /** A row goes to the last free place of its bucket. */
  method PlacePair(ptr: array<nat>, ftab: array<nat>, s: nat, i: nat)
    requires ptr != ftab && s < ftab.Length && 0 < ftab[s] <= ptr.Length
    modifies ptr, ftab
    ensures var k := old(ftab[s]) - 1; ptr[..] == old(ptr[..])[k := i] && ftab[..] == old(ftab[..])[s := k]
  {
    var j: nat := ftab[s] - 1;
    ftab[s] := j;
    ptr[j] := i;
  }

  lemma PlacedNone(keys: seq<int>, f: seq<nat>, ft: seq<nat>)
    requires |f| == |keys| && |ft| == PAIRS + 1 && (forall x | 0 <= x < |keys| :: 0 <= keys[x] < PAIRS)
    requires forall c | 0 <= c < PAIRS :: ft[c] == Start(keys, c + 1)
    ensures PlacedFrom(keys, f, ft, f, |keys|) && FreePlaces(keys, ft, |keys|)
  {
    hide Start;
    assert keys[|keys|..] == [];
  }

  /** The rows are placed from the last to the first. */
  method PlacePairs(ptr: array<nat>, block: array<byte>, ftab: array<nat>, nblock: nat, ghost b: seq<byte>)
    requires ptr != ftab && block as object !in {ptr as object, ftab}
    requires ptr.Length == nblock && ftab.Length == PAIRS + 1
    requires 0 < nblock == |b| <= block.Length && block[..nblock] == b
    requires forall c | 0 <= c < PAIRS :: ftab[c] == Start(Pairs(b), c + 1)
    modifies ptr, ftab
    ensures Grouped(Pairs(b), ptr[..]) && forall c | 0 <= c < PAIRS :: ftab[c] == Start(Pairs(b), c)
    ensures ftab[PAIRS] == old(ftab[PAIRS])
  {
    hide At, PlacedFrom, FreePlaces, Start, InBucket, Grouped;
    ghost var keys, slot: seq<nat>, end := Pairs(b), ptr[..], ftab[PAIRS];
    PlacedNone(keys, ptr[..], ftab[..]);
    PairAfterLast(b);
    assert block[..nblock][0] == b[0];
    var s: nat := block[0] as int * 256;
    var i := nblock;
    while i > 0
      invariant 0 <= i <= nblock && s < PAIRS && s / 256 == At(b, i) && block[..nblock] == b
      invariant PlacedFrom(keys, ptr[..], ftab[..], slot, i) && FreePlaces(keys, ftab[..], i) && ftab[PAIRS] == end
      invariant |slot| == nblock
    {
      i := i - 1;
      PairBefore(b, i, s);
      assert block[..nblock][i] == b[i];
      s := s / 256 + 256 * (block[i] as int);
      FreePlacesNext(keys, ftab[..], i);
      ghost var k: nat := ftab[s] - 1;
      PlaceFromNext(keys, ptr[..], ftab[..], slot, i, k);
      PlacePair(ptr, ftab, s, i);
      slot := slot[i := k];
    }
    FreePlacesEnd(keys, ftab[..]);
    PlacedFromAll(keys, ptr[..], ftab[..], slot);
  }

  // ----- the running order -----

  ghost function BigFreq(ft: seq<nat>, c: int): int
    requires |ft| == PAIRS + 1 && 0 <= c < 256
  {
    ft[256 * (c + 1)] as int - ft[256 * c]
  }

  ghost predicate Rising(ft: seq<nat>) {
    |ft| == PAIRS + 1 && forall c | 0 <= c < 256 :: BigFreq(ft, c) >= 0
  }

  /** How many rows start with each byte. */
  ghost function BigFreqs(ft: seq<nat>): (r: seq<nat>)
    requires Rising(ft)
    ensures |r| == 256 && forall c | 0 <= c < 256 :: r[c] == BigFreq(ft, c)
  {
    seq(256, c requires 0 <= c < 256 => BigFreq(ft, c))
  }

  /** `BIGFREQ` */
  method CountOf(ftab: array<nat>, c: nat) returns (n: nat)
    requires Rising(ftab[..]) && c < 256
    ensures n == BigFreqs(ftab[..])[c]
  {
    assert BigFreq(ftab[..], c) >= 0;
    n := ftab[256 * (c + 1)] - ftab[256 * c];
  }

  lemma LoweringInClasses(ec: seq<nat>, was: seq<nat>, g: seq<nat>, lo: int, hi: int, i: int, keep: bool, hole: int)
    requires Lowering(ec, was, g, lo, hi, i, keep, hole) && InClasses(ec, was, lo, hi)
    ensures InClasses(ec, g, lo, hi)
  {
    RearrangedInClasses(ec, was, g, lo, hi);
  }

  lemma InClassesAt(ec: seq<nat>, f: seq<nat>, k: int)
    requires InClasses(ec, f, 0, 256) && 0 <= k < 256 == |f| && |ec| == 256
    ensures f[k] < 256 && Class(ec, f[k]) == ec[f[k]]
  {
  }

  /** One insertion of the shell sort of the big buckets. */
  method InsertBucket(runningOrder: array<nat>, ftab: array<nat>, h: int, i: int)
    requires runningOrder != ftab && runningOrder.Length == 256 && Rising(ftab[..]) && 0 < h <= i < 256
    requires InClasses(BigFreqs(ftab[..]), runningOrder[..], 0, 256)
    modifies runningOrder
    ensures Rearranged(old(runningOrder[..]), runningOrder[..], 0, 256)
    ensures h == 1 && ClassSorted(BigFreqs(ftab[..]), old(runningOrder[..]), 0, i) ==>
              ClassSorted(BigFreqs(ftab[..]), runningOrder[..], 0, i + 1)
  {
    hide Lowering, Rearranged, ClassSorted, InClasses, Swapped, Class, BigFreqs, BigFreq, Rising;
    ghost var was, g, ec := runningOrder[..], runningOrder[..], BigFreqs(ftab[..]);
    ghost var keep := h == 1 && ClassSorted(ec, was, 0, i);
    LoweringStart(ec, was, 0, 256, i, keep);
    InClassesAt(ec, was, i);
    var vv, j := runningOrder[i], i;
    assert g == runningOrder[..][j := vv];
    while true
      invariant h <= j <= i && ftab[..] == old(ftab[..])
      invariant g == runningOrder[..][j := vv] && Lowering(ec, was, g, 0, 256, i, keep, j)
      decreases j
    {
      LoweringInClasses(ec, was, g, 0, 256, i, keep, j);
      InClassesAt(ec, g, j - h);
      assert g[j - h] == runningOrder[j - h] && g[j] == vv;
      var before := CountOf(ftab, runningOrder[j - h]);
      var own := CountOf(ftab, vv);
      if before <= own { break; }
      LoweringStep(ec, was, g, 0, 256, i, keep, j, h);
      ghost var a := runningOrder[..];
      HoleSinks(a, vv, j, h);
      runningOrder[j] := runningOrder[j - h];
      assert runningOrder[..] == a[j := a[j - h]];
      g := Swapped(g, j - h, j);
      j := j - h;
      if j <= h - 1 { break; }
    }
    LoweringDone(ec, was, g, 0, 256, i, keep, j);
    runningOrder[j] := vv;
    assert runningOrder[..] == g;
  }

  /** One pass of the shell sort. */
  method BucketPass(runningOrder: array<nat>, ftab: array<nat>, h: int)
    requires runningOrder != ftab && runningOrder.Length == 256 && Rising(ftab[..]) && 0 < h < 256
    requires InClasses(BigFreqs(ftab[..]), runningOrder[..], 0, 256)
    modifies runningOrder
    ensures Rearranged(old(runningOrder[..]), runningOrder[..], 0, 256)
    ensures InClasses(BigFreqs(ftab[..]), runningOrder[..], 0, 256)
    ensures h == 1 ==> ClassSorted(BigFreqs(ftab[..]), runningOrder[..], 0, 256)
  {
    hide Rearranged, ClassSorted, InClasses, BigFreqs, Rising;
    ghost var was, ec := runningOrder[..], BigFreqs(ftab[..]);
    RearrangedSelf(was, 0, 256);
    OneRowSorted(ec, was, 0);
    var i := h;
    while i <= 255
      invariant h <= i <= 256 && ftab[..] == old(ftab[..])
      invariant Rearranged(was, runningOrder[..], 0, 256) && InClasses(ec, runningOrder[..], 0, 256)
      invariant h == 1 ==> ClassSorted(ec, runningOrder[..], 0, i)
    {
      ghost var f := runningOrder[..];
      InsertBucket(runningOrder, ftab, h, i);
      RearrangedInClasses(ec, f, runningOrder[..], 0, 256);
      RearrangedTwice(was, f, runningOrder[..], 0, 256);
      i := i + 1;
    }
  }

  lemma StillPermutation(was: seq<nat>, f: seq<nat>)
    requires Rearranged(was, f, 0, 256) && was == Iota(256)
    ensures IsPermutation(f)
  {
  }

  /** The big buckets, from the smallest to the largest. */
  method OrderBuckets(ftab: array<nat>) returns (runningOrder: array<nat>)
    requires Rising(ftab[..])
    ensures fresh(runningOrder) && runningOrder.Length == 256 && IsPermutation(runningOrder[..])
    ensures ClassSorted(BigFreqs(ftab[..]), runningOrder[..], 0, 256)
  {
    hide Rearranged, ClassSorted, BigFreqs, Rising;
    runningOrder := new nat[256](i => i);
    ghost var was, ec := runningOrder[..], BigFreqs(ftab[..]);
    assert was == Iota(256);
    RearrangedSelf(was, 0, 256);
    var h := 4;
    while h <= 256
      invariant h in {4, 13, 40, 121, 364}
    {
      h := 3 * h + 1;
    }
    while h != 1
      invariant h in {1, 4, 13, 40, 121, 364} && ftab[..] == old(ftab[..])
      invariant Rearranged(was, runningOrder[..], 0, 256) && InClasses(ec, runningOrder[..], 0, 256)
      invariant h == 1 ==> ClassSorted(ec, runningOrder[..], 0, 256)
    {
      h := h / 3;
      ghost var f := runningOrder[..];
      BucketPass(runningOrder, ftab, h);
      RearrangedTwice(was, f, runningOrder[..], 0, 256);
    }
    StillPermutation(was, runningOrder[..]);
  }
}
