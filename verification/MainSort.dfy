/** The main sorter: small buckets by quicksort or, where possible, by scanning what is sorted already. */
module MainSort {
  import opened Bytes
  import opened Rotations
  import opened RotationRanks
  import opened Permutations
  import opened RadixPass
  import opened FallbackQuickSort
  import opened MainCompare
  import opened MainQuickSort
  import opened MainBuckets
  import opened CopyScan
  import opened BlockSort

  // ----- the marks in the table of bucket starts -----

  const SETMASK := 0x20_0000

  function HasMark(v: nat): bool {
    v / SETMASK % 2 == 1
  }

  function WithMark(v: nat): nat {
    if HasMark(v) then v else v + SETMASK
  }

  function WithoutMark(v: nat): nat {
    if HasMark(v) then v - SETMASK else v
  }

  /** The start of every bucket, some with a mark. */
  ghost predicate Tabled(b: seq<byte>, ft: seq<nat>) {
    && |ft| == PAIRS + 1
    && forall c | 0 <= c <= PAIRS :: ft[c] < 2 * SETMASK && WithoutMark(ft[c]) == Start(Pairs(b), c)
  }

  ghost predicate Marked(ft: seq<nat>, u: byte, v: byte)
    requires |ft| == PAIRS + 1
  {
    HasMark(ft[256 * (u as int) + v])
  }

  /** The rows that start with `u` and `v` are in order. */
  ghost predicate PairSorted(b: seq<byte>, f: seq<nat>, u: byte, v: byte) {
    ClassSorted(Ranks(b), f, From(b, u, v), From(b, u, v + 1))
  }

  /** Rows in their buckets; marked buckets are in order. */
  ghost predicate MainState(b: seq<byte>, f: seq<nat>, ft: seq<nat>) {
    && |b| > 0 && Grouped(Pairs(b), f) && Tabled(b, ft)
    && forall u: byte, v: byte | Marked(ft, u, v) :: PairSorted(b, f, u, v)
  }

  lemma MarkingKeeps(b: seq<byte>, ft: seq<nat>, c: nat)
    requires Tabled(b, ft) && c < PAIRS
    ensures Tabled(b, ft[c := WithMark(ft[c])]) && HasMark(ft[c := WithMark(ft[c])][c])
  {
    hide Pairs, Start;
  }

  lemma PairIndex(u: byte, v: byte, x: byte, y: byte)
    ensures 0 <= 256 * (u as int) + v < PAIRS
    ensures 256 * (u as int) + v == 256 * (x as int) + y <==> u == x && v == y
  {
  }

  /** A bucket known to be in order is marked. */
  method Mark(ftab: array<nat>, u: byte, v: byte, ghost b: seq<byte>, ghost f: seq<nat>)
    requires MainState(b, f, ftab[..]) && PairSorted(b, f, u, v)
    modifies ftab
    ensures MainState(b, f, ftab[..])
    ensures |old(ftab[..])| == PAIRS + 1 && forall x: byte, y: byte ::
      Marked(ftab[..], x, y) <==> Marked(old(ftab[..]), x, y) || (x == u && y == v)
  {
    hide Grouped, PairSorted, Tabled, Pairs, Start, HasMark, WithMark, WithoutMark;
    ghost var was := ftab[..];
    TabledSize(b, was);
    PairIndex(u, v, u, v);
    var c := 256 * (u as int) + v;
    MarkingKeeps(b, was, c);
    ftab[c] := WithMark(ftab[c]);
    assert ftab[..] == was[c := WithMark(was[c])];
    forall x: byte, y: byte ensures Marked(ftab[..], x, y) <==> Marked(was, x, y) || (x == u && y == v) {
      PairIndex(u, v, x, y);
      PairIndex(x, y, u, v);
    }
  }

  lemma TabledSize(b: seq<byte>, ft: seq<nat>)
    requires Tabled(b, ft)
    ensures |ft| == PAIRS + 1
  {
  }

  lemma TabledAt(b: seq<byte>, ft: seq<nat>, u: byte, v: int)
    requires Tabled(b, ft) && 0 <= v <= 256
    ensures |ft| == PAIRS + 1 && WithoutMark(ft[256 * (u as int) + v]) == From(b, u, v) <= |b|
  {
    hide Pairs, Start;
    PairsSize(b);
  }

  // ----- step 1: quicksort of the small buckets not yet in order -----

  lemma FromApart(b: seq<byte>, f: seq<nat>, u: byte, v: byte, x: byte, y: byte, p: int)
    requires Grouped(Pairs(b), f) && InPair(b, u, v, p) && InPair(b, x, y, p) && 0 <= p < |f|
    ensures u == x && v == y
  {
    hide Grouped, From, Pairs, InPair;
    PlaceOf(b, f, p, u, v);
    PlaceOf(b, f, p, x, y);
  }

  /** Rows of one bucket agree in two bytes. */
  lemma BucketShares(b: seq<byte>, f: seq<nat>, u: byte, v: byte)
    requires |b| > 0 && Grouped(Pairs(b), f)
    ensures Shares(b, f, From(b, u, v), From(b, u, v + 1), 2)
  {
    hide Grouped, From, Pairs, Ord, At;
    FromRange(b, u, v);
    GroupedSize(Pairs(b), f);
    PairsSize(b);
    forall p | From(b, u, v) <= p < From(b, u, v + 1) ensures f[p] < |b| && StartsWith(b, f[p], u, v) {
      PlaceOf(b, f, p, u, v);
    }
    forall p, q | From(b, u, v) <= p < From(b, u, v + 1) && From(b, u, v) <= q < From(b, u, v + 1)
      ensures Ord(b, f[p], f[q], 2) == 0
    {
      SameTwo(b, f[p], f[q]);
    }
  }

  lemma SameTwo(b: seq<byte>, x: nat, y: nat)
    requires x < |b| && y < |b| && b[x] == b[y] && b[Next(x, |b|)] == b[Next(y, |b|)]
    ensures Ord(b, x, y, 2) == 0
  {
    NextAt(b, x);
    NextAt(b, y);
    assert Ord(b, x, y, 1) == 0 by { assert Ord(b, x, y, 0) == 0; }
  }

  /** Sorting one bucket keeps the rows in their buckets, and the other buckets as they are. */
  lemma BucketRearranged(b: seq<byte>, f: seq<nat>, g: seq<nat>, u: byte, v: byte)
    requires Grouped(Pairs(b), f) && Rearranged(f, g, From(b, u, v), From(b, u, v + 1))
    ensures Grouped(Pairs(b), g)
  {
    hide From, Pairs, InBucket;
    var lo, hi := From(b, u, v), From(b, u, v + 1);
    FromRange(b, u, v);
    PairsSize(b);
    forall p: nat | p < |g| ensures g[p] < |b| && InBucket(Pairs(b), Pairs(b)[g[p]], p) {
      if lo <= p < hi {
        var p0 := RearrangedFrom(f, g, lo, hi, p);
        SameBucket(b, f, u, v, p, p0);
      }
    }
  }

  lemma SameBucket(b: seq<byte>, f: seq<nat>, u: byte, v: byte, p: nat, q: nat)
    requires Grouped(Pairs(b), f) && InPair(b, u, v, p) && InPair(b, u, v, q) && p < |f| && q < |f|
    ensures |f| == |b| && f[q] < |b| && InBucket(Pairs(b), Pairs(b)[f[q]], p)
  {
    hide From, Pairs, InBucket, Grouped, InPair;
    PlaceOf(b, f, p, u, v);
    PlaceOf(b, f, q, u, v);
    PairIs(b, f[p]);
    PairIs(b, f[q]);
    GroupedAt(b, f, p);
  }

  lemma OtherPairSorted(b: seq<byte>, f: seq<nat>, g: seq<nat>, u: byte, v: byte, x: byte, y: byte)
    requires Grouped(Pairs(b), f) && Rearranged(f, g, From(b, u, v), From(b, u, v + 1))
    requires PairSorted(b, f, x, y) && (x != u || y != v)
    ensures PairSorted(b, g, x, y)
  {
    hide From, Pairs, Grouped, Class, Ranks;
    forall p | From(b, x, y) <= p < From(b, x, y + 1) && 0 <= p < |f| ensures g[p] == f[p] {
      if InPair(b, u, v, p) { FromApart(b, f, u, v, x, y, p); }
    }
  }

  lemma StateParts(b: seq<byte>, f: seq<nat>, ft: seq<nat>)
    requires MainState(b, f, ft)
    ensures |b| > 0 && Grouped(Pairs(b), f) && |f| == |b| && Tabled(b, ft) && |ft| == PAIRS + 1
  {
  }

  lemma MarkedSorted(b: seq<byte>, f: seq<nat>, ft: seq<nat>, u: byte, v: byte)
    requires MainState(b, f, ft) && |ft| == PAIRS + 1 && Marked(ft, u, v)
    ensures PairSorted(b, f, u, v)
  {
  }

  lemma FewSorted(b: seq<byte>, f: seq<nat>, u: byte, v: byte)
    requires From(b, u, v + 1) <= From(b, u, v) + 1
    ensures PairSorted(b, f, u, v)
  {
  }

  lemma StateAfterSort(b: seq<byte>, f: seq<nat>, g: seq<nat>, ft: seq<nat>, u: byte, v: byte)
    requires MainState(b, f, ft) && Rearranged(f, g, From(b, u, v), From(b, u, v + 1)) && PairSorted(b, g, u, v)
    ensures MainState(b, g, ft)
  {
    hide Grouped, From, Pairs, PairSorted, Rearranged, Tabled;
    StateParts(b, f, ft);
    BucketRearranged(b, f, g, u, v);
    forall x: byte, y: byte | Marked(ft, x, y) ensures PairSorted(b, g, x, y) {
      if x != u || y != v { OtherPairSorted(b, f, g, u, v, x, y); }
    }
  }

  /** A small bucket that is not marked is sorted. */
  method SortBucket(ptr: array<nat>, block: array<byte>, quadrant: array<u16>, ftab: array<nat>, nblock: nat, ss: byte,
      j: byte, budget0: int, ghost b: seq<byte>) returns (budget: int)
    requires ptr as object !in {block as object, quadrant, ftab} && Readable(b, block[..], quadrant[..])
    requires ptr.Length == nblock == |b| < MAX_ROWS && MainState(b, ptr[..], ftab[..]) && budget0 >= 0
    modifies ptr
    ensures Spent(b, budget0, budget)
    ensures budget >= 0 ==> MainState(b, ptr[..], ftab[..]) && PairSorted(b, ptr[..], ss, j)
  {
    hide Readable, Grouped, From, Pairs, PairSorted, Rearranged, Tabled, MainState, Shares, HasMark, WithMark,
      WithoutMark, IsPermutation, Varied;
    budget := budget0;
    ghost var f, ft := ptr[..], ftab[..];
    StateParts(b, f, ft);
    TabledAt(b, ft, ss, j);
    TabledAt(b, ft, ss, j + 1);
    FromRange(b, ss, j);
    var sb := 256 * (ss as int) + j;
    if HasMark(ftab[sb]) {
      assert Marked(ft, ss, j);
      MarkedSorted(b, f, ft, ss, j);
      return;
    }
    var lo: int, hi: int := WithoutMark(ftab[sb]), WithoutMark(ftab[sb + 1]) - 1;
    if hi > lo {
      BucketShares(b, f, ss, j);
      GroupedSize(Pairs(b), f);
      budget := MainQSort3(ptr, block, quadrant, nblock, lo, hi, 2, budget, b);
      if budget >= 0 {
        assert PairSorted(b, ptr[..], ss, j) by { PairSortedIs(b, ptr[..], ss, j); }
        StateAfterSort(b, f, ptr[..], ft, ss, j);
      }
    } else {
      FewSorted(b, f, ss, j);
    }
  }

  lemma PairSortedIs(b: seq<byte>, f: seq<nat>, u: byte, v: byte)
    requires ClassSorted(Ranks(b), f, From(b, u, v), From(b, u, v + 1))
    ensures PairSorted(b, f, u, v)
  {
  }

  /** Step 1: all small buckets of the big bucket `ss`, but for the one of rows that start with `ss` twice. */
  method SortSmallBuckets(ptr: array<nat>, block: array<byte>, quadrant: array<u16>, ftab: array<nat>, nblock: nat,
      ss: byte, budget0: int, ghost b: seq<byte>) returns (stopped: bool, budget: int)
    requires ptr as object !in {block as object, quadrant, ftab} && ftab as object !in {block as object, quadrant}
    requires Readable(b, block[..], quadrant[..])
    requires ptr.Length == nblock == |b| < MAX_ROWS && MainState(b, ptr[..], ftab[..])
    requires ftab.Length == PAIRS + 1 && budget0 >= 0
    modifies ptr, ftab
    ensures Spent(b, budget0, budget) && (stopped <==> budget < 0)
    ensures !stopped ==> MainState(b, ptr[..], ftab[..])
    ensures !stopped ==> forall u: byte, v: byte ::
      Marked(ftab[..], u, v) <==> Marked(old(ftab[..]), u, v) || (u == ss && v != ss)
  {
    hide Readable, PairSorted, MainState, HasMark, WithMark, WithoutMark, Marked, Varied;
    ghost var ft := ftab[..];
    budget := budget0;
    var j := 0;
    while j <= 255
      invariant 0 <= j <= 256 && 0 <= budget && Spent(b, budget0, budget)
      invariant MainState(b, ptr[..], ftab[..])
      invariant forall u: byte, v: byte :: Marked(ftab[..], u, v) <==> Marked(ft, u, v) || (u == ss && v < j && v != ss)
    {
      if j != ss {
        budget := SortBucket(ptr, block, quadrant, ftab, nblock, ss, j, budget, b);
        if budget < 0 { return true, budget; }
        Mark(ftab, ss, j, b, ptr[..]);
      }
      j := j + 1;
    }
    stopped := false;
  }

  // ----- step 2: the scan of the big bucket -----

  /** With step 1 done, the bucket is fit to be scanned. */
  lemma StateFit(b: seq<byte>, f: seq<nat>, ft: seq<nat>, ss: byte, done: seq<bool>)
    requires MainState(b, f, ft) && |ft| == PAIRS + 1 && |done| == 256 && !done[ss]
    requires forall v: byte | v != ss :: Marked(ft, ss, v)
    ensures Fit(Setting(b, ss, done, f))
  {
    hide Grouped, From, Pairs, Rearranged, Tabled, PairSorted, Marked, Class, Ranks, Other;
    var x := Setting(b, ss, done, f);
    GroupedSize(Pairs(b), f);
    PairsSize(b);
    forall p: nat | p < |b| ensures f[p] < |b| { GroupedAt(b, f, p); }
    forall p: nat, q: nat | p < q < |b| && Other(x, p) && Other(x, q)
      ensures Class(Ranks(b), f[p]) <= Class(Ranks(b), f[q])
    {
      OthersSorted(b, f, ft, ss, done, p, q);
    }
  }

  lemma OthersSorted(b: seq<byte>, f: seq<nat>, ft: seq<nat>, ss: byte, done: seq<bool>, p: nat, q: nat)
    requires MainState(b, f, ft) && |ft| == PAIRS + 1 && |done| == 256 && Sized(Setting(b, ss, done, f)) && p < q < |b|
    requires forall v: byte | v != ss :: Marked(ft, ss, v)
    requires Other(Setting(b, ss, done, f), p) && Other(Setting(b, ss, done, f), q)
    ensures Class(Ranks(b), f[p]) <= Class(Ranks(b), f[q])
  {
    hide Grouped, From, Pairs, Rearranged, Tabled, Marked, PairSorted;
    var u, v := b[Next(f[p], |b|)], b[Next(f[q], |b|)];
    StateParts(b, f, ft);
    PlaceOf(b, f, p, ss, u);
    PlaceOf(b, f, q, ss, v);
    if u == v {
      MarkedSorted(b, f, ft, ss, u);
      FromRange(b, ss, u);
      PairSortedAt(b, f, ss, u, p, q);
    } else {
      BigPlaceOf(b, f, p, ss, v);
      assert InPair(b, ss, v, q);
      SecondByteDecides(b, f[p], f[q]);
    }
  }

  lemma PairSortedAt(b: seq<byte>, f: seq<nat>, u: byte, v: byte, p: nat, q: nat)
    requires PairSorted(b, f, u, v) && InPair(b, u, v, p) && InPair(b, u, v, q) && p < q && From(b, u, v + 1) <= |f|
    ensures q < |f| && Class(Ranks(b), f[p]) <= Class(Ranks(b), f[q])
  {
    FromRange(b, u, v);
  }

  /** The arrays hold the state of the scan. */
  ghost predicate Holds(z: Scan, ptr: seq<nat>, copyStart: seq<int>, copyEnd: seq<int>, j: int, jb: int) {
    z.f == ptr && z.cs == copyStart && z.ce == copyEnd && z.j == j && z.jb == jb
  }

  /** One row is scanned: unless its bucket is done, the row before it is put at the end of what is there. */
  method CopyRow(ptr: array<nat>, block: array<byte>, bigDone: array<bool>, copyStart: array<int>, copyEnd: array<int>,
      nblock: nat, j: nat, forth: bool, ghost x: Setting, ghost z: Scan) returns (ghost z': Scan)
    requires ptr as object !in {block as object, bigDone, copyStart, copyEnd} && copyStart != copyEnd
    requires bigDone as object !in {copyStart as object, copyEnd} && block as object !in {copyStart as object, copyEnd}
    requires bigDone.Length == copyStart.Length == copyEnd.Length == 256
    requires ptr.Length == nblock == |x.b| <= block.Length
    requires Scanning(x, z) && Open(x, z, forth) && x.b == block[..nblock] && x.done == bigDone[..]
    requires Place(z, forth) == j && Holds(z, ptr[..], copyStart[..], copyEnd[..], z.j, z.jb)
    modifies ptr, copyStart, copyEnd
    ensures Scanning(x, z') && z'.j == (if forth then j + 1 else z.j) && z'.jb == if forth then z.jb else j - 1
    ensures Holds(z', ptr[..], copyStart[..], copyEnd[..], z'.j, z'.jb) && (!forth ==> z'.cs == z.cs)
  {
    hide Scanning, Open, Grouped, From, Pairs;
    ScanningShape(x, z);
    PlaceSeen(x, z, forth);
    ghost var y := PrecedingRow(x, z, forth);
    assert ptr[j] == z.f[j];
    var k: int := ptr[j] as int - 1;
    if k < 0 { k := k + nblock; }
    assert k == y;
    var c1 := block[k];
    assert c1 == x.b[y];
    assert bigDone[c1] == x.done[c1];
    if bigDone[c1] {
      PassedKeeps(x, z, forth);
      z' := Passed(z, forth);
    } else {
      EmittedKeeps(x, z, forth);
      z' := Emitted(x, z, forth);
      if forth {
        ptr[copyStart[c1]] := k;
        copyStart[c1] := copyStart[c1] + 1;
      } else {
        ptr[copyEnd[c1]] := k;
        copyEnd[c1] := copyEnd[c1] - 1;
      }
    }
  }

  /** Where the buckets of the bytes `j` and `ss` start and end. */
  method FindEnds(ftab: array<nat>, ss: byte, ghost b: seq<byte>) returns (copyStart: array<int>, copyEnd: array<int>)
    requires Tabled(b, ftab[..])
    ensures fresh(copyStart) && fresh(copyEnd) && copyStart != copyEnd && copyStart.Length == copyEnd.Length == 256
    ensures forall c: byte :: copyStart[c] == From(b, c, ss) && copyEnd[c] == From(b, c, ss + 1) - 1
  {
    hide Tabled, From, WithoutMark;
    copyStart, copyEnd := new int[256], new int[256];
    var j := 0;
    while j <= 255
      invariant 0 <= j <= 256 && ftab[..] == old(ftab[..])
      invariant forall c: byte | c < j :: copyStart[c] == From(b, c, ss) && copyEnd[c] == From(b, c, ss + 1) - 1
    {
      TabledAt(b, ftab[..], j, ss);
      TabledAt(b, ftab[..], j, ss + 1);
      copyStart[j] := WithoutMark(ftab[256 * j + ss]);
      copyEnd[j] := WithoutMark(ftab[256 * j + ss + 1]) - 1;
      j := j + 1;
    }
  }

  lemma StartHolds(x: Setting, copyStart: seq<int>, copyEnd: seq<int>)
    requires |copyStart| == |copyEnd| == 256
    requires forall c: byte :: copyStart[c] == From(x.b, c, x.s) && copyEnd[c] == From(x.b, c, x.s + 1) - 1
    ensures Holds(StartOf(x), x.f0, copyStart, copyEnd, From(x.b, x.s, 0), From(x.b, x.s, 256) - 1)
  {
    hide From;
  }

  lemma OpenAt(x: Setting, z: Scan)
    requires Scanning(x, z)
    ensures 0 <= z.j <= z.cs[x.s] && z.ce[x.s] <= z.jb < |x.b| && z.cs[x.s] <= z.ce[x.s] + 1
  {
    hide From, Sourced, Complete, SeenSorted, Untouched, Grouped;
    FromWithin(x.b, x.s);
  }

  /** The scan from the start of the big bucket. */
  method ScanForth(ptr: array<nat>, block: array<byte>, bigDone: array<bool>, copyStart: array<int>,
      copyEnd: array<int>, nblock: nat, ss: byte, j0: nat, ghost x: Setting, ghost z0: Scan) returns (ghost z: Scan)
    requires ptr as object !in {block as object, bigDone, copyStart, copyEnd} && copyStart != copyEnd
    requires bigDone as object !in {copyStart as object, copyEnd} && block as object !in {copyStart as object, copyEnd}
    requires bigDone.Length == copyStart.Length == copyEnd.Length == 256
    requires ptr.Length == nblock == |x.b| <= block.Length
    requires x.b == block[..nblock] && x.done == bigDone[..] && x.s == ss
    requires Scanning(x, z0) && z0.j == j0 && Holds(z0, ptr[..], copyStart[..], copyEnd[..], j0, z0.jb)
    modifies ptr, copyStart, copyEnd
    ensures Scanning(x, z) && Holds(z, ptr[..], copyStart[..], copyEnd[..], copyStart[ss], z0.jb)
  {
    hide Scanning;
    var j := j0;
    z := z0;
    OpenAt(x, z);
    while j < copyStart[ss]
      invariant 0 <= j <= copyStart[ss] <= nblock && bigDone[..] == x.done && block[..nblock] == x.b
      invariant Scanning(x, z) && Holds(z, ptr[..], copyStart[..], copyEnd[..], j, z0.jb)
      decreases nblock - j
    {
      ScanningShape(x, z);
      z := CopyRow(ptr, block, bigDone, copyStart, copyEnd, nblock, j, true, x, z);
      j := j + 1;
      OpenAt(x, z);
    }
  }

  /** The scan from the end of the big bucket. */
  method ScanBack(ptr: array<nat>, block: array<byte>, bigDone: array<bool>, copyStart: array<int>, copyEnd: array<int>,
      nblock: nat, ss: byte, j0: int, ghost x: Setting, ghost z0: Scan) returns (ghost z: Scan)
    requires ptr as object !in {block as object, bigDone, copyStart, copyEnd} && copyStart != copyEnd
    requires bigDone as object !in {copyStart as object, copyEnd} && block as object !in {copyStart as object, copyEnd}
    requires bigDone.Length == copyStart.Length == copyEnd.Length == 256
    requires ptr.Length == nblock == |x.b| <= block.Length
    requires x.b == block[..nblock] && x.done == bigDone[..] && x.s == ss
    requires Scanning(x, z0) && z0.jb == j0 && z0.j == copyStart[ss]
    requires Holds(z0, ptr[..], copyStart[..], copyEnd[..], z0.j, j0)
    modifies ptr, copyStart, copyEnd
    ensures Scanning(x, z) && Holds(z, ptr[..], copyStart[..], copyEnd[..], copyStart[ss], copyEnd[ss])
  {
    hide Scanning;
    var j := j0;
    z := z0;
    OpenAt(x, z);
    while j > copyEnd[ss]
      invariant -1 <= copyEnd[ss] <= j && bigDone[..] == x.done && block[..nblock] == x.b
      invariant Scanning(x, z) && Holds(z, ptr[..], copyStart[..], copyEnd[..], copyStart[ss], j)
      decreases j + 1
    {
      ScanningShape(x, z);
      z := CopyRow(ptr, block, bigDone, copyStart, copyEnd, nblock, j, false, x, z);
      j := j - 1;
      OpenAt(x, z);
    }
  }

  /**
   * Step 2: the big bucket is scanned from both ends. In the end the two scans have met, unless the block is one byte
   * over and over.
   */
  method ScanBigBucket(ptr: array<nat>, block: array<byte>, bigDone: array<bool>, ftab: array<nat>, nblock: nat,
      ss: byte, ghost x: Setting)
    requires ptr as object !in {block as object, bigDone, ftab} && bigDone.Length == 256
    requires ptr.Length == nblock == |x.b| <= block.Length && x.b == block[..nblock]
    requires x.s == ss && x.done == bigDone[..] && x.f0 == ptr[..] && Fit(x) && Tabled(x.b, ftab[..])
    modifies ptr
    ensures Copied(x, ptr[..])
  {
    hide Fit, Tabled, From, Copied, Scanning, WithoutMark;
    TabledAt(x.b, ftab[..], ss, 0);
    TabledAt(x.b, ftab[..], ss, 256);
    var copyStart, copyEnd := FindEnds(ftab, ss, x.b);
    ScanStarts(x);
    StartHolds(x, copyStart[..], copyEnd[..]);
    ghost var z := StartOf(x);
    var j := WithoutMark(ftab[256 * (ss as int)]);
    var jb: int := WithoutMark(ftab[256 * (ss as int + 1)]) - 1;
    z := ScanForth(ptr, block, bigDone, copyStart, copyEnd, nblock, ss, j, x, z);
    z := ScanBack(ptr, block, bigDone, copyStart, copyEnd, nblock, ss, jb, x, z);
    ScanEnds(x, z);
    assert copyStart[ss] - 1 == copyEnd[ss] || (copyStart[ss] == 0 && copyEnd[ss] == nblock - 1);
  }

  lemma CopiedParts(x: Setting, f: seq<nat>, p: nat)
    requires Fit(x) && Copied(x, f) && p < |x.b|
    ensures |f| == |x.b| && Grouped(Pairs(x.b), f)
    ensures (x.b[Next(x.f0[p], |x.b|)] != x.s || x.done[x.b[x.f0[p]]]) ==> f[p] == x.f0[p]
  {
    hide Grouped, Class, Ranks;
  }

  /** A bucket that was in order before the scan is so after it. */
  lemma CopiedKeepsSorted(x: Setting, f: seq<nat>, u: byte, v: byte)
    requires Fit(x) && Copied(x, f) && PairSorted(x.b, x.f0, u, v) && (v != x.s || x.done[u])
    ensures PairSorted(x.b, f, u, v)
  {
    hide Grouped, Class, Ranks, Copied, Pairs, From, Next;
    FromRange(x.b, u, v);
    GroupedSize(Pairs(x.b), x.f0);
    forall p | From(x.b, u, v) <= p < From(x.b, u, v + 1) ensures |f| == |x.b| && f[p] == x.f0[p] {
      assert InPair(x.b, u, v, p);
      PlaceOf(x.b, x.f0, p, u, v);
      CopiedParts(x, f, p);
    }
  }

  /** A bucket the scan has filled is in order. */
  lemma CopiedSorts(x: Setting, f: seq<nat>, u: byte)
    requires Fit(x) && Copied(x, f) && !x.done[u]
    ensures PairSorted(x.b, f, u, x.s)
  {
    hide Grouped, Class, Ranks, Pairs, From, Next;
    FromRange(x.b, u, x.s);
    forall p | From(x.b, u, x.s) <= p < From(x.b, u, x.s + 1) ensures x.b[x.f0[p]] == u && Own(x, p) {
      assert InPair(x.b, u, x.s, p);
      PairPlace(x, u, p);
    }
  }

  /** The state after the scan. */
  lemma StateAfterScan(x: Setting, f: seq<nat>, ft: seq<nat>)
    requires MainState(x.b, x.f0, ft) && |ft| == PAIRS + 1 && Fit(x) && Copied(x, f)
    requires forall u: byte, v: byte :: Marked(ft, u, v) <==> x.done[u] || x.done[v] || (u == x.s && v != x.s)
    ensures MainState(x.b, f, ft)
    ensures forall u: byte :: PairSorted(x.b, f, u, x.s)
  {
    hide Grouped, Class, Ranks, Pairs, From, Next, Copied, Fit, Tabled, PairSorted, Marked;
    FitParts(x);
    StateParts(x.b, x.f0, ft);
    CopiedParts(x, f, 0);
    forall u: byte, v: byte | Marked(ft, u, v) || v == x.s ensures PairSorted(x.b, f, u, v) {
      if v == x.s && !x.done[u] {
        CopiedSorts(x, f, u);
      } else {
        CopiedKeepsSorted(x, f, u, v);
      }
    }
  }

  lemma FitParts(x: Setting)
    requires Fit(x)
    ensures Sized(x) && !x.done[x.s]
  {
  }

  /** The buckets the scan has filled are marked. */
  method MarkScanned(ftab: array<nat>, ss: byte, ghost b: seq<byte>, ghost f: seq<nat>)
    requires MainState(b, f, ftab[..]) && ftab.Length == PAIRS + 1 && forall u: byte :: PairSorted(b, f, u, ss)
    modifies ftab
    ensures MainState(b, f, ftab[..])
    ensures forall u: byte, v: byte :: Marked(ftab[..], u, v) <==> Marked(old(ftab[..]), u, v) || v == ss
  {
    hide MainState, PairSorted, Marked;
    ghost var was := ftab[..];
    var j := 0;
    while j <= 255
      invariant 0 <= j <= 256 && MainState(b, f, ftab[..])
      invariant forall u: byte, v: byte :: Marked(ftab[..], u, v) <==> Marked(was, u, v) || (v == ss && u < j)
    {
      Mark(ftab, j, ss, b, f);
      j := j + 1;
    }
  }

  // ----- step 3: the quadrants -----

  /** The place of the row in the block, for a place at most 34 behind it. */
  function Inside(i: nat, n: nat): nat {
    if i < n then i else i - n
  }

  ghost function PlaceIn(f: seq<nat>, y: nat): (p: nat)
    requires IsPermutation(f) && y < |f|
    ensures p < |f| && f[p] == y
  {
    assert exists p: nat :: p < |f| && f[p] == y by { var p := PermutationOnto(f, y); }
    var p: nat :| p < |f| && f[p] == y;
    p
  }

  /** The rows at the places `from .. end` of the bucket that starts at `bb` have new quadrants. */
  ghost predicate Requadranted(f: seq<nat>, q0: seq<u16>, q: seq<u16>, bb: nat, from: nat, end: nat, shifts: nat)
    requires IsPermutation(f)
  {
    && |q| == |q0| == |f| + OVERSHOOT && |f| > OVERSHOOT && bb <= from
    && forall i: nat | i < |q| ::
         q[i] == var p := PlaceIn(f, Inside(i, |f|)); if from <= p < end then Halved(p - bb, shifts) else q0[i]
  }

  lemma {:induction false} HalvedRises(m: nat, n: nat, k: nat)
    requires m <= n
    ensures Halved(m, k) <= Halved(n, k) <= n
  {
    if k > 0 { HalvedRises(m, n, k - 1); }
  }

  lemma RequadrantNext(f: seq<nat>, q0: seq<u16>, q: seq<u16>, q': seq<u16>, bb: nat, from: nat, end: nat, shifts: nat)
    requires IsPermutation(f) && bb < from <= end <= |f| && Requadranted(f, q0, q, bb, from, end, shifts)
    requires f[from - 1] < |f| && Halved(from - 1 - bb, shifts) < 0x1_0000
    requires var a, v := f[from - 1], Halved(from - 1 - bb, shifts);
             q' == if a < OVERSHOOT then q[a := v][a + |f| := v] else q[a := v]
    ensures Requadranted(f, q0, q', bb, from - 1, end, shifts)
  {
    hide IsPermutation, Halved;
    var n := |f|;
    forall i: nat | i < |q'|
      ensures q'[i] ==
        var p := PlaceIn(f, Inside(i, n)); if from - 1 <= p < end then Halved(p - bb, shifts) else q0[i]
    {
      var p := PlaceIn(f, Inside(i, n));
      if p == from - 1 {
        assert Inside(i, n) == f[from - 1];
      } else if Inside(i, n) == f[from - 1] {
        PermutationOneToOne(f, p, from - 1);
      }
    }
  }

  lemma RequadrantNone(f: seq<nat>, q: seq<u16>, bb: nat, end: nat, shifts: nat)
    requires IsPermutation(f) && |q| == |f| + OVERSHOOT && |f| > OVERSHOOT && bb <= end
    ensures Requadranted(f, q, q, bb, end, end, shifts)
  {
    hide IsPermutation, Halved;
  }

  /** The new quadrants may be relied on: in a sorted bucket they rise with the place of the row. */
  lemma HintsKept(b: seq<byte>, f: seq<nat>, q0: seq<u16>, q: seq<u16>, ss: byte, shifts: nat)
    requires Hinted(b, q0) && Grouped(Pairs(b), f) && 0 <= From(b, ss, 0)
    requires ClassSorted(Ranks(b), f, From(b, ss, 0), From(b, ss, 256))
    requires Requadranted(f, q0, q, From(b, ss, 0), From(b, ss, 0), From(b, ss, 256), shifts)
    ensures Hinted(b, q)
  {
    hide Grouped, Pairs, From, At, Ord, Ranks, IsPermutation;
    GroupedSize(Pairs(b), f);
    PairsSize(b);
    FromWithin(b, ss);
    forall i, j | 0 <= i < |q| && 0 <= j < |q| && q[i] < q[j] && At(b, i) == At(b, j) ensures Ord(b, i, j, |b|) <= 0 {
      HintKept(b, f, q0, q, ss, shifts, i, j);
    }
  }

  lemma InsideIs(b: seq<byte>, i: nat, j: nat)
    requires i < |b| + OVERSHOOT && j < |b| + OVERSHOOT && |b| > OVERSHOOT
    ensures At(b, i) == b[Inside(i, |b|)] && Ord(b, i, j, |b|) == Ord(b, Inside(i, |b|), Inside(j, |b|), |b|)
  {
    hide Ord;
    if i >= |b| { OrdPeriods(b, i - |b|, j, |b|); }
    if j >= |b| { OrdPeriods(b, Inside(i, |b|), j - |b|, |b|); }
  }

  lemma HintKept(b: seq<byte>, f: seq<nat>, q0: seq<u16>, q: seq<u16>, ss: byte, shifts: nat, i: nat, j: nat)
    requires Hinted(b, q0) && Grouped(Pairs(b), f) && 0 <= From(b, ss, 0) && From(b, ss, 256) <= |f|
    requires ClassSorted(Ranks(b), f, From(b, ss, 0), From(b, ss, 256))
    requires Requadranted(f, q0, q, From(b, ss, 0), From(b, ss, 0), From(b, ss, 256), shifts)
    requires i < |q| && j < |q| && q[i] < q[j] && At(b, i) == At(b, j)
    ensures Ord(b, i, j, |b|) <= 0
  {
    hide Grouped, Pairs, From, At, Ord, Ranks, IsPermutation, Halved, Requadranted, Hinted, ClassSorted, PlaceIn,
      Inside;
    FromRises(b, ss, 0, 256);
    GroupedSize(Pairs(b), f);
    PairsSize(b);
    QuadrantAt(f, q0, q, From(b, ss, 0), From(b, ss, 256), shifts, i);
    QuadrantAt(f, q0, q, From(b, ss, 0), From(b, ss, 256), shifts, j);
    var y, v := Inside(i, |b|), Inside(j, |b|);
    InsideIs(b, i, j);
    InsideIs(b, j, i);
    var p, r := PlaceIn(f, y), PlaceIn(f, v);
    BigPlaceOf(b, f, p, ss, 0);
    BigPlaceOf(b, f, r, ss, 0);
    if b[y] == ss {
      if p >= r { HalvedRises(r - From(b, ss, 0), p - From(b, ss, 0), shifts); }
      SortedPlaces(b, f, From(b, ss, 0), From(b, ss, 256), p, r);
    } else {
      HintedAt(b, q0, i, j);
    }
  }

  lemma HintedAt(b: seq<byte>, q: seq<u16>, i: nat, j: nat)
    requires Hinted(b, q) && i < |q| && j < |q| && q[i] < q[j] && At(b, i) == At(b, j)
    ensures Ord(b, i, j, |b|) <= 0
  {
  }

  lemma SortedPlaces(b: seq<byte>, f: seq<nat>, lo: int, hi: int, p: nat, r: nat)
    requires ClassSorted(Ranks(b), f, lo, hi) && 0 <= lo <= p < r < hi <= |f| && f[p] < |b| && f[r] < |b|
    ensures Ord(b, f[p], f[r], |b|) <= 0
  {
    hide Ord, Ranks;
    assert Class(Ranks(b), f[p]) <= Class(Ranks(b), f[r]);
    RanksCompare(b, f[p], f[r]);
  }

  lemma QuadrantAt(f: seq<nat>, q0: seq<u16>, q: seq<u16>, bb: nat, end: nat, shifts: nat, i: nat)
    requires IsPermutation(f) && Requadranted(f, q0, q, bb, bb, end, shifts) && i < |q|
    ensures |q| == |q0| == |f| + OVERSHOOT && |f| > OVERSHOOT && Inside(i, |f|) < |f|
    ensures q[i] == var p := PlaceIn(f, Inside(i, |f|)); if bb <= p < end then Halved(p - bb, shifts) else q0[i]
  {
  }

  /** A big bucket whose small buckets are in order is in order. */
  lemma BigSorted(b: seq<byte>, f: seq<nat>, ft: seq<nat>, u: byte)
    requires MainState(b, f, ft) && |ft| == PAIRS + 1 && forall v: byte :: Marked(ft, u, v)
    ensures ClassSorted(Ranks(b), f, From(b, u, 0), From(b, u, 256))
  {
    hide Grouped, Pairs, From, Ranks, Class, Marked, Tabled;
    StateParts(b, f, ft);
    FromWithin(b, u);
    forall p, q | From(b, u, 0) <= p < q < From(b, u, 256) ensures Class(Ranks(b), f[p]) <= Class(Ranks(b), f[q]) {
      BigPlaceOf(b, f, p, u, 0);
      PlacesSorted(b, f, ft, p, q);
    }
  }

  lemma PlacesSorted(b: seq<byte>, f: seq<nat>, ft: seq<nat>, p: nat, q: nat)
    requires MainState(b, f, ft) && |ft| == PAIRS + 1 && p < q < |f|
    requires f[p] < |b| && forall v: byte :: Marked(ft, b[f[p]], v)
    ensures f[q] < |b| && Class(Ranks(b), f[p]) <= Class(Ranks(b), f[q])
  {
    hide Grouped, Pairs, From, Ranks, Class, Marked, Tabled, PairSorted, InPair;
    StateParts(b, f, ft);
    PlaceOf(b, f, q, 0, 0);
    var u, v, x, y := b[f[p]], b[Next(f[p], |b|)], b[f[q]], b[Next(f[q], |b|)];
    PlaceOf(b, f, p, u, v);
    PlaceOf(b, f, q, x, y);
    if u == x && v == y {
      MarkedSorted(b, f, ft, u, v);
      FromRange(b, u, v);
      PairSortedAt(b, f, u, v, p, q);
    } else if u == x {
      InPairRange(b, u, y, q);
      BigPlaceOf(b, f, p, u, y);
      SecondByteDecides(b, f[p], f[q]);
    } else {
      BigPlaceOf(b, f, p, x, 0);
      BigPlaceOf(b, f, q, x, 0);
      BigPlaceOf(b, f, p, u, 0);
      BigPlaceOf(b, f, q, u, 0);
      BigRises(b, u, x);
      BigRises(b, x, u);
      FirstByteDecides(b, f[p], f[q]);
    }
  }

  lemma InPairRange(b: seq<byte>, u: byte, v: byte, p: int)
    requires InPair(b, u, v, p)
    ensures From(b, u, v) <= p < From(b, u, v + 1)
  {
  }

  lemma BigRises(b: seq<byte>, u: byte, x: byte)
    ensures u < x ==> From(b, u, 256) <= From(b, x, 0)
  {
    hide Pairs;
    if u < x { StartMonotone(Pairs(b), 256 * (u as int) + 256, 256 * (x as int)); }
  }

  /**
   * Step 3: the rows of the sorted bucket get quadrants that rise with their places, in 16 bits; also those repeated
   * behind the block.
   */
  method UpdateQuadrants(ptr: array<nat>, quadrant: array<u16>, ftab: array<nat>, ss: byte, nblock: nat,
      ghost b: seq<byte>)
    requires quadrant as object !in {ptr as object, ftab} && Hinted(b, quadrant[..])
    requires MainState(b, ptr[..], ftab[..]) && nblock == |b| > OVERSHOOT && ftab.Length == PAIRS + 1
    requires forall v: byte :: Marked(ftab[..], ss, v)
    modifies quadrant
    ensures Hinted(b, quadrant[..])
  {
    hide MainState, Grouped, Tabled, From, Marked, WithoutMark, Requadranted, IsPermutation, ClassSorted;
    ghost var f, q0 := ptr[..], quadrant[..];
    StateParts(b, f, ftab[..]);
    GroupedSize(Pairs(b), f);
    BigSorted(b, f, ftab[..], ss);
    TabledAt(b, ftab[..], ss, 0);
    TabledAt(b, ftab[..], ss, 256);
    FromRises(b, ss, 0, 256);
    var bbStart := WithoutMark(ftab[256 * (ss as int)]);
    var bbSize := WithoutMark(ftab[256 * (ss as int + 1)]) - bbStart;
    var shifts := 0;
    while Halved(bbSize, shifts) > 65534
      decreases Halved(bbSize, shifts)
    {
      shifts := shifts + 1;
    }
    RequadrantNone(f, q0, bbStart, bbStart + bbSize, shifts);
    var j := bbSize;
    while j > 0
      invariant 0 <= j <= bbSize && ptr[..] == f && |quadrant[..]| == nblock + OVERSHOOT
      invariant Requadranted(f, q0, quadrant[..], bbStart, bbStart + j, bbStart + bbSize, shifts)
    {
      j := j - 1;
      ghost var q := quadrant[..];
      var a2update := ptr[bbStart + j];
      PermutationInRange(f, bbStart + j);
      HalvedRises(j, bbSize, shifts);
      var qVal := Halved(j, shifts);
      quadrant[a2update] := qVal;
      if a2update < OVERSHOOT {
        quadrant[a2update + nblock] := qVal;
      }
      RequadrantNext(f, q0, q, quadrant[..], bbStart, bbStart + j + 1, bbStart + bbSize, shifts);
    }
    HintsKept(b, f, q0, quadrant[..], ss, shifts);
  }

  // ----- the whole sort -----

  /** The buckets done, and with them the marks, are those of the first `i` bytes of the running order. */
  ghost predicate DoneUpTo(done: seq<bool>, order: seq<nat>, i: int) {
    && |done| == |order| == 256 && IsPermutation(order)
    && forall k | 0 <= k < 256 :: order[k] < 256 && (done[order[k]] <==> k < i)
  }

  ghost predicate MarksAre(ft: seq<nat>, done: seq<bool>) {
    |ft| == PAIRS + 1 && |done| == 256 && forall u: byte, v: byte :: Marked(ft, u, v) <==> done[u] || done[v]
  }

  lemma DoneNext(done: seq<bool>, order: seq<nat>, i: nat)
    requires DoneUpTo(done, order, i) && i < 256
    ensures order[i] < 256 && !done[order[i]] && DoneUpTo(done[order[i] := true], order, i + 1)
  {
    hide IsPermutation;
    forall k | 0 <= k < 256 ensures done[order[i] := true][order[k]] <==> k < i + 1 {
      if order[k] == order[i] { PermutationOneToOne(order, k, i); }
    }
  }

  lemma DoneNone(done: seq<bool>, order: seq<nat>)
    requires |done| == |order| == 256 && IsPermutation(order) && forall c | 0 <= c < 256 :: !done[c]
    ensures DoneUpTo(done, order, 0)
  {
    hide IsPermutation;
    forall k | 0 <= k < 256 ensures order[k] < 256 { PermutationInRange(order, k); }
  }

  lemma DoneAll(done: seq<bool>, order: seq<nat>)
    requires DoneUpTo(done, order, 256)
    ensures forall c: byte :: done[c]
  {
    hide IsPermutation;
    forall c: byte ensures done[c] { var k := PermutationOnto(order, c); }
  }

  /** With all buckets done the rows are the sorted rotations. */
  lemma AllDone(b: seq<byte>, f: seq<nat>, ft: seq<nat>, done: seq<bool>)
    requires MainState(b, f, ft) && MarksAre(ft, done) && forall c: byte :: done[c]
    ensures SortedRotations(b, f)
  {
    hide MainState, Grouped, IsPermutation, Ranks, Ord, Marked, Pairs;
    StateParts(b, f, ft);
    GroupedSize(Pairs(b), f);
    forall p, q | 0 <= p < q < |f| ensures Ord(b, f[p], f[q], |b|) <= 0 {
      PlaceOf(b, f, p, 0, 0);
      PlacesSorted(b, f, ft, p, q);
      RanksCompare(b, f[p], f[q]);
    }
  }

  /** The first table has no marks. */
  lemma FirstTable(b: seq<byte>, f: seq<nat>, ft: seq<nat>, done: seq<bool>)
    requires 0 < |b| < SETMASK && Grouped(Pairs(b), f) && |ft| == PAIRS + 1 && ft[PAIRS] == |b| && |done| == 256
    requires (forall c | 0 <= c < PAIRS :: ft[c] == Start(Pairs(b), c)) && forall c | 0 <= c < 256 :: !done[c]
    ensures MainState(b, f, ft) && MarksAre(ft, done)
  {
    hide Grouped, Start, Pairs;
    PairsSize(b);
    PairsBelow(b);
    StartAll(Pairs(b), PAIRS);
    forall c | 0 <= c <= PAIRS ensures !HasMark(ft[c]) && ft[c] < 2 * SETMASK && ft[c] == Start(Pairs(b), c) {
      assert ft[c] == Start(Pairs(b), c);
    }
    forall u: byte, v: byte ensures !Marked(ft, u, v) { PairIndex(u, v, u, v); }
  }

  lemma PairsBelow(b: seq<byte>)
    ensures forall x | 0 <= x < |Pairs(b)| :: 0 <= Pairs(b)[x] < PAIRS
  {
  }

  lemma TableRises(b: seq<byte>, ft: seq<nat>)
    requires |ft| == PAIRS + 1 && ft[PAIRS] == |b| && forall c | 0 <= c < PAIRS :: ft[c] == Start(Pairs(b), c)
    ensures Rising(ft)
  {
    hide Start, Pairs;
    PairsSize(b);
    PairsBelow(b);
    StartAll(Pairs(b), PAIRS);
    forall c | 0 <= c < 256 ensures BigFreq(ft, c) >= 0 { StartMonotone(Pairs(b), 256 * c, 256 * (c + 1)); }
  }

  /** The three steps for one big bucket; `last` when no comparison follows that would look at its quadrants. */
  method SortBigBucket(ptr: array<nat>, block: array<byte>, quadrant: array<u16>, ftab: array<nat>,
      bigDone: array<bool>, nblock: nat, ss: byte, last: bool, budget0: int, ghost b: seq<byte>)
      returns (stopped: bool, budget: int)
    requires ptr as object !in {block as object, quadrant, ftab, bigDone} && bigDone as object !in {block as object}
    requires ftab as object !in {block as object, quadrant, bigDone}
    requires quadrant as object !in {block as object, bigDone}
    requires Readable(b, block[..], quadrant[..]) && MainState(b, ptr[..], ftab[..]) && MarksAre(ftab[..], bigDone[..])
    requires ptr.Length == nblock == |b| < MAX_ROWS && bigDone.Length == 256 && ftab.Length == PAIRS + 1
    requires budget0 >= 0 && !bigDone[ss] && nblock <= block.Length && block[..nblock] == b
    modifies ptr, quadrant, ftab, bigDone
    ensures Spent(b, budget0, budget) && (stopped <==> budget < 0)
    ensures !stopped ==> bigDone[..] == old(bigDone[..])[(ss as int) := true]
    ensures !stopped ==> MainState(b, ptr[..], ftab[..]) && MarksAre(ftab[..], bigDone[..])
    ensures !stopped ==> Readable(b, block[..], quadrant[..])
  {
    hide MainState, Readable, Marked, Fit, Copied, PairSorted, Tabled, Hinted, Wrapped, Varied;
    stopped, budget := SortSmallBuckets(ptr, block, quadrant, ftab, nblock, ss, budget0, b);
    if stopped { return; }
    ghost var x := Setting(b, ss, bigDone[..], ptr[..]);
    StateFit(b, ptr[..], ftab[..], ss, bigDone[..]);
    StateParts(b, ptr[..], ftab[..]);
    ScanBigBucket(ptr, block, bigDone, ftab, nblock, ss, x);
    StateAfterScan(x, ptr[..], ftab[..]);
    MarkScanned(ftab, ss, b, ptr[..]);
    bigDone[ss] := true;
    if !last {
      ReadableParts(b, block[..], quadrant[..]);
      UpdateQuadrants(ptr, quadrant, ftab, ss, nblock, b);
      PartsReadable(b, block[..], quadrant[..]);
    }
  }

  lemma PartsReadable(b: seq<byte>, block: seq<byte>, quadrant: seq<u16>)
    requires Wrapped(b, block) && Hinted(b, quadrant)
    ensures Readable(b, block, quadrant)
  {
  }

  lemma NoHints(b: seq<byte>, quadrant: seq<u16>)
    requires |quadrant| == |b| + OVERSHOOT && |b| > 0 && forall k | 0 <= k < |quadrant| :: quadrant[k] == 0
    ensures Hinted(b, quadrant)
  {
  }

  lemma WrappedFront(b: seq<byte>, block: seq<byte>)
    requires Wrapped(b, block)
    ensures |block| == |b| + OVERSHOOT && |b| > OVERSHOOT && block[..|b|] == b
  {
    forall k | 0 <= k < |b| ensures block[k] == b[k] { AtPeriod(b, k); }
  }

  /** `mainSort`: unless the budget is used up the rotations come out sorted. The block is left as it is. */
  method SortRotations(ptr: array<nat>, block: array<byte>, quadrant: array<u16>, ftab: array<nat>, nblock: nat,
      budget0: int, ghost b: seq<byte>) returns (budget: int)
    requires ptr as object !in {block as object, quadrant, ftab} && ftab as object !in {block as object, quadrant}
    requires quadrant as object != block as object
    requires OVERSHOOT < ptr.Length == nblock == |b| < MAX_ROWS && ftab.Length == PAIRS + 1
    requires block.Length == quadrant.Length == nblock + OVERSHOOT && block[..nblock] == b && budget0 >= 0
    modifies ptr, block, quadrant, ftab
    ensures block[..nblock] == b && Spent(b, budget0, budget)
    ensures budget >= 0 ==> SortedRotations(b, ptr[..])
  {
    hide MainState, Readable, Marked, Wrapped, Hinted, Grouped, Start, Pairs, IsPermutation, SortedRotations, Rising,
      DoneUpTo, MarksAre, BigFreqs, ClassSorted, Varied;
    CountPairs(block, quadrant, ftab, nblock, b);
    SetOvershoot(block, quadrant, nblock, b);
    WrappedFront(b, block[..]);
    assert block[..][..nblock] == block[..nblock];
    PairsBelow(b);
    PairsSize(b);
    AccumulatePairs(ftab, Pairs(b));
    PlacePairs(ptr, block, ftab, nblock, b);
    NoHints(b, quadrant[..]);
    PartsReadable(b, block[..], quadrant[..]);
    TableRises(b, ftab[..]);
    var runningOrder := OrderBuckets(ftab);
    var bigDone := new bool[256](_ => false);
    FirstTable(b, ptr[..], ftab[..], bigDone[..]);
    DoneNone(bigDone[..], runningOrder[..]);
    budget := budget0;
    var i := 0;
    while i <= 255
      invariant 0 <= i <= 256 && 0 <= budget && Spent(b, budget0, budget) && block[..nblock] == b
      invariant DoneUpTo(bigDone[..], runningOrder[..], i) && MarksAre(ftab[..], bigDone[..])
      invariant MainState(b, ptr[..], ftab[..]) && Readable(b, block[..], quadrant[..])
    {
      DoneNext(bigDone[..], runningOrder[..], i);
      var stopped;
      ghost var order := runningOrder[..];
      stopped, budget := SortBigBucket(ptr, block, quadrant, ftab, bigDone, nblock, runningOrder[i], i == 255, budget,
        b);
      assert runningOrder[..] == order;
      if stopped { return; }
      i := i + 1;
    }
    DoneAll(bigDone[..], runningOrder[..]);
    AllDone(b, ptr[..], ftab[..], bigDone[..]);
  }
}
