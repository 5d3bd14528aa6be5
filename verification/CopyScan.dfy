/**
 * The scan of a sorted big bucket that puts the rotations one byte before its own into order: what the rows written so
 * far say, and why the two halves of the scan meet.
 */
module CopyScan {
  import opened Bytes
  import opened Rotations
  import opened RotationRanks
  import opened Permutations
  import opened RadixPass
  import opened FallbackQuickSort
  import opened MainQuickSort
  import opened MainBuckets

  function Next(x: nat, n: nat): (r: nat)
    requires x < n
    ensures r < n
  {
    if x + 1 == n then 0 else x + 1
  }

  function Prev(x: nat, n: nat): (r: nat)
    requires x < n
    ensures r < n && Next(r, n) == x
    ensures forall y: nat | y < n && Next(y, n) == x :: y == r
  {
    if x == 0 then n - 1 else x - 1
  }

  /** A block, the byte `s` of the bucket scanned, the bytes of the buckets done, and the rows before the scan. */
  datatype Setting = Setting(b: seq<byte>, s: byte, done: seq<bool>, f0: seq<nat>)

  /**
   * The rows now; for the rows written, the place of the row they come from; the places up to which the bucket has
   * been scanned from either end; and the ends of what has been written in each bucket.
   */
  datatype Scan = Scan(f: seq<nat>, src: seq<int>, j: int, jb: int, cs: seq<int>, ce: seq<int>)

  /** The bucket of the rows that start with bytes `c` and `d`. */
  ghost function From(b: seq<byte>, c: int, d: int): int {
    Start(Pairs(b), 256 * c + d)
  }

  /** The rotation at `y` starts with bytes `c` and `d`. */
  ghost predicate StartsWith(b: seq<byte>, y: nat, c: int, d: int) {
    y < |b| && b[y] == c && b[Next(y, |b|)] == d
  }

  ghost predicate InPair(b: seq<byte>, c: int, d: int, p: int) {
    From(b, c, d) <= p < From(b, c, d + 1)
  }

  ghost predicate Sized(x: Setting) {
    |x.b| > 0 && |x.done| == 256 && |x.f0| == |x.b| && forall p: nat | p < |x.b| :: x.f0[p] < |x.b|
  }

  /** Rows grouped by their first two bytes; those of the bucket `s` are sorted, except where the second byte is `s`. */
  ghost predicate Fit(x: Setting) {
    && Sized(x) && !x.done[x.s] && Grouped(Pairs(x.b), x.f0)
    && forall p: nat, q: nat | p < q < |x.b| && Other(x, p) && Other(x, q) ::
         Class(Ranks(x.b), x.f0[p]) <= Class(Ranks(x.b), x.f0[q])
  }

  /** Place `p` belongs to rows whose first byte is `s`, and whose second byte is not. */
  ghost predicate Other(x: Setting, p: nat)
    requires Sized(x) && p < |x.b|
  {
    x.b[x.f0[p]] == x.s && !Own(x, p)
  }

  /** Place `p` belongs to rows whose second byte is `s`. */
  ghost predicate Own(x: Setting, p: nat)
    requires Sized(x) && p < |x.b|
  {
    x.b[Next(x.f0[p], |x.b|)] == x.s
  }

  lemma PairIs(b: seq<byte>, y: nat)
    requires y < |b|
    ensures Pairs(b)[y] == 256 * (b[y] as int) + b[Next(y, |b|)]
  {
    AtPeriod(b, 0);
    assert At(b, |b|) == b[0];
  }

  lemma GroupedAt(b: seq<byte>, f: seq<nat>, p: nat)
    requires Grouped(Pairs(b), f) && p < |f|
    ensures |f| == |b| && f[p] < |b| && InBucket(Pairs(b), Pairs(b)[f[p]], p)
  {
  }

  /** A place lies in the bucket of two bytes exactly if its row starts with them. */
  lemma PlaceOf(b: seq<byte>, f: seq<nat>, p: nat, c: byte, d: byte)
    requires Grouped(Pairs(b), f) && p < |f|
    ensures |f| == |b| && f[p] < |b| && (InPair(b, c, d, p) <==> StartsWith(b, f[p], c, d))
  {
    hide Pairs, Start, Grouped, Next;
    GroupedAt(b, f, p);
    PairIs(b, f[p]);
    var k := 256 * (c as int) + d;
    if InPair(b, c, d, p) {
      assert InBucket(Pairs(b), k, p);
      BucketsDisjoint(Pairs(b), k, Pairs(b)[f[p]], p);
    }
  }

  /** The big bucket of a byte, and in it the rows before and behind the bucket of two bytes. */
  lemma BigPlaceOf(b: seq<byte>, f: seq<nat>, p: nat, c: byte, d: byte)
    requires Grouped(Pairs(b), f) && p < |f|
    ensures |f| == |b| && f[p] < |b| && (From(b, c, 0) <= p < From(b, c, 256) <==> b[f[p]] == c)
    ensures b[f[p]] == c ==> (p < From(b, c, d) <==> b[Next(f[p], |b|)] < d)
    ensures b[f[p]] == c ==> (p >= From(b, c, d + 1) <==> b[Next(f[p], |b|)] > d)
  {
    hide Pairs, Start, Grouped, Next;
    GroupedAt(b, f, p);
    PairIs(b, f[p]);
    var keys, k := Pairs(b), Pairs(b)[f[p]];
    KeyBelow(keys, k, p, 256 * (c as int));
    KeyBelow(keys, k, p, 256 * (c as int) + 256);
    KeyBelow(keys, k, p, 256 * (c as int) + d);
    KeyBelow(keys, k, p, 256 * (c as int) + d + 1);
  }

  lemma KeyBelow(keys: seq<int>, k: int, p: nat, c: int)
    requires InBucket(keys, k, p)
    ensures p < Start(keys, c) <==> k < c
  {
    if k < c { StartMonotone(keys, k + 1, c); } else { StartMonotone(keys, c, k); }
  }

  // ----- the state of the scan -----

  ghost predicate Shaped(x: Setting, z: Scan) {
    && Sized(x) && |z.cs| == |z.ce| == 256 && |z.f| == |z.src| == |x.b| && forall p: nat | p < |x.b| :: z.f[p] < |x.b|
  }

  /** Place `p` has been written. */
  ghost predicate Filled(x: Setting, z: Scan, p: nat)
    requires Shaped(x, z) && p < |x.b|
  {
    var c := x.b[x.f0[p]];
    Own(x, p) && !x.done[c] && (p < z.cs[c] || p > z.ce[c])
  }

  /** Place `p` of the bucket holds its row: it was sorted before, or has been written. */
  ghost predicate Seen(x: Setting, z: Scan, p: int)
    requires Shaped(x, z)
  {
    From(x.b, x.s, 0) <= p < From(x.b, x.s, 256) && (p < z.cs[x.s] || p > z.ce[x.s])
  }

  /** Place `p` of the bucket has been scanned. */
  ghost predicate Scanned(x: Setting, z: Scan, p: int) {
    From(x.b, x.s, 0) <= p < From(x.b, x.s, 256) && (p < z.j || p > z.jb)
  }

  /** The ends of what has been written lie in their buckets, and those of the scan in what is known. */
  ghost predicate Bounded(x: Setting, z: Scan)
    requires Shaped(x, z)
  {
    && (forall c: byte | !x.done[c] ::
          From(x.b, c, x.s) <= z.cs[c] <= z.ce[c] + 1 <= From(x.b, c, x.s + 1))
    && From(x.b, x.s, 0) <= z.j <= z.cs[x.s] && z.ce[x.s] <= z.jb < From(x.b, x.s, 256)
  }

  /** The row at `p` comes from a row scanned from the same end, one byte further; and it starts as its place says. */
  ghost predicate SourcedAt(x: Setting, z: Scan, p: nat)
    requires Shaped(x, z) && p < |x.b|
  {
    && x.b[z.f[p]] == x.b[x.f0[p]] && 0 <= z.src[p] < |x.b| && Scanned(x, z, z.src[p])
    && (if p < z.cs[x.b[x.f0[p]]] then z.src[p] < z.j else z.src[p] > z.jb)
    && z.f[z.src[p]] == Next(z.f[p], |x.b|)
  }

  /** Two places of one bucket that have been written. */
  ghost predicate BothFilled(x: Setting, z: Scan, p: nat, q: nat)
    requires Shaped(x, z) && p < |x.b| && q < |x.b|
  {
    Filled(x, z, p) && Filled(x, z, q) && x.b[x.f0[p]] == x.b[x.f0[q]]
  }

  ghost predicate Sourced(x: Setting, z: Scan)
    requires Shaped(x, z)
  {
    && (forall p: nat | p < |x.b| && Filled(x, z, p) :: SourcedAt(x, z, p))
    && forall p: nat, q: nat | p < q < |x.b| && BothFilled(x, z, p, q) :: z.src[p] < z.src[q]
  }

  /** The row before a row scanned has been written, unless its bucket is done. */
  ghost predicate Complete(x: Setting, z: Scan)
    requires Shaped(x, z)
  {
    forall i: nat | i < |x.b| && Scanned(x, z, i) && !x.done[x.b[Prev(z.f[i], |x.b|)]] ::
      Written(x, z, Prev(z.f[i], |x.b|))
  }

  ghost predicate Written(x: Setting, z: Scan, y: nat)
    requires Shaped(x, z)
  {
    exists p: nat :: p < |x.b| && Filled(x, z, p) && z.f[p] == y
  }

  /** The rows of the bucket that are known are in order, and no two are the same. */
  ghost predicate SeenSorted(x: Setting, z: Scan)
    requires Shaped(x, z)
  {
    && (forall p: nat | p < |x.b| && Seen(x, z, p) :: x.b[z.f[p]] == x.s)
    && forall p: nat, q: nat | p < q < |x.b| && Seen(x, z, p) && Seen(x, z, q) ::
         Class(Ranks(x.b), z.f[p]) <= Class(Ranks(x.b), z.f[q]) && z.f[p] != z.f[q]
  }

  ghost predicate Untouched(x: Setting, z: Scan)
    requires Shaped(x, z)
  {
    forall p: nat | p < |x.b| && !Filled(x, z, p) :: z.f[p] == x.f0[p]
  }

  /** What every step of the scan keeps. */
  ghost predicate Scanning(x: Setting, z: Scan) {
    Shaped(x, z) && Fit(x) && Bounded(x, z) && Sourced(x, z) && Complete(x, z) && SeenSorted(x, z) && Untouched(x, z)
  }

  // ----- orders of rotations by their first bytes -----

  lemma NextAt(b: seq<byte>, u: nat)
    requires u < |b|
    ensures At(b, u) == b[u] && At(b, u + 1) == b[Next(u, |b|)]
    ensures forall v: nat, h: nat :: Ord(b, u + 1, v, h) == Ord(b, Next(u, |b|), v, h)
    ensures forall v: nat, h: nat :: Ord(b, v, u + 1, h) == Ord(b, v, Next(u, |b|), h)
  {
    hide Ord;
    forall v: nat, h: nat
      ensures Ord(b, u + 1, v, h) == Ord(b, Next(u, |b|), v, h) && Ord(b, v, u + 1, h) == Ord(b, v, Next(u, |b|), h)
    {
      OrdPeriods(b, 0, v, h);
      OrdPeriods(b, v, 0, h);
    }
  }

  lemma FirstByteDecides(b: seq<byte>, u: nat, v: nat)
    requires u < |b| && v < |b| && b[u] < b[v]
    ensures Class(Ranks(b), u) <= Class(Ranks(b), v)
  {
    hide Ord, Ranks, Next, Class;
    NextAt(b, u);
    NextAt(b, v);
    OrdNext(b, u, v);
    RanksCompare(b, u, v);
  }

  /** With equal first bytes, the rotations one byte further decide. */
  lemma RestDecides(b: seq<byte>, u: nat, v: nat)
    requires u < |b| && v < |b| && b[u] == b[v] && Class(Ranks(b), Next(u, |b|)) <= Class(Ranks(b), Next(v, |b|))
    ensures Class(Ranks(b), u) <= Class(Ranks(b), v)
  {
    hide Ord, Ranks, Next, Class;
    NextAt(b, u);
    NextAt(b, v);
    OrdNext(b, u, v);
    RanksCompare(b, u, v);
    RanksCompare(b, Next(u, |b|), Next(v, |b|));
    assert Ord(b, u + 1, v + 1, |b|) == Ord(b, Next(u, |b|), v + 1, |b|) == Ord(b, Next(u, |b|), Next(v, |b|), |b|);
  }

  lemma SecondByteDecides(b: seq<byte>, u: nat, v: nat)
    requires u < |b| && v < |b| && b[u] == b[v] && b[Next(u, |b|)] < b[Next(v, |b|)]
    ensures Class(Ranks(b), u) <= Class(Ranks(b), v)
  {
    hide Next, Class, Ranks;
    FirstByteDecides(b, Next(u, |b|), Next(v, |b|));
    RestDecides(b, u, v);
  }

  // ----- one step -----

  ghost predicate Open(x: Setting, z: Scan, forth: bool)
    requires Shaped(x, z)
  {
    if forth then z.j < z.cs[x.s] else z.jb > z.ce[x.s]
  }

  ghost function Place(z: Scan, forth: bool): int {
    if forth then z.j else z.jb
  }

  lemma FromWithin(b: seq<byte>, s: byte)
    requires |b| > 0
    ensures 0 <= From(b, s, 0) && From(b, s, 256) <= |b|
  {
    hide Pairs;
    var keys := Pairs(b);
  }

  /** The place of the next row scanned is known, and not yet scanned. */
  lemma PlaceSeen(x: Setting, z: Scan, forth: bool)
    requires Scanning(x, z) && Open(x, z, forth)
    ensures 0 <= Place(z, forth) < |x.b| && z.j <= z.jb
    ensures Seen(x, z, Place(z, forth)) && !Scanned(x, z, Place(z, forth))
    ensures x.b[z.f[Place(z, forth)]] == x.s
    ensures forall i | Scanned(x, z, i) :: 0 <= i < |x.b| && Seen(x, z, i)
  {
    hide Sourced, Complete, Untouched, Grouped;
    FromWithin(x.b, x.s);
  }

  lemma FilledDistinct(x: Setting, z: Scan, p: nat, q: nat)
    requires Scanning(x, z) && p < q < |x.b| && Filled(x, z, p) && Filled(x, z, q) && x.b[x.f0[p]] == x.b[x.f0[q]]
    ensures z.f[p] != z.f[q] && z.src[p] < z.src[q]
    ensures Class(Ranks(x.b), z.f[p]) <= Class(Ranks(x.b), z.f[q])
  {
    hide Complete, Untouched, Grouped, Fit, Class, Ranks;
    assert BothFilled(x, z, p, q);
    var i, k := z.src[p], z.src[q];
    assert i < k && Seen(x, z, i) && Seen(x, z, k);
    assert Class(Ranks(x.b), z.f[i]) <= Class(Ranks(x.b), z.f[k]);
    RestDecides(x.b, z.f[p], z.f[q]);
  }

  lemma PairPlace(x: Setting, c: byte, p: int)
    requires Fit(x) && InPair(x.b, c, x.s, p)
    ensures 0 <= p < |x.b| && x.b[x.f0[p]] == c && Own(x, p)
  {
    hide Grouped, Pairs;
    GroupedSize(Pairs(x.b), x.f0);
    PlaceOf(x.b, x.f0, p, c, x.s);
  }

  lemma GroupedSize(keys: seq<int>, f: seq<nat>)
    requires Grouped(keys, f)
    ensures |f| == |keys| && IsPermutation(f)
  {
  }

  /** Where a row was before the scan. */
  lemma HomeOf(x: Setting, c: byte, y: nat) returns (p: nat)
    requires Fit(x) && StartsWith(x.b, y, c, x.s)
    ensures p < |x.b| && x.f0[p] == y && InPair(x.b, c, x.s, p)
  {
    hide IsPermutation, InPair;
    GroupedSize(Pairs(x.b), x.f0);
    p := PermutationOnto(x.f0, y);
    PlaceOf(x.b, x.f0, p, c, x.s);
  }

  lemma FilledStarts(x: Setting, z: Scan, p: nat)
    requires Scanning(x, z) && p < |x.b| && Filled(x, z, p)
    ensures StartsWith(x.b, z.f[p], x.b[x.f0[p]], x.s)
  {
    hide Complete, Untouched, Grouped, Fit, Class, Ranks;
    assert Seen(x, z, z.src[p]);
  }

  /** The rows of the bucket of bytes `c` and `s`. */
  ghost function Bucket(x: Setting, f: seq<nat>, c: byte): (r: seq<nat>)
    requires |f| == |x.b|
    ensures |r| == From(x.b, c, x.s + 1) - From(x.b, c, x.s)
  {
    FromRange(x.b, c, x.s);
    f[From(x.b, c, x.s)..From(x.b, c, x.s + 1)]
  }

  lemma BucketAt(x: Setting, f: seq<nat>, c: byte, i: nat) returns (p: nat)
    requires |f| == |x.b| && i < |Bucket(x, f, c)|
    ensures p == From(x.b, c, x.s) + i < |f| && InPair(x.b, c, x.s, p) && f[p] == Bucket(x, f, c)[i]
  {
    FromRange(x.b, c, x.s);
    p := From(x.b, c, x.s) + i;
  }

  lemma InBucketOf(x: Setting, f: seq<nat>, c: byte, p: int)
    requires |f| == |x.b| && InPair(x.b, c, x.s, p)
    ensures 0 <= p < |f| && f[p] in Bucket(x, f, c)
  {
    FromRange(x.b, c, x.s);
    assert Bucket(x, f, c)[p - From(x.b, c, x.s)] == f[p];
  }

  /** Before the scan, a bucket holds the rows that belong there. */
  lemma BucketBefore(x: Setting, c: byte, y: nat)
    requires Fit(x) && StartsWith(x.b, y, c, x.s)
    ensures y in Bucket(x, x.f0, c)
  {
    hide Grouped, From, StartsWith, Pairs, InPair, Bucket;
    GroupedSize(Pairs(x.b), x.f0);
    var p := HomeOf(x, c, y);
    InBucketOf(x, x.f0, c, p);
  }

  lemma FullBucket(x: Setting, z: Scan, c: byte)
    requires Scanning(x, z) && !x.done[c] && z.cs[c] == z.ce[c] + 1
    ensures NoRepeats(Bucket(x, z.f, c))
    ensures forall i | 0 <= i < |Bucket(x, z.f, c)| :: Bucket(x, z.f, c)[i] in Bucket(x, x.f0, c)
    ensures forall p | InPair(x.b, c, x.s, p) :: 0 <= p < |x.b| && x.f0[p] < |x.b| && Filled(x, z, p)
  {
    hide Sourced, Complete, Untouched, SeenSorted, Grouped, From, StartsWith, Pairs, InPair, Bucket;
    var now := Bucket(x, z.f, c);
    forall p | InPair(x.b, c, x.s, p) ensures 0 <= p < |x.b| && x.f0[p] < |x.b| && Filled(x, z, p) {
      PairPlace(x, c, p);
    }
    forall i, k | 0 <= i < k < |now| ensures now[i] != now[k] {
      var p := BucketAt(x, z.f, c, i);
      var q := BucketAt(x, z.f, c, k);
      PairPlace(x, c, p);
      PairPlace(x, c, q);
      FilledDistinct(x, z, p, q);
    }
    forall i | 0 <= i < |now| ensures now[i] in Bucket(x, x.f0, c) {
      var p := BucketAt(x, z.f, c, i);
      PairPlace(x, c, p);
      FilledStarts(x, z, p);
      BucketBefore(x, c, now[i]);
    }
  }

  /** Where a bucket is full, it holds all rows that belong there. */
  lemma FullHoldsAll(x: Setting, z: Scan, c: byte, y: nat)
    requires Scanning(x, z) && !x.done[c] && z.cs[c] == z.ce[c] + 1 && StartsWith(x.b, y, c, x.s)
    ensures Written(x, z, y)
  {
    hide Sourced, Complete, Untouched, SeenSorted, Fit, From, StartsWith, Pairs, Filled, InPair, Bucket, NoRepeats;
    FullBucket(x, z, c);
    BucketBefore(x, c, y);
    var now := Bucket(x, z.f, c);
    Pigeonhole(now, Bucket(x, x.f0, c), y);
    var i :| 0 <= i < |now| && now[i] == y;
    var p := BucketAt(x, z.f, c, i);
  }

  lemma FirstDistinct(x: Setting, p: nat, q: nat)
    requires Fit(x) && p < q < |x.b|
    ensures x.f0[p] != x.f0[q]
  {
    hide IsPermutation;
    GroupedSize(Pairs(x.b), x.f0);
    if x.f0[p] == x.f0[q] {
      PermutationOneToOne(x.f0, p, q);
    }
  }

  lemma FromRange(b: seq<byte>, c: byte, d: byte)
    ensures 0 <= From(b, c, d) <= From(b, c, d + 1) <= |b|
  {
    hide Pairs;
    StartMonotone(Pairs(b), 256 * (c as int) + d, 256 * (c as int) + d + 1);
    PairsSize(b);
  }

  /** There is room for the next row. */
  lemma RoomLeft(x: Setting, z: Scan, forth: bool)
    requires Scanning(x, z) && Open(x, z, forth)
    ensures 0 <= Place(z, forth) < |x.b|
    ensures var c := x.b[Prev(z.f[Place(z, forth)], |x.b|)]; !x.done[c] ==> z.cs[c] <= z.ce[c]
  {
    PlaceSeen(x, z, forth);
    var at := Place(z, forth);
    var y := Prev(z.f[at], |x.b|);
    var c := x.b[y];
    if !x.done[c] && z.cs[c] > z.ce[c] {
      assert StartsWith(x.b, y, c, x.s);
      FullHoldsAll(x, z, c, y);
      NotWritten(x, z, forth);
    }
  }

  /** The row before the next row scanned has not been written yet. */
  lemma NotWritten(x: Setting, z: Scan, forth: bool)
    requires Scanning(x, z) && Open(x, z, forth)
    ensures 0 <= Place(z, forth) < |x.b| && !Written(x, z, Prev(z.f[Place(z, forth)], |x.b|))
  {
    hide Complete, Untouched, Grouped, Class, Ranks;
    PlaceSeen(x, z, forth);
    var at := Place(z, forth);
    forall p: nat | p < |x.b| && Filled(x, z, p) ensures z.f[p] != Prev(z.f[at], |x.b|) {
      var i := z.src[p];
      assert Seen(x, z, i) && i != at && z.f[i] != z.f[at];
    }
  }

  /** The row before the next row scanned. */
  ghost function PrecedingRow(x: Setting, z: Scan, forth: bool): (y: nat)
    requires Shaped(x, z) && 0 <= Place(z, forth) < |x.b|
    ensures y < |x.b| && Next(y, |x.b|) == z.f[Place(z, forth)]
  {
    Prev(z.f[Place(z, forth)], |x.b|)
  }

  /** Where it is to be written. */
  ghost function Target(x: Setting, z: Scan, forth: bool): int
    requires Shaped(x, z) && 0 <= Place(z, forth) < |x.b|
  {
    if forth then z.cs[x.b[PrecedingRow(x, z, forth)]] else z.ce[x.b[PrecedingRow(x, z, forth)]]
  }

  /** A row has been scanned and the row before it was not written: its bucket is done. */
  ghost function Passed(z: Scan, forth: bool): Scan {
    if forth then z.(j := z.j + 1) else z.(jb := z.jb - 1)
  }

  /** A row has been scanned and the row before it written. */
  ghost function Emitted(x: Setting, z: Scan, forth: bool): Scan
    requires Shaped(x, z) && 0 <= Place(z, forth) < |x.b| && 0 <= Target(x, z, forth) < |x.b|
  {
    var y, q := PrecedingRow(x, z, forth), Target(x, z, forth);
    var c := x.b[y];
    Passed(Scan(z.f[q := y], z.src[q := Place(z, forth)], z.j, z.jb, if forth then z.cs[c := q + 1] else z.cs,
      if forth then z.ce else z.ce[c := q - 1]), forth)
  }

  /** `z'` is `z` after the row at `at` has been scanned. */
  ghost predicate OneScanned(x: Setting, z: Scan, z': Scan, at: int) {
    && Scanning(x, z) && Shaped(x, z') && Bounded(x, z') && 0 <= at < |x.b|
    && z'.f == z.f && z'.src == z.src && z'.cs == z.cs && z'.ce == z.ce && z.j <= z'.j && z'.jb <= z.jb
    && forall p: nat | p < |x.b| :: Scanned(x, z', p) == (Scanned(x, z, p) || p == at)
  }

  lemma PassedScans(x: Setting, z: Scan, forth: bool)
    requires Scanning(x, z) && Open(x, z, forth)
    ensures OneScanned(x, z, Passed(z, forth), Place(z, forth))
  {
    hide Fit, Sourced, Complete, Untouched, SeenSorted;
    PlaceSeen(x, z, forth);
  }

  lemma ScannedSourced(x: Setting, z: Scan, z': Scan, at: int)
    requires OneScanned(x, z, z', at)
    ensures Sourced(x, z')
  {
    hide Fit, Complete, Untouched, SeenSorted, Scanned, Next, From, Own;
    forall p: nat | p < |x.b| && Filled(x, z', p) ensures SourcedAt(x, z', p) {
      assert Filled(x, z, p) && SourcedAt(x, z, p);
    }
    forall p: nat, q: nat | p < q < |x.b| && BothFilled(x, z', p, q) ensures z'.src[p] < z'.src[q] {
      assert BothFilled(x, z, p, q);
    }
  }

  lemma ScannedSorted(x: Setting, z: Scan, z': Scan, at: int)
    requires OneScanned(x, z, z', at)
    ensures SeenSorted(x, z') && Untouched(x, z')
  {
    hide Fit, Complete, Sourced, Scanned, Next, From, Own, Class, Ranks;
  }

  lemma ScannedComplete(x: Setting, z: Scan, z': Scan, at: int)
    requires OneScanned(x, z, z', at) && x.done[x.b[Prev(z.f[at], |x.b|)]]
    ensures Complete(x, z')
  {
    hide Fit, Untouched, Sourced, SeenSorted, Scanned, Next, Prev, From, Own;
    forall y: nat | Written(x, z, y) ensures Written(x, z', y) {
      var p: nat :| p < |x.b| && Filled(x, z, p) && z.f[p] == y;
      assert Filled(x, z', p) && z'.f[p] == y;
    }
  }

  lemma PassedKeeps(x: Setting, z: Scan, forth: bool)
    requires Scanning(x, z) && Open(x, z, forth) && 0 <= Place(z, forth) < |x.b|
    requires x.done[x.b[PrecedingRow(x, z, forth)]]
    ensures Scanning(x, Passed(z, forth))
  {
    hide Fit, Sourced, Complete, Untouched, SeenSorted, Place, Passed, Next;
    PassedScans(x, z, forth);
    var at, z' := Place(z, forth), Passed(z, forth);
    ScannedSourced(x, z, z', at);
    ScannedSorted(x, z, z', at);
    ScannedComplete(x, z, z', at);
  }

  /** `z'` is `z` with row `y` written at place `q`, from the row at place `at`. */
  ghost predicate OneMore(x: Setting, z: Scan, z': Scan, at: int, q: int, y: nat) {
    && Scanning(x, z) && Shaped(x, z') && Bounded(x, z') && 0 <= at < |x.b| && 0 <= q < |x.b| && y < |x.b|
    && z'.f == z.f[q := y] && z'.src == z.src[q := at]
    && !Filled(x, z, q) && (forall p: nat | p < |x.b| :: Filled(x, z', p) == (Filled(x, z, p) || p == q))
    && !Seen(x, z, q) && (forall p: nat | p < |x.b| :: Seen(x, z', p) == (Seen(x, z, p) || (p == q && x.b[y] == x.s)))
    && Seen(x, z, at) && (forall p: nat | p < |x.b| :: Scanned(x, z', p) == (Scanned(x, z, p) || p == at))
    && (forall p: nat | p < |x.b| && Scanned(x, z, p) :: Seen(x, z, p))
    && StartsWith(x.b, y, x.b[x.f0[q]], x.s) && Next(y, |x.b|) == z.f[at]
  }

  lemma MoreBasics(x: Setting, z: Scan, z': Scan, at: int, q: int, y: nat)
    requires OneMore(x, z, z', at, q, y)
    ensures at != q && z'.f[at] == z.f[at] && z'.f[q] == y
    ensures forall p: nat | p < |x.b| && p != q :: z'.f[p] == z.f[p] && z'.src[p] == z.src[p]
  {
    hide Fit, Sourced, Complete, Untouched, SeenSorted;
  }

  lemma MoreUntouched(x: Setting, z: Scan, z': Scan, at: int, q: int, y: nat)
    requires OneMore(x, z, z', at, q, y)
    ensures Untouched(x, z')
  {
    hide Fit, Bounded, Sourced, Complete, SeenSorted, Filled, Seen, Scanned;
    MoreBasics(x, z, z', at, q, y);
  }

  lemma MoreComplete(x: Setting, z: Scan, z': Scan, at: int, q: int, y: nat)
    requires OneMore(x, z, z', at, q, y)
    ensures Complete(x, z')
  {
    hide Fit, Bounded, Sourced, Untouched, SeenSorted, Filled, Seen, Scanned, From;
    MoreBasics(x, z, z', at, q, y);
    forall v: nat | Written(x, z, v) ensures Written(x, z', v) {
      var p: nat :| p < |x.b| && Filled(x, z, p) && z.f[p] == v;
      assert Filled(x, z', p) && z'.f[p] == v;
    }
    assert Written(x, z', y) by { assert Filled(x, z', q); }
  }

  /** The source of the new row fits among those of the rows written before. */
  ghost predicate Between(x: Setting, z: Scan, z': Scan, at: int, q: int)
    requires Shaped(x, z) && Shaped(x, z') && 0 <= q < |x.b|
  {
    && (forall p: nat | p < |x.b| && Filled(x, z, p) ::
          if p < z'.cs[x.b[x.f0[p]]] then z.src[p] < z'.j else z.src[p] > z'.jb)
    && (if q < z'.cs[x.b[x.f0[q]]] then at < z'.j else at > z'.jb)
    && forall p: nat | p < |x.b| && Filled(x, z, p) && x.b[x.f0[p]] == x.b[x.f0[q]] ::
         if p < q then z.src[p] < at else z.src[p] > at
  }

  lemma MoreSourced(x: Setting, z: Scan, z': Scan, at: int, q: int, y: nat)
    requires OneMore(x, z, z', at, q, y) && Between(x, z, z', at, q)
    ensures Sourced(x, z')
  {
    hide Fit, Bounded, Complete, Untouched, SeenSorted, Filled, Seen, Scanned, From, Next;
    MoreBasics(x, z, z', at, q, y);
    forall p: nat | p < |x.b| && Filled(x, z', p) ensures SourcedAt(x, z', p) {
      if p != q {
        assert SourcedAt(x, z, p) && z.src[p] != q;
      }
    }
    forall p: nat, r: nat | p < r < |x.b| && BothFilled(x, z', p, r) ensures z'.src[p] < z'.src[r] {
      if p != q && r != q { assert BothFilled(x, z, p, r); }
    }
  }

  /** Where a place of the bucket scanned is known: written, or as before. */
  lemma SeenAt(x: Setting, z: Scan, p: nat)
    requires Scanning(x, z) && p < |x.b| && Seen(x, z, p)
    ensures x.b[x.f0[p]] == x.s == x.b[z.f[p]]
    ensures if Own(x, p) then Filled(x, z, p) else z.f[p] == x.f0[p]
    ensures !Own(x, p) ==> (p < From(x.b, x.s, x.s + 1) <==> x.b[Next(z.f[p], |x.b|)] < x.s)
    ensures !Own(x, p) ==> (p >= From(x.b, x.s, x.s) <==> x.b[Next(z.f[p], |x.b|)] > x.s)
  {
    hide Complete, Sourced, Grouped, From, Next;
    BigPlaceOf(x.b, x.f0, p, x.s, x.s);
  }

  /** Where the new row belongs. */
  lemma TargetAt(x: Setting, z: Scan, z': Scan, at: int, q: int, y: nat)
    requires OneMore(x, z, z', at, q, y)
    ensures Filled(x, z', q) && Own(x, q) && x.b[x.f0[q]] == x.b[y]
    ensures From(x.b, x.b[y], x.s) <= q < From(x.b, x.b[y], x.s + 1)
  {
    hide Complete, Sourced, Grouped, From, Next, Seen, Bounded, Scanned, SeenSorted, Untouched;
    assert StartsWith(x.b, x.f0[q], x.b[y], x.s);
    PlaceOf(x.b, x.f0, q, x.b[y], x.s);
    assert InPair(x.b, x.b[y], x.s, q);
  }

  /** A known row that was written, and the new one: their sources decide. */
  lemma NewAmongWritten(x: Setting, z: Scan, z': Scan, at: int, q: int, y: nat, p: nat)
    requires OneMore(x, z, z', at, q, y) && Between(x, z, z', at, q)
    requires p < |x.b| && Filled(x, z, p) && x.b[x.f0[p]] == x.b[y]
    ensures z.f[p] != y
    ensures p < q ==> Class(Ranks(x.b), z.f[p]) <= Class(Ranks(x.b), y)
    ensures p > q ==> Class(Ranks(x.b), y) <= Class(Ranks(x.b), z.f[p])
  {
    hide Complete, Bounded, Untouched, Class, Ranks, Fit, From, Next, Scanned, Seen;
    TargetAt(x, z, z', at, q, y);
    assert SourcedAt(x, z, p);
    var i := z.src[p];
    assert Seen(x, z, i) && Seen(x, z, at);
    if p < q { RestDecides(x.b, z.f[p], y); }
    if p > q { RestDecides(x.b, y, z.f[p]); }
  }

  /** The new row, where it belongs to the bucket that is scanned, has its place among the known rows. */
  lemma NewAmongSeen(x: Setting, z: Scan, z': Scan, at: int, q: int, y: nat, p: nat)
    requires OneMore(x, z, z', at, q, y) && Between(x, z, z', at, q) && x.b[y] == x.s
    requires p < |x.b| && Seen(x, z, p)
    ensures z.f[p] != y && p != q
    ensures p < q ==> Class(Ranks(x.b), z.f[p]) <= Class(Ranks(x.b), y)
    ensures p > q ==> Class(Ranks(x.b), y) <= Class(Ranks(x.b), z.f[p])
  {
    hide Complete, Bounded, Untouched, Class, Ranks, Fit, From, Next, Scanned, Seen, Sourced, SeenSorted, Between;
    SeenAt(x, z, p);
    TargetAt(x, z, z', at, q, y);
    if Own(x, p) {
      NewAmongWritten(x, z, z', at, q, y, p);
    } else if p < q {
      SecondByteDecides(x.b, z.f[p], y);
    } else {
      SecondByteDecides(x.b, y, z.f[p]);
    }
  }

  lemma MoreSorted(x: Setting, z: Scan, z': Scan, at: int, q: int, y: nat)
    requires OneMore(x, z, z', at, q, y) && Between(x, z, z', at, q)
    ensures SeenSorted(x, z')
  {
    hide Complete, Bounded, Untouched, Class, Ranks, Fit, From, Next, Scanned, Seen, Sourced, Between, Filled;
    MoreBasics(x, z, z', at, q, y);
    forall p: nat | p < |x.b| && Seen(x, z', p) ensures x.b[z'.f[p]] == x.s { }
    forall p: nat, r: nat | p < r < |x.b| && Seen(x, z', p) && Seen(x, z', r)
      ensures Class(Ranks(x.b), z'.f[p]) <= Class(Ranks(x.b), z'.f[r]) && z'.f[p] != z'.f[r]
    {
      if p == q {
        NewAmongSeen(x, z, z', at, q, y, r);
      } else if r == q {
        NewAmongSeen(x, z, z', at, q, y, p);
      }
    }
  }

  lemma MoreKeeps(x: Setting, z: Scan, z': Scan, at: int, q: int, y: nat)
    requires OneMore(x, z, z', at, q, y) && Between(x, z, z', at, q)
    ensures Scanning(x, z')
  {
    MoreUntouched(x, z, z', at, q, y);
    MoreComplete(x, z, z', at, q, y);
    MoreSourced(x, z, z', at, q, y);
    MoreSorted(x, z, z', at, q, y);
    hide Complete, Bounded, Untouched, Fit, Sourced, SeenSorted, Between, Filled, Seen, Scanned, Next;
  }

  /** What writing needs: room at the target, and the places it changes. */
  lemma EmittedPlaces(x: Setting, z: Scan, forth: bool)
    requires Scanning(x, z) && Open(x, z, forth) && 0 <= Place(z, forth) < |x.b|
    requires !x.done[x.b[PrecedingRow(x, z, forth)]]
    ensures var y, q, at := PrecedingRow(x, z, forth), Target(x, z, forth), Place(z, forth);
            && StartsWith(x.b, y, x.b[y], x.s) && InPair(x.b, x.b[y], x.s, q) && 0 <= q < |x.b|
            && x.b[x.f0[q]] == x.b[y] && Own(x, q) && !Filled(x, z, q) && !Seen(x, z, q) && Seen(x, z, at)
            && z.cs[x.b[y]] <= q <= z.ce[x.b[y]]
            && forall p: nat | p < |x.b| && Scanned(x, z, p) :: Seen(x, z, p)
  {
    hide Complete, Sourced, Grouped, Fit, From, Next, Untouched, SeenSorted;
    var y, q := PrecedingRow(x, z, forth), Target(x, z, forth);
    RoomLeft(x, z, forth);
    PlaceSeen(x, z, forth);
    PairPlace(x, x.b[y], q);
    if Seen(x, z, q) {
      SeenAt(x, z, q);
      assert false;
    }
  }

  /** `z'` is `z` with row `y` written at place `q`, the next in its bucket from the end the scan comes from. */
  ghost predicate StepOf(x: Setting, z: Scan, z': Scan, forth: bool, q: int, y: nat)
    requires Shaped(x, z) && Shaped(x, z')
  {
    && y < |x.b| && 0 <= q < |x.b| && z'.f == z.f[q := y] && z'.src == z.src[q := Place(z, forth)]
    && var c := x.b[y];
       && z.cs[c] <= q <= z.ce[c]
       && if forth
          then q == z.cs[c] && z'.cs == z.cs[c := q + 1] && z'.ce == z.ce && z'.j == z.j + 1 && z'.jb == z.jb
          else q == z.ce[c] && z'.cs == z.cs && z'.ce == z.ce[c := q - 1] && z'.j == z.j && z'.jb == z.jb - 1
  }

  lemma EmittedStep(x: Setting, z: Scan, forth: bool)
    requires Shaped(x, z) && 0 <= Place(z, forth) < |x.b| && 0 <= Target(x, z, forth) < |x.b|
    requires var c := x.b[PrecedingRow(x, z, forth)]; z.cs[c] <= Target(x, z, forth) <= z.ce[c]
    ensures Shaped(x, Emitted(x, z, forth))
    ensures StepOf(x, z, Emitted(x, z, forth), forth, Target(x, z, forth), PrecedingRow(x, z, forth))
  {
    hide Own, Next, Prev;
  }

  lemma StepBounded(x: Setting, z: Scan, z': Scan, forth: bool, q: int, y: nat)
    requires Shaped(x, z) && Bounded(x, z) && Shaped(x, z') && StepOf(x, z, z', forth, q, y) && Open(x, z, forth)
    ensures Bounded(x, z')
  {
    hide From, Sized;
  }

  lemma StepFilled(x: Setting, z: Scan, z': Scan, forth: bool, q: int, y: nat, p: nat)
    requires Shaped(x, z) && Shaped(x, z') && StepOf(x, z, z', forth, q, y) && p < |x.b|
    requires Own(x, q) && x.b[x.f0[q]] == x.b[y] && !x.done[x.b[y]]
    ensures Filled(x, z', p) == (Filled(x, z, p) || p == q)
  {
    hide Own;
  }

  lemma StepSeen(x: Setting, z: Scan, z': Scan, forth: bool, q: int, y: nat, p: nat)
    requires Shaped(x, z) && Shaped(x, z') && StepOf(x, z, z', forth, q, y) && p < |x.b|
    requires x.b[y] == x.s ==> From(x.b, x.s, 0) <= q < From(x.b, x.s, 256)
    ensures Seen(x, z', p) == (Seen(x, z, p) || (p == q && x.b[y] == x.s))
  {
    hide From;
  }

  lemma StepScanned(x: Setting, z: Scan, z': Scan, forth: bool, q: int, y: nat, p: nat)
    requires Shaped(x, z) && Shaped(x, z') && StepOf(x, z, z', forth, q, y) && p < |x.b| && z.j <= z.jb
    requires From(x.b, x.s, 0) <= Place(z, forth) < From(x.b, x.s, 256)
    ensures Scanned(x, z', p) == (Scanned(x, z, p) || p == Place(z, forth))
  {
    hide From;
  }

  lemma StepMore(x: Setting, z: Scan, z': Scan, forth: bool, q: int, y: nat)
    requires Scanning(x, z) && Open(x, z, forth) && Shaped(x, z') && StepOf(x, z, z', forth, q, y)
    requires StartsWith(x.b, y, x.b[y], x.s) && x.b[x.f0[q]] == x.b[y] && Own(x, q) && !x.done[x.b[y]]
    requires 0 <= Place(z, forth) < |x.b| && Next(y, |x.b|) == z.f[Place(z, forth)]
    requires !Filled(x, z, q) && !Seen(x, z, q)
    ensures OneMore(x, z, z', Place(z, forth), q, y)
  {
    hide Complete, Sourced, Fit, Next, Untouched, SeenSorted, Sized, From, Own, StartsWith, Filled, Scanned, Seen,
      Bounded, Place;
    PlaceSeen(x, z, forth);
    SeenRange(x, z, Place(z, forth));
    StepBounded(x, z, z', forth, q, y);
    BigOwn(x, q);
    forall p: nat | p < |x.b| ensures Filled(x, z', p) == (Filled(x, z, p) || p == q) {
      StepFilled(x, z, z', forth, q, y, p);
    }
    forall p: nat | p < |x.b| ensures Seen(x, z', p) == (Seen(x, z, p) || (p == q && x.b[y] == x.s)) {
      StepSeen(x, z, z', forth, q, y, p);
    }
    forall p: nat | p < |x.b| ensures Scanned(x, z', p) == (Scanned(x, z, p) || p == Place(z, forth)) {
      StepScanned(x, z, z', forth, q, y, p);
    }
  }

  lemma SeenRange(x: Setting, z: Scan, p: int)
    requires Shaped(x, z) && Seen(x, z, p)
    ensures From(x.b, x.s, 0) <= p < From(x.b, x.s, 256)
  {
  }

  lemma BigOwn(x: Setting, q: nat)
    requires Sized(x) && Fit(x) && q < |x.b|
    ensures From(x.b, x.s, 0) <= q < From(x.b, x.s, 256) <==> x.b[x.f0[q]] == x.s
  {
    hide Grouped, From;
    BigPlaceOf(x.b, x.f0, q, x.s, x.s);
  }

  lemma SourceOrder(x: Setting, z: Scan, z': Scan, forth: bool, q: int, y: nat, p: nat)
    requires Shaped(x, z) && Shaped(x, z') && StepOf(x, z, z', forth, q, y) && z.j <= z.jb
    requires p < |x.b| && p != q && Filled(x, z, p) && SourcedAt(x, z, p)
    ensures if p < z'.cs[x.b[x.f0[p]]] then z.src[p] < z'.j else z.src[p] > z'.jb
    ensures x.b[x.f0[p]] == x.b[y] ==> if p < q then z.src[p] < Place(z, forth) else z.src[p] > Place(z, forth)
  {
    hide Sized, Own, Scanned, Next;
  }

  lemma NewOrder(x: Setting, z: Scan, z': Scan, forth: bool, q: int, y: nat)
    requires Shaped(x, z) && Shaped(x, z') && StepOf(x, z, z', forth, q, y)
    ensures 0 <= q < |x.b| && y < |x.b|
    ensures if q < z'.cs[x.b[y]] then Place(z, forth) < z'.j else Place(z, forth) > z'.jb
  {
    hide Sized;
  }

  lemma StepBetween(x: Setting, z: Scan, z': Scan, forth: bool, q: int, y: nat)
    requires Scanning(x, z) && Open(x, z, forth) && Shaped(x, z') && StepOf(x, z, z', forth, q, y)
    requires x.b[x.f0[q]] == x.b[y] && !Filled(x, z, q)
    ensures Between(x, z, z', Place(z, forth), q)
  {
    hide Complete, Fit, Untouched, SeenSorted, Bounded, Filled, SourcedAt, StepOf, Place, Open, BothFilled;
    PlaceSeen(x, z, forth);
    NewOrder(x, z, z', forth, q, y);
    forall p: nat | p < |x.b| && Filled(x, z, p)
      ensures if p < z'.cs[x.b[x.f0[p]]] then z.src[p] < z'.j else z.src[p] > z'.jb
    {
      SourceOrder(x, z, z', forth, q, y, p);
    }
    forall p: nat | p < |x.b| && Filled(x, z, p) && x.b[x.f0[p]] == x.b[x.f0[q]]
      ensures if p < q then z.src[p] < Place(z, forth) else z.src[p] > Place(z, forth)
    {
      SourceOrder(x, z, z', forth, q, y, p);
    }
  }

  /** One step of the scan, in either direction. */
  lemma EmittedKeeps(x: Setting, z: Scan, forth: bool)
    requires Scanning(x, z) && Open(x, z, forth) && 0 <= Place(z, forth) < |x.b|
    requires !x.done[x.b[PrecedingRow(x, z, forth)]]
    ensures 0 <= Target(x, z, forth) < |x.b| && Scanning(x, Emitted(x, z, forth))
  {
    hide Complete, Sourced, Fit, Next, Untouched, SeenSorted, Sized, From, Own, StartsWith, Filled, Scanned, Seen,
      Bounded, Place, Target, PrecedingRow, Emitted, StepOf, OneMore, Between, InPair, Open;
    EmittedPlaces(x, z, forth);
    EmittedStep(x, z, forth);
    var z', q, y := Emitted(x, z, forth), Target(x, z, forth), PrecedingRow(x, z, forth);
    StepMore(x, z, z', forth, q, y);
    StepBetween(x, z, z', forth, q, y);
    MoreKeeps(x, z, z', Place(z, forth), q, y);
  }

  // ----- the start and the end of the scan -----

  ghost function StartOf(x: Setting): Scan
  {
    Scan(x.f0, seq(|x.b|, _ => 0), From(x.b, x.s, 0), From(x.b, x.s, 256) - 1, seq(256, c => From(x.b, c, x.s)),
      seq(256, c => From(x.b, c, x.s + 1) - 1))
  }

  lemma FromRises(b: seq<byte>, c: int, d: int, e: int)
    requires d <= e
    ensures 0 <= From(b, c, d) <= From(b, c, e) <= |b|
  {
    hide Pairs;
    StartMonotone(Pairs(b), 256 * c + d, 256 * c + e);
    PairsSize(b);
  }

  lemma StartUnfilled(x: Setting, z: Scan, p: nat)
    requires Shaped(x, z) && Fit(x) && z == StartOf(x) && p < |x.b|
    ensures !Filled(x, z, p) && (Seen(x, z, p) ==> Other(x, p))
  {
    hide From, Grouped;
    var c := x.b[x.f0[p]];
    PlaceOf(x.b, x.f0, p, c, x.s);
    BigPlaceOf(x.b, x.f0, p, x.s, x.s);
  }

  lemma ScanStarts(x: Setting)
    requires Fit(x)
    ensures Scanning(x, StartOf(x))
  {
    hide From, Grouped, Filled, Seen, Other, Own, Class, Ranks;
    var z := StartOf(x);
    forall p: nat | p < |x.b| ensures !Filled(x, z, p) && (Seen(x, z, p) ==> Other(x, p)) { StartUnfilled(x, z, p); }
    FromRises(x.b, x.s, 0, x.s);
    FromRises(x.b, x.s, x.s + 1, 256);
    forall c: byte ensures From(x.b, c, x.s) <= From(x.b, c, x.s + 1) { FromRises(x.b, c, x.s, x.s + 1); }
    StartSorted(x, z);
  }

  lemma StartSorted(x: Setting, z: Scan)
    requires Fit(x) && Shaped(x, z) && z.f == x.f0
    requires forall p: nat | p < |x.b| && Seen(x, z, p) :: Other(x, p)
    ensures SeenSorted(x, z)
  {
    hide From, Grouped, Filled, Seen, Own, Class, Ranks;
    forall p: nat, q: nat | p < q < |x.b| && Seen(x, z, p) && Seen(x, z, q)
      ensures Class(Ranks(x.b), z.f[p]) <= Class(Ranks(x.b), z.f[q]) && z.f[p] != z.f[q]
    {
      FirstDistinct(x, p, q);
    }
  }

  /** The scan has come to its end from both sides. */
  ghost predicate Ended(x: Setting, z: Scan) {
    Scanning(x, z) && z.j == z.cs[x.s] && z.jb == z.ce[x.s]
  }

  /** The row `y` of the bucket is among the known. */
  ghost predicate Known(x: Setting, z: Scan, y: nat)
    requires Shaped(x, z)
  {
    exists p: nat :: p < |x.b| && Seen(x, z, p) && z.f[p] == y
  }

  /** A row that was written, of the bucket itself, is known. */
  lemma WrittenKnown(x: Setting, z: Scan, y: nat)
    requires Scanning(x, z) && Written(x, z, y) && y < |x.b| && x.b[y] == x.s
    ensures Known(x, z, y)
  {
    hide From, Own, Complete, SeenSorted, Untouched, Fit, Bounded;
    var p: nat :| p < |x.b| && Filled(x, z, p) && z.f[p] == y;
    assert SourcedAt(x, z, p);
    BigOwn(x, p);
    assert Seen(x, z, p);
  }

  /** When the scan has ended, a row whose next is known has been written. */
  lemma NextKnown(x: Setting, z: Scan, y: nat)
    requires Ended(x, z) && y < |x.b| && !x.done[x.b[y]] && Known(x, z, Next(y, |x.b|))
    ensures Written(x, z, y)
  {
    hide From, Own, SeenSorted, Untouched, Fit, Bounded, Sourced, Written, Filled;
    var p: nat :| p < |x.b| && Seen(x, z, p) && z.f[p] == Next(y, |x.b|);
    assert Scanned(x, z, p) && Prev(z.f[p], |x.b|) == y;
  }

  /** A row that is not among the known is followed by another such row. */
  lemma UnknownNext(x: Setting, z: Scan, y: nat)
    requires Ended(x, z) && y < |x.b| && x.b[y] == x.s && !Known(x, z, y)
    ensures x.b[Next(y, |x.b|)] == x.s && !Known(x, z, Next(y, |x.b|))
  {
    hide From, SeenSorted, Grouped, Sourced, Written, Filled, Complete, Untouched, IsPermutation;
    if Known(x, z, Next(y, |x.b|)) {
      NextKnown(x, z, y);
      WrittenKnown(x, z, y);
    }
    GroupedSize(Pairs(x.b), x.f0);
    var p := PermutationOnto(x.f0, y);
    BigPlaceOf(x.b, x.f0, p, x.s, x.s);
    if !Own(x, p) {
      assert Seen(x, z, p);
      SeenAt(x, z, p);
    }
  }

  function Steps(y: nat, t: nat, n: nat): (v: nat)
    requires y < n && t < n
    ensures v < n
  {
    if y + t < n then y + t else y + t - n
  }

  lemma {:induction false} UnknownAll(x: Setting, z: Scan, y: nat, t: nat)
    requires Ended(x, z) && y < |x.b| && x.b[y] == x.s && !Known(x, z, y) && t < |x.b|
    ensures x.b[Steps(y, t, |x.b|)] == x.s && !Known(x, z, Steps(y, t, |x.b|))
  {
    hide Ended, Known;
    if t > 0 {
      UnknownAll(x, z, y, t - 1);
      UnknownNext(x, z, Steps(y, t - 1, |x.b|));
    }
  }

  /** If a row of the bucket remains unknown, all bytes of the block are the same, and no row is known. */
  lemma UnknownMeansConstant(x: Setting, z: Scan, y: nat, v: nat)
    requires Ended(x, z) && y < |x.b| && x.b[y] == x.s && !Known(x, z, y) && v < |x.b|
    ensures x.b[v] == x.s && !Known(x, z, v)
  {
    hide Ended, Known;
    UnknownAll(x, z, y, if v >= y then v - y else v + |x.b| - y);
  }

  /** The places of a bucket that have been written are the front and the back of it. */
  lemma WrittenAt(x: Setting, z: Scan, c: byte, y: nat)
    requires Scanning(x, z) && !x.done[c] && StartsWith(x.b, y, c, x.s) && Written(x, z, y)
    ensures 0 <= From(x.b, c, x.s) <= z.cs[c] <= z.ce[c] + 1 <= From(x.b, c, x.s + 1) <= |x.b|
    ensures y in z.f[From(x.b, c, x.s)..z.cs[c]] + z.f[z.ce[c] + 1..From(x.b, c, x.s + 1)]
  {
    hide From, Complete, SeenSorted, Untouched, Grouped, Seen, Scanned;
    FromRange(x.b, c, x.s);
    var lo, hi := From(x.b, c, x.s), From(x.b, c, x.s + 1);
    var p: nat :| p < |x.b| && Filled(x, z, p) && z.f[p] == y;
    assert SourcedAt(x, z, p);
    PlaceOf(x.b, x.f0, p, c, x.s);
    assert InPair(x.b, c, x.s, p);
    if p < z.cs[c] {
      assert z.f[lo..z.cs[c]][p - lo] == y;
    } else {
      assert z.f[z.ce[c] + 1..hi][p - (z.ce[c] + 1)] == y;
    }
  }

  /** If all rows of the bucket scanned are known in the end, the two halves meet in every bucket. */
  lemma HalvesMeet(x: Setting, z: Scan, c: byte)
    requires Ended(x, z) && !x.done[c] && forall y: nat | y < |x.b| && x.b[y] == x.s :: Known(x, z, y)
    ensures z.cs[c] == z.ce[c] + 1
  {
    hide From, Sourced, Complete, SeenSorted, Untouched, Grouped, Seen, Scanned, Known, Written, Filled, NoRepeats,
      Bucket, InPair, Pairs;
    FromRange(x.b, c, x.s);
    var lo, hi := From(x.b, c, x.s), From(x.b, c, x.s + 1);
    var before := Bucket(x, x.f0, c);
    var written := z.f[lo..z.cs[c]] + z.f[z.ce[c] + 1..hi];
    BucketDistinct(x, c);
    forall i | 0 <= i < |before| ensures before[i] in written {
      var p := BucketAt(x, x.f0, c, i);
      PairPlace(x, c, p);
      assert StartsWith(x.b, before[i], c, x.s);
      NextKnown(x, z, before[i]);
      WrittenAt(x, z, c, before[i]);
    }
    DistinctAtMost(before, written);
  }

  lemma BucketDistinct(x: Setting, c: byte)
    requires Fit(x)
    ensures NoRepeats(Bucket(x, x.f0, c))
  {
    hide From, Grouped, Bucket, InPair, Pairs;
    var before := Bucket(x, x.f0, c);
    forall i, k | 0 <= i < k < |before| ensures before[i] != before[k] {
      var p := BucketAt(x, x.f0, c, i);
      var q := BucketAt(x, x.f0, c, k);
      FirstDistinct(x, p, q);
    }
  }

  /**
   * What the scan makes of the rows: the same rows in their buckets, those of the bytes `c` and `s`, for a bucket `c`
   * not done, in order, and all others as they were.
   */
  ghost predicate Copied(x: Setting, f: seq<nat>)
    requires Sized(x)
  {
    && Grouped(Pairs(x.b), f) && |f| == |x.b|
    && (forall p: nat | p < |x.b| && !(Own(x, p) && !x.done[x.b[x.f0[p]]]) :: f[p] == x.f0[p])
    && forall p: nat, q: nat | p < q < |x.b| && Own(x, p) && Own(x, q) && x.b[x.f0[p]] == x.b[x.f0[q]]
         && !x.done[x.b[x.f0[p]]] :: Class(Ranks(x.b), f[p]) <= Class(Ranks(x.b), f[q])
  }

  /** Every bucket not done is full. */
  ghost predicate AllMet(x: Setting, z: Scan)
    requires Shaped(x, z)
  {
    forall c: byte | !x.done[c] :: z.cs[c] == z.ce[c] + 1
  }

  lemma MetFilled(x: Setting, z: Scan, p: nat)
    requires Scanning(x, z) && AllMet(x, z) && p < |x.b|
    ensures Filled(x, z, p) <==> Own(x, p) && !x.done[x.b[x.f0[p]]]
  {
    hide Sourced, Complete, SeenSorted, Untouched, Fit, Bounded, Own;
  }

  lemma PairKept(x: Setting, z: Scan, p: nat)
    requires Scanning(x, z) && p < |x.b|
    ensures Pairs(x.b)[z.f[p]] == Pairs(x.b)[x.f0[p]]
  {
    hide Sourced, Complete, SeenSorted, Fit, Bounded, Filled, Pairs;
    if Filled(x, z, p) {
      FilledStarts(x, z, p);
      FilledOwn(x, z, p);
      PairIs(x.b, z.f[p]);
      PairIs(x.b, x.f0[p]);
    }
  }

  lemma FilledOwn(x: Setting, z: Scan, p: nat)
    requires Shaped(x, z) && p < |x.b| && Filled(x, z, p)
    ensures Own(x, p)
  {
  }

  lemma MetDistinct(x: Setting, z: Scan, p: nat, q: nat)
    requires Scanning(x, z) && AllMet(x, z) && p < q < |x.b|
    ensures z.f[p] != z.f[q]
  {
    hide Sourced, Complete, SeenSorted, Fit, Bounded, Filled, Pairs, AllMet;
    PairKept(x, z, p);
    PairKept(x, z, q);
    PairIs(x.b, x.f0[p]);
    PairIs(x.b, x.f0[q]);
    FirstDistinct(x, p, q);
    MetFilled(x, z, p);
    MetFilled(x, z, q);
    if Filled(x, z, p) && Filled(x, z, q) && x.b[x.f0[p]] == x.b[x.f0[q]] {
      FilledDistinct(x, z, p, q);
    }
  }

  lemma MetCopied(x: Setting, z: Scan)
    requires Scanning(x, z) && AllMet(x, z)
    ensures Copied(x, z.f)
  {
    hide Sourced, Complete, SeenSorted, Bounded, Filled, Pairs, AllMet, IsPermutation, Class, Ranks, InBucket, Own;
    forall p, q | 0 <= p < q < |z.f| ensures z.f[p] != z.f[q] { MetDistinct(x, z, p, q); }
    DistinctIsPermutation(z.f);
    forall p: nat | p < |z.f| ensures InBucket(Pairs(x.b), Pairs(x.b)[z.f[p]], p) {
      PairKept(x, z, p);
      GroupedAt(x.b, x.f0, p);
    }
    forall p: nat | p < |x.b| && !(Own(x, p) && !x.done[x.b[x.f0[p]]]) ensures z.f[p] == x.f0[p] { MetFilled(x, z, p); }
    forall p: nat, q: nat | p < q < |x.b| && Own(x, p) && Own(x, q) && x.b[x.f0[p]] == x.b[x.f0[q]]
      && !x.done[x.b[x.f0[p]]] ensures Class(Ranks(x.b), z.f[p]) <= Class(Ranks(x.b), z.f[q])
    {
      MetFilled(x, z, p);
      MetFilled(x, z, q);
      FilledDistinct(x, z, p, q);
    }
  }

  /** All rotations of a block of one byte are the same. */
  lemma ConstantRanks(b: seq<byte>, s: byte, u: nat, v: nat)
    requires u < |b| && v < |b| && forall k: nat | k < |b| :: b[k] == s
    ensures Class(Ranks(b), u) == Class(Ranks(b), v)
  {
    hide At, Ord, Ranks, Class;
    forall t: nat ensures Agree(b, u, v, t) {
      ConstantAt(b, s, u + t);
      ConstantAt(b, s, v + t);
    }
    OrdZero(b, u, v, |b|);
    OrdAnti(b, u, v, |b|);
    RanksCompare(b, u, v);
    RanksCompare(b, v, u);
  }

  lemma {:induction false} ConstantAt(b: seq<byte>, s: byte, k: nat)
    requires |b| > 0 && forall i: nat | i < |b| :: b[i] == s
    ensures At(b, k) == s
    decreases k
  {
    if k >= |b| { ConstantAt(b, s, k - |b|); }
  }

  lemma SeenIsKnown(x: Setting, z: Scan, p: nat)
    requires Shaped(x, z) && p < |x.b| && Seen(x, z, p)
    ensures Known(x, z, z.f[p])
  {
    hide Seen;
  }

  lemma FilledFromSeen(x: Setting, z: Scan, p: nat)
    requires Scanning(x, z) && p < |x.b| && Filled(x, z, p)
    ensures 0 <= z.src[p] < |x.b| && Seen(x, z, z.src[p])
  {
    hide From, Complete, SeenSorted, Untouched, Fit, Own;
    assert SourcedAt(x, z, p);
  }

  /** In a block of one byte nothing has been written, and the ends are those of the block. */
  lemma ConstantEnd(x: Setting, z: Scan)
    requires Ended(x, z) && forall y: nat | y < |x.b| :: x.b[y] == x.s && !Known(x, z, y)
    ensures z.cs[x.s] == 0 && z.ce[x.s] == |x.b| - 1 && z.f == x.f0
  {
    hide From, Complete, SeenSorted, Grouped, Filled, Own;
    FromWithin(x.b, x.s);
    BigOwn(x, 0);
    BigOwn(x, |x.b| - 1);
    forall p: nat | p < |x.b| ensures !Seen(x, z, p) {
      if Seen(x, z, p) { SeenIsKnown(x, z, p); }
    }
    assert !Seen(x, z, 0) && !Seen(x, z, |x.b| - 1);
    forall p: nat | p < |x.b| ensures z.f[p] == x.f0[p] {
      if Filled(x, z, p) { FilledFromSeen(x, z, p); }
    }
  }

  lemma ConstantCopied(x: Setting, z: Scan)
    requires Fit(x) && z.f == x.f0 && forall y: nat | y < |x.b| :: x.b[y] == x.s
    ensures Copied(x, z.f)
  {
    hide Grouped, Own, Class, Ranks;
    GroupedSize(Pairs(x.b), x.f0);
    forall p: nat, q: nat | p < q < |x.b| ensures Class(Ranks(x.b), z.f[p]) <= Class(Ranks(x.b), z.f[q]) {
      ConstantRanks(x.b, x.s, z.f[p], z.f[q]);
    }
  }

  /**
   * In the end the rows are in order. The two halves of the scan have met, unless the block is one byte over and over.
   */
  lemma ScanEnds(x: Setting, z: Scan)
    requires Ended(x, z)
    ensures Copied(x, z.f)
    ensures z.cs[x.s] == z.ce[x.s] + 1 || (z.cs[x.s] == 0 && z.ce[x.s] == |x.b| - 1)
  {
    hide Sourced, Complete, SeenSorted, Untouched, Bounded, Grouped, Known, From, Own, Filled, Copied;
    if exists y: nat :: y < |x.b| && x.b[y] == x.s && !Known(x, z, y) {
      var y: nat :| y < |x.b| && x.b[y] == x.s && !Known(x, z, y);
      forall v: nat | v < |x.b| ensures x.b[v] == x.s && !Known(x, z, v) { UnknownMeansConstant(x, z, y, v); }
      ConstantEnd(x, z);
      ConstantCopied(x, z);
    } else {
      forall c: byte | !x.done[c] ensures z.cs[c] == z.ce[c] + 1 { HalvesMeet(x, z, c); }
      MetCopied(x, z);
    }
  }

  lemma ScanningShape(x: Setting, z: Scan)
    requires Scanning(x, z)
    ensures Shaped(x, z) && Sized(x) && !x.done[x.s]
  {
  }
}
