/** The sorter's first pass: rows bucketed by their first byte, buckets marked in the bit table. */
module RadixPass {
  import opened Bytes
  import opened Permutations
  import opened BucketHeaders

  /** Number of bytes of `b` below `c`: the row where the bucket of byte `c` starts. */
  function Start(b: seq<int>, c: int): (r: nat)
    ensures r <= |b|
  {
    if b == [] then 0 else Start(b[..|b| - 1], c) + if b[|b| - 1] < c then 1 else 0
  }

  lemma {:induction false} StartNext(b: seq<int>, c: int)
    ensures Start(b, c + 1) == Start(b, c) + multiset(b)[c]
  {
    if b != [] {
      StartNext(b[..|b| - 1], c);
      assert b == b[..|b| - 1] + [b[|b| - 1]];
    }
  }

  lemma {:induction false} StartEnds(b: seq<byte>)
    ensures Start(b, 0) == 0 && forall c | c >= 256 :: Start(b, c) == |b|
  {
    if b != [] {
      StartEnds(b[..|b| - 1]);
    }
  }

  lemma {:induction false} StartMonotone(b: seq<int>, c: int, d: int)
    requires c <= d
    ensures Start(b, c) <= Start(b, d)
  {
    if b != [] {
      StartMonotone(b[..|b| - 1], c, d);
    }
  }

  lemma PrefixCount(b: seq<int>, i: nat, c: int)
    requires i < |b|
    ensures multiset(b[..i + 1])[c] == multiset(b[..i])[c] + if b[i] == c then 1 else 0
  {
    assert b[..i + 1] == b[..i] + [b[i]];
  }

  lemma PrefixCountAtMost(b: seq<int>, i: nat, c: int)
    requires i <= |b|
    ensures multiset(b[..i])[c] <= multiset(b)[c]
  {
    assert b == b[..i] + b[i..];
  }

  method CountBytes(eclass8: array<byte>) returns (ftab: array<nat>)
    ensures fresh(ftab) && ftab.Length == 257 && ftab[256] == 0
    ensures forall c: byte :: ftab[c] == multiset(eclass8[..])[c]
  {
    ghost var b := eclass8[..];
    ftab := new nat[257](_ => 0);
    var i := 0;
    while i < eclass8.Length
      invariant 0 <= i <= eclass8.Length && eclass8[..] == b && ftab[256] == 0
      invariant forall c: byte :: ftab[c] == multiset(b[..i])[c]
    {
      forall c: byte ensures multiset(b[..i + 1])[c] == multiset(b[..i])[c] + if b[i] == c then 1 else 0 {
        PrefixCount(b, i, c);
      }
      ftab[eclass8[i]] := ftab[eclass8[i]] + 1;
      i := i + 1;
    }
    assert b[..i] == b;
  }

  /** Turn counts into bucket ends. */
  method Accumulate(ftab: array<nat>, ghost b: seq<byte>)
    requires ftab.Length == 257 && ftab[256] == 0 && forall c: byte :: ftab[c] == multiset(b)[c]
    modifies ftab
    ensures forall c: byte :: ftab[c] == Start(b, c + 1)
    ensures ftab[256] == |b|
  {
    StartEnds(b);
    StartNext(b, 0);
    var i := 1;
    while i < 257
      invariant 1 <= i <= 257
      invariant forall c: byte | c < i :: ftab[c] == Start(b, c + 1)
      invariant forall c: byte | c >= i :: ftab[c] == multiset(b)[c]
      invariant ftab[256] == if i == 257 then |b| else 0
    {
      if i < 256 { StartNext(b, i); }
      ftab[i] := ftab[i] + ftab[i - 1];
      i := i + 1;
    }
  }

  ghost predicate InBucket(b: seq<int>, c: int, p: int) {
    Start(b, c) <= p < Start(b, c + 1)
  }

  lemma BucketsDisjoint(b: seq<int>, c: int, d: int, p: int)
    requires InBucket(b, c, p) && InBucket(b, d, p)
    ensures c == d
  {
    if c < d { StartMonotone(b, c + 1, d); }
    if d < c { StartMonotone(b, d + 1, c); }
  }

  /** Free places of each bucket while the first `i` bytes have been placed. */
  ghost predicate Counters(b: seq<byte>, ft: seq<nat>, i: nat)
    requires i <= |b|
  {
    |ft| == 257 && forall c: byte :: ft[c] + multiset(b[..i])[c] == Start(b, c + 1)
  }

  lemma CountersNext(b: seq<byte>, ft: seq<nat>, i: nat)
    requires i < |b| && Counters(b, ft, i)
    ensures 0 < ft[b[i]] <= |b| && InBucket(b, b[i], ft[b[i]] - 1)
    ensures Counters(b, ft[b[i] := ft[b[i]] - 1], i + 1)
  {
    forall c: byte ensures multiset(b[..i + 1])[c] == multiset(b[..i])[c] + if b[i] == c then 1 else 0 {
      PrefixCount(b, i, c);
    }
    PrefixCountAtMost(b, i + 1, b[i]);
    StartNext(b, b[i]);
  }

  /** The rows of bytes `0 .. i` are placed from the ends of their buckets down; row `x` went to `slot[x]`. */
  ghost predicate Placed(b: seq<byte>, f: seq<nat>, ft: seq<nat>, slot: seq<nat>, i: nat) {
    && |f| == |b| && |ft| == 257 && |slot| == i <= |b|
    && forall x: nat | x < i :: slot[x] < |b| && ft[b[x]] <= slot[x] && InBucket(b, b[x], slot[x]) && f[slot[x]] == x
  }

  lemma PlaceNext(b: seq<byte>, f: seq<nat>, ft: seq<nat>, slot: seq<nat>, i: nat, k: nat)
    requires i < |b| && Placed(b, f, ft, slot, i) && ft[b[i]] == k + 1 <= |b| && InBucket(b, b[i], k)
    ensures Placed(b, f[k := i], ft[b[i] := k], slot + [k], i + 1)
  {
    hide InBucket;
    var j := b[i];
    var f1, ft1, slot1 := f[k := i], ft[j := k], slot + [k];
    forall x: nat | x < i + 1
      ensures slot1[x] < |b| && ft1[b[x]] <= slot1[x] && InBucket(b, b[x], slot1[x]) && f1[slot1[x]] == x
    {
      if x < i {
        assert slot1[x] == slot[x];
        if slot[x] == k {
          BucketsDisjoint(b, b[x], j, k);
        }
      }
    }
  }

  /** Rows grouped by their keys (for the first pass, their first bytes) in the order of the keys. */
  ghost predicate Grouped(b: seq<int>, f: seq<nat>) {
    && IsPermutation(f) && |f| == |b|
    && forall p: nat | p < |f| :: f[p] < |b| && InBucket(b, b[f[p]], p)
  }

  /** All bytes placed, the counters are at the starts. */
  lemma CountersEnd(b: seq<byte>, ft: seq<nat>)
    requires Counters(b, ft, |b|)
    ensures forall c: byte :: ft[c] == Start(b, c)
  {
    hide Start;
    assert b[..|b|] == b;
    forall c: byte ensures ft[c] == Start(b, c) { StartNext(b, c); }
  }

  lemma PlacedAll(b: seq<byte>, f: seq<nat>, ft: seq<nat>, slot: seq<nat>)
    requires Placed(b, f, ft, slot, |b|)
    ensures Grouped(b, f)
  {
    hide InBucket, IsPermutation;
    InverseIsPermutation(f, slot);
    forall p: nat | p < |f| ensures f[p] < |b| && InBucket(b, b[f[p]], p) {
      assert slot[f[p]] == p;
    }
  }

  lemma PlaceStart(b: seq<byte>, f: seq<nat>, ft: seq<nat>)
    requires |f| == |b| && |ft| == 257 && forall c: byte :: ft[c] == Start(b, c + 1)
    ensures Placed(b, f, ft, [], 0) && Counters(b, ft, 0)
  {
    hide Start;
    assert b[..0] == [];
  }

  /** A row goes to the last free place of its bucket. */
  method PlaceRow(fmap: array<nat>, ftab: array<nat>, j: byte, i: nat)
    requires fmap != ftab && ftab.Length == 257 && 0 < ftab[j] <= fmap.Length
    modifies fmap, ftab
    ensures var k := old(ftab[j]) - 1; fmap[..] == old(fmap[..])[k := i] && ftab[..] == old(ftab[..])[j := k]
  {
    var k: nat := ftab[j] - 1;
    ftab[j] := k;
    fmap[k] := i;
  }

  method PlaceRows(fmap: array<nat>, eclass8: array<byte>, ftab: array<nat>)
    requires fmap != ftab && fmap as object != eclass8 as object && ftab as object != eclass8 as object
    requires fmap.Length == eclass8.Length && ftab.Length == 257
    requires forall c: byte :: ftab[c] == Start(eclass8[..], c + 1)
    modifies fmap, ftab
    ensures Grouped(eclass8[..], fmap[..])
    ensures forall c: byte :: ftab[c] == Start(eclass8[..], c)
  {
    hide Placed, Counters, Start, Grouped, InBucket;
    ghost var b, slot: seq<nat> := eclass8[..], [];
    PlaceStart(b, fmap[..], ftab[..]);
    var i: nat := 0;
    while i < eclass8.Length
      invariant 0 <= i <= eclass8.Length && eclass8[..] == b
      invariant Placed(b, fmap[..], ftab[..], slot, i) && Counters(b, ftab[..], i)
    {
      CountersNext(b, ftab[..], i);
      ghost var k: nat := ftab[b[i]] - 1;
      PlaceNext(b, fmap[..], ftab[..], slot, i, k);
      PlaceRow(fmap, ftab, eclass8[i], i);
      slot := slot + [k];
      i := i + 1;
    }
    CountersEnd(b, ftab[..]);
    PlacedAll(b, fmap[..], ftab[..], slot);
  }

  /** A header stands exactly where the bucket of some byte starts. */
  ghost predicate HeadersAtStarts(b: seq<byte>, t: seq<bv32>) {
    && |t| >= |b| / 32 + 3
    && forall k: nat | k < |b| :: IsSet(t, k) <==> exists c: byte :: Start(b, c) == k
  }

  /** The first `m` of the pairs of bits behind the block: one set, one clear. */
  ghost predicate Alternating(t: seq<bv32>, n: nat, m: nat) {
    |t| >= n / 32 + 3 && m <= 32 && forall i: nat | i < m :: IsSet(t, n + 2 * i) && !IsSet(t, n + 2 * i + 1)
  }

  method ClearHeaders(bhtab: array<bv32>, nblock: nat)
    requires bhtab.Length >= nblock / 32 + 3
    modifies bhtab
    ensures forall k: nat | k < nblock :: !IsSet(bhtab[..], k)
  {
    var nBhtab := 2 + nblock / 32;
    var i := 0;
    while i < nBhtab
      invariant 0 <= i <= nBhtab
      invariant forall k | 0 <= k < i :: bhtab[k] == 0
    {
      bhtab[i] := 0;
      i := i + 1;
    }
    forall k: nat | k < nblock ensures !IsSet(bhtab[..], k) {
      FullBit(bhtab[k / 32], k % 32);
    }
  }

  /** The bucket of a byte below `i` starts at place `k`. */
  ghost predicate StartsBelow(b: seq<byte>, i: int, k: nat) {
    exists c: byte :: c < i && Start(b, c) == k
  }

  lemma StartsNext(b: seq<byte>, i: byte)
    ensures forall k: nat :: StartsBelow(b, i + 1, k) <==> StartsBelow(b, i, k) || Start(b, i) == k
  {
    hide Start;
  }

  lemma StartsAll(b: seq<byte>, t: seq<bv32>)
    requires |t| >= |b| / 32 + 3 && forall k: nat | k < |b| :: IsSet(t, k) <==> StartsBelow(b, 256, k)
    ensures HeadersAtStarts(b, t)
  {
    hide Start, IsSet;
  }

  lemma StartsNone(b: seq<byte>)
    ensures forall k: nat :: !StartsBelow(b, 0, k)
  {
  }

  lemma StartsWithin(b: seq<byte>)
    ensures forall c: byte :: Start(b, c) <= |b|
  {
    hide Start;
    StartEnds(b);
    forall c: byte ensures Start(b, c) <= |b| { StartMonotone(b, c, 256); }
  }

  lemma StartMarked(b: seq<byte>, t: seq<bv32>, u: seq<bv32>, i: byte)
    requires |t| == |u| >= |b| / 32 + 3 && forall k: nat | k < |b| :: IsSet(t, k) <==> StartsBelow(b, i, k)
    requires forall k: nat | k < 32 * |u| :: IsSet(u, k) <==> k == Start(b, i) || IsSet(t, k)
    ensures forall k: nat | k < |b| :: IsSet(u, k) <==> StartsBelow(b, i + 1, k)
  {
    hide IsSet, Start, StartsBelow;
    StartsNext(b, i);
  }

  method MarkStarts(bhtab: array<bv32>, ftab: array<nat>, nblock: nat, ghost b: seq<byte>)
    requires bhtab as object != ftab as object && nblock == |b| && bhtab.Length >= nblock / 32 + 3 && ftab.Length == 257
    requires forall c: byte :: ftab[c] == Start(b, c)
    requires forall k: nat | k < nblock :: !IsSet(bhtab[..], k)
    modifies bhtab
    ensures HeadersAtStarts(b, bhtab[..])
  {
    hide IsSet, Start, StartsBelow, HeadersAtStarts;
    StartsWithin(b);
    StartsNone(b);
    var i := 0;
    while i < 256
      invariant 0 <= i <= 256
      invariant forall k: nat | k < nblock :: IsSet(bhtab[..], k) <==> StartsBelow(b, i, k)
    {
      ghost var t := bhtab[..];
      SetBH(bhtab, ftab[i]);
      StartMarked(b, t, bhtab[..], i);
      i := i + 1;
    }
    StartsAll(b, bhtab[..]);
  }

  /** The pairs of bits before are not touched by setting and clearing the next. */
  lemma AlternatingNext(t: seq<bv32>, u: seq<bv32>, n: nat, m: nat)
    requires Alternating(t, n, m) && m < 32 && |u| == |t| && IsSet(u, n + 2 * m) && !IsSet(u, n + 2 * m + 1)
    requires forall k: nat | k < 32 * |t| && k != n + 2 * m && k != n + 2 * m + 1 :: IsSet(u, k) == IsSet(t, k)
    ensures Alternating(u, n, m + 1)
  {
    hide IsSet;
  }

  lemma AlternatingNone(t: seq<bv32>, n: nat)
    requires |t| >= n / 32 + 3
    ensures Alternating(t, n, 0)
  {
  }

  method MarkSentinels(bhtab: array<bv32>, nblock: nat, ghost b: seq<byte>)
    requires nblock == |b| && HeadersAtStarts(b, bhtab[..])
    modifies bhtab
    ensures HeadersAtStarts(b, bhtab[..]) && Alternating(bhtab[..], nblock, 32)
  {
    hide IsSet, Start, Alternating;
    AlternatingNone(bhtab[..], nblock);
    var i := 0;
    while i < 32
      invariant 0 <= i <= 32 && HeadersAtStarts(b, bhtab[..]) && Alternating(bhtab[..], nblock, i)
    {
      ghost var t := bhtab[..];
      SetBH(bhtab, nblock + 2 * i);
      ClearBH(bhtab, nblock + 2 * i + 1);
      AlternatingNext(t, bhtab[..], nblock, i);
      i := i + 1;
    }
  }

  /** Headers at the starts of the buckets, and behind the block 64 bits that are set and clear in turn. */
  method MarkBuckets(bhtab: array<bv32>, ftab: array<nat>, nblock: nat, ghost b: seq<byte>)
    requires bhtab as object != ftab as object
    requires nblock == |b| && bhtab.Length >= nblock / 32 + 3 && ftab.Length == 257
    requires forall c: byte :: ftab[c] == Start(b, c)
    modifies bhtab
    ensures HeadersAtStarts(b, bhtab[..]) && Alternating(bhtab[..], nblock, 32)
  {
    hide IsSet, Start, HeadersAtStarts, Alternating;
    ClearHeaders(bhtab, nblock);
    MarkStarts(bhtab, ftab, nblock, b);
    MarkSentinels(bhtab, nblock, b);
  }
}
