/** Prefix-doubling sort of the rotations of a block (the fallback sorter). */
module BlockSort {
  import opened Bytes
  import opened Rotations
  import opened Permutations
  import opened BucketHeaders
  import opened FallbackQuickSort
  import opened RadixPass

  /** Room for the headers, the 64 sentinel bits and the words they share. */
  ghost predicate Roomy(t: seq<bv32>, n: nat) {
    |t| >= n / 32 + 3
  }

  /** Order of two rows according to their buckets alone. */
  ghost function Tied(b: seq<byte>, f: seq<nat>, t: seq<bv32>, p: nat, q: nat): int
    requires |f| == |b| > 0 && Roomy(t, |b|) && IsSet(t, 0) && p < |b| && q < |b|
  {
    Cmp(Header(t, p), Header(t, q))
  }

  /** Rows ordered on their first `h` bytes, `2 * h` for pairs among the first `done`; buckets are the ties. */
  ghost predicate Refined(b: seq<byte>, f: seq<nat>, t: seq<bv32>, h: nat, done: nat) {
    && |f| == |b| > 0 && Roomy(t, |b|) && IsSet(t, 0) && IsPermutation(f)
    && forall p: nat, q: nat {:trigger Tied(b, f, t, p, q)} | p < |b| && q < |b| :: 
         Ord(b, f[p], f[q], if p < done && q < done then 2 * h else h) == Tied(b, f, t, p, q)
  }

  /** The rotation that starts `h` bytes before rotation `x`. */
  function Back(x: nat, h: nat, n: nat): (r: nat)
    requires x < n && h <= n
    ensures r < n
  {
    if x >= h then x - h else x + n - h
  }

  function Ahead(x: nat, h: nat, n: nat): (r: nat)
    requires x < n && h <= n
    ensures r < n
    ensures Back(r, h, n) == x
  {
    if x + h < n then x + h else x + h - n
  }

  lemma OrdSame(b: seq<byte>, i: nat, h: nat)
    requires |b| > 0
    ensures Ord(b, i, i, h) == 0
  {
    OrdAnti(b, i, i, h);
  }

  lemma OrdAhead(b: seq<byte>, x: nat, y: nat, h: nat, g: nat)
    requires |b| > 0 && x < |b| && y < |b| && h <= |b|
    ensures Ord(b, x + h, y + h, g) == Ord(b, Ahead(x, h, |b|), Ahead(y, h, |b|), g)
  {
    var n := |b|;
    var u, v := Ahead(x, h, n), Ahead(y, h, n);
    if x + h != u {
      OrdPeriod(b, u, y + h, g);
    }
    if y + h != v {
      OrdPeriod(b, v, u, g);
      OrdAnti(b, v, u, g);
      OrdAnti(b, v + n, u, g);
    }
  }

  /** Classes assigned from the buckets compare rotations on the `h` bytes that follow the first `h`. */
  ghost predicate ClassesFor(b: seq<byte>, ec: seq<nat>, h: nat) {
    && |ec| == |b| > 0
    && forall x: nat, y: nat | x < |b| && y < |b| :: Cmp(ec[x], ec[y]) == Ord(b, x + h, y + h, h)
  }

  lemma ClassesFromBuckets(b: seq<byte>, f: seq<nat>, t: seq<bv32>, ec: seq<nat>, h: nat)
    requires Refined(b, f, t, h, 0) && h <= |b| && |ec| == |b|
    requires forall i: nat | i < |b| :: f[i] < |b|
    requires forall i: nat | i < |b| :: ec[Back(f[i], h, |b|)] == Header(t, i)
    ensures ClassesFor(b, ec, h)
  {
    var n := |b|;
    forall x: nat, y: nat | x < n && y < n ensures Cmp(ec[x], ec[y]) == Ord(b, x + h, y + h, h) {
      var i := PermutationOnto(f, Ahead(x, h, n));
      var j := PermutationOnto(f, Ahead(y, h, n));
      assert ec[x] == ec[Back(f[i], h, n)] && ec[y] == ec[Back(f[j], h, n)];
      assert Ord(b, f[i], f[j], h) == Tied(b, f, t, i, j);
      OrdAhead(b, x, y, h, h);
    }
  }

  lemma RefinedBasics(b: seq<byte>, f: seq<nat>, t: seq<bv32>, h: nat, done: nat)
    requires Refined(b, f, t, h, done)
    ensures |f| == |b| > 0 && Roomy(t, |b|) && IsSet(t, 0) && IsPermutation(f)
    ensures forall p | 0 <= p < |f| :: f[p] < |b|
    ensures forall p, q | 0 <= p < q < |f| :: f[p] != f[q]
  {
    forall p | 0 <= p < |f| ensures f[p] < |b| { PermutationInRange(f, p); }
    forall p, q | 0 <= p < q < |f| ensures f[p] != f[q] {
      if f[p] == f[q] { PermutationOneToOne(f, p, q); }
    }
  }

  lemma HeaderStep(t: seq<bv32>, p: nat)
    requires p < 32 * |t| && IsSet(t, 0)
    ensures Header(t, p) == if IsSet(t, p) then p else Header(t, p - 1)
  {
  }

  method AssignClasses(fmap: array<nat>, eclass: array<nat>, bhtab: array<bv32>, ghost b: seq<byte>, h: nat)
    requires fmap != eclass && bhtab as object != eclass as object && 1 <= h <= fmap.Length == eclass.Length
    requires Refined(b, fmap[..], bhtab[..], h, 0)
    modifies eclass
    ensures ClassesFor(b, eclass[..], h)
  {
    hide Refined, IsSet, IsPermutation, ClassesFor, Header;
    var nblock := fmap.Length;
    ghost var f, t := fmap[..], bhtab[..];
    RefinedBasics(b, f, t, h, 0);
    var j, i := 0, 0;
    while i < nblock
      invariant 0 <= i <= nblock && fmap[..] == f && bhtab[..] == t
      invariant i > 0 ==> j == Header(t, i - 1)
      invariant forall i': nat | i' < i :: eclass[Back(f[i'], h, nblock)] == Header(t, i')
    {
      if IsSet(bhtab[..], i) { j := i; }
      HeaderStep(t, i);
      assert fmap[i] == f[i];
      var k: int := fmap[i] - h;
      if k < 0 { k := k + nblock; }
      assert k == Back(f[i], h, nblock);
      eclass[k] := j;
      i := i + 1;
    }
    ClassesFromBuckets(b, f, t, eclass[..], h);
  }

  /** Two rows that differ on `h` bytes compare alike on any more. */
  lemma OrdDecided(b: seq<byte>, i: nat, j: nat, h: nat, g: nat)
    requires |b| > 0 && Ord(b, i, j, h) != 0 && h <= g
    ensures Ord(b, i, j, g) == Ord(b, i, j, h)
  {
    OrdSplit(b, i, j, h, g - h);
  }

  lemma SingleHeader(t: seq<bv32>, p: nat, q: nat)
    requires p < q < 32 * |t| && IsSet(t, 0) && IsSet(t, q)
    ensures Header(t, p) < Header(t, q)
  {
  }

  /** Rows that are alone in their bucket are already ordered to every depth. */
  lemma SinglesAreRefined(b: seq<byte>, f: seq<nat>, t: seq<bv32>, h: nat, done: nat, l: nat)
    requires Refined(b, f, t, h, done) && done <= l <= |b|
    requires forall k: nat | done <= k < l :: IsSet(t, k)
    requires l < |b| ==> IsSet(t, l)
    ensures Refined(b, f, t, h, l)
  {
    forall p: nat, q: nat | p < |b| && q < |b|
      ensures Ord(b, f[p], f[q], if p < l && q < l then 2 * h else h) == Tied(b, f, t, p, q)
    {
      assert Ord(b, f[p], f[q], if p < done && q < done then 2 * h else h) == Tied(b, f, t, p, q);
      if p < l && q < l && !(p < done && q < done) {
        if p == q {
          OrdSame(b, f[p], 2 * h);
        } else {
          assert Header(t, p) != Header(t, q) by {
            if p < q { SingleHeader(t, p, q); } else { SingleHeader(t, q, p); }
          }
          OrdDecided(b, f[p], f[q], h, 2 * h);
        }
      }
    }
  }

  /** Headers of the bucket `[l, r]` of `t` split where the class of the sorted entries changes. */
  ghost predicate Rescanned(ec: seq<nat>, f: seq<nat>, t: seq<bv32>, u: seq<bv32>, l: nat, r: nat, upto: nat)
    requires l <= r < |f| && Roomy(t, |f|)
  {
    && |u| == |t|
    && forall k: nat {:trigger IsSet(u, k)} | k < 32 * |t| ::
         IsSet(u, k) <==> IsSet(t, k) || (l <= k < upto && k <= r && (k == l || Class(ec, f[k]) != Class(ec, f[k - 1])))
  }

  method ScanBucket(fmap: array<nat>, eclass: array<nat>, bhtab: array<bv32>, l: nat, r: nat)
    requires bhtab as object != fmap as object && bhtab as object != eclass as object
    requires l <= r < fmap.Length && Roomy(bhtab[..], fmap.Length)
    requires InClasses(eclass[..], fmap[..], l, r + 1)
    modifies bhtab
    ensures old(Roomy(bhtab[..], fmap.Length)) && Rescanned(eclass[..], fmap[..], old(bhtab[..]), bhtab[..], l, r,
      r + 1)
  {
    ghost var t, ec, f := bhtab[..], eclass[..], fmap[..];
    var cc: int := -1;
    var i := l;
    while i <= r
      invariant l <= i <= r + 1
      invariant eclass[..] == ec && fmap[..] == f
      invariant cc == if i == l then -1 else Class(ec, f[i - 1])
      invariant Rescanned(ec, f, t, bhtab[..], l, r, i)
    {
      assert fmap[i] == f[i] && f[i] < |ec|;
      var cc1 := eclass[fmap[i]];
      if cc != cc1 {
        SetBH(bhtab, i);
        cc := cc1;
      }
      i := i + 1;
    }
  }

  /** The bucket `[l, r]` of `t`, and what sorting and splitting it made of `f` and `t`. */
  ghost predicate BucketSplit(b: seq<byte>, ec: seq<nat>, f: seq<nat>, g: seq<nat>, t: seq<bv32>, u: seq<bv32>, h: nat,
      l: nat, r: nat) {
    && Refined(b, f, t, h, l) && ClassesFor(b, ec, h) && l < r < |b|
    && IsSet(t, l) && IsSet(t, r + 1) && (forall k: nat | l < k <= r :: !IsSet(t, k))
    && Rearranged(f, g, l, r + 1) && InClasses(ec, g, l, r + 1) && ClassSorted(ec, g, l, r + 1)
    && Rescanned(ec, g, t, u, l, r, r + 1)
  }

  lemma RearrangedInRange(f: seq<nat>, g: seq<nat>, p: nat)
    requires IsPermutation(f) && multiset(f) == multiset(g) && |f| == |g| && p < |g|
    ensures g[p] < |g|
  {
    PermutationInRange(g, p);
  }

  /** Inside the old bucket every header is `l`; outside, none is. */
  lemma OldHeader(t: seq<bv32>, l: nat, r: nat, p: nat)
    requires p < 32 * |t| && l < r && r + 1 < 32 * |t|
    requires IsSet(t, 0) && IsSet(t, l) && IsSet(t, r + 1) && forall k: nat | l < k <= r :: !IsSet(t, k)
    ensures l <= p <= r ==> Header(t, p) == l
    ensures p < l ==> Header(t, p) < l
    ensures p > r ==> Header(t, p) > r
  {
    if l <= p <= r {
      HeaderIs(t, p, l);
    }
  }

  lemma NewHeader(ec: seq<nat>, g: seq<nat>, t: seq<bv32>, u: seq<bv32>, l: nat, r: nat, p: nat)
    requires l < r < |g| && Roomy(t, |g|) && p < |g| && Rescanned(ec, g, t, u, l, r, r + 1)
    requires IsSet(t, 0) && IsSet(t, l) && IsSet(t, r + 1) && forall k: nat | l < k <= r :: !IsSet(t, k)
    ensures IsSet(u, 0)
    ensures !(l <= p <= r) ==> Header(u, p) == Header(t, p)
    ensures l <= p <= r ==> l <= Header(u, p) <= p
  {
    assert IsSet(u, 0) && IsSet(u, l) && IsSet(u, r + 1);
    if !(l <= p <= r) {
      var hd := Header(t, p);
      assert IsSet(u, hd);
      HeaderIs(u, p, hd);
    }
  }

  /** Where the row now at `p` stood before, and how the headers there relate. */
  lemma RowBefore(b: seq<byte>, ec: seq<nat>, f: seq<nat>, g: seq<nat>, t: seq<bv32>, u: seq<bv32>, h: nat, l: nat,
      r: nat, p: nat) returns (p0: nat)
    requires BucketSplit(b, ec, f, g, t, u, h, l, r) && p < |b|
    ensures p0 < |b| == |f| == |g| && g[p] == f[p0] < |b| && Roomy(t, |b|) && IsSet(t, 0) && |t| == |u| && IsSet(u, 0)
    ensures l <= p <= r ==> l <= p0 <= r && Header(t, p0) == l && l <= Header(u, p) <= r
    ensures !(l <= p <= r) ==> p0 == p && Header(u, p) == Header(t, p)
    ensures p < l ==> Header(t, p) < l
    ensures p > r ==> Header(t, p) > r
  {
    p0 := p;
    if l <= p <= r { p0 := RearrangedFrom(f, g, l, r + 1, p); }
    RearrangedInRange(f, f, p0);
    NewHeader(ec, g, t, u, l, r, p);
    OldHeader(t, l, r, p0);
  }

  lemma ClassPair(b: seq<byte>, ec: seq<nat>, h: nat, x: nat, y: nat)
    requires ClassesFor(b, ec, h) && x < |b| && y < |b|
    ensures Cmp(Class(ec, x), Class(ec, y)) == Ord(b, x + h, y + h, h)
  {
    assert Cmp(ec[x], ec[y]) == Ord(b, x + h, y + h, h);
  }

  lemma OrdByClass(b: seq<byte>, ec: seq<nat>, h: nat, x: nat, y: nat)
    requires ClassesFor(b, ec, h) && x < |b| && y < |b| && Ord(b, x, y, h) == 0
    ensures Ord(b, x, y, 2 * h) == Cmp(Class(ec, x), Class(ec, y))
  {
    hide Ord, ClassesFor, Class;
    OrdSplit(b, x, y, h, h);
    assert h + h == 2 * h;
    ClassPair(b, ec, h, x, y);
  }

  lemma ClassRises(ec: seq<nat>, g: seq<nat>, t: seq<bv32>, u: seq<bv32>, l: nat, r: nat, hp: nat, hq: nat)
    requires l < r < |g| && Roomy(t, |g|) && Rescanned(ec, g, t, u, l, r, r + 1)
    requires ClassSorted(ec, g, l, r + 1) && l <= hp < hq <= r && IsSet(u, hq) && !IsSet(t, hq)
    ensures Class(ec, g[hp]) < Class(ec, g[hq])
  {
    assert Class(ec, g[hq]) != Class(ec, g[hq - 1]);
    assert Class(ec, g[hq - 1]) <= Class(ec, g[hq]);
    assert hp == hq - 1 || Class(ec, g[hp]) <= Class(ec, g[hq - 1]);
  }

  /** All entries from a new header on have its class. */
  lemma {:induction false} HeaderClass(ec: seq<nat>, g: seq<nat>, t: seq<bv32>, u: seq<bv32>, l: nat, r: nat, p: nat)
    requires l < r < |g| && Roomy(t, |g|) && Rescanned(ec, g, t, u, l, r, r + 1)
    requires IsSet(t, 0) && IsSet(t, l) && forall k: nat | l < k <= r :: !IsSet(t, k)
    requires l <= p <= r && IsSet(u, 0)
    ensures l <= Header(u, p) <= p && Class(ec, g[Header(u, p)]) == Class(ec, g[p])
  {
    assert IsSet(u, l);
    if !IsSet(u, p) {
      HeaderClass(ec, g, t, u, l, r, p - 1);
    }
  }

  lemma {:induction false} SplitHeaders(ec: seq<nat>, g: seq<nat>, t: seq<bv32>, u: seq<bv32>, l: nat, r: nat, p: nat,
      q: nat)
    requires l < r < |g| && Roomy(t, |g|) && Rescanned(ec, g, t, u, l, r, r + 1)
    requires IsSet(t, 0) && IsSet(t, l) && forall k: nat | l < k <= r :: !IsSet(t, k)
    requires ClassSorted(ec, g, l, r + 1)
    requires l <= p <= r && l <= q <= r
    ensures |u| == |t| && IsSet(u, 0)
    ensures Cmp(Header(u, p), Header(u, q)) == Cmp(Class(ec, g[p]), Class(ec, g[q]))
  {
    assert IsSet(u, 0) && IsSet(u, l);
    HeaderClass(ec, g, t, u, l, r, p);
    HeaderClass(ec, g, t, u, l, r, q);
    var hp, hq := Header(u, p), Header(u, q);
    if hp < hq {
      ClassRises(ec, g, t, u, l, r, hp, hq);
    } else if hq < hp {
      ClassRises(ec, g, t, u, l, r, hq, hp);
    }
  }

  lemma PairInBucket(b: seq<byte>, ec: seq<nat>, g: seq<nat>, t: seq<bv32>, u: seq<bv32>, h: nat, l: nat, r: nat,
      p: nat, q: nat)
    requires |g| == |b| > 0 && Roomy(t, |g|) && l < r < |g| && ClassesFor(b, ec, h)
    requires IsSet(t, 0) && IsSet(t, l) && forall k: nat | l < k <= r :: !IsSet(t, k)
    requires ClassSorted(ec, g, l, r + 1) && Rescanned(ec, g, t, u, l, r, r + 1)
    requires l <= p <= r && l <= q <= r && g[p] < |b| && g[q] < |b| && Ord(b, g[p], g[q], h) == 0
    ensures |u| == |t| && IsSet(u, 0)
    ensures Ord(b, g[p], g[q], 2 * h) == Cmp(Header(u, p), Header(u, q))
  {
    hide Ord, ClassesFor, Rescanned, ClassSorted;
    SplitHeaders(ec, g, t, u, l, r, p, q);
    OrdByClass(b, ec, h, g[p], g[q]);
  }

  lemma RefinedPair(b: seq<byte>, f: seq<nat>, t: seq<bv32>, h: nat, done: nat, p: nat, q: nat)
    requires Refined(b, f, t, h, done) && p < |b| && q < |b|
    ensures Ord(b, f[p], f[q], if p < done && q < done then 2 * h else h) == Cmp(Header(t, p), Header(t, q))
  {
    assert Ord(b, f[p], f[q], if p < done && q < done then 2 * h else h) == Tied(b, f, t, p, q);
  }

  lemma PairIsRefined(b: seq<byte>, ec: seq<nat>, f: seq<nat>, g: seq<nat>, t: seq<bv32>, u: seq<bv32>, h: nat, l: nat,
      r: nat, p: nat, q: nat)
    requires BucketSplit(b, ec, f, g, t, u, h, l, r) && p < |b| && q < |b|
    ensures |f| == |g| == |b| && |u| == |t| && Roomy(t, |b|) && IsSet(u, 0)
    ensures Ord(b, g[p], g[q], if p < r + 1 && q < r + 1 then 2 * h else h) == Cmp(Header(u, p), Header(u, q))
  {
    hide Ord, ClassesFor, Refined, Rearranged, Rescanned, ClassSorted, InClasses, IsSet;
    var p0 := RowBefore(b, ec, f, g, t, u, h, l, r, p);
    var q0 := RowBefore(b, ec, f, g, t, u, h, l, r, q);
    RefinedPair(b, f, t, h, l, p0, q0);
    if l <= p <= r && l <= q <= r {
      PairInBucket(b, ec, g, t, u, h, l, r, p, q);
    } else if (l <= p <= r && q < l) || (l <= q <= r && p < l) {
      OrdDecided(b, g[p], g[q], h, 2 * h);
    }
  }

  /** Sorting one bucket by class and splitting it doubles the depth of its rows. */
  lemma BucketIsRefined(b: seq<byte>, ec: seq<nat>, f: seq<nat>, g: seq<nat>, t: seq<bv32>, u: seq<bv32>, h: nat,
      l: nat, r: nat)
    requires BucketSplit(b, ec, f, g, t, u, h, l, r)
    ensures Refined(b, g, u, h, r + 1)
  {
    forall p: nat, q: nat | p < |b| && q < |b|
      ensures IsSet(u, 0) && Ord(b, g[p], g[q], if p < r + 1 && q < r + 1 then 2 * h else h) == Tied(b, g, u, p, q)
    {
      PairIsRefined(b, ec, f, g, t, u, h, l, r, p, q);
    }
    PairIsRefined(b, ec, f, g, t, u, h, l, r, 0, 0);
  }

  /** The bits just past the block stop the searches for buckets. */
  ghost predicate Sentinels(t: seq<bv32>, n: nat) {
    Roomy(t, n) && IsSet(t, n) && !IsSet(t, n + 1)
  }

  lemma RescannedBits(ec: seq<nat>, f: seq<nat>, t: seq<bv32>, u: seq<bv32>, l: nat, r: nat)
    requires l < r < |f| && Sentinels(t, |f|) && Rescanned(ec, f, t, u, l, r, r + 1) && IsSet(t, r + 1)
    ensures Sentinels(u, |f|) && IsSet(u, r + 1)
  {
    assert IsSet(u, r + 1) && IsSet(u, |f|) && !IsSet(u, |f| + 1);
  }

  lemma RefinedInClasses(b: seq<byte>, ec: seq<nat>, f: seq<nat>, t: seq<bv32>, h: nat, done: nat, lo: int, hi: int)
    requires Refined(b, f, t, h, done) && ClassesFor(b, ec, h)
    ensures InClasses(ec, f, lo, hi)
  {
    RefinedBasics(b, f, t, h, done);
  }

  method RefineBucket(fmap: array<nat>, eclass: array<nat>, bhtab: array<bv32>, ghost b: seq<byte>, h: nat, l: nat,
      r: nat)
    requires fmap != eclass && bhtab as object != fmap as object && bhtab as object != eclass as object
    requires l < r < fmap.Length == |b| < 0x7fff_ffff
    requires Refined(b, fmap[..], bhtab[..], h, l) && ClassesFor(b, eclass[..], h) && Sentinels(bhtab[..], |b|)
    requires IsSet(bhtab[..], l) && IsSet(bhtab[..], r + 1) && forall k: nat | l < k <= r :: !IsSet(bhtab[..], k)
    modifies fmap, bhtab
    ensures Refined(b, fmap[..], bhtab[..], h, r + 1) && Sentinels(bhtab[..], |b|) && IsSet(bhtab[..], r + 1)
  {
    hide Refined, ClassesFor, IsSet, Rearranged, ClassSorted, InClasses, Rescanned;
    ghost var f, t, ec := fmap[..], bhtab[..], eclass[..];
    RefinedInClasses(b, ec, f, t, h, l, l, r + 1);
    QuickSort3(fmap, eclass, l, r);
    RearrangedInClasses(ec, f, fmap[..], l, r + 1);
    assert eclass[..] == ec && bhtab[..] == t;
    ScanBucket(fmap, eclass, bhtab, l, r);
    RescannedBits(ec, fmap[..], t, bhtab[..], l, r);
    BucketIsRefined(b, ec, f, fmap[..], t, bhtab[..], h, l, r);
  }

  /** One doubling: sort and split every bucket of two or more rows. */
  method RefinePass(fmap: array<nat>, eclass: array<nat>, bhtab: array<bv32>, ghost b: seq<byte>, h: nat)
      returns (nNotDone: nat)
    requires fmap != eclass && bhtab as object != fmap as object && bhtab as object != eclass as object
    requires fmap.Length == |b| < 0x7fff_ffff
    requires Refined(b, fmap[..], bhtab[..], h, 0) && ClassesFor(b, eclass[..], h) && Sentinels(bhtab[..], |b|)
    modifies fmap, bhtab
    ensures Refined(b, fmap[..], bhtab[..], h, |b|) && Sentinels(bhtab[..], |b|)
    ensures nNotDone == 0 ==> forall k: nat | k < |b| :: IsSet(bhtab[..], k)
  {
    hide Refined, ClassesFor, IsSet;
    var nblock := fmap.Length;
    nNotDone := 0;
    var r: int := -1;
    RefinedBasics(b, fmap[..], bhtab[..], h, 0);
    while true
      invariant -1 <= r < nblock == |b|
      invariant Refined(b, fmap[..], bhtab[..], h, r + 1) && ClassesFor(b, eclass[..], h) && Sentinels(bhtab[..], |b|)
      invariant IsSet(bhtab[..], r + 1)
      invariant nNotDone == 0 ==> forall k: nat | k < r + 1 :: IsSet(bhtab[..], k)
      decreases nblock - r
    {
      ghost var r0 := r;
      var found, l;
      found, l, r := NextBucket(bhtab, nblock, r);
      if !found {
        SinglesAreRefined(b, fmap[..], bhtab[..], h, r0 + 1, nblock);
        break;
      }
      SinglesAreRefined(b, fmap[..], bhtab[..], h, r0 + 1, l);
      if r > l {
        nNotDone := nNotDone + (r - l + 1);
        RefineBucket(fmap, eclass, bhtab, b, h, l, r);
      }
    }
  }

  lemma FirstHeader(b: seq<byte>, t: seq<bv32>, c: byte, p: nat)
    requires HeadersAtStarts(b, t) && p < |b| && InBucket(b, c, p)
    ensures IsSet(t, 0) && Header(t, p) == Start(b, c)
  {
    StartEnds(b);
    assert IsSet(t, 0) by { assert Start(b, 0 as byte) == 0; }
    forall k: nat | Start(b, c) < k <= p ensures !IsSet(t, k) {
      if IsSet(t, k) {
        var d: byte :| Start(b, d) == k;
        if d <= c { StartMonotone(b, d, c); } else { StartMonotone(b, c + 1, d); }
      }
    }
    HeaderIs(t, p, Start(b, c));
  }

  lemma BucketOrder(b: seq<byte>, c: byte, d: byte, p: int, q: int)
    requires InBucket(b, c, p) && InBucket(b, d, q)
    ensures Cmp(Start(b, c), Start(b, d)) == Cmp(c, d)
  {
    if c < d { StartMonotone(b, c + 1, d); }
    if d < c { StartMonotone(b, d + 1, c); }
  }

  /** The first pass orders rows on their first byte. */
  lemma FirstDepth(b: seq<byte>, f: seq<nat>, t: seq<bv32>)
    requires |b| > 0 && Grouped(b, f) && HeadersAtStarts(b, t)
    ensures Refined(b, f, t, 1, 0)
  {
    forall p: nat, q: nat | p < |b| && q < |b|
      ensures IsSet(t, 0) && Ord(b, f[p], f[q], 1) == Tied(b, f, t, p, q)
    {
      var c, d := b[f[p]], b[f[q]];
      FirstHeader(b, t, c, p);
      FirstHeader(b, t, d, q);
      BucketOrder(b, c, d, p, q);
      assert Ord(b, f[p], f[q], 0) == 0;
    }
    FirstHeader(b, t, b[f[0]], 0);
  }

  /** `f` lists the rotations of `b` in non-decreasing order. */
  ghost predicate SortedRotations(b: seq<byte>, f: seq<nat>) {
    && |f| == |b| > 0 && IsPermutation(f)
    && forall p, q | 0 <= p < q < |f| :: Ord(b, f[p], f[q], |b|) <= 0
  }

  /** Once a whole period is compared, or every row is alone, the rows are sorted. */
  lemma RefinedIsSorted(b: seq<byte>, f: seq<nat>, t: seq<bv32>, h: nat)
    requires Refined(b, f, t, h, |b|)
    requires 2 * h > |b| || forall k: nat | k < |b| :: IsSet(t, k)
    ensures SortedRotations(b, f)
  {
    forall p, q | 0 <= p < q < |f| ensures Ord(b, f[p], f[q], |b|) <= 0 {
      RefinedPair(b, f, t, h, |b|, p, q);
      HeaderMonotone(t, p, q);
      if 2 * h > |b| {
        OrdWhole(b, f[p], f[q], 2 * h);
      } else {
        SingleHeader(t, p, q);
        OrdDecided(b, f[p], f[q], 2 * h, |b|);
      }
    }
  }

  lemma FirstBytesRise(b: seq<byte>, i: nat, j: nat)
    requires i < |b| && j < |b| && Ord(b, i, j, |b|) <= 0
    ensures b[i] <= b[j]
  {
    assert Ord(b, i, j, 0) == 0;
    if Ord(b, i, j, 1) != 0 {
      OrdDecided(b, i, j, 1, |b|);
    }
  }

  /** Bytes of the block in the order of the sorted rows: the first column. */
  ghost function FirstColumn(b: seq<byte>, f: seq<nat>): (r: seq<byte>)
    requires SortedRotations(b, f)
    ensures |r| == |b| && multiset(r) == multiset(b)
    ensures forall p | 0 <= p < |f| :: f[p] < |b| && r[p] == b[f[p]]
    ensures forall p, q | 0 <= p < q < |r| :: r[p] <= r[q]
  {
    assert forall p | 0 <= p < |f| :: f[p] < |b| by {
      forall p | 0 <= p < |f| ensures f[p] < |b| { PermutationInRange(f, p); }
    }
    GatherPermutation(b, f);
    assert forall p, q | 0 <= p < q < |f| :: b[f[p]] <= b[f[q]] by {
      forall p, q | 0 <= p < q < |f| ensures b[f[p]] <= b[f[q]] { FirstBytesRise(b, f[p], f[q]); }
    }
    Gather(b, f)
  }

  lemma SortedSuffixCounts(f: seq<byte>, i: nat)
    requires i < |f| && forall p, q | 0 <= p < q < |f| :: f[p] <= f[q]
    ensures multiset(f[i..])[f[i]] > 0
    ensures forall c: byte | c < f[i] :: multiset(f[i..])[c] == 0
    ensures forall c: byte :: multiset(f[i..])[c] == multiset(f[i + 1..])[c] + if c == f[i] then 1 else 0
  {
    assert f[i..] == [f[i]] + f[i + 1..];
    forall c: byte | c < f[i] ensures c !in f[i..] { }
  }

  method NextByte(ftabCopy: array<nat>, j0: int, ghost c: byte) returns (j: int)
    requires ftabCopy.Length >= 256 && 0 <= j0 <= c
    requires ftabCopy[c] > 0 && forall d: byte | d < c :: ftabCopy[d] == 0
    ensures j == c
  {
    j := j0;
    while ftabCopy[j] == 0
      invariant 0 <= j <= c
      decreases 256 - j
    {
      j := j + 1;
    }
  }

  /** Counts of the bytes of the first column from place `i` on; none of them is below `j`. */
  ghost predicate Counting(counts: seq<nat>, col: seq<byte>, i: nat, j: int) {
    && |counts| >= 256 && i <= |col| && 0 <= j < 256 && (forall p, q | 0 <= p < q < |col| :: col[p] <= col[q])
    && (i < |col| ==> j <= col[i]) && forall c: byte :: counts[c] == multiset(col[i..])[c]
  }

  lemma CountingStart(b: seq<byte>, f: seq<nat>, counts: seq<nat>)
    requires SortedRotations(b, f) && |counts| >= 256 && forall c: byte :: counts[c] == multiset(b)[c]
    ensures Counting(counts, FirstColumn(b, f), 0, 0)
  {
    hide SortedRotations;
    assert FirstColumn(b, f)[0..] == FirstColumn(b, f);
  }

  lemma CountingNext(counts: seq<nat>, col: seq<byte>, i: nat, j: int)
    requires Counting(counts, col, i, j) && i < |col|
    ensures |counts| >= 256 && 0 <= j <= col[i] && counts[col[i]] > 0 && forall d: byte | d < col[i] :: counts[d] == 0
    ensures Counting(counts[col[i] := counts[col[i]] - 1], col, i + 1, col[i])
  {
    SortedSuffixCounts(col, i);
  }

  /** The rows before place `i` have their bytes back. */
  ghost predicate Refilled(e: seq<byte>, b: seq<byte>, f: seq<nat>, i: nat) {
    |e| == |b| && i <= |f| && forall p | 0 <= p < i :: f[p] < |b| && e[f[p]] == b[f[p]]
  }

  lemma RefilledNext(e: seq<byte>, b: seq<byte>, f: seq<nat>, i: nat)
    requires Refilled(e, b, f, i) && i < |f| && f[i] < |b|
    ensures Refilled(e[f[i] := b[f[i]]], b, f, i + 1)
  {
  }

  lemma RefilledAll(e: seq<byte>, b: seq<byte>, f: seq<nat>)
    requires Refilled(e, b, f, |f|) && SortedRotations(b, f)
    ensures e == b
  {
    forall x: nat | x < |b| ensures e[x] == b[x] {
      var p := PermutationOnto(f, x);
    }
  }

  lemma RefilledNone(e: seq<byte>, b: seq<byte>, f: seq<nat>)
    requires |e| == |b|
    ensures Refilled(e, b, f, 0)
  {
  }

  lemma RowsInBlock(b: seq<byte>, f: seq<nat>)
    requires SortedRotations(b, f)
    ensures |f| == |b| && forall p | 0 <= p < |f| :: f[p] < |b| && FirstColumn(b, f)[p] == b[f[p]]
  {
    hide IsPermutation;
    var col := FirstColumn(b, f);
  }

  /** Rebuild the block from the sorted rows and the saved byte counts. */
  method Rebuild(fmap: array<nat>, eclass8: array<byte>, ftabCopy: array<nat>, ghost b: seq<byte>)
    requires fmap as object != eclass8 as object && ftabCopy as object != eclass8 as object && fmap != ftabCopy
    requires eclass8.Length == |b| && ftabCopy.Length >= 256
    requires SortedRotations(b, fmap[..]) && forall c: byte :: ftabCopy[c] == multiset(b)[c]
    modifies eclass8, ftabCopy
    ensures eclass8[..] == b
  {
    hide SortedRotations, Counting, Refilled, FirstColumn;
    ghost var f, col := fmap[..], FirstColumn(b, fmap[..]);
    RowsInBlock(b, f);
    CountingStart(b, f, ftabCopy[..]);
    RefilledNone(eclass8[..], b, f);
    var j, i := 0, 0;
    while i < fmap.Length
      invariant 0 <= i <= fmap.Length && fmap[..] == f && |col| == |f|
      invariant Counting(ftabCopy[..], col, i, j) && Refilled(eclass8[..], b, f, i)
    {
      ghost var counts, e := ftabCopy[..], eclass8[..];
      CountingNext(counts, col, i, j);
      RefilledNext(e, b, f, i);
      j := NextByte(ftabCopy, j, col[i]);
      ftabCopy[j] := ftabCopy[j] - 1;
      assert fmap[i] == f[i];
      eclass8[fmap[i]] := j;
      assert ftabCopy[..] == counts[j := counts[j] - 1] && eclass8[..] == e[f[i] := b[f[i]]];
      i := i + 1;
    }
    RefilledAll(eclass8[..], b, f);
  }

  /** The refinement reuses the bytes of the block as class storage: nothing is known of them afterwards. */
  method Forget(eclass8: array<byte>)
    modifies eclass8
  {
  }

  lemma SentinelsMade(b: seq<byte>, t: seq<bv32>)
    requires Alternating(t, |b|, 32)
    ensures Sentinels(t, |b|)
  {
    hide IsSet;
    assert IsSet(t, |b| + 2 * 0) && !IsSet(t, |b| + 2 * 0 + 1);
  }

  /**
   * The radix pass: rows in order of their first bytes, with their buckets marked and the counts of the bytes saved.
   */
  method FirstPass(fmap: array<nat>, eclass8: array<byte>, bhtab: array<bv32>) returns (ftabCopy: array<nat>)
    requires bhtab as object != fmap as object && eclass8 as object !in {fmap as object, bhtab}
    requires 0 < fmap.Length == eclass8.Length && bhtab.Length >= fmap.Length / 32 + 3
    modifies fmap, bhtab
    ensures Refined(eclass8[..], fmap[..], bhtab[..], 1, 0) && Sentinels(bhtab[..], eclass8.Length)
    ensures fresh(ftabCopy) && ftabCopy.Length == 256 && forall c: byte :: ftabCopy[c] == multiset(eclass8[..])[c]
  {
    hide Refined, IsSet, Grouped, HeadersAtStarts, InBucket, Start, Alternating, Sentinels;
    ghost var b: seq<byte> := eclass8[..];
    var ftab := CountBytes(eclass8);
    ftabCopy := new nat[256](c requires 0 <= c < 257 reads ftab => ftab[c]);
    Accumulate(ftab, b);
    PlaceRows(fmap, eclass8, ftab);
    MarkBuckets(bhtab, ftab, fmap.Length, b);
    FirstDepth(b, fmap[..], bhtab[..]);
    SentinelsMade(b, bhtab[..]);
  }

  lemma RefinedDoubles(b: seq<byte>, f: seq<nat>, t: seq<bv32>, h: nat)
    requires Refined(b, f, t, h, |b|)
    ensures Refined(b, f, t, 2 * h, 0)
  {
    forall p: nat, q: nat | p < |b| && q < |b|
      ensures Ord(b, f[p], f[q], 2 * h) == Tied(b, f, t, p, q)
    {
      RefinedPair(b, f, t, h, |b|, p, q);
    }
  }

  /** The refinement: each pass doubles the depth to which the rows are sorted. */
  method RefineAll(fmap: array<nat>, eclass: array<nat>, bhtab: array<bv32>, ghost b: seq<byte>)
    requires fmap != eclass && bhtab as object != fmap as object && bhtab as object != eclass as object
    requires 0 < fmap.Length == eclass.Length == |b| < 0x7fff_ffff
    requires Refined(b, fmap[..], bhtab[..], 1, 0) && Sentinels(bhtab[..], |b|)
    modifies fmap, eclass, bhtab
    ensures SortedRotations(b, fmap[..])
  {
    hide Refined, ClassesFor, IsSet, SortedRotations, Sentinels;
    var nblock := fmap.Length;
    var h := 1;
    while true
      invariant 1 <= h <= nblock
      invariant Refined(b, fmap[..], bhtab[..], h, 0) && Sentinels(bhtab[..], |b|)
      decreases nblock - h
    {
      AssignClasses(fmap, eclass, bhtab, b, h);
      var nNotDone := RefinePass(fmap, eclass, bhtab, b, h);
      if 2 * h > nblock || nNotDone == 0 {
        RefinedIsSorted(b, fmap[..], bhtab[..], h);
        break;
      }
      RefinedDoubles(b, fmap[..], bhtab[..], h);
      h := h * 2;
    }
  }

  /**
   * The fallback sorter. The block enters in the bytes of the class array, which the refinement destroys; the
   * model keeps the two views as two arrays and forgets the bytes after the first pass.
   */
  method FallbackSort(fmap: array<nat>, eclass: array<nat>, eclass8: array<byte>, bhtab: array<bv32>)
    requires fmap != eclass && bhtab as object != fmap as object && bhtab as object != eclass as object
    requires eclass8 as object !in {fmap as object, eclass, bhtab}
    requires 0 < fmap.Length == eclass.Length == eclass8.Length < 0x7fff_ffff && bhtab.Length >= fmap.Length / 32 + 3
    modifies fmap, eclass, eclass8, bhtab
    ensures eclass8[..] == old(eclass8[..])
    ensures SortedRotations(eclass8[..], fmap[..])
  {
    hide Refined, SortedRotations, Sentinels;
    ghost var b: seq<byte> := eclass8[..];
    var ftabCopy := FirstPass(fmap, eclass8, bhtab);
    Forget(eclass8);
    RefineAll(fmap, eclass, bhtab, b);
    Rebuild(fmap, eclass8, ftabCopy, b);
  }

  /** The row that holds the block itself. */
  method FindOrigPtr(ptr: array<nat>) returns (origPtr: int)
    requires ptr.Length > 0 && IsPermutation(ptr[..])
    ensures 0 <= origPtr < ptr.Length && ptr[origPtr] == 0
  {
    ghost var at := PermutationOnto(ptr[..], 0);
    origPtr := -1;
    var i := 0;
    while i < ptr.Length
      invariant 0 <= i <= at
    {
      if ptr[i] == 0 {
        origPtr := i;
        break;
      }
      i := i + 1;
    }
  }

  /** Sorted rows are sorted as strings. */
  lemma SortedAsStrings(b: seq<byte>, f: seq<nat>, p: nat, q: nat)
    requires SortedRotations(b, f) && p <= q < |f|
    ensures f[p] < |b| && f[q] < |b| && LexLeq(Rotation(b, f[p]), Rotation(b, f[q]))
  {
    PermutationInRange(f, p);
    PermutationInRange(f, q);
    if p < q {
      OrdIsLex(b, f[p], f[q]);
    }
  }
}
