/** Rearrangements of part of a sequence, and sequences that list 0 .. n-1 in some order. */
module Permutations {
  /** `t` rearranges `s` inside `[lo, hi)` and is equal to it outside. */
  ghost predicate Rearranged<T>(s: seq<T>, t: seq<T>, lo: int, hi: int) {
    && |s| == |t|
    && multiset(s) == multiset(t)
    && forall k | 0 <= k < |s| && !(lo <= k < hi) :: s[k] == t[k]
  }

  lemma SwapRearranges<T>(s: seq<T>, i: int, j: int)
    requires 0 <= i < |s| && 0 <= j < |s|
    ensures multiset(s[i := s[j]][j := s[i]]) == multiset(s)
  {
  }

  lemma SplitMultiset<T>(s: seq<T>, lo: int, hi: int)
    requires 0 <= lo <= hi <= |s|
    ensures multiset(s) == multiset(s[..lo]) + multiset(s[lo..hi]) + multiset(s[hi..])
  {
    assert s == s[..lo] + s[lo..hi] + s[hi..];
  }

  /** Every element of the rearranged part was already in that part. */
  lemma RearrangedFrom<T>(s: seq<T>, t: seq<T>, lo: int, hi: int, q: int) returns (p: int)
    requires Rearranged(s, t, lo, hi)
    requires 0 <= lo <= q < hi <= |s|
    ensures lo <= p < hi && s[p] == t[q]
  {
    SplitMultiset(s, lo, hi);
    SplitMultiset(t, lo, hi);
    assert s[..lo] == t[..lo] && s[hi..] == t[hi..];
    assert t[q] == t[lo..hi][q - lo];
    assert t[q] in multiset(t[lo..hi]);
    assert multiset(s)[t[q]] == multiset(t)[t[q]];
    assert multiset(s[..lo])[t[q]] == multiset(t[..lo])[t[q]] && multiset(s[hi..])[t[q]] == multiset(t[hi..])[t[q]];
    assert multiset(s[lo..hi])[t[q]] == multiset(t[lo..hi])[t[q]];
    assert t[q] in multiset(s[lo..hi]);
    var k :| 0 <= k < hi - lo && s[lo..hi][k] == t[q];
    p := lo + k;
  }

  lemma RearrangedSym<T>(s: seq<T>, t: seq<T>, lo: int, hi: int)
    requires Rearranged(s, t, lo, hi)
    ensures Rearranged(t, s, lo, hi)
  {
  }

  lemma RearrangedTwice<T>(s: seq<T>, t: seq<T>, u: seq<T>, lo: int, hi: int)
    requires Rearranged(s, t, lo, hi) && Rearranged(t, u, lo, hi)
    ensures Rearranged(s, u, lo, hi)
  {
  }

  lemma RearrangedWithin<T>(s: seq<T>, t: seq<T>, lo: int, hi: int, from: int, to: int)
    requires Rearranged(s, t, from, to) && lo <= from && to <= hi
    ensures Rearranged(s, t, lo, hi)
  {
  }

  function Iota(n: nat): (s: seq<nat>)
    ensures |s| == n
    ensures forall k | 0 <= k < n :: s[k] == k
  {
    seq(n, k => k)
  }

  /** `f` lists each of 0 .. |f|-1 exactly once. */
  ghost predicate IsPermutation(f: seq<nat>) {
    multiset(f) == multiset(Iota(|f|))
  }

  lemma PermutationInRange(f: seq<nat>, p: int)
    requires IsPermutation(f) && 0 <= p < |f|
    ensures f[p] < |f|
  {
    assert f[p] in multiset(f);
    assert f[p] in multiset(Iota(|f|));
  }

  lemma PermutationOnto(f: seq<nat>, v: nat) returns (p: int)
    requires IsPermutation(f) && v < |f|
    ensures 0 <= p < |f| && f[p] == v
  {
    assert Iota(|f|)[v] == v;
    assert v in multiset(Iota(|f|));
    p :| 0 <= p < |f| && f[p] == v;
  }

  lemma {:induction false} IotaOnce(n: nat, v: nat)
    ensures multiset(Iota(n))[v] == if v < n then 1 else 0
  {
    if n > 0 {
      IotaOnce(n - 1, v);
      assert Iota(n) == Iota(n - 1) + [n - 1];
    } else {
      assert Iota(0) == [];
    }
  }

  lemma RepeatCount<T>(f: seq<T>, lo: int, hi: int)
    requires 0 <= lo < hi < |f| && f[lo] == f[hi]
    ensures multiset(f)[f[lo]] >= 2
  {
    SplitMultiset(f, lo, hi);
    assert f[lo..hi][0] == f[lo] && f[hi..][0] == f[lo];
    assert f[lo] in multiset(f[lo..hi]) && f[lo] in multiset(f[hi..]);
  }

  lemma PermutationOneToOne(f: seq<nat>, p: int, q: int)
    requires IsPermutation(f) && 0 <= p < |f| && 0 <= q < |f| && f[p] == f[q]
    ensures p == q
  {
    IotaOnce(|f|, f[p]);
    if p < q {
      RepeatCount(f, p, q);
    } else if q < p {
      RepeatCount(f, q, p);
    }
  }

  lemma SubsetCount<T>(a: set<T>, b: set<T>)
    requires a <= b
    ensures |a| <= |b|
  {
    assert b == a + (b - a);
  }

  lemma SubsetSameSize<T>(a: set<T>, b: set<T>)
    requires a <= b && |a| == |b|
    ensures a == b
  {
    assert |b - a| == |b| - |a|;
  }

  ghost function Elements<T>(s: seq<T>): set<T> {
    set x | x in s
  }

  lemma {:induction false} DistinctCount<T>(f: seq<T>)
    requires forall p, q | 0 <= p < q < |f| :: f[p] != f[q]
    ensures |Elements(f)| == |f|
  {
    if f == [] {
      assert Elements(f) == {};
    } else {
      var n := |f| - 1;
      DistinctCount(f[..n]);
      assert f == f[..n] + [f[n]];
      assert Elements(f) == Elements(f[..n]) + {f[n]};
    }
  }

  lemma {:induction false} DistinctOnce<T>(f: seq<T>, v: T)
    requires forall p, q | 0 <= p < q < |f| :: f[p] != f[q]
    ensures multiset(f)[v] == if v in f then 1 else 0
  {
    if f != [] {
      var n := |f| - 1;
      DistinctOnce(f[..n], v);
      assert f == f[..n] + [f[n]];
    }
  }

  /** No element comes twice. */
  ghost predicate NoRepeats<T>(f: seq<T>) {
    forall p, q | 0 <= p < q < |f| :: f[p] != f[q]
  }

  /** Distinct elements, no fewer than those they are among, are all of them. */
  lemma Pigeonhole<T>(f: seq<T>, g: seq<T>, v: T)
    requires NoRepeats(f) && |g| <= |f| && (forall p | 0 <= p < |f| :: f[p] in g) && v in g
    ensures v in f
  {
    DistinctCount(f);
    ElementsAtMost(g);
    assert Elements(f) <= Elements(g);
    SubsetCount(Elements(f), Elements(g));
    SubsetSameSize(Elements(f), Elements(g));
    assert v in Elements(g);
  }

  lemma DistinctAtMost<T>(f: seq<T>, g: seq<T>)
    requires NoRepeats(f) && forall p | 0 <= p < |f| :: f[p] in g
    ensures |f| <= |g|
  {
    DistinctCount(f);
    ElementsAtMost(g);
    assert Elements(f) <= Elements(g);
    SubsetCount(Elements(f), Elements(g));
  }

  lemma {:induction false} ElementsAtMost<T>(f: seq<T>)
    ensures |Elements(f)| <= |f|
  {
    if f != [] {
      var n := |f| - 1;
      ElementsAtMost(f[..n]);
      assert f == f[..n] + [f[n]];
      assert Elements(f) == Elements(f[..n]) + {f[n]};
    } else {
      assert Elements(f) == {};
    }
  }

  /** A sequence of distinct numbers below its own length is a permutation. */
  lemma DistinctIsPermutation(f: seq<nat>)
    requires forall p | 0 <= p < |f| :: f[p] < |f|
    requires forall p, q | 0 <= p < q < |f| :: f[p] != f[q]
    ensures IsPermutation(f)
  {
    var iota := Iota(|f|);
    var all, img := Elements(iota), Elements(f);
    DistinctCount(iota);
    DistinctCount(f);
    forall x | x in img ensures x in all {
      assert x < |f| && iota[x] == x;
    }
    SubsetSameSize(img, all);
    forall v: nat ensures multiset(f)[v] == multiset(Iota(|f|))[v] {
      DistinctOnce(iota, v);
      DistinctOnce(f, v);
      assert v in img <==> v in all;
    }
  }

  /** A sequence undone by a sequence of slots is a permutation, and the slots are its inverse. */
  lemma InverseIsPermutation(f: seq<nat>, slot: seq<nat>)
    requires |f| == |slot|
    requires forall x | 0 <= x < |slot| :: slot[x] < |f| && f[slot[x]] == x
    ensures IsPermutation(f)
    ensures forall p | 0 <= p < |f| :: f[p] < |f| && slot[f[p]] == p
  {
    forall x, y | 0 <= x < y < |slot| ensures slot[x] != slot[y] {
      assert f[slot[x]] == x && f[slot[y]] == y;
    }
    DistinctIsPermutation(slot);
    forall p | 0 <= p < |f| ensures f[p] < |f| && slot[f[p]] == p {
      var x := PermutationOnto(slot, p);
      assert f[slot[x]] == x;
    }
    forall p, q | 0 <= p < q < |f| ensures f[p] != f[q] {
      assert slot[f[p]] == p && slot[f[q]] == q;
    }
    DistinctIsPermutation(f);
  }

  /** The elements of `b` in the order that `f` lists their places. */
  function Gather<T>(b: seq<T>, f: seq<nat>): (r: seq<T>)
    requires forall k | 0 <= k < |f| :: f[k] < |b|
    ensures |r| == |f|
    ensures forall k | 0 <= k < |f| :: r[k] == b[f[k]]
  {
    seq(|f|, k requires 0 <= k < |f| => b[f[k]])
  }

  lemma DropOne<T>(s: seq<T>, i: int)
    requires 0 <= i < |s|
    ensures multiset(s[..i] + s[i + 1..]) == multiset(s) - multiset{s[i]}
    ensures multiset(s) == multiset(s[..i] + s[i + 1..]) + multiset{s[i]}
  {
    assert s == s[..i] + [s[i]] + s[i + 1..];
  }

  lemma GatherDrop<T>(b: seq<T>, f: seq<nat>, i: int)
    requires 0 <= i < |f| && forall k | 0 <= k < |f| :: f[k] < |b|
    ensures multiset(Gather(b, f)) == multiset(Gather(b, f[..i] + f[i + 1..])) + multiset{b[f[i]]}
  {
    var g := Gather(b, f);
    assert Gather(b, f[..i] + f[i + 1..]) == g[..i] + g[i + 1..];
    DropOne(g, i);
  }

  /** An entry of `g` equal to the last of `f`; without the two, the same entries are left. */
  lemma SameLast(f: seq<nat>, g: seq<nat>) returns (i: nat)
    requires f != [] && multiset(f) == multiset(g)
    ensures i < |g| && g[i] == f[|f| - 1]
    ensures multiset(f[..|f| - 1] + f[|f|..]) == multiset(g[..i] + g[i + 1..])
  {
    var x := f[|f| - 1];
    assert x in multiset(g);
    i :| 0 <= i < |g| && g[i] == x;
    DropOne(f, |f| - 1);
    DropOne(g, i);
  }

  lemma {:induction false} GatherSame<T>(b: seq<T>, f: seq<nat>, g: seq<nat>)
    requires forall k | 0 <= k < |f| :: f[k] < |b|
    requires forall k | 0 <= k < |g| :: g[k] < |b|
    requires multiset(f) == multiset(g)
    ensures multiset(Gather(b, f)) == multiset(Gather(b, g))
  {
    hide Gather;
    if f == [] {
      assert |multiset(g)| == 0;
      assert g == [] && Gather(b, f) == Gather(b, g);
    } else {
      var i := SameLast(f, g);
      GatherSame(b, f[..|f| - 1] + f[|f|..], g[..i] + g[i + 1..]);
      GatherDrop(b, f, |f| - 1);
      GatherDrop(b, g, i);
    }
  }

  lemma GatherPermutation<T>(b: seq<T>, f: seq<nat>)
    requires IsPermutation(f) && |f| == |b|
    requires forall k | 0 <= k < |f| :: f[k] < |b|
    ensures multiset(Gather(b, f)) == multiset(b)
  {
    GatherSame(b, f, Iota(|b|));
    assert Gather(b, Iota(|b|)) == b;
  }
}
