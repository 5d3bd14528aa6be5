/** No code for the roots costs less than one in which the two lightest are siblings. */
module HuffmanOptimal {
  import opened Arithmetic
  import opened HuffmanTree

  /** The share of 2^m that codewords of the given lengths take up. */
  ghost function Space(l: seq<nat>, act: set<nat>, n: nat, m: nat): nat
    requires n < |l|
  {
    if n == 0 then 0 else Space(l, act, n - 1, m) + if n in act && l[n] <= m then Pow2(m - l[n]) else 0
  }

  /** Lengths, at most `m`, for the nodes in `act` that satisfy the Kraft inequality. */
  ghost predicate Code(l: seq<nat>, act: set<nat>, n: nat, m: nat) {
    n < |l| && (forall k | k in act && 1 <= k <= n :: l[k] <= m) && Space(l, act, n, m) <= Pow2(m)
  }

  ghost function Cost(weight: seq<nat>, l: seq<nat>, act: set<nat>, n: nat): nat
    requires n < |l| && n < |weight|
  {
    if n == 0 then 0 else Cost(weight, l, act, n - 1) + if n in act then WeightOf(weight[n]) * l[n] else 0
  }

  lemma {:induction false} SpaceSame(l: seq<nat>, l': seq<nat>, act: set<nat>, act': set<nat>, n: nat, m: nat)
    requires n < |l| && n < |l'| && forall k | 1 <= k <= n :: (k in act <==> k in act') && (k in act ==> l[k] == l'[k])
    ensures Space(l, act, n, m) == Space(l', act', n, m)
  {
    if n > 0 { SpaceSame(l, l', act, act', n - 1, m); }
  }

  lemma {:induction false} SpaceSet(l: seq<nat>, act: set<nat>, n: nat, m: nat, k: nat, x: nat)
    requires n < |l| && 1 <= k <= n && k in act && x <= m && l[k] <= m
    ensures Space(l[k := x], act, n, m) == Space(l, act, n, m) - Pow2(m - l[k]) + Pow2(m - x)
  {
    if n > k {
      SpaceSet(l, act, n - 1, m, k, x);
    } else {
      SpaceSame(l, l[k := x], act, act, n - 1, m);
    }
  }

  lemma {:induction false} CostSame(weight: seq<nat>, l: seq<nat>, weight': seq<nat>, l': seq<nat>, act: set<nat>,
      act': set<nat>, n: nat)
    requires n < |l| && n < |l'| && n < |weight| && n < |weight'|
    requires forall k | 1 <= k <= n ::
      (k in act <==> k in act') && (k in act ==> l[k] == l'[k] && weight[k] == weight'[k])
    ensures Cost(weight, l, act, n) == Cost(weight', l', act', n)
  {
    hide WeightOf;
    if n > 0 { CostSame(weight, l, weight', l', act, act', n - 1); }
  }

  lemma {:induction false} CostSet(weight: seq<nat>, l: seq<nat>, act: set<nat>, n: nat, k: nat, x: nat)
    requires n < |l| && n < |weight| && 1 <= k <= n && k in act
    ensures Cost(weight, l[k := x], act, n) == Cost(weight, l, act, n) - WeightOf(weight[k]) * l[k]
      + WeightOf(weight[k]) * x
  {
    hide WeightOf;
    if n > k {
      CostSet(weight, l, act, n - 1, k, x);
    } else {
      CostSame(weight, l, weight, l[k := x], act, act, n - 1);
    }
  }

  /** Dropping a node from the set takes away its term. */
  lemma {:induction false} SpaceDrop(l: seq<nat>, act: set<nat>, n: nat, m: nat, k: nat)
    requires n < |l| && 1 <= k <= n && k in act && l[k] <= m
    ensures Space(l, act - {k}, n, m) == Space(l, act, n, m) - Pow2(m - l[k])
  {
    if n > k {
      SpaceDrop(l, act, n - 1, m, k);
    } else {
      SpaceSame(l, l, act, act - {k}, n - 1, m);
    }
  }

  lemma {:induction false} CostDrop(weight: seq<nat>, l: seq<nat>, act: set<nat>, n: nat, k: nat)
    requires n < |l| && n < |weight| && 1 <= k <= n && k in act
    ensures Cost(weight, l, act - {k}, n) == Cost(weight, l, act, n) - WeightOf(weight[k]) * l[k]
  {
    hide WeightOf;
    if n > k {
      CostDrop(weight, l, act, n - 1, k);
    } else {
      CostSame(weight, l, weight, l, act, act - {k}, n - 1);
    }
  }

  /** Two nodes of the greatest length. */
  ghost predicate Deepest(l: seq<nat>, act: set<nat>, n: nat, m: nat, p: nat, q: nat) {
    n < |l| && p in act && q in act && p != q && 1 <= p <= n && 1 <= q <= n && l[p] == m && l[q] == m
  }

  /** If no node has length `m`, lengths may be measured against `m - 1`. */
  lemma {:induction false} SpaceHalf(l: seq<nat>, act: set<nat>, n: nat, m: nat)
    requires n < |l| && m > 0 && forall k | k in act && 1 <= k <= n :: l[k] < m
    ensures Space(l, act, n, m) == 2 * Space(l, act, n, m - 1)
  {
    if n > 0 {
      SpaceHalf(l, act, n - 1, m);
    }
  }

  lemma PowEven(m: nat)
    requires m > 0
    ensures Pow2(m) == 2 * Pow2(m - 1)
  {
  }

  lemma PowOne()
    ensures Pow2(0) == 1 && Pow2(1) == 2
  {
    assert Pow2(1) == 2 * Pow2(0);
  }

  /** Two codewords cannot both be empty. */
  lemma TwoTerms(l: seq<nat>, act: set<nat>, n: nat, m: nat, x: nat, y: nat)
    requires Code(l, act, n, m) && x in act && y in act && x != y && 1 <= x <= n && 1 <= y <= n
    ensures m > 0
  {
    hide Space;
    SpaceDrop(l, act, n, m, x);
    SpaceDrop(l, act - {x}, n, m, y);
    PowOne();
  }

  /** If a single node has the greatest length, its codeword may be made shorter by one. */
  lemma OneShorter(l: seq<nat>, act: set<nat>, n: nat, m: nat, k: nat)
    requires Code(l, act, n, m) && m > 0 && k in act && 1 <= k <= n && l[k] == m
    requires forall j | j in act && 1 <= j <= n && j != k :: l[j] != m
    ensures Code(l[k := m - 1], act, n, m - 1)
  {
    hide Space;
    var t, rest := l[k := m - 1], act - {k};
    SpaceDrop(l, act, n, m, k);
    SpaceHalf(l, rest, n, m);
    PowEven(m);
    PowOne();
    SpaceDrop(t, act, n, m - 1, k);
    SpaceSame(l, t, rest, rest, n, m - 1);
  }

  lemma LessCost(w: nat, m: nat)
    requires m > 0
    ensures w * (m - 1) == w * m - w
  {
  }

  /** A code can be had, at no greater cost, in which two nodes share the greatest length. */
  lemma {:induction false} Tighten(weight: seq<nat>, l: seq<nat>, act: set<nat>, n: nat, m: nat, x: nat, y: nat)
    returns (l': seq<nat>, m': nat, p: nat, q: nat)
    requires Code(l, act, n, m) && n < |weight| && x in act && y in act && x != y && 1 <= x <= n && 1 <= y <= n
    ensures |l'| == |l| && Code(l', act, n, m') && Cost(weight, l', act, n) <= Cost(weight, l, act, n)
    ensures Deepest(l', act, n, m', p, q) && m' > 0
    decreases m
  {
    hide WeightOf, Space, Cost, Pow2;
    TwoTerms(l, act, n, m, x, y);
    if p0, q0 :| Deepest(l, act, n, m, p0, q0) {
      l', m', p, q := l, m, p0, q0;
    } else if k :| k in act && 1 <= k <= n && l[k] == m {
      forall j | j in act && 1 <= j <= n && j != k ensures l[j] != m {
        assert !Deepest(l, act, n, m, k, j);
      }
      OneShorter(l, act, n, m, k);
      CostSet(weight, l, act, n, k, m - 1);
      LessCost(WeightOf(weight[k]), m);
      l', m', p, q := Tighten(weight, l[k := m - 1], act, n, m - 1, x, y);
    } else {
      SpaceHalf(l, act, n, m);
      PowEven(m);
      l', m', p, q := Tighten(weight, l, act, n, m - 1, x, y);
    }
  }

  lemma SwapCost(a: nat, b: nat, x: nat, m: nat)
    requires a <= b && x <= m
    ensures a * m + b * x <= a * x + b * m
  {
    assert (b - a) * (m - x) >= 0;
  }

  /** Giving the longer of two codewords to the lighter node costs no more. */
  lemma GiveLonger(weight: seq<nat>, l: seq<nat>, act: set<nat>, n: nat, m: nat, light: nat, p: nat)
      returns (l': seq<nat>)
    requires Code(l, act, n, m) && n < |weight| && light in act && p in act && 1 <= light <= n && 1 <= p <= n
      && l[p] == m
    requires weight[light] <= weight[p]
    ensures l' == l[light := m][p := l[light]] && Code(l', act, n, m) && l'[light] == m
    ensures Cost(weight, l', act, n) <= Cost(weight, l, act, n)
  {
    hide WeightOf, Space, Cost, Pow2;
    l' := l[light := m][p := l[light]];
    if light != p {
      var t := l[light := m];
      SpaceSet(l, act, n, m, light, m);
      SpaceSet(t, act, n, m, p, l[light]);
      CostSet(weight, l, act, n, light, m);
      CostSet(weight, t, act, n, p, l[light]);
      WeightOrder(weight[light], weight[p]);
      SwapCost(WeightOf(weight[light]), WeightOf(weight[p]), l[light], m);
    } else {
      assert l' == l;
    }
  }

  /** The two lightest nodes may be taken to be the longest, at the same length. */
  lemma LightestDeepest(weight: seq<nat>, l: seq<nat>, act: set<nat>, n: nat, m: nat, n1: nat, n2: nat)
      returns (l': seq<nat>, m': nat)
    requires Code(l, act, n, m) && n < |weight| && 1 <= n1 <= n && 1 <= n2 <= n
    requires Lightest(weight, act, n1) && Lightest(weight, act - {n1}, n2)
    ensures |l'| == |l| && Code(l', act, n, m') && Cost(weight, l', act, n) <= Cost(weight, l, act, n)
    ensures m' > 0 && l'[n1] == m' && l'[n2] == m'
  {
    hide WeightOf, Space, Cost, Pow2;
    var t, m1, p, q := Tighten(weight, l, act, n, m, n1, n2);
    m' := m1;
    var first, second := if q == n1 then q else p, if q == n1 then p else q;
    var u := GiveLonger(weight, t, act, n, m', n1, first);
    assert u[second] == m' && second != n1;
    l' := GiveLonger(weight, u, act, n, m', n2, second);
  }

  lemma LightestIn(weight: seq<nat>, act: set<nat>, k: nat)
    requires Lightest(weight, act, k)
    ensures k in act
  {
  }

  lemma SumCost(a: nat, b: nat, m: nat)
    ensures (a + b) * m == a * m + b * m
  {
  }

  lemma LastTerm(weight: seq<nat>, x: nat, l: seq<nat>, act: set<nat>, n: nat, m: nat)
    requires n + 1 < |weight| && n + 1 < |l| && m > 0
    ensures Space(l[n + 1 := m - 1], act + {n + 1}, n + 1, m) == Space(l, act, n, m) + Pow2(1)
    ensures Cost(weight[n + 1 := x], l[n + 1 := m - 1], act + {n + 1}, n + 1) ==
      Cost(weight, l, act, n) + WeightOf(x) * (m - 1)
  {
    hide WeightOf, Pow2;
    SpaceSame(l, l[n + 1 := m - 1], act, act + {n + 1}, n, m);
    CostSame(weight, l, weight[n + 1 := x], l[n + 1 := m - 1], act, act + {n + 1}, n);
  }

  /** Merging the two lightest nodes: any code yields one for the merged nodes that saves at least their weight. */
  lemma MergeCode(weight: seq<nat>, l: seq<nat>, act: set<nat>, n: nat, m: nat, n1: nat, n2: nat, x: nat)
      returns (l': seq<nat>, m': nat)
    requires Code(l, act, n, m) && n + 1 < |weight| && n + 1 < |l| && 1 <= n1 <= n && 1 <= n2 <= n && n + 1 !in act
    requires Lightest(weight, act, n1) && Lightest(weight, act - {n1}, n2)
    requires WeightOf(x) == WeightOf(weight[n1]) + WeightOf(weight[n2])
    ensures |l'| == |l| && Code(l', act - {n1} - {n2} + {n + 1}, n + 1, m')
    ensures Cost(weight[n + 1 := x], l', act - {n1} - {n2} + {n + 1}, n + 1) + WeightOf(x) <= Cost(weight, l, act, n)
  {
    hide WeightOf, Pow2, Space, Cost, Lightest;
    LightestIn(weight, act, n1);
    LightestIn(weight, act - {n1}, n2);
    var t, m1 := LightestDeepest(weight, l, act, n, m, n1, n2);
    m' := m1;
    l' := t[n + 1 := m' - 1];
    var less := act - {n1} - {n2};
    SpaceDrop(t, act, n, m', n1);
    SpaceDrop(t, act - {n1}, n, m', n2);
    CostDrop(weight, t, act, n, n1);
    CostDrop(weight, t, act - {n1}, n, n2);
    PowOne();
    LastTerm(weight, x, t, less, n, m');
    LessCost(WeightOf(x), m');
    SumCost(WeightOf(weight[n1]), WeightOf(weight[n2]), m');
  }

  // ----- the merges as a whole -----

  ghost function Leaves(a: nat): (s: set<nat>)
    ensures forall k: nat :: k in s <==> 1 <= k <= a
    ensures |s| == a
  {
    if a == 0 then {} else Leaves(a - 1) + {a}
  }

  /**
   * Some code for the roots, together with what the merges so far cost, is no dearer than the code `l` for the leaves.
   */
  ghost predicate Beats(weight: seq<nat>, act: set<nat>, n: nat, a: nat, done: nat, l: seq<nat>) {
    a < |weight| && a < |l| && n < |weight| &&
    exists l2: seq<nat>, m2: nat ::
      |l2| == |weight| && Code(l2, act, n, m2) && done + Cost(weight, l2, act, n) <= Cost(weight, l, Leaves(a), a)
  }

  ghost predicate Reducible(weight: seq<nat>, act: set<nat>, n: nat, a: nat, done: nat) {
    forall l: seq<nat>, m: nat | |l| == |weight| && Code(l, Leaves(a), a, m) :: Beats(weight, act, n, a, done, l)
  }

  lemma ReducibleStart(weight: seq<nat>, a: nat)
    requires a < |weight|
    ensures Reducible(weight, Leaves(a), a, a, 0)
  {
  }

  lemma BeatsMerge(weight: seq<nat>, act: set<nat>, n: nat, a: nat, done: nat, n1: nat, n2: nat, x: nat, l: seq<nat>)
    requires Beats(weight, act, n, a, done, l) && a <= n && n + 1 < |weight| && 1 <= n1 <= n && 1 <= n2 <= n
      && n + 1 !in act
    requires Lightest(weight, act, n1) && Lightest(weight, act - {n1}, n2)
    requires WeightOf(x) == WeightOf(weight[n1]) + WeightOf(weight[n2])
    ensures Beats(weight[n + 1 := x], act - {n1} - {n2} + {n + 1}, n + 1, a, done + WeightOf(x), l)
  {
    hide WeightOf, Pow2, Space, Cost, Lightest, Code;
    var l2: seq<nat>, m2: nat :|
      |l2| == |weight| && Code(l2, act, n, m2) && done + Cost(weight, l2, act, n) <= Cost(weight, l, Leaves(a), a);
    var l3, m3 := MergeCode(weight, l2, act, n, m2, n1, n2, x);
    CostSame(weight, l, weight[n + 1 := x], l, Leaves(a), Leaves(a), a);
  }

  lemma ReducibleMerge(weight: seq<nat>, act: set<nat>, n: nat, a: nat, done: nat, n1: nat, n2: nat, x: nat)
    requires Reducible(weight, act, n, a, done) && a <= n && n + 1 < |weight| && 1 <= n1 <= n && 1 <= n2 <= n
      && n + 1 !in act
    requires Lightest(weight, act, n1) && Lightest(weight, act - {n1}, n2)
    requires WeightOf(x) == WeightOf(weight[n1]) + WeightOf(weight[n2])
    ensures Reducible(weight[n + 1 := x], act - {n1} - {n2} + {n + 1}, n + 1, a, done + WeightOf(x))
  {
    hide WeightOf, Lightest, Code, Beats;
    var weight' := weight[n + 1 := x];
    forall l: seq<nat>, m: nat | |l| == |weight'| && Code(l, Leaves(a), a, m)
      ensures Beats(weight', act - {n1} - {n2} + {n + 1}, n + 1, a, done + WeightOf(x), l)
    {
      BeatsMerge(weight, act, n, a, done, n1, n2, x, l);
    }
  }

  /** What the codewords of the leaves cost when their lengths are the distances from the roots. */
  ghost function WalkCost(parent: seq<int>, n: nat, w: seq<nat>, m: nat): nat
    requires m < |w|
  {
    if m == 0 then 0 else WalkCost(parent, n, w, m - 1) + w[m] * Walk(parent, n, m)
  }

  lemma OneMore(w: nat, k: nat)
    ensures w * (k + 1) == w * k + w
  {
  }

  lemma {:induction false} JoinedCost(parent: seq<int>, n: nat, n1: nat, n2: nat, w: seq<nat>, m: nat)
    requires TwoRoots(parent, n, n1, n2) && m <= n && m < |w|
    ensures WalkCost(Joined(parent, n, n1, n2), n + 1, w, m)
         == WalkCost(parent, n, w, m) + RootWeight(parent, n, w, n1, m) + RootWeight(parent, n, w, n2, m)
  {
    hide Joined, Root, Walk;
    if m > 0 {
      JoinedCost(parent, n, n1, n2, w, m - 1);
      JoinedWalk(parent, n, n1, n2, m);
      OneMore(w[m], Walk(parent, n, m));
    }
  }

  lemma {:induction false} NoWalkNoCost(parent: seq<int>, n: nat, w: seq<nat>, m: nat)
    requires m < |w| && forall i | 1 <= i <= m :: Walk(parent, n, i) == 0
    ensures WalkCost(parent, n, w, m) == 0
  {
    if m > 0 { NoWalkNoCost(parent, n, w, m - 1); }
  }

  // ----- the same for lengths in an array from index 0 -----

  /** The sum over all codewords of 2^-length. */
  ghost function KraftSum(len: seq<nat>): real {
    if len == [] then 0.0 else KraftSum(len[..|len| - 1]) + Half(len[|len| - 1])
  }

  function Bits(w: seq<nat>, len: seq<nat>): nat
    requires |w| == |len|
  {
    if len == [] then 0 else Bits(w[..|w| - 1], len[..|len| - 1]) + w[|w| - 1] * len[|len| - 1]
  }

  /** No code for the same symbols, prefix-free or merely satisfying the Kraft inequality, takes fewer bits. */
  ghost predicate Cheapest(w: seq<nat>, len: seq<nat>) {
    |w| == |len| && forall rival: seq<nat> | |rival| == |w| && KraftSum(rival) <= 1.0 :: Bits(w, len) <= Bits(w, rival)
  }

  function Largest(len: seq<nat>): (m: nat)
    ensures forall k | 0 <= k < |len| :: len[k] <= m
  {
    if len == [] then 0 else
      var m := Largest(len[..|len| - 1]);
      if len[|len| - 1] > m then len[|len| - 1] else m
  }

  lemma {:induction false} HalfPow(k: nat, m: nat)
    requires k <= m
    ensures Half(k) * (Pow2(m) as real) == Pow2(m - k) as real
  {
    if k > 0 {
      HalfPow(k - 1, m);
      PowEven(m - k + 1);
    }
  }

  /** `l` lists, from index 1, the lengths in `len`. */
  ghost predicate Listed(l: seq<nat>, len: seq<nat>) {
    |len| < |l| && forall i | 1 <= i <= |len| :: l[i] == len[i - 1]
  }

  lemma Distribute(a: real, b: real, c: real)
    ensures (a + b) * c == a * c + b * c
  {
  }

  lemma {:induction false} SpaceIsKraft(l: seq<nat>, len: seq<nat>, act: set<nat>, m: nat)
    requires Listed(l, len) && (forall k | 0 <= k < |len| :: len[k] <= m) && forall k | 1 <= k <= |len| :: k in act
    ensures Space(l, act, |len|, m) as real == KraftSum(len) * (Pow2(m) as real)
  {
    hide Pow2, Half;
    if len != [] {
      var n := |len| - 1;
      SpaceIsKraft(l, len[..n], act, m);
      HalfPow(len[n], m);
      assert l[n + 1] == len[n];
      Distribute(KraftSum(len[..n]), Half(len[n]), Pow2(m) as real);
    }
  }

  lemma {:induction false} CostIsBits(weight: seq<nat>, w: seq<nat>, l: seq<nat>, len: seq<nat>, act: set<nat>)
    requires Listed(l, len) && |w| == |len| < |weight|
      && forall k | 1 <= k <= |len| :: k in act && WeightOf(weight[k]) == w[k - 1]
    ensures Cost(weight, l, act, |len|) == Bits(w, len)
  {
    hide WeightOf;
    if len != [] {
      var n := |len| - 1;
      CostIsBits(weight, w[..n], l, len[..n], act);
      assert l[n + 1] == len[n] && WeightOf(weight[n + 1]) == w[n];
    }
  }

  lemma AtMost(x: real, y: real)
    requires x <= 1.0 && y >= 0.0
    ensures x * y <= y
  {
  }

  lemma KraftCode(l: seq<nat>, len: seq<nat>)
    requires Listed(l, len) && KraftSum(len) <= 1.0
    ensures Code(l, Leaves(|len|), |len|, Largest(len))
  {
    hide Pow2, Space, KraftSum, Leaves, Largest;
    var m := Largest(len);
    SpaceIsKraft(l, len, Leaves(|len|), m);
    AtMost(KraftSum(len), Pow2(m) as real);
  }

  /** With a single root left, the lengths found are the cheapest. */
  lemma CheapestFound(parent: seq<int>, weight: seq<nat>, w: seq<nat>, act: set<nat>, n: nat, len: seq<nat>)
    requires |len| == |w| < |weight| && n < |weight|
    requires forall k | 1 <= k <= |w| :: WeightOf(weight[k]) == w[k - 1]
    requires Reducible(weight, act, n, |w|, Bits(w, len))
    ensures Cheapest(w, len)
  {
    hide WeightOf, Pow2, Space, KraftSum, Cost, Bits, Code, Largest;
    forall rival: seq<nat> | |rival| == |w| && KraftSum(rival) <= 1.0 ensures Bits(w, len) <= Bits(w, rival) {
      var l := seq(|weight|, i requires 0 <= i => if 1 <= i <= |rival| then rival[i - 1] else 0);
      assert Listed(l, rival);
      KraftCode(l, rival);
      assert Beats(weight, act, n, |w|, Bits(w, len), l);
      CostIsBits(weight, w, l, rival, Leaves(|w|));
    }
  }
}
