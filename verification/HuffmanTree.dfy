/** The forest of nodes that the parent links describe, while code lengths are being made. */
module HuffmanTree {
  /** Among the nodes 1..n, a parent has a greater number than its children; roots have a negative link. */
  ghost predicate Up(parent: seq<int>, n: nat) {
    n < |parent| && forall k {:trigger parent[k]} | 1 <= k <= n :: parent[k] < 0 || k < parent[k] <= n
  }

  ghost function Root(parent: seq<int>, n: nat, k: nat): nat
    decreases n - k
  {
    if k <= n < |parent| && k < parent[k] <= n then Root(parent, n, parent[k]) else k
  }

  /** Number of links from `k` to its root. */
  ghost function Walk(parent: seq<int>, n: nat, k: nat): nat
    decreases n - k
  {
    if k <= n < |parent| && k < parent[k] <= n then 1 + Walk(parent, n, parent[k]) else 0
  }

  lemma {:induction false} RootIsRoot(parent: seq<int>, n: nat, k: nat)
    requires Up(parent, n) && 1 <= k <= n
    ensures 1 <= Root(parent, n, k) <= n && parent[Root(parent, n, k)] < 0
    decreases n - k
  {
    if parent[k] >= 0 {
      RootIsRoot(parent, n, parent[k]);
    }
  }

  /** The links once two roots have been given a new common parent. */
  function Joined(parent: seq<int>, n: nat, n1: nat, n2: nat): (r: seq<int>)
    requires n1 <= n && n2 <= n && n + 1 < |parent|
    ensures |r| == |parent|
  {
    parent[n1 := n + 1][n2 := n + 1][n + 1 := -1]
  }

  ghost predicate TwoRoots(parent: seq<int>, n: nat, n1: nat, n2: nat) {
    Up(parent, n) && n + 1 < |parent| && 1 <= n1 <= n && 1 <= n2 <= n && n1 != n2 && parent[n1] < 0 && parent[n2] < 0
  }

  lemma JoinedUp(parent: seq<int>, n: nat, n1: nat, n2: nat)
    requires TwoRoots(parent, n, n1, n2)
    ensures Up(Joined(parent, n, n1, n2), n + 1)
  {
  }

  /** Joining puts the nodes of two trees one link deeper, under the new root, and leaves the others. */
  lemma {:induction false} JoinedWalk(parent: seq<int>, n: nat, n1: nat, n2: nat, k: nat)
    requires TwoRoots(parent, n, n1, n2) && 1 <= k <= n
    ensures var r := Root(parent, n, k); var below := r == n1 || r == n2; var p := Joined(parent, n, n1, n2);
            && Root(p, n + 1, k) == (if below then n + 1 else r)
            && Walk(p, n + 1, k) == Walk(parent, n, k) + (if below then 1 else 0)
    decreases n - k
  {
    var p := Joined(parent, n, n1, n2);
    if parent[k] >= 0 {
      JoinedWalk(parent, n, n1, n2, parent[k]);
    } else if k == n1 || k == n2 {
      assert Root(p, n + 1, n + 1) == n + 1 && Walk(p, n + 1, n + 1) == 0;
    }
  }

  // ----- sums over the leaves of a tree -----

  function Half(k: nat): (h: real)
    ensures h > 0.0
  {
    if k == 0 then 1.0 else Half(k - 1) / 2.0
  }

  /** Total weight of the leaves 1..m under the root `r`. */
  ghost function RootWeight(parent: seq<int>, n: nat, w: seq<nat>, r: nat, m: nat): nat
    requires m < |w|
  {
    if m == 0 then 0
    else RootWeight(parent, n, w, r, m - 1) + if Root(parent, n, m) == r then w[m] else 0
  }

  /** The Kraft sum of the leaves 1..m under the root `r`, with their distances from it as code lengths. */
  ghost function RootKraft(parent: seq<int>, n: nat, r: nat, m: nat): real {
    if m == 0 then 0.0
    else RootKraft(parent, n, r, m - 1) + if Root(parent, n, m) == r then Half(Walk(parent, n, m)) else 0.0
  }

  function Total(w: seq<nat>, m: nat): nat
    requires m < |w|
  {
    if m == 0 then 0 else Total(w, m - 1) + w[m]
  }

  lemma {:induction false} RootWeightAtMost(parent: seq<int>, n: nat, w: seq<nat>, r: nat, m: nat)
    requires m < |w|
    ensures RootWeight(parent, n, w, r, m) <= Total(w, m)
  {
    if m > 0 { RootWeightAtMost(parent, n, w, r, m - 1); }
  }

  lemma {:induction false} JoinedWeight(parent: seq<int>, n: nat, n1: nat, n2: nat, w: seq<nat>, m: nat)
    requires TwoRoots(parent, n, n1, n2) && m <= n && m < |w|
    ensures RootWeight(Joined(parent, n, n1, n2), n + 1, w, n + 1, m)
         == RootWeight(parent, n, w, n1, m) + RootWeight(parent, n, w, n2, m)
  {
    if m > 0 {
      JoinedWeight(parent, n, n1, n2, w, m - 1);
      JoinedWalk(parent, n, n1, n2, m);
      RootIsRoot(parent, n, m);
    }
  }

  lemma {:induction false} OtherWeight(parent: seq<int>, n: nat, n1: nat, n2: nat, w: seq<nat>, r: nat, m: nat)
    requires TwoRoots(parent, n, n1, n2) && m <= n && m < |w| && r <= n && r != n1 && r != n2
    ensures RootWeight(Joined(parent, n, n1, n2), n + 1, w, r, m) == RootWeight(parent, n, w, r, m)
  {
    if m > 0 {
      OtherWeight(parent, n, n1, n2, w, r, m - 1);
      JoinedWalk(parent, n, n1, n2, m);
    }
  }

  lemma {:induction false} JoinedKraft(parent: seq<int>, n: nat, n1: nat, n2: nat, m: nat)
    requires TwoRoots(parent, n, n1, n2) && m <= n
    ensures RootKraft(Joined(parent, n, n1, n2), n + 1, n + 1, m)
         == (RootKraft(parent, n, n1, m) + RootKraft(parent, n, n2, m)) / 2.0
  {
    if m > 0 {
      JoinedKraft(parent, n, n1, n2, m - 1);
      JoinedWalk(parent, n, n1, n2, m);
      RootIsRoot(parent, n, m);
    }
  }

  lemma {:induction false} OtherKraft(parent: seq<int>, n: nat, n1: nat, n2: nat, r: nat, m: nat)
    requires TwoRoots(parent, n, n1, n2) && m <= n && r <= n && r != n1 && r != n2
    ensures RootKraft(Joined(parent, n, n1, n2), n + 1, r, m) == RootKraft(parent, n, r, m)
  {
    if m > 0 {
      OtherKraft(parent, n, n1, n2, r, m - 1);
      JoinedWalk(parent, n, n1, n2, m);
    }
  }

  // ----- Fibonacci numbers bound the height by the weight -----

  function Fib(n: nat): (f: nat)
    ensures f >= 1
  {
    if n <= 1 then 1 else Fib(n - 1) + Fib(n - 2)
  }

  lemma {:induction false} FibMonotone(a: nat, b: nat)
    requires a <= b
    ensures Fib(a) <= Fib(b)
  {
    if a < b {
      FibMonotone(a, b - 1);
    }
  }

  lemma FibThirteen()
    ensures Fib(12) == 233 && Fib(13) == 377
  {
    assert Fib(2) == 2 && Fib(3) == 3;
    assert Fib(4) == 5 && Fib(5) == 8;
    assert Fib(6) == 13 && Fib(7) == 21;
    assert Fib(8) == 34 && Fib(9) == 55;
    assert Fib(10) == 89 && Fib(11) == 144;
  }

  lemma FibNineteen()
    ensures Fib(18) == 4181 && Fib(19) == 6765
  {
    FibThirteen();
    assert Fib(14) == 610 && Fib(15) == 987;
    assert Fib(16) == 1597 && Fib(17) == 2584;
  }

  lemma FibThirtyFour()
    ensures Fib(34) == 9227465
  {
    FibNineteen();
    assert Fib(20) == 10946 && Fib(21) == 17711;
    assert Fib(22) == 28657 && Fib(23) == 46368;
    assert Fib(24) == 75025 && Fib(25) == 121393;
    assert Fib(26) == 196418 && Fib(27) == 317811;
    assert Fib(28) == 514229 && Fib(29) == 832040;
    assert Fib(30) == 1346269 && Fib(31) == 2178309;
    assert Fib(32) == 3524578 && Fib(33) == 5702887;
  }

  /** A tree lighter than 2^23 is less than 33 high. */
  lemma LightIsLow(h: nat, w: nat)
    requires Fib(h + 1) <= w < 0x80_0000
    ensures h < 33
  {
    if h >= 33 {
      FibMonotone(34, h + 1);
      FibThirtyFour();
    }
  }

  /** A tree of weight at most 516 is at most 12 high. */
  lemma TinyIsLow(h: nat, w: nat)
    requires Fib(h + 1) <= w <= 516
    ensures h <= 12
  {
    FibThirteen();
    assert Fib(14) == 610;
    if h >= 13 {
      FibMonotone(14, h + 1);
    }
  }

  // ----- weights with heights in their low octet -----

  /** `WEIGHTOF` and `DEPTHOF`, the former divided by 256. */
  function WeightOf(z: nat): nat {
    z / 256
  }

  function DepthOf(z: nat): (d: nat)
    ensures d < 256
  {
    z % 256
  }

  function Max(a: nat, b: nat): nat {
    if a > b then a else b
  }

  /** Bitwise or of values without common bits. */
  function Or(high: nat, low: nat): nat
    requires high % 256 == 0 && low < 256
  {
    high + low
  }

  /** `ADDWEIGHTS`: the weights added, one more than the greater height. */
  function AddWeights(z1: nat, z2: nat): nat
    requires Max(DepthOf(z1), DepthOf(z2)) < 255
  {
    Or(256 * WeightOf(z1) + 256 * WeightOf(z2), 1 + Max(DepthOf(z1), DepthOf(z2)))
  }

  lemma AddWeightsParts(z1: nat, z2: nat)
    requires Max(DepthOf(z1), DepthOf(z2)) < 255
    ensures WeightOf(AddWeights(z1, z2)) == WeightOf(z1) + WeightOf(z2)
    ensures DepthOf(AddWeights(z1, z2)) == 1 + Max(DepthOf(z1), DepthOf(z2))
  {
  }

  // ----- the forest while it is being built -----

  /** Node `i` is no further from its root than the height that the root carries says. */
  ghost predicate Within(parent: seq<int>, weight: seq<nat>, n: nat, i: nat) {
    Root(parent, n, i) < |weight| && Walk(parent, n, i) <= DepthOf(weight[Root(parent, n, i)])
  }

  /**
   * `a` leaves and `n` nodes so far; `act` are the roots. Every root carries the total weight of its leaves and at
   * least the height of its tree, and its leaves form a complete code.
   */
  ghost predicate Forest(parent: seq<int>, weight: seq<nat>, w: seq<nat>, act: set<nat>, n: nat, a: nat) {
    && 1 <= a <= n < |parent| == |weight| && a < |w| && Up(parent, n)
    && (forall k | 1 <= k <= n :: parent[k] < 0 <==> k in act)
    && (forall k | k in act :: 1 <= k <= n)
    && (forall r | r in act ::
      WeightOf(weight[r]) == RootWeight(parent, n, w, r, a) && RootKraft(parent, n, r, a) == 1.0)
    && (forall i | 1 <= i <= a :: Within(parent, weight, n, i))
  }

  /** No tree is higher than its weight, and that of any other tree, allows. */
  ghost predicate Slender(weight: seq<nat>, act: set<nat>) {
    && (forall r | r in act :: r < |weight| && WeightOf(weight[r]) >= Fib(DepthOf(weight[r]) + 1))
    && forall r, s | r in act && s in act && r != s :: WeightOf(weight[s]) >= Fib(DepthOf(weight[r]))
  }

  ghost predicate Lightest(weight: seq<nat>, act: set<nat>, n1: nat) {
    n1 in act && n1 < |weight| && forall s | s in act && s < |weight| :: weight[n1] <= weight[s]
  }

  lemma WeightOrder(x: nat, y: nat)
    requires x <= y
    ensures WeightOf(x) <= WeightOf(y)
  {
  }

  lemma FibStep(h: nat)
    ensures Fib(h + 2) == Fib(h + 1) + Fib(h)
  {
  }

  lemma SlenderJoin(weight: seq<nat>, act: set<nat>, n1: nat, n2: nat, v: nat)
    requires Slender(weight, act) && Lightest(weight, act, n1) && Lightest(weight, act - {n1}, n2)
    requires v < |weight| && v !in act && Max(DepthOf(weight[n1]), DepthOf(weight[n2])) < 255
    ensures Slender(weight[v := AddWeights(weight[n1], weight[n2])], act - {n1} - {n2} + {v})
  {
    hide Fib, WeightOf, DepthOf, AddWeights;
    AddWeightsParts(weight[n1], weight[n2]);
    var weight' := weight[v := AddWeights(weight[n1], weight[n2])];
    var act' := act - {n1} - {n2} + {v};
    var h1, h2 := DepthOf(weight[n1]), DepthOf(weight[n2]);
    var t := if h1 > h2 then n1 else n2;
    FibStep(DepthOf(weight[t]));
    forall s | s in act' && s != v ensures WeightOf(weight[s]) >= Fib(DepthOf(weight[t]) + 1) {
      WeightOrder(weight[t], weight[s]);
    }
    forall r, s | r in act' && s in act' && r != s ensures WeightOf(weight'[s]) >= Fib(DepthOf(weight'[r])) {
      if s == v {
        assert WeightOf(weight[n1]) >= Fib(DepthOf(weight[r]));
      }
    }
  }

  lemma JoinedLinks(parent: seq<int>, n: nat, n1: nat, n2: nat)
    requires TwoRoots(parent, n, n1, n2)
    ensures forall k {:trigger Joined(parent, n, n1, n2)[k]} | 1 <= k <= n + 1 ::
              Joined(parent, n, n1, n2)[k] == if k == n + 1 then -1 else if k == n1 || k == n2 then n + 1 else parent[k]
  {
  }

  lemma JoinedWithin(parent: seq<int>, weight: seq<nat>, n: nat, n1: nat, n2: nat, i: nat)
    requires TwoRoots(parent, n, n1, n2) && |weight| == |parent| && 1 <= i <= n && Within(parent, weight, n, i)
    requires Max(DepthOf(weight[n1]), DepthOf(weight[n2])) < 255
    ensures Within(Joined(parent, n, n1, n2), weight[n + 1 := AddWeights(weight[n1], weight[n2])], n + 1, i)
  {
    hide WeightOf, DepthOf, AddWeights, Walk, Root, Joined;
    AddWeightsParts(weight[n1], weight[n2]);
    RootIsRoot(parent, n, i);
    JoinedWalk(parent, n, n1, n2, i);
  }

  lemma ForestJoin(parent: seq<int>, weight: seq<nat>, w: seq<nat>, act: set<nat>, n: nat, a: nat, n1: nat, n2: nat)
    requires Forest(parent, weight, w, act, n, a) && n1 in act && n2 in act && n1 != n2 && n + 1 < |parent|
    requires Max(DepthOf(weight[n1]), DepthOf(weight[n2])) < 255
    ensures Forest(Joined(parent, n, n1, n2), weight[n + 1 := AddWeights(weight[n1], weight[n2])], w,
      act - {n1} - {n2} + {n + 1}, n + 1, a)
  {
    hide WeightOf, DepthOf, AddWeights, RootWeight, RootKraft, Walk, Root, Up, Joined, Within;
    AddWeightsParts(weight[n1], weight[n2]);
    JoinedUp(parent, n, n1, n2);
    var p, weight' := Joined(parent, n, n1, n2), weight[n + 1 := AddWeights(weight[n1], weight[n2])];
    var act' := act - {n1} - {n2} + {n + 1};
    JoinedLinks(parent, n, n1, n2);
    forall k | 1 <= k <= n + 1 ensures p[k] < 0 <==> k in act' {
      assert k <= n ==> (parent[k] < 0 <==> k in act);
    }
    forall r | r in act' ensures WeightOf(weight'[r]) == RootWeight(p, n + 1, w, r, a)
      && RootKraft(p, n + 1, r, a) == 1.0 {
      if r == n + 1 {
        JoinedWeight(parent, n, n1, n2, w, a);
        JoinedKraft(parent, n, n1, n2, a);
      } else {
        OtherWeight(parent, n, n1, n2, w, r, a);
        OtherKraft(parent, n, n1, n2, r, a);
      }
    }
    var m := n + 1;
    forall i | 1 <= i <= a ensures Within(p, weight', m, i) {
      JoinedWithin(parent, weight, n, n1, n2, i);
    }
    assert forall k | k in act' :: 1 <= k <= n + 1;
  }

  lemma {:induction false} LoneRoot(parent: seq<int>, a: nat, w: seq<nat>, r: nat, m: nat)
    requires m <= a < |parent| && a < |w| && (forall k | 1 <= k <= a :: parent[k] == -1) && 1 <= r <= a
    ensures RootWeight(parent, a, w, r, m) == if r <= m then w[r] else 0
    ensures RootKraft(parent, a, r, m) == if r <= m then 1.0 else 0.0
  {
    if m > 0 {
      LoneRoot(parent, a, w, r, m - 1);
      assert Root(parent, a, m) == m && Walk(parent, a, m) == 0;
    }
  }

  lemma LoneWalk(parent: seq<int>, a: nat, i: nat)
    requires 1 <= i <= a < |parent| && parent[i] == -1
    ensures Root(parent, a, i) == i && Walk(parent, a, i) == 0
  {
  }

  lemma LeafParts(z: nat, w: nat)
    requires z == 256 * w
    ensures WeightOf(z) == w && DepthOf(z) == 0
  {
  }

  lemma FibStart()
    ensures Fib(0) == 1 && Fib(1) == 1
  {
  }

  /** The leaves alone, each a root of height zero. */
  lemma ForestStart(parent: seq<int>, weight: seq<nat>, w: seq<nat>, act: set<nat>, a: nat)
    requires 1 <= a < |parent| == |weight| && a < |w|
    requires forall k | 1 <= k <= a :: parent[k] == -1 && weight[k] == 256 * w[k] && w[k] >= 1
    requires forall k :: k in act <==> 1 <= k <= a
    ensures Forest(parent, weight, w, act, a, a) && Slender(weight, act)
  {
    hide RootWeight, RootKraft, Walk, Root, WeightOf, DepthOf, Fib;
    forall r | r in act
      ensures WeightOf(weight[r]) == RootWeight(parent, a, w, r, a) && RootKraft(parent, a, r, a) == 1.0
    {
      LoneRoot(parent, a, w, r, a);
      LeafParts(weight[r], w[r]);
    }
    forall i | 1 <= i <= a ensures Within(parent, weight, a, i) {
      LoneWalk(parent, a, i);
    }
    forall r | r in act ensures WeightOf(weight[r]) >= 1 && DepthOf(weight[r]) == 0 {
      LeafParts(weight[r], w[r]);
    }
    FibStart();
  }
}
