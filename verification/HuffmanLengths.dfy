/** Making length-limited code lengths from frequencies. */
module HuffmanLengths {
  import opened HuffmanHeap
  import opened HuffmanTree
  import opened HuffmanOptimal

  const MAX_ALPHA_SIZE := 258

  /** The heap `h[1..n]` holds exactly the roots `act`, lightest first. */
  ghost predicate HeapOf(weight: seq<nat>, h: seq<nat>, n: nat, act: set<nat>) {
    && n + 1 < |h| && h[0] == 0 && |weight| > 0 && weight[0] == 0 && InRange(h, |weight|)
    && Ordered(weight, h, n) && multiset(h[1..n + 1]) == multiset(act)
  }

  lemma HeapGives(weight: seq<nat>, h: seq<nat>, n: nat, act: set<nat>)
    requires HeapOf(weight, h, n, act)
    ensures n + 1 < |h| && h[0] == 0 && |weight| > 0 && weight[0] == 0 && InRange(h, |weight|) && Ordered(weight, h, n)
    ensures |act| == n
  {
    assert |multiset(act)| == |act|;
  }

  lemma TopIsLightest(weight: seq<nat>, h: seq<nat>, n: nat, act: set<nat>)
    requires HeapOf(weight, h, n, act) && n >= 1
    ensures Lightest(weight, act, h[1])
  {
    hide Ordered, InRange;
    RangeAt(h, |weight|, 1);
    assert h[1..n + 1][0] == h[1] && h[1] in multiset(act);
    forall s | s in act && s < |weight| ensures weight[h[1]] <= weight[s] {
      assert s in multiset(h[1..n + 1]);
      var k :| 0 <= k < n && h[1..n + 1][k] == s;
      TopLightest(weight, h, n, k + 1);
    }
  }

  /** Moving the last node of the heap to the top. */
  lemma TopRemoved(weight: seq<nat>, h: seq<nat>, n: nat, act: set<nat>)
    requires HeapOf(weight, h, n, act) && n >= 1
    ensures Sinking(weight, h[1 := h[n]], n - 1, 1) && InRange(h[1 := h[n]], |weight|)
  {
    var r := h[1 := h[n]];
    forall k {:trigger Key(weight, r, k)} | 2 <= k <= n - 1 && k / 2 != 1
      ensures Key(weight, r, k / 2) <= Key(weight, r, k) {
      assert Key(weight, h, k / 2) <= Key(weight, h, k);
    }
  }

  lemma SetLess(act: set<nat>, x: nat, m: multiset<nat>, m': multiset<nat>)
    requires x in act && m == multiset(act) && m == m' + multiset{x}
    ensures m' == multiset(act - {x})
  {
    forall e: nat ensures m'[e] == multiset(act - {x})[e] {
      assert m[e] == multiset(act)[e];
    }
  }

  lemma NodesWithoutTop(h: seq<nat>, n: nat, act: set<nat>)
    requires 1 <= n < |h| && multiset(h[1..n + 1]) == multiset(act)
    ensures multiset(h[1 := h[n]][1..n]) == multiset(act - {h[1]})
  {
    var r, s := h[1 := h[n]], h[1..n + 1];
    assert s[0] == h[1] && h[1] in multiset(act);
    if n == 1 {
      assert r[1..n] == [] && s == [h[1]];
    } else {
      assert s == [h[1]] + (h[2..n] + [h[n]]);
      assert r[1..n] == [h[n]] + h[2..n];
    }
    assert multiset(s) == multiset(r[1..n]) + multiset{h[1]};
    SetLess(act, h[1], multiset(s), multiset(r[1..n]));
  }

  lemma HeapIs(weight: seq<nat>, h: seq<nat>, h0: seq<nat>, n: nat, act: set<nat>)
    requires SameNodes(h, h0, n) && n + 1 < |h| && h[0] == 0 && |weight| > 0 && weight[0] == 0 && InRange(h, |weight|)
    requires Ordered(weight, h, n) && multiset(h0[1..n + 1]) == multiset(act)
    ensures HeapOf(weight, h, n, act)
  {
  }

  lemma HeapNodes(weight: seq<nat>, h: seq<nat>, n: nat, act: set<nat>)
    requires HeapOf(weight, h, n, act)
    ensures n + 1 < |h| && multiset(h[1..n + 1]) == multiset(act)
  {
  }

  /** Take the lightest root off the heap. */
  method Pop(heap: array<nat>, weight: array<nat>, nHeap: nat, ghost act: set<nat>) returns (n1: nat)
    requires heap != weight && HeapOf(weight[..], heap[..], nHeap, act) && nHeap >= 1
    modifies heap
    ensures Lightest(weight[..], act, n1) && HeapOf(weight[..], heap[..], nHeap - 1, act - {n1})
  {
    hide *;
    HeapGives(weight[..], heap[..], nHeap, act);
    TopIsLightest(weight[..], heap[..], nHeap, act);
    TopRemoved(weight[..], heap[..], nHeap, act);
    HeapNodes(weight[..], heap[..], nHeap, act);
    NodesWithoutTop(heap[..], nHeap, act);
    n1 := heap[1];
    ghost var h := heap[..];
    heap[1] := heap[nHeap];
    assert heap[..] == h[1 := h[nHeap]];
    DownHeap(heap, weight, nHeap - 1);
    HeapIs(weight[..], heap[..], h[1 := h[nHeap]], nHeap - 1, act - {n1});
  }

  lemma Added(weight: seq<nat>, h: seq<nat>, n: nat, node: nat)
    requires Ordered(weight, h, n) && InRange(h, |weight|) && n + 2 < |h| && node < |weight|
    ensures var r := h[n + 1 := node]; Ordered(weight, r, n) && InRange(r, |weight|)
  {
    var r := h[n + 1 := node];
    forall k {:trigger Key(weight, r, k)} | 2 <= k <= n ensures Key(weight, r, k / 2) <= Key(weight, r, k) {
      assert Key(weight, h, k / 2) <= Key(weight, h, k);
    }
  }

  lemma NodesWithNew(h: seq<nat>, n: nat, node: nat, act: set<nat>)
    requires n + 2 < |h| && multiset(h[1..n + 1]) == multiset(act) && node !in act
    ensures multiset(h[n + 1 := node][1..n + 2]) == multiset(act + {node})
  {
    assert h[n + 1 := node][1..n + 2] == h[1..n + 1] + [node];
  }

  /** Put a new root on the heap. */
  method Push(heap: array<nat>, weight: array<nat>, nHeap: nat, node: nat, ghost act: set<nat>)
    requires heap != weight && HeapOf(weight[..], heap[..], nHeap, act) && nHeap + 2 < heap.Length
    requires node < weight.Length && node !in act
    modifies heap
    ensures HeapOf(weight[..], heap[..], nHeap + 1, act + {node})
  {
    hide *;
    HeapGives(weight[..], heap[..], nHeap, act);
    ghost var h := heap[..];
    heap[nHeap + 1] := node;
    assert heap[..] == h[nHeap + 1 := node];
    Added(weight[..], h, nHeap, node);
    HeapNodes(weight[..], h, nHeap, act);
    NodesWithNew(h, nHeap, node, act);
    UpHeap(heap, weight, nHeap + 1);
    HeapIs(weight[..], heap[..], h[nHeap + 1 := node], nHeap + 1, act + {node});
  }

  /** A weight not in the heap may change. */
  lemma OtherWeightSet(weight: seq<nat>, h: seq<nat>, n: nat, act: set<nat>, v: nat, x: nat)
    requires HeapOf(weight, h, n, act) && v !in act && 0 < v < |weight|
    ensures HeapOf(weight[v := x], h, n, act)
  {
    var weight' := weight[v := x];
    forall k | 1 <= k <= n ensures h[k] != v {
      assert h[1..n + 1][k - 1] == h[k];
      assert h[k] in multiset(act);
    }
    forall k {:trigger Key(weight', h, k)} | 2 <= k <= n ensures Key(weight', h, k / 2) <= Key(weight', h, k) {
      assert Key(weight, h, k / 2) <= Key(weight, h, k);
    }
  }

  // ----- the tree -----

  /** What every state of the tree keeps: a complete code per root, bounded heights, and the least cost. */
  ghost predicate Growing(weight: seq<nat>, parent: seq<int>, w: seq<nat>, act: set<nat>, n: nat, a: nat) {
    && 2 <= a <= MAX_ALPHA_SIZE && |weight| == |parent| == 2 * MAX_ALPHA_SIZE
    && Forest(parent, weight, w, act, n, a) && Slender(weight, act)
    && Reducible(weight, act, n, a, WalkCost(parent, n, w, a))
    && n + |act| == 2 * a && (n > a ==> n in act) && |w| == a + 1 && Total(w, a) < 0x80_0000
    && forall i | 1 <= i <= a :: weight[i] == 256 * w[i]
  }

  lemma LowDepth(weight: seq<nat>, parent: seq<int>, w: seq<nat>, act: set<nat>, n: nat, a: nat, r: nat)
    requires Growing(weight, parent, w, act, n, a) && r in act
    ensures r < |weight| && WeightOf(weight[r]) == RootWeight(parent, n, w, r, a) <= Total(w, a)
    ensures WeightOf(weight[r]) >= Fib(DepthOf(weight[r]) + 1) && DepthOf(weight[r]) < 33
  {
    hide Fib, Total, RootWeight, RootKraft, Walk, Root, Up, WeightOf, DepthOf, Reducible;
    RootWeightAtMost(parent, n, w, r, a);
    LightIsLow(DepthOf(weight[r]), WeightOf(weight[r]));
  }

  /** Two roots that may be merged. */
  lemma MergeReady(weight: seq<nat>, parent: seq<int>, w: seq<nat>, act: set<nat>, n: nat, a: nat, n1: nat, n2: nat)
    requires Growing(weight, parent, w, act, n, a) && Lightest(weight, act, n1) && Lightest(weight, act - {n1}, n2)
      && |act| > 1
    ensures 1 <= n1 <= n && 1 <= n2 <= n && n1 != n2 && n1 in act && n2 in act && n + 1 < |weight| == |parent|
      && n + 1 !in act
    ensures Max(DepthOf(weight[n1]), DepthOf(weight[n2])) < 255
  {
    hide Fib, Total, RootWeight, RootKraft, Walk, Root, Up, WeightOf, DepthOf, Reducible;
    LowDepth(weight, parent, w, act, n, a, n1);
    LowDepth(weight, parent, w, act, n, a, n2);
  }

  lemma ForestIs(weight: seq<nat>, parent: seq<int>, w: seq<nat>, act: set<nat>, n: nat, a: nat)
    requires Forest(parent, weight, w, act, n, a)
    ensures Up(parent, n) && a <= n && forall k | 1 <= k <= n :: parent[k] < 0 <==> k in act
  {
    hide RootWeight, RootKraft, Walk, Root, WeightOf, DepthOf;
  }

  lemma Merged(weight: seq<nat>, parent: seq<int>, w: seq<nat>, act: set<nat>, n: nat, a: nat, n1: nat, n2: nat)
    requires Growing(weight, parent, w, act, n, a) && Lightest(weight, act, n1) && Lightest(weight, act - {n1}, n2)
      && |act| > 1
    ensures n1 < |weight| && n2 < |weight| && Max(DepthOf(weight[n1]), DepthOf(weight[n2])) < 255
    ensures n1 <= n && n2 <= n && n + 1 < |parent| && n + 1 < |weight|
    ensures Growing(weight[n + 1 := AddWeights(weight[n1], weight[n2])], Joined(parent, n, n1, n2), w,
      act - {n1} - {n2} + {n + 1}, n + 1, a)
  {
    hide Fib, Total, RootWeight, RootKraft, Walk, Root, Up, WeightOf, DepthOf, Reducible, AddWeights, Joined, Forest,
      Slender, Lightest, Max;
    MergeReady(weight, parent, w, act, n, a, n1, n2);
    ForestIs(weight, parent, w, act, n, a);
    ForestJoin(parent, weight, w, act, n, a, n1, n2);
    SlenderJoin(weight, act, n1, n2, n + 1);
    AddWeightsParts(weight[n1], weight[n2]);
    LowDepth(weight, parent, w, act, n, a, n1);
    LowDepth(weight, parent, w, act, n, a, n2);
    ReducibleMerge(weight, act, n, a, WalkCost(parent, n, w, a), n1, n2, AddWeights(weight[n1], weight[n2]));
    JoinedCost(parent, n, n1, n2, w, a);
  }

  lemma JoinedIs(parent: seq<int>, n: nat, n1: nat, n2: nat)
    requires n1 <= n && n2 <= n && n + 1 < |parent|
    ensures Joined(parent, n, n1, n2) == parent[n1 := n + 1][n2 := n + 1][n + 1 := -1]
  {
  }

  /** Merge the two lightest trees. */
  method Merge(heap: array<nat>, weight: array<nat>, parent: array<int>, nHeap: nat, n: nat, a: nat, ghost w: seq<nat>,
      ghost act: set<nat>) returns (ghost act': set<nat>)
    requires heap != weight && heap as object != parent as object && weight as object != parent as object
    requires HeapOf(weight[..], heap[..], nHeap, act) && Growing(weight[..], parent[..], w, act, n, a) && nHeap > 1
    modifies heap, weight, parent
    ensures HeapOf(weight[..], heap[..], nHeap - 1, act') && Growing(weight[..], parent[..], w, act', n + 1, a)
  {
    hide *;
    ghost var weight0, parent0 := weight[..], parent[..];
    HeapGives(weight0, heap[..], nHeap, act);
    var n1 := Pop(heap, weight, nHeap, act);
    var n2 := Pop(heap, weight, nHeap - 1, act - {n1});
    MergeReady(weight0, parent0, w, act, n, a, n1, n2);
    Merged(weight0, parent0, w, act, n, a, n1, n2);
    parent[n1] := n + 1;
    parent[n2] := n + 1;
    weight[n + 1] := AddWeights(weight[n1], weight[n2]);
    parent[n + 1] := -1;
    JoinedIs(parent0, n, n1, n2);
    assert parent[..] == Joined(parent0, n, n1, n2) && weight[..] ==
      weight0[n + 1 := AddWeights(weight0[n1], weight0[n2])];
    OtherWeightSet(weight0, heap[..], nHeap - 2, act - {n1} - {n2}, n + 1, AddWeights(weight0[n1], weight0[n2]));
    HeapGives(weight[..], heap[..], nHeap - 2, act - {n1} - {n2});
    Push(heap, weight, nHeap - 2, n + 1, act - {n1} - {n2});
    act' := act - {n1} - {n2} + {n + 1};
  }

  lemma NextLeaf(i: nat)
    requires i >= 1
    ensures i !in Leaves(i - 1) && Leaves(i) == Leaves(i - 1) + {i}
  {
  }

  lemma EmptyHeap(weight: seq<nat>, h: seq<nat>)
    requires |weight| > 0 && weight[0] == 0 && |h| > 1 && forall k | 0 <= k < |h| :: h[k] == 0
    ensures HeapOf(weight, h, 0, Leaves(0))
  {
    assert h[1..1] == [];
  }

  lemma Started(weight: seq<nat>, parent: seq<int>, w: seq<nat>, a: nat)
    requires 2 <= a <= MAX_ALPHA_SIZE && |weight| == |parent| == 2 * MAX_ALPHA_SIZE && |w| == a + 1
      && Total(w, a) < 0x80_0000
    requires forall i | 1 <= i <= a :: weight[i] == 256 * w[i] && w[i] >= 1 && parent[i] == -1
    ensures Growing(weight, parent, w, Leaves(a), a, a)
  {
    hide Forest, Slender, Reducible, Leaves, Total;
    ForestStart(parent, weight, w, Leaves(a), a);
    assert forall i | 1 <= i <= a :: Walk(parent, a, i) == 0;
    NoWalkNoCost(parent, a, w, a);
    ReducibleStart(weight, a);
  }

  /** The leaves, all of them roots and on the heap. */
  method Start(heap: array<nat>, weight: array<nat>, parent: array<int>, a: nat, ghost w: seq<nat>)
    requires heap != weight && heap as object != parent as object && weight as object != parent as object
    requires 2 <= a <= MAX_ALPHA_SIZE && heap.Length == MAX_ALPHA_SIZE + 2
      && weight.Length == parent.Length == 2 * MAX_ALPHA_SIZE
    requires |w| == a + 1 && Total(w, a) < 0x80_0000 && forall i | 1 <= i <= a :: weight[i] == 256 * w[i] && w[i] >= 1
    modifies heap, weight, parent
    ensures HeapOf(weight[..], heap[..], a, Leaves(a)) && Growing(weight[..], parent[..], w, Leaves(a), a, a)
  {
    hide HeapOf, Total, Growing, Leaves;
    heap[0] := 0;
    weight[0] := 0;
    parent[0] := -2;
    forall k | 0 <= k < heap.Length { heap[k] := 0; }
    EmptyHeap(weight[..], heap[..]);
    ghost var weight0 := weight[..];
    for i := 1 to a + 1
      invariant weight[..] == weight0 && HeapOf(weight0, heap[..], i - 1, Leaves(i - 1))
      invariant forall k | 1 <= k < i :: parent[k] == -1
    {
      parent[i] := -1;
      NextLeaf(i);
      HeapGives(weight0, heap[..], i - 1, Leaves(i - 1));
      Push(heap, weight, i - 1, i, Leaves(i - 1));
    }
    Started(weight[..], parent[..], w, a);
  }

  lemma Singleton(s: set<nat>, x: nat)
    requires x in s && |s| == 1
    ensures s == {x}
  {
    assert |s - {x}| == 0;
  }

  lemma OneRoot(weight: seq<nat>, parent: seq<int>, w: seq<nat>, act: set<nat>, n: nat, a: nat)
    requires Growing(weight, parent, w, act, n, a) && |act| == 1
    ensures n > a && act == {n}
  {
    hide Forest, Slender, Reducible, Total;
    assert n in act;
    Singleton(act, n);
  }

  /** One round: build the whole tree. */
  method BuildTree(heap: array<nat>, weight: array<nat>, parent: array<int>, a: nat, ghost w: seq<nat>) returns (n: nat)
    requires heap != weight && heap as object != parent as object && weight as object != parent as object
    requires 2 <= a <= MAX_ALPHA_SIZE && heap.Length == MAX_ALPHA_SIZE + 2
      && weight.Length == parent.Length == 2 * MAX_ALPHA_SIZE
    requires |w| == a + 1 && Total(w, a) < 0x80_0000 && forall i | 1 <= i <= a :: weight[i] == 256 * w[i] && w[i] >= 1
    modifies heap, weight, parent
    ensures n > a && Growing(weight[..], parent[..], w, {n}, n, a)
  {
    hide HeapOf, Total, Growing, Leaves;
    Start(heap, weight, parent, a, w);
    n := a;
    var nHeap := a;
    ghost var act := Leaves(a);
    while nHeap > 1
      invariant n + nHeap == 2 * a && nHeap >= 1
      invariant HeapOf(weight[..], heap[..], nHeap, act) && Growing(weight[..], parent[..], w, act, n, a)
    {
      act := Merge(heap, weight, parent, nHeap, n, a, w, act);
      n := n + 1;
      nHeap := nHeap - 1;
    }
    HeapGives(weight[..], heap[..], nHeap, act);
    OneRoot(weight[..], parent[..], w, act, n, a);
  }

  // ----- code lengths -----

  /** A symbol that does not occur is given the weight of one that occurs once. */
  function LeafWeight(f: nat): nat {
    if f == 0 then 1 else f
  }

  function Halved(w: nat): nat {
    1 + w / 2
  }

  function LeafWeights(freq: seq<nat>): (w: seq<nat>)
    ensures |w| == |freq| && forall k | 0 <= k < |w| :: w[k] >= 1
  {
    seq(|freq|, k requires 0 <= k < |freq| => LeafWeight(freq[k]))
  }

  /** The weights after a number of rescalings. */
  function Rescaled(rounds: nat, w: seq<nat>): (r: seq<nat>)
    ensures |r| == |w|
  {
    if rounds == 0 then w
    else
      var r := Rescaled(rounds - 1, w);
      seq(|r|, k requires 0 <= k < |r| => Halved(r[k]))
  }

  function Sum(w: seq<nat>): nat {
    if w == [] then 0 else Sum(w[..|w| - 1]) + w[|w| - 1]
  }

  lemma {:induction false} SumIsTotal(w: seq<nat>, m: nat)
    requires m <= |w|
    ensures Total([0] + w, m) == Sum(w[..m])
  {
    if m > 0 {
      SumIsTotal(w, m - 1);
      assert w[..m][..m - 1] == w[..m - 1];
    }
  }

  /** Rescaling takes weight away as soon as some weight exceeds two. */
  lemma {:induction false} HalvedTotal(w: seq<nat>, w': seq<nat>, m: nat)
    requires |w| == |w'| && m < |w| && forall k | 1 <= k <= m :: w[k] >= 1 && w'[k] == Halved(w[k])
    ensures Total(w', m) <= Total(w, m)
    ensures Total(w, m) > 2 * m ==> Total(w', m) < Total(w, m)
  {
    if m > 0 {
      HalvedTotal(w, w', m - 1);
    }
  }

  /** A codeword longer than `maxLen` needs the weight of a Fibonacci number. */
  lemma TooLongWeighs(weight: seq<nat>, parent: seq<int>, w: seq<nat>, n: nat, a: nat, i: nat, maxLen: nat)
    requires Growing(weight, parent, w, {n}, n, a) && 1 <= i <= a && Walk(parent, n, i) > maxLen
    ensures Total(w, a) >= Fib(maxLen + 2)
  {
    hide Total, RootWeight, RootKraft, WeightOf, DepthOf, Reducible, Fib, Slender;
    RootIsRoot(parent, n, i);
    assert Within(parent, weight, n, i);
    LowDepth(weight, parent, w, {n}, n, a, n);
    FibMonotone(maxLen + 2, DepthOf(weight[n]) + 1);
  }

  /** Whenever a codeword is too long, the weights are heavy enough to be rescaled. */
  lemma HeavyEnough(total: nat, maxLen: nat)
    requires maxLen >= 12 && total >= Fib(maxLen + 2)
    ensures total > 2 * MAX_ALPHA_SIZE
  {
    FibThirteen();
    assert Fib(14) == 610;
    FibMonotone(14, maxLen + 2);
  }

  /** Count the links from a leaf to the root. */
  method Depth(parent: array<int>, n: nat, i: nat) returns (j: nat)
    requires Up(parent[..], n) && 1 <= i <= n
    ensures j == Walk(parent[..], n, i)
  {
    j := 0;
    var k: int := i;
    while parent[k] >= 0
      invariant 1 <= k <= n && j + Walk(parent[..], n, k) == Walk(parent[..], n, i)
      decreases n - k
    {
      k := parent[k];
      j := j + 1;
    }
  }

  /** Read the lengths off the tree, and tell whether one is too long. */
  method ReadLengths(len: array<nat>, parent: array<int>, n: nat, a: nat, maxLen: nat) returns (tooLong: bool)
    requires len as object != parent as object && Up(parent[..], n) && a <= n && a <= len.Length
    modifies len
    ensures forall i | 1 <= i <= a :: len[i - 1] == Walk(parent[..], n, i)
    ensures tooLong <==> exists i {:trigger Walk(parent[..], n, i)} | 1 <= i <= a :: Walk(parent[..], n, i) > maxLen
  {
    hide Up, Walk;
    tooLong := false;
    ghost var p := parent[..];
    for i := 1 to a + 1
      invariant parent[..] == p
      invariant forall k | 1 <= k < i :: len[k - 1] == Walk(p, n, k)
      invariant tooLong <==> exists k {:trigger Walk(p, n, k)} | 1 <= k < i :: Walk(p, n, k) > maxLen
    {
      var j := Depth(parent, n, i);
      len[i - 1] := j;
      if j > maxLen { tooLong := true; }
    }
  }

  lemma {:induction false} KraftOfTree(parent: seq<int>, n: nat, len: seq<nat>)
    requires forall i | 1 <= i <= |len| :: len[i - 1] == Walk(parent, n, i) && Root(parent, n, i) == n
    ensures KraftSum(len) == RootKraft(parent, n, n, |len|)
  {
    hide Half, Walk, Root;
    if len != [] {
      var m := |len| - 1;
      KraftOfTree(parent, n, len[..m]);
      assert len[m] == len[(m + 1) - 1];
    }
  }

  lemma {:induction false} SameCost(parent: seq<int>, n: nat, w: seq<nat>, w': seq<nat>, m: nat)
    requires m < |w| && m < |w'| && forall k | 0 <= k <= m :: w[k] == w'[k]
    ensures WalkCost(parent, n, w, m) == WalkCost(parent, n, w', m)
  {
    if m > 0 { SameCost(parent, n, w, w', m - 1); }
  }

  lemma {:induction false} BitsOfTree(parent: seq<int>, n: nat, w: seq<nat>, len: seq<nat>)
    requires |w| == |len| && forall i | 1 <= i <= |len| :: len[i - 1] == Walk(parent, n, i)
    ensures Bits(w, len) == WalkCost(parent, n, [0] + w, |len|)
  {
    hide Walk;
    if len != [] {
      var m := |len| - 1;
      BitsOfTree(parent, n, w[..m], len[..m]);
      SameCost(parent, n, [0] + w[..m], [0] + w, m);
      assert len[m] == len[(m + 1) - 1];
    }
  }

  /** The lengths read off a single tree are those of a complete and cheapest code. */
  lemma LengthsRight(weight: seq<nat>, parent: seq<int>, w: seq<nat>, n: nat, a: nat, len: seq<nat>)
    requires Growing(weight, parent, w, {n}, n, a) && n > a && |len| == a && |w| == a + 1 && w[0] == 0
    requires forall i | 1 <= i <= a :: len[i - 1] == Walk(parent, n, i)
    ensures KraftSum(len) == 1.0 && Cheapest(w[1..], len)
    ensures forall i | 0 <= i < a :: len[i] >= 1
  {
    hide Total, RootWeight, RootKraft, Reducible, KraftSum, Bits, Slender;
    forall i | 1 <= i <= a ensures Root(parent, n, i) == n && Walk(parent, n, i) >= 1 {
      RootIsRoot(parent, n, i);
    }
    forall i | 0 <= i < a ensures len[i] >= 1 {
      assert len[(i + 1) - 1] == Walk(parent, n, i + 1);
    }
    assert [0] + w[1..] == w;
    KraftOfTree(parent, n, len);
    BitsOfTree(parent, n, w[1..], len);
    CheapestFound(parent, weight, w[1..], {n}, n, len);
  }

  /** Halve the weights of the leaves. */
  method Rescale(weight: array<nat>, a: nat, ghost w: seq<nat>) returns (ghost w': seq<nat>)
    requires |w| == a + 1 && a < weight.Length && forall k | 1 <= k <= a :: weight[k] == 256 * w[k]
    modifies weight
    ensures |w'| == a + 1 && w'[0] == 0 && forall k | 1 <= k <= a :: w'[k] == Halved(w[k]) && weight[k] == 256 * w'[k]
  {
    w' := seq(a + 1, k requires 0 <= k <= a => if k == 0 then 0 else Halved(w[k]));
    for i := 1 to a + 1
      invariant forall k | 1 <= k < i :: weight[k] == 256 * Halved(w[k])
      invariant forall k | i <= k <= a :: weight[k] == 256 * w[k]
    {
      var j := weight[i] / 256;
      j := 1 + j / 2;
      weight[i] := j * 256;
    }
  }

  lemma RescaledNext(rounds: nat, w0: seq<nat>, w: seq<nat>, w': seq<nat>)
    requires |w| == |w'| > 0 && w[1..] == Rescaled(rounds, w0) && forall k | 1 <= k < |w| :: w'[k] == Halved(w[k])
    ensures w'[1..] == Rescaled(rounds + 1, w0)
    ensures forall k | 1 <= k < |w| :: w'[k] >= 1
  {
  }

  lemma StartTotal(w: seq<nat>)
    ensures Total([0] + w, |w|) == Sum(w) && ([0] + w)[1..] == w
  {
    SumIsTotal(w, |w|);
    assert w[..|w|] == w;
  }

  lemma StartWeights(freq: seq<nat>)
    ensures Total([0] + LeafWeights(freq), |freq|) == Sum(LeafWeights(freq))
      && ([0] + LeafWeights(freq))[1..] == LeafWeights(freq)
    ensures forall k | 0 <= k < |freq| :: LeafWeights(freq)[k] == LeafWeight(freq[k]) >= 1
    ensures Rescaled(0, LeafWeights(freq)) == LeafWeights(freq)
  {
    hide Total, Sum;
    StartTotal(LeafWeights(freq));
  }

  lemma GrowingGives(weight: seq<nat>, parent: seq<int>, w: seq<nat>, act: set<nat>, n: nat, a: nat)
    requires Growing(weight, parent, w, act, n, a)
    ensures Up(parent, n) && |w| == a + 1 && forall i | 1 <= i <= a :: weight[i] == 256 * w[i]
  {
    hide RootWeight, RootKraft, Walk, Root, WeightOf, DepthOf, Reducible, Total, Slender;
  }

  lemma ShortEnough(parent: seq<int>, n: nat, a: nat, maxLen: nat, len: seq<nat>)
    requires |len| == a && forall i {:trigger Walk(parent, n, i)} | 1 <= i <= a ::
      len[i - 1] == Walk(parent, n, i) <= maxLen
    ensures forall i | 0 <= i < a :: len[i] <= maxLen
  {
    forall i | 0 <= i < a ensures len[i] <= maxLen {
      assert len[(i + 1) - 1] == Walk(parent, n, i + 1);
    }
  }

  /** Some cheapest complete code for these weights has a codeword longer than `maxLen`. */
  ghost predicate Overlong(w: seq<nat>, maxLen: nat) {
    exists len: seq<nat> :: |len| == |w| && KraftSum(len) == 1.0 && Cheapest(w, len) && LongWord(len, maxLen)
  }

  ghost predicate LongWord(len: seq<nat>, maxLen: nat) {
    exists i | 0 <= i < |len| :: len[i] > maxLen
  }

  /** The first `rounds` rescalings were called for: each found a codeword too long, so the weights were heavy. */
  ghost predicate CalledFor(rounds: nat, w: seq<nat>, maxLen: nat) {
    forall r: nat | r < rounds :: Overlong(Rescaled(r, w), maxLen) && Sum(Rescaled(r, w)) >= Fib(maxLen + 2)
  }

  /** `len` is cheapest for the weights `w` rescaled as often as called for. */
  ghost predicate CheapestRescaled(rounds: nat, w: seq<nat>, len: seq<nat>, maxLen: nat) {
    CalledFor(rounds, w, maxLen) && Cheapest(Rescaled(rounds, w), len)
  }

  lemma FirstCalledFor(rounds: nat, w: seq<nat>, maxLen: nat)
    requires rounds > 0 && CalledFor(rounds, w, maxLen)
    ensures Sum(w) >= Fib(maxLen + 2)
  {
    hide Sum, Fib, Overlong;
    assert Rescaled(0, w) == w;
  }

  /**
   * Where the frequencies, zeros counted as one, add up to less than a Fibonacci number, nothing is rescaled, and the
   * lengths minimise the bits written.
   */
  lemma LightIsOptimal(rounds: nat, freq: seq<nat>, len: seq<nat>, maxLen: nat)
    requires CheapestRescaled(rounds, LeafWeights(freq), len, maxLen) && Sum(LeafWeights(freq)) < Fib(maxLen + 2)
    ensures rounds == 0 && Cheapest(LeafWeights(freq), len)
  {
    hide Cheapest, KraftSum, Sum, Fib, LeafWeights, Overlong;
    assert Rescaled(0, LeafWeights(freq)) == LeafWeights(freq);
    if rounds > 0 {
      FirstCalledFor(rounds, LeafWeights(freq), maxLen);
    }
  }

  lemma TooLongIsOverlong(weight: seq<nat>, parent: seq<int>, w: seq<nat>, n: nat, a: nat, len: seq<nat>, i: nat,
      maxLen: nat)
    requires Growing(weight, parent, w, {n}, n, a) && n > a && |len| == a && |w| == a + 1 && w[0] == 0
    requires forall k | 1 <= k <= a :: len[k - 1] == Walk(parent, n, k)
    requires 1 <= i <= a && Walk(parent, n, i) > maxLen
    ensures Overlong(w[1..], maxLen)
  {
    hide Growing, Walk, KraftSum, Cheapest;
    LengthsRight(weight, parent, w, n, a, len);
    assert len[i - 1] > maxLen;
    assert LongWord(len, maxLen);
  }

  lemma CalledForNone(w: seq<nat>, maxLen: nat)
    ensures CalledFor(0, w, maxLen)
  {
  }

  lemma CalledForOnce(rounds: nat, w0: seq<nat>, w: seq<nat>, maxLen: nat)
    requires CalledFor(rounds, w0, maxLen) && |w| == |w0| + 1 && w[0] == 0 && w[1..] == Rescaled(rounds, w0)
    requires Overlong(w[1..], maxLen) && Total(w, |w0|) >= Fib(maxLen + 2)
    ensures CalledFor(rounds + 1, w0, maxLen)
  {
    hide Total, Sum, Fib, Overlong, Rescaled;
    assert w == [0] + w[1..];
    StartTotal(w[1..]);
  }

  /**
   * `BZ2_hbMakeCodeLengths`. It ends, every length lies in 1..maxLen, the code is complete, and no code is cheaper for
   * the weights as rescaled; `rounds` tells how often they were, and each time the cheapest code found had a codeword
   * too long. The callers pass 17 for `maxLen`.
   */
  method MakeCodeLengths(len: array<nat>, freq: seq<nat>, alphaSize: nat, maxLen: nat) returns (ghost rounds: nat)
    requires 2 <= alphaSize <= MAX_ALPHA_SIZE && |freq| == alphaSize && alphaSize <= len.Length && maxLen >= 12
    requires Sum(LeafWeights(freq)) < 0x80_0000
    modifies len
    ensures forall i | 0 <= i < alphaSize :: 1 <= len[i] <= maxLen
    ensures KraftSum(len[..alphaSize]) == 1.0
    ensures CheapestRescaled(rounds, LeafWeights(freq), len[..alphaSize], maxLen)
    ensures Sum(LeafWeights(freq)) < Fib(maxLen + 2) ==>
      rounds == 0 && Cheapest(LeafWeights(freq), len[..alphaSize])
  {
    hide Growing, KraftSum, Cheapest, Walk, Up, Total, Sum, LeafWeights, Rescaled, Halved, LeafWeight, Fib, CalledFor,
      Overlong;
    var a := alphaSize;
    var heap := new nat[MAX_ALPHA_SIZE + 2];
    var weight := new nat[2 * MAX_ALPHA_SIZE];
    var parent := new int[2 * MAX_ALPHA_SIZE];
    rounds := 0;
    ghost var w: seq<nat> := [0] + LeafWeights(freq);
    StartWeights(freq);
    assert CalledFor(0, LeafWeights(freq), maxLen) by { CalledForNone(LeafWeights(freq), maxLen); }
    for i := 0 to a
      invariant forall k | 1 <= k <= i :: weight[k] == 256 * w[k]
    {
      weight[i + 1] := LeafWeight(freq[i]) * 256;
    }
    while true
      invariant |w| == a + 1 && w[0] == 0 && w[1..] == Rescaled(rounds, LeafWeights(freq)) && Total(w, a) < 0x80_0000
      invariant forall k | 1 <= k <= a :: weight[k] == 256 * w[k] && w[k] >= 1
      invariant CalledFor(rounds, LeafWeights(freq), maxLen)
      decreases Total(w, a)
    {
      var n := BuildTree(heap, weight, parent, a, w);
      GrowingGives(weight[..], parent[..], w, {n}, n, a);
      var tooLong := ReadLengths(len, parent, n, a, maxLen);
      if !tooLong {
        LengthsRight(weight[..], parent[..], w, n, a, len[..a]);
        ShortEnough(parent[..], n, a, maxLen, len[..a]);
        break;
      }
      ghost var long :| 1 <= long <= a && Walk(parent[..], n, long) > maxLen;
      TooLongIsOverlong(weight[..], parent[..], w, n, a, len[..a], long, maxLen);
      TooLongWeighs(weight[..], parent[..], w, n, a, long, maxLen);
      HeavyEnough(Total(w, a), maxLen);
      CalledForOnce(rounds, LeafWeights(freq), w, maxLen);
      ghost var w' := Rescale(weight, a, w);
      HalvedTotal(w, w', a);
      RescaledNext(rounds, LeafWeights(freq), w, w');
      w := w';
      rounds := rounds + 1;
    }
    if Sum(LeafWeights(freq)) < Fib(maxLen + 2) {
      LightIsOptimal(rounds, freq, len[..a], maxLen);
    }
  }
}
