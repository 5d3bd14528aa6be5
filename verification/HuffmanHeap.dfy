/** The heap of tree nodes, lightest first, kept from index 1 of an array; index 0 holds a sentinel of weight zero. */
module HuffmanHeap {
  function Key(weight: seq<nat>, h: seq<nat>, k: int): nat {
    if 0 <= k < |h| && h[k] < |weight| then weight[h[k]] else 0
  }

  /** No node of the heap `h[1..n]` is lighter than the one above it. */
  ghost predicate Ordered(weight: seq<nat>, h: seq<nat>, n: nat) {
    forall k {:trigger Key(weight, h, k)} | 2 <= k <= n :: Key(weight, h, k / 2) <= Key(weight, h, k)
  }

  /** Ordered, except that the node at `z` may be too light for its place. */
  ghost predicate Rising(weight: seq<nat>, h: seq<nat>, n: nat, z: nat) {
    && (forall k {:trigger Key(weight, h, k)} | 2 <= k <= n && k != z :: Key(weight, h, k / 2) <= Key(weight, h, k))
    && forall k {:trigger Key(weight, h, k)} | 2 <= k <= n && k / 2 == z && z >= 2 ::
      Key(weight, h, z / 2) <= Key(weight, h, k)
  }

  /** Ordered, except that the node at `z` may be too heavy for its place. */
  ghost predicate Sinking(weight: seq<nat>, h: seq<nat>, n: nat, z: nat) {
    && (forall k {:trigger Key(weight, h, k)} | 2 <= k <= n && k / 2 != z :: Key(weight, h, k / 2) <= Key(weight, h, k))
    && forall k {:trigger Key(weight, h, k)} | 2 <= k <= n && k / 2 == z && z >= 2 ::
      Key(weight, h, z / 2) <= Key(weight, h, k)
  }

  function Exchange(h: seq<nat>, i: nat, j: nat): (r: seq<nat>)
    requires i < |h| && j < |h|
    ensures |r| == |h| && multiset(r) == multiset(h)
    ensures r[i] == h[j] && r[j] == h[i] && forall k | 0 <= k < |h| && k != i && k != j :: r[k] == h[k]
  {
    h[i := h[j]][j := h[i]]
  }

  lemma RiseStep(weight: seq<nat>, h: seq<nat>, n: nat, z: nat)
    requires Rising(weight, h, n, z) && 2 <= z <= n < |h| && Key(weight, h, z) < Key(weight, h, z / 2)
    ensures Rising(weight, Exchange(h, z, z / 2), n, z / 2)
  {
    var p := z / 2;
    var r := Exchange(h, z, p);
    assert forall k | 0 <= k < |h| && k != z && k != p :: Key(weight, r, k) == Key(weight, h, k);
    assert Key(weight, r, p) == Key(weight, h, z) && Key(weight, r, z) == Key(weight, h, p);
    forall k {:trigger Key(weight, r, k)} | 2 <= k <= n && k != p ensures Key(weight, r, k / 2) <= Key(weight, r, k) {
      assert k != z ==> Key(weight, h, k / 2) <= Key(weight, h, k);
    }
    forall k {:trigger Key(weight, r, k)} | 2 <= k <= n && k / 2 == p && p >= 2
      ensures Key(weight, r, p / 2) <= Key(weight, r, k) {
      assert Key(weight, h, p / 2) <= Key(weight, h, p);
      assert k != z ==> Key(weight, h, k / 2) <= Key(weight, h, k);
    }
  }

  lemma RiseDone(weight: seq<nat>, h: seq<nat>, n: nat, z: nat)
    requires Rising(weight, h, n, z) && (z >= 2 ==> Key(weight, h, z / 2) <= Key(weight, h, z))
    ensures Ordered(weight, h, n)
  {
  }

  lemma RiseStart(weight: seq<nat>, h: seq<nat>, n: nat)
    requires n >= 1 && Ordered(weight, h, n - 1)
    ensures Rising(weight, h, n, n)
  {
  }

  ghost predicate InRange(h: seq<nat>, m: nat) {
    forall k | 0 <= k < |h| :: h[k] < m
  }

  /**
   * Both loops carry a node `tmp` past others, with a hole at `z` in the heap. `v` is the heap with the hole filled; so
   * far it has been rearranged below index `n + 1` and above index 0 only.
   */
  ghost predicate Hole(heap: seq<nat>, v: seq<nat>, v0: seq<nat>, n: nat, z: nat, tmp: nat) {
    && |heap| == |v| == |v0| && 1 <= z < |heap| && v == heap[z := tmp]
    && v[0] == v0[0] && (forall k | n < k < |v| :: v[k] == v0[k]) && multiset(v) == multiset(v0)
  }

  /** Two heaps of `n` nodes hold the same ones. */
  ghost predicate SameNodes(a: seq<nat>, b: seq<nat>, n: nat) {
    n < |a| == |b| && multiset(a[1..n + 1]) == multiset(b[1..n + 1])
  }

  lemma HoleMove(heap: seq<nat>, v: seq<nat>, v0: seq<nat>, n: nat, z: nat, y: nat, tmp: nat)
    requires Hole(heap, v, v0, n, z, tmp) && 1 <= y < |heap| && y != z && y <= n && z <= n
    ensures Hole(heap[z := heap[y]], Exchange(v, z, y), v0, n, y, tmp)
    ensures v[y] == heap[y] && v[z] == tmp
  {
    assert Exchange(v, z, y) == heap[z := heap[y]][y := tmp];
  }

  lemma Cancel(x: multiset<nat>, a: multiset<nat>, b: multiset<nat>, y: multiset<nat>)
    requires x + a + y == x + b + y
    ensures a == b
  {
    forall e: nat ensures a[e] == b[e] {
      assert (x + a + y)[e] == (x + b + y)[e];
    }
  }

  lemma Thirds(a: seq<nat>, n: nat)
    requires n < |a|
    ensures multiset(a) == multiset{a[0]} + multiset(a[1..n + 1]) + multiset(a[n + 1..])
  {
    assert a == [a[0]] + (a[1..n + 1] + a[n + 1..]);
  }

  /** Sequences equal outside a stretch and equal as multisets have equal multisets there. */
  lemma SameMiddle(a: seq<nat>, b: seq<nat>, n: nat)
    requires n < |a| == |b| && a[0] == b[0] && multiset(a) == multiset(b)
    requires forall k | n < k < |a| :: a[k] == b[k]
    ensures multiset(a[1..n + 1]) == multiset(b[1..n + 1])
  {
    Thirds(a, n);
    Thirds(b, n);
    assert a[n + 1..] == b[n + 1..];
    Cancel(multiset{a[0]}, multiset(a[1..n + 1]), multiset(b[1..n + 1]), multiset(a[n + 1..]));
  }

  lemma HoleFilled(heap: seq<nat>, v: seq<nat>, v0: seq<nat>, n: nat, z: nat, tmp: nat)
    requires Hole(heap, v, v0, n, z, tmp) && n < |heap|
    ensures v[0] == v0[0] && (forall k | n < k < |v| :: v[k] == v0[k])
    ensures SameNodes(v, v0, n)
  {
    SameMiddle(v0, v, n);
  }

  lemma RangeAt(h: seq<nat>, m: nat, k: nat)
    requires InRange(h, m) && k < |h|
    ensures h[k] < m
  {
  }

  lemma RangeAfter(h: seq<nat>, m: nat, z: nat, x: nat)
    requires InRange(h, m) && z < |h| && x < m
    ensures InRange(h[z := x], m)
  {
  }

  lemma HoleStart(h: seq<nat>, n: nat)
    requires 1 <= n < |h|
    ensures Hole(h, h, h, n, n, h[n]) && Hole(h, h, h, n, 1, h[1])
  {
  }

  lemma HoleIs(heap: seq<nat>, v: seq<nat>, v0: seq<nat>, n: nat, z: nat, tmp: nat)
    requires Hole(heap, v, v0, n, z, tmp)
    ensures v == heap[z := tmp] && |v| == |v0|
  {
  }

  lemma UpKeys(w: seq<nat>, heap: seq<nat>, v: seq<nat>, v0: seq<nat>, n: nat, z: nat, tmp: nat)
    requires Hole(heap, v, v0, n, z, tmp) && InRange(heap, |w|) && tmp < |w|
    ensures |v| == |heap| && Key(w, v, z) == w[tmp] && heap[z / 2] < |w|
      && (z >= 2 ==> Key(w, v, z / 2) == w[heap[z / 2]])
  {
  }

  /** `UPHEAP`: the node at the end rises to its place. */
  method UpHeap(heap: array<nat>, weight: array<nat>, n: nat)
    requires heap != weight && 1 <= n < heap.Length && heap[0] == 0 && weight.Length > 0 && weight[0] == 0
    requires InRange(heap[..], weight.Length) && Ordered(weight[..], heap[..], n - 1)
    modifies heap
    ensures InRange(heap[..], weight.Length) && Ordered(weight[..], heap[..], n)
    ensures heap[0] == 0 && forall k | n < k < heap.Length :: heap[k] == old(heap[k])
    ensures SameNodes(heap[..], old(heap[..]), n)
  {
    hide *;
    var zz: nat, tmp := n, heap[n];
    ghost var v, w := heap[..], weight[..];
    ghost var v0 := v;
    RiseStart(w, v, n);
    HoleStart(v, n);
    RangeAt(v, weight.Length, n);
    RangeAt(v, weight.Length, n / 2);
    while weight[tmp] < weight[heap[zz / 2]]
      invariant 1 <= zz <= n && heap[0] == 0 && InRange(heap[..], weight.Length) && heap[zz / 2] < weight.Length
      invariant Hole(heap[..], v, v0, n, zz, tmp) && Rising(w, v, n, zz)
      decreases zz
    {
      UpKeys(w, heap[..], v, v0, n, zz, tmp);
      assert zz >= 2;
      RiseStep(w, v, n, zz);
      HoleMove(heap[..], v, v0, n, zz, zz / 2, tmp);
      RangeAfter(heap[..], weight.Length, zz, heap[zz / 2]);
      v := Exchange(v, zz, zz / 2);
      heap[zz] := heap[zz / 2];
      zz := zz / 2;
      RangeAt(heap[..], weight.Length, zz / 2);
    }
    UpKeys(w, heap[..], v, v0, n, zz, tmp);
    RiseDone(w, v, n, zz);
    HoleFilled(heap[..], v, v0, n, zz, tmp);
    HoleIs(heap[..], v, v0, n, zz, tmp);
    RangeAfter(heap[..], weight.Length, zz, tmp);
    heap[zz] := tmp;
    assert heap[..] == v;
  }

  lemma DownKeys(w: seq<nat>, heap: seq<nat>, v: seq<nat>, v0: seq<nat>, n: nat, z: nat, y: nat, tmp: nat)
    requires Hole(heap, v, v0, n, z, tmp) && InRange(heap, |w|) && tmp < |w| && y < |heap| && y != z
    ensures |v| == |heap| && Key(w, v, z) == w[tmp] && heap[y] < |w| && Key(w, v, y) == w[heap[y]]
  {
  }

  lemma SinkStep(weight: seq<nat>, h: seq<nat>, n: nat, z: nat, y: nat)
    requires Sinking(weight, h, n, z) && 1 <= z && y / 2 == z && y <= n < |h|
    requires Key(weight, h, y) <= Key(weight, h, z)
    requires forall k {:trigger Key(weight, h, k)} | 2 <= k <= n && k / 2 == z :: Key(weight, h, y) <= Key(weight, h, k)
    ensures Sinking(weight, Exchange(h, z, y), n, y)
  {
    var r := Exchange(h, z, y);
    assert forall k | 0 <= k < |h| && k != z && k != y :: Key(weight, r, k) == Key(weight, h, k);
    assert Key(weight, r, y) == Key(weight, h, z) && Key(weight, r, z) == Key(weight, h, y);
    forall k {:trigger Key(weight, r, k)} | 2 <= k <= n && k / 2 != y
      ensures Key(weight, r, k / 2) <= Key(weight, r, k) {
      assert k / 2 != z ==> Key(weight, h, k / 2) <= Key(weight, h, k);
    }
    forall k {:trigger Key(weight, r, k)} | 2 <= k <= n && k / 2 == y
      ensures Key(weight, r, y / 2) <= Key(weight, r, k) {
      assert Key(weight, h, k / 2) <= Key(weight, h, k);
    }
  }

  lemma SinkDone(weight: seq<nat>, h: seq<nat>, n: nat, z: nat)
    requires Sinking(weight, h, n, z)
    requires forall k {:trigger Key(weight, h, k)} | 2 <= k <= n && k / 2 == z :: Key(weight, h, z) <= Key(weight, h, k)
    ensures Ordered(weight, h, n)
  {
  }

  /** The one of the two nodes below that is not the heavier. */
  lemma LighterChild(weight: seq<nat>, h: seq<nat>, n: nat, z: nat, y: nat)
    requires 1 <= z && (y == 2 * z || y == 2 * z + 1) && y <= n < |h|
    requires y == 2 * z && y < n ==> Key(weight, h, y) <= Key(weight, h, y + 1)
    requires y == 2 * z + 1 ==> Key(weight, h, y) <= Key(weight, h, y - 1)
    ensures forall k {:trigger Key(weight, h, k)} | 2 <= k <= n && k / 2 == z :: Key(weight, h, y) <= Key(weight, h, k)
  {
  }

  /** The lighter of the one or two nodes below `z`. */
  method LighterBelow(heap: array<nat>, weight: array<nat>, n: nat, z: nat, ghost v: seq<nat>, ghost v0: seq<nat>,
      ghost tmp: nat) returns (y: nat)
    requires 1 <= z && 2 * z <= n && n + 1 < heap.Length && InRange(heap[..], weight.Length)
    requires Hole(heap[..], v, v0, n, z, tmp) && tmp < weight.Length
    ensures y / 2 == z && z < y <= n < |v| && heap[y] < weight.Length
    ensures Key(weight[..], v, z) == weight[tmp] && Key(weight[..], v, y) == weight[heap[y]]
    ensures forall k {:trigger Key(weight[..], v, k)} | 2 <= k <= n && k / 2 == z ::
      Key(weight[..], v, y) <= Key(weight[..], v, k)
  {
    hide *;
    y := 2 * z;
    DownKeys(weight[..], heap[..], v, v0, n, z, y, tmp);
    DownKeys(weight[..], heap[..], v, v0, n, z, y + 1, tmp);
    if y < n && weight[heap[y + 1]] < weight[heap[y]] { y := y + 1; }
    LighterChild(weight[..], v, n, z, y);
  }

  lemma HoleWider(h: seq<nat>, n: nat)
    requires 1 < |h|
    ensures Hole(h, h, h, n, 1, h[1])
  {
  }

  lemma SinkEnd(weight: seq<nat>, h: seq<nat>, n: nat, z: nat)
    requires Sinking(weight, h, n, z) && 2 * z > n
    ensures Ordered(weight, h, n)
  {
  }

  /** `DOWNHEAP(1)`: the node at the top sinks to its place. */
  method DownHeap(heap: array<nat>, weight: array<nat>, n: nat)
    requires heap != weight && 1 <= n + 1 < heap.Length
    requires InRange(heap[..], weight.Length) && Sinking(weight[..], heap[..], n, 1)
    modifies heap
    ensures InRange(heap[..], weight.Length) && Ordered(weight[..], heap[..], n)
    ensures heap[0] == old(heap[0])
    ensures SameNodes(heap[..], old(heap[..]), n)
  {
    hide *;
    var zz: nat, tmp := 1, heap[1];
    ghost var v, w := heap[..], weight[..];
    ghost var v0 := v;
    RangeAt(v, weight.Length, 1);
    HoleWider(v, n);
    var more := true;
    while more
      invariant 1 <= zz && (zz == 1 || zz <= n) && InRange(heap[..], weight.Length)
      invariant Hole(heap[..], v, v0, n, zz, tmp)
      invariant if more then Sinking(w, v, n, zz) else Ordered(w, v, n)
      decreases more, n - zz
    {
      var yy := 2 * zz;
      if yy > n {
        SinkEnd(w, v, n, zz);
        more := false;
      } else {
        yy := LighterBelow(heap, weight, n, zz, v, v0, tmp);
        if weight[tmp] < weight[heap[yy]] {
          SinkDone(w, v, n, zz);
          more := false;
        } else {
          SinkStep(w, v, n, zz, yy);
          HoleMove(heap[..], v, v0, n, zz, yy, tmp);
          RangeAfter(heap[..], weight.Length, zz, heap[yy]);
          v := Exchange(v, zz, yy);
          heap[zz] := heap[yy];
          zz := yy;
        }
      }
    }
    HoleFilled(heap[..], v, v0, n, zz, tmp);
    HoleIs(heap[..], v, v0, n, zz, tmp);
    RangeAfter(heap[..], weight.Length, zz, tmp);
    heap[zz] := tmp;
    assert heap[..] == v;
  }

  /** Nothing in the heap is lighter than its top. */
  lemma {:induction false} TopLightest(weight: seq<nat>, h: seq<nat>, n: nat, k: nat)
    requires Ordered(weight, h, n) && 1 <= k <= n
    ensures Key(weight, h, 1) <= Key(weight, h, k)
    decreases k
  {
    if k >= 2 {
      assert Key(weight, h, k / 2) <= Key(weight, h, k);
      TopLightest(weight, h, n, k / 2);
    }
  }
}
