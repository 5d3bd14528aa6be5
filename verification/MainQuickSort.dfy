/** The main sorter's inner sort: a three-way quicksort of rotations with the same first bytes, within a budget. */
module MainQuickSort {
  import opened Arithmetic
  import opened Bytes
  import opened Rotations
  import opened RotationRanks
  import opened Permutations
  import opened FallbackQuickSort
  import opened MainCompare

  const MAIN_SMALL_THRESH := 20
  const DEPTH_THRESH := 14
  const MAIN_STACK_SIZE := 100

  /** The rows of `[lo, hi)` are rotations that agree in their first `d` bytes. */
  ghost predicate Shares(b: seq<byte>, f: seq<nat>, lo: int, hi: int, d: nat) {
    && |b| > 0 && 0 <= lo && hi <= |f| && (forall p | lo <= p < hi :: f[p] < |b|)
    && forall p, q | lo <= p < hi && lo <= q < hi :: Ord(b, f[p], f[q], d) == 0
  }

  lemma SharesRearranged(b: seq<byte>, f: seq<nat>, g: seq<nat>, lo: int, hi: int, d: nat)
    requires Shares(b, f, lo, hi, d) && Rearranged(f, g, lo, hi)
    ensures Shares(b, g, lo, hi, d)
  {
    hide Ord;
    forall p | lo <= p < hi ensures g[p] < |b| {
      var p0 := RearrangedFrom(f, g, lo, hi, p);
    }
    forall p, q | lo <= p < hi && lo <= q < hi ensures Ord(b, g[p], g[q], d) == 0 {
      var p0 := RearrangedFrom(f, g, lo, hi, p);
      var q0 := RearrangedFrom(f, g, lo, hi, q);
    }
  }

  lemma SharesAt(b: seq<byte>, f: seq<nat>, lo: int, hi: int, d: nat, p: int, q: int)
    requires Shares(b, f, lo, hi, d) && lo <= p < hi && lo <= q < hi
    ensures 0 <= lo && hi <= |f| && f[p] < |b| && f[q] < |b| && Ord(b, f[p], f[q], d) == 0
  {
  }

  lemma RanksCompare(b: seq<byte>, x: nat, y: nat)
    requires x < |b| && y < |b|
    ensures Class(Ranks(b), x) <= Class(Ranks(b), y) <==> Ord(b, x, y, |b|) <= 0
  {
    hide Ord, Ranks;
    RanksOrder(b);
  }

  /** What a comparison behind the shared bytes says of the ranks. */
  lemma ToldRanks(b: seq<byte>, x: nat, y: nat, d: nat, greater: bool)
    requires x < |b| && y < |b| && Ord(b, x, y, d) == 0 && Told(b, x + d, y + d, greater)
    ensures greater ==> Class(Ranks(b), x) >= Class(Ranks(b), y)
    ensures !greater ==> Class(Ranks(b), x) <= Class(Ranks(b), y)
  {
    hide Ord, Ranks, Class;
    RanksCompare(b, x, y);
    RanksCompare(b, y, x);
    OrdBehind(b, x, y, d);
    OrdAnti(b, x, y, |b|);
  }

  // ----- insertion -----

  /**
   * An insertion that started at place `i` and moves down; the moving entry is at `hole`. Without it the entries of
   * `[lo, i]` are in order, if they are to be kept in order.
   */
  ghost predicate Lowering(ec: seq<nat>, was: seq<nat>, g: seq<nat>, lo: int, hi: int, i: int, keep: bool, hole: int) {
    && 0 <= lo <= hole <= i < hi <= |g| && Rearranged(was, g, lo, hi)
    && (keep ==> SortedExcept(ec, g, lo, i + 1, hole))
    && (keep ==> forall k | hole < k <= i :: Class(ec, g[hole]) <= Class(ec, g[k]))
  }

  lemma LoweringStart(ec: seq<nat>, f: seq<nat>, lo: int, hi: int, i: int, keep: bool)
    requires 0 <= lo <= i < hi <= |f| && (keep ==> ClassSorted(ec, f, lo, i))
    ensures Lowering(ec, f, f, lo, hi, i, keep, i)
  {
    hide Class;
  }

  lemma ExceptStep(ec: seq<nat>, g: seq<nat>, lo: int, i: int, hole: int)
    requires 0 <= lo < hole <= i < |g| && SortedExcept(ec, g, lo, i + 1, hole)
    requires forall k | hole < k <= i :: Class(ec, g[hole]) <= Class(ec, g[k])
    requires Class(ec, g[hole - 1]) >= Class(ec, g[hole])
    ensures SortedExcept(ec, Swapped(g, hole - 1, hole), lo, i + 1, hole - 1)
    ensures var r := Swapped(g, hole - 1, hole);
            forall k | hole - 1 < k <= i :: Class(ec, r[hole - 1]) <= Class(ec, r[k])
  {
    hide Class;
    var r := Swapped(g, hole - 1, hole);
    forall p, q | lo <= p < q < i + 1 && p != hole - 1 && q != hole - 1 ensures Class(ec, r[p]) <= Class(ec, r[q]) {
      assert r[p] == g[if p == hole then hole - 1 else p] && r[q] == g[if q == hole then hole - 1 else q];
    }
  }

  lemma LoweringStep(ec: seq<nat>, was: seq<nat>, g: seq<nat>, lo: int, hi: int, i: int, keep: bool, hole: int, h: int)
    requires Lowering(ec, was, g, lo, hi, i, keep, hole) && 0 < h && lo <= hole - h && (keep ==> h == 1)
    requires Class(ec, g[hole - h]) >= Class(ec, g[hole])
    ensures Lowering(ec, was, Swapped(g, hole - h, hole), lo, hi, i, keep, hole - h)
  {
    hide Class, Rearranged, SortedExcept;
    RearrangedSwap(was, g, lo, hi, hole - h, hole);
    if keep { ExceptStep(ec, g, lo, i, hole); }
  }

  lemma LoweringDone(ec: seq<nat>, was: seq<nat>, g: seq<nat>, lo: int, hi: int, i: int, keep: bool, hole: int)
    requires Lowering(ec, was, g, lo, hi, i, keep, hole)
    requires keep ==> hole == lo || Class(ec, g[hole - 1]) <= Class(ec, g[hole])
    ensures Rearranged(was, g, lo, hi) && (keep ==> ClassSorted(ec, g, lo, i + 1))
  {
    hide Class, Rearranged;
    if keep {
      forall p, q | lo <= p < q < i + 1 ensures Class(ec, g[p]) <= Class(ec, g[q]) {
        if q == hole && p < hole - 1 {
          assert Class(ec, g[p]) <= Class(ec, g[hole - 1]);
        }
      }
    }
  }

  lemma LoweringRange(ec: seq<nat>, was: seq<nat>, g: seq<nat>, lo: int, hi: int, i: int, keep: bool, hole: int)
    requires Lowering(ec, was, g, lo, hi, i, keep, hole)
    ensures 0 <= lo <= hole <= i < hi <= |g| && Rearranged(was, g, lo, hi)
  {
  }

  /** Copying an entry from below into the hole exchanges it with the moving entry. */
  lemma HoleSinks(a: seq<nat>, v: nat, hole: int, gap: int)
    requires 0 < gap <= hole < |a|
    ensures a[hole := a[hole - gap]][hole - gap := v] == Swapped(a[hole := v], hole - gap, hole)
  {
  }

  /** What the sorter reads: the block, its repeated start and quadrants that may be relied on. */
  ghost predicate Readable(b: seq<byte>, block: seq<byte>, quadrant: seq<u16>) {
    Wrapped(b, block) && Hinted(b, quadrant)
  }

  lemma ReadableParts(b: seq<byte>, block: seq<byte>, quadrant: seq<u16>)
    requires Readable(b, block, quadrant)
    ensures Wrapped(b, block) && Hinted(b, quadrant)
  {
  }

  /** No two rotations agree in 20 bytes. */
  ghost predicate Varied(b: seq<byte>) {
    |b| > 0 && forall x: nat, y: nat | x < |b| && y < |b| && x != y :: Ord(b, x, y, 20) != 0
  }

  /** The budget is spent on rotations that agree in 20 bytes, and on nothing else. */
  ghost predicate Spent(b: seq<byte>, budget0: int, budget: int) {
    budget <= budget0 && (Varied(b) ==> budget == budget0)
  }

  lemma SpentOnEqual(b: seq<byte>, x: nat, y: nat, d: nat, m: nat)
    requires x < |b| && y < |b| && x != y && Ord(b, x, y, d) == 0 && Ord(b, x + d, y + d, m) == 0 && m >= 20
    ensures !Varied(b)
  {
    hide Ord;
    OrdSplit(b, x, y, d, m);
    OrdSplit(b, x, y, 20, d + m - 20);
  }

  /** The comparison of an insertion: a row with the row that is inserted. */
  method RowGreater(block: array<byte>, quadrant: array<u16>, nblock: nat, x: nat, v: nat, d: nat, budget0: int,
      ghost b: seq<byte>) returns (greater: bool, budget: int)
    requires Readable(b, block[..], quadrant[..]) && nblock == |b| && d <= DEPTH_THRESH + 1
    requires x < nblock && v < nblock && x != v && Ord(b, x, v, d) == 0
    ensures greater ==> Class(Ranks(b), x) >= Class(Ranks(b), v)
    ensures !greater ==> Class(Ranks(b), x) <= Class(Ranks(b), v)
    ensures Spent(b, budget0, budget)
  {
    hide Ord, Ranks, Told, Class, Wrapped, Hinted, Varied;
    greater, budget := MainGtU(x + d, v + d, block, quadrant, nblock, budget0, b);
    if budget < budget0 { SpentOnEqual(b, x, v, d, 12 + 8 * (budget0 - budget)); }
    ToldRanks(b, x, v, d, greater);
  }

  lemma RearrangedPermutation(f: seq<nat>, g: seq<nat>, lo: int, hi: int)
    requires IsPermutation(f) && Rearranged(f, g, lo, hi)
    ensures IsPermutation(g)
  {
  }

  lemma LoweringShares(b: seq<byte>, was: seq<nat>, g: seq<nat>, lo: int, hi: int, i: int, keep: bool, hole: int,
      d: nat, p: int)
    requires Lowering(Ranks(b), was, g, lo, hi, i, keep, hole) && Shares(b, was, lo, hi, d) && lo <= p < hi
    requires IsPermutation(was) && p != hole
    ensures |g| >= hi && g[p] < |b| && g[hole] < |b| && Ord(b, g[p], g[hole], d) == 0 && g[p] != g[hole]
  {
    hide Lowering, Shares, Ord, Ranks, IsPermutation, Rearranged;
    LoweringRange(Ranks(b), was, g, lo, hi, i, keep, hole);
    SharesRearranged(b, was, g, lo, hi, d);
    SharesAt(b, g, lo, hi, d, p, hole);
    RearrangedPermutation(was, g, lo, hi);
    if g[p] == g[hole] { PermutationOneToOne(g, p, hole); }
  }

  /** One insertion of `mainSimpleSort`: with stride 1 into the sorted rows below, with others it only rearranges. */
  method InsertRow(ptr: array<nat>, block: array<byte>, quadrant: array<u16>, nblock: nat, lo: int, hi: int, h: int,
      i: int, d: nat, budget0: int, ghost b: seq<byte>) returns (budget: int)
    requires ptr as object !in {block as object, quadrant} && Readable(b, block[..], quadrant[..]) && nblock == |b|
    requires 0 <= lo < lo + h <= i <= hi < ptr.Length && d <= DEPTH_THRESH + 1 && Shares(b, ptr[..], lo, hi + 1, d)
    requires IsPermutation(ptr[..])
    modifies ptr
    ensures Rearranged(old(ptr[..]), ptr[..], lo, hi + 1) && Spent(b, budget0, budget)
    ensures h == 1 && ClassSorted(Ranks(b), old(ptr[..]), lo, i) ==> ClassSorted(Ranks(b), ptr[..], lo, i + 1)
  {
    hide Lowering, Shares, Ord, Ranks, Rearranged, ClassSorted, Class, Readable, Swapped, Varied, IsPermutation;
    ghost var was, g := ptr[..], ptr[..];
    ghost var keep := h == 1 && ClassSorted(Ranks(b), was, lo, i);
    LoweringStart(Ranks(b), was, lo, hi + 1, i, keep);
    var v, j := ptr[i], i;
    budget := budget0;
    assert g == ptr[..][j := v];
    while true
      invariant lo + h <= j <= i && Spent(b, budget0, budget)
      invariant g == ptr[..][j := v] && Lowering(Ranks(b), was, g, lo, hi + 1, i, keep, j)
      decreases j
    {
      LoweringShares(b, was, g, lo, hi + 1, i, keep, j, d, j - h);
      assert g[j - h] == ptr[j - h] && g[j] == v;
      var greater;
      greater, budget := RowGreater(block, quadrant, nblock, ptr[j - h], v, d, budget, b);
      if !greater { break; }
      LoweringStep(Ranks(b), was, g, lo, hi + 1, i, keep, j, h);
      ghost var a := ptr[..];
      HoleSinks(a, v, j, h);
      ptr[j] := ptr[j - h];
      assert ptr[..] == a[j := a[j - h]];
      g := Swapped(g, j - h, j);
      j := j - h;
      if j <= lo + h - 1 { break; }
    }
    LoweringDone(Ranks(b), was, g, lo, hi + 1, i, keep, j);
    ptr[j] := v;
    assert ptr[..] == g;
  }

  lemma OneRowSorted(ec: seq<nat>, f: seq<nat>, lo: int)
    ensures ClassSorted(ec, f, lo, lo + 1)
  {
  }

  const INCS: seq<int> := [1, 4, 13, 40, 121, 364, 1093, 3280, 9841, 29524, 88573, 265720, 797161, 2391484]

  /** No row count has more than 21 bits. */
  const MAX_ROWS := 0x20_0000

  /** One pass of `mainSimpleSort`, which looks at the budget after every three insertions. */
  method InsertionPass(ptr: array<nat>, block: array<byte>, quadrant: array<u16>, nblock: nat, lo: int, hi: int, h: int,
      d: nat, budget0: int, ghost b: seq<byte>) returns (stopped: bool, budget: int)
    requires ptr as object !in {block as object, quadrant} && Readable(b, block[..], quadrant[..]) && nblock == |b|
    requires 0 <= lo <= hi < ptr.Length && 0 < h && d <= DEPTH_THRESH + 1 && Shares(b, ptr[..], lo, hi + 1, d)
    requires IsPermutation(ptr[..])
    modifies ptr
    ensures Rearranged(old(ptr[..]), ptr[..], lo, hi + 1) && Spent(b, budget0, budget)
    ensures if stopped then budget < 0 else h == 1 ==> ClassSorted(Ranks(b), ptr[..], lo, hi + 1)
  {
    hide Shares, Ranks, Rearranged, ClassSorted, Readable, Varied, IsPermutation;
    ghost var was := ptr[..];
    budget := budget0;
    var i := lo + h;
    RearrangedSelf(was, lo, hi + 1);
    OneRowSorted(Ranks(b), was, lo);
    while true
      invariant lo + h <= i && (i <= hi + 1 || i == lo + h) && Spent(b, budget0, budget) && IsPermutation(ptr[..])
      invariant Shares(b, ptr[..], lo, hi + 1, d) && Rearranged(was, ptr[..], lo, hi + 1)
      invariant h == 1 ==> ClassSorted(Ranks(b), ptr[..], lo, i)
      decreases hi - i
    {
      ghost var i0 := i;
      for m := 0 to 3
        invariant lo + h <= i && (i <= hi + 1 || i == lo + h) && Spent(b, budget0, budget) && IsPermutation(ptr[..])
        invariant Shares(b, ptr[..], lo, hi + 1, d) && Rearranged(was, ptr[..], lo, hi + 1)
        invariant h == 1 ==> ClassSorted(Ranks(b), ptr[..], lo, i)
        invariant i == i0 + m
      {
        if i > hi { return false, budget; }
        ghost var f := ptr[..];
        budget := InsertRow(ptr, block, quadrant, nblock, lo, hi, h, i, d, budget, b);
        SharesRearranged(b, f, ptr[..], lo, hi + 1, d);
        RearrangedPermutation(f, ptr[..], lo, hi + 1);
        RearrangedTwice(was, f, ptr[..], lo, hi + 1);
        i := i + 1;
      }
      if budget < 0 { return true, budget; }
    }
  }

  /** `mainSimpleSort`: unless the budget is used up the rows come out in order. */
  method MainSimpleSort(ptr: array<nat>, block: array<byte>, quadrant: array<u16>, nblock: nat, lo: int, hi: int,
      d: nat, budget0: int, ghost b: seq<byte>) returns (budget: int)
    requires ptr as object !in {block as object, quadrant} && Readable(b, block[..], quadrant[..]) && nblock == |b|
    requires 0 <= lo <= hi + 1 <= ptr.Length < MAX_ROWS && d <= DEPTH_THRESH + 1 && Shares(b, ptr[..], lo, hi + 1, d)
    requires IsPermutation(ptr[..])
    modifies ptr
    ensures Rearranged(old(ptr[..]), ptr[..], lo, hi + 1) && Spent(b, budget0, budget)
    ensures budget >= 0 ==> ClassSorted(Ranks(b), ptr[..], lo, hi + 1)
  {
    ghost var was := ptr[..];
    budget := budget0;
    RearrangedSelf(was, lo, hi + 1);
    var bigN := hi - lo + 1;
    if bigN < 2 { return; }
    hide Shares, Ranks, Rearranged, ClassSorted, Readable, Varied, IsPermutation;
    var hp := 0;
    while INCS[hp] < bigN
      invariant 0 <= hp < 14 && forall k | 0 <= k < hp :: INCS[k] < bigN
      decreases 14 - hp
    {
      assert INCS[13] == 2391484;
      hp := hp + 1;
    }
    hp := hp - 1;
    assert INCS[0] == 1;
    while hp >= 0
      invariant -1 <= hp < 14 && Spent(b, budget0, budget) && IsPermutation(ptr[..])
      invariant Shares(b, ptr[..], lo, hi + 1, d) && Rearranged(was, ptr[..], lo, hi + 1)
      invariant hp == -1 ==> ClassSorted(Ranks(b), ptr[..], lo, hi + 1)
    {
      ghost var f := ptr[..];
      var stopped;
      stopped, budget := InsertionPass(ptr, block, quadrant, nblock, lo, hi, INCS[hp], d, budget, b);
      SharesRearranged(b, f, ptr[..], lo, hi + 1, d);
      RearrangedPermutation(f, ptr[..], lo, hi + 1);
      RearrangedTwice(was, f, ptr[..], lo, hi + 1);
      if stopped { return; }
      hp := hp - 1;
    }
  }

  // ----- partition -----

  ghost function ByteBehind(b: seq<byte>, x: nat, d: nat): nat
    requires |b| > 0
  {
    At(b, x + d)
  }

  /** The bytes of all rotations at depth `d`. */
  ghost function Column(b: seq<byte>, d: nat): (r: seq<nat>)
    ensures |r| == |b| && forall x | 0 <= x < |b| :: r[x] == At(b, x + d)
  {
    seq(|b|, x requires 0 <= x < |b| => ByteBehind(b, x, d))
  }

  /** The byte of row `x` at depth `d`. */
  method RowByte(block: array<byte>, x: nat, d: nat, ghost b: seq<byte>) returns (c: nat)
    requires Wrapped(b, block[..]) && x < |b| && d <= DEPTH_THRESH
    ensures c == Class(Column(b, d), x)
  {
    hide At;
    c := block[x + d];
    assert c == block[..][x + d];
  }

  method BytesUp(ptr: array<nat>, block: array<byte>, ghost was: seq<nat>, med: nat, lo: int, ltLo0: int, unLo0: int,
      unHi: int, gtHi: int, hi: int, d: nat, ghost b: seq<byte>) returns (ltLo: int, unLo: int)
    requires ptr as object != block as object && Wrapped(b, block[..]) && d <= DEPTH_THRESH
    requires Parting(Column(b, d), was, ptr[..], med, lo, ltLo0, unLo0, unHi, gtHi, hi)
    modifies ptr
    ensures unLo0 <= unLo <= unHi + 1
    ensures Parting(Column(b, d), was, ptr[..], med, lo, ltLo, unLo, unHi, gtHi, hi)
    ensures unLo <= unHi ==> Class(Column(b, d), ptr[unLo]) > med
  {
    hide Parting, Wrapped, Class, Swapped;
    ghost var ec := Column(b, d);
    PartingRange(ec, was, ptr[..], med, lo, ltLo0, unLo0, unHi, gtHi, hi);
    ltLo, unLo := ltLo0, unLo0;
    while unLo <= unHi
      invariant unLo0 <= unLo <= unHi + 1 && Parting(ec, was, ptr[..], med, lo, ltLo, unLo, unHi, gtHi, hi)
    {
      PartingAt(ec, was, ptr[..], med, lo, ltLo, unLo, unHi, gtHi, hi, unLo);
      PartingUp(ec, was, ptr[..], med, lo, ltLo, unLo, unHi, gtHi, hi);
      var c := RowByte(block, ptr[unLo], d, b);
      if c == med {
        Swap(ptr, unLo, ltLo);
        ltLo := ltLo + 1;
      } else if c > med {
        break;
      }
      unLo := unLo + 1;
    }
  }

  method BytesDown(ptr: array<nat>, block: array<byte>, ghost was: seq<nat>, med: nat, lo: int, ltLo: int, unLo: int,
      unHi0: int, gtHi0: int, hi: int, d: nat, ghost b: seq<byte>) returns (unHi: int, gtHi: int)
    requires ptr as object != block as object && Wrapped(b, block[..]) && d <= DEPTH_THRESH
    requires Parting(Column(b, d), was, ptr[..], med, lo, ltLo, unLo, unHi0, gtHi0, hi)
    modifies ptr
    ensures unLo - 1 <= unHi <= unHi0
    ensures Parting(Column(b, d), was, ptr[..], med, lo, ltLo, unLo, unHi, gtHi, hi)
    ensures unLo <= unHi ==> Class(Column(b, d), ptr[unHi]) < med && ptr[unLo] == old(ptr[unLo])
  {
    hide Parting, Wrapped, Class, Swapped;
    ghost var ec, f0 := Column(b, d), ptr[..];
    PartingRange(ec, was, ptr[..], med, lo, ltLo, unLo, unHi0, gtHi0, hi);
    unHi, gtHi := unHi0, gtHi0;
    while unLo <= unHi
      invariant unLo - 1 <= unHi <= unHi0 && Parting(ec, was, ptr[..], med, lo, ltLo, unLo, unHi, gtHi, hi)
      invariant unLo <= unHi ==> 0 <= unLo < |f0| && ptr[unLo] == f0[unLo]
    {
      PartingAt(ec, was, ptr[..], med, lo, ltLo, unLo, unHi, gtHi, hi, unHi);
      PartingDown(ec, was, ptr[..], med, lo, ltLo, unLo, unHi, gtHi, hi);
      var c := RowByte(block, ptr[unHi], d, b);
      if c == med {
        if unLo < unHi { SwapElsewhere(ptr[..], unHi, gtHi, unLo); }
        Swap(ptr, unHi, gtHi);
        gtHi := gtHi - 1;
      } else if c < med {
        break;
      }
      unHi := unHi - 1;
    }
  }

  lemma PartingStart(ec: seq<nat>, f: seq<nat>, med: nat, lo: int, hi: int)
    requires 0 <= lo <= hi < |f| && InClasses(ec, f, lo, hi + 1)
    ensures Parting(ec, f, f, med, lo, lo, lo, hi, hi, hi)
  {
  }

  method PartitionBytes(ptr: array<nat>, block: array<byte>, med: nat, lo: int, hi: int, d: nat, ghost b: seq<byte>)
      returns (ltLo: int, unLo: int, unHi: int, gtHi: int)
    requires ptr as object != block as object && Wrapped(b, block[..]) && d <= DEPTH_THRESH
    requires 0 <= lo <= hi < ptr.Length && InClasses(Column(b, d), ptr[..], lo, hi + 1)
    modifies ptr
    ensures unHi == unLo - 1
    ensures Parting(Column(b, d), old(ptr[..]), ptr[..], med, lo, ltLo, unLo, unHi, gtHi, hi)
  {
    hide Wrapped, Class, Swapped, Parting, InClasses, Column;
    ltLo, unLo, unHi, gtHi := lo, lo, hi, hi;
    ghost var ec, was := Column(b, d), ptr[..];
    PartingStart(ec, was, med, lo, hi);
    while true
      invariant Parting(ec, was, ptr[..], med, lo, ltLo, unLo, unHi, gtHi, hi)
      decreases unHi - unLo
    {
      ltLo, unLo := BytesUp(ptr, block, was, med, lo, ltLo, unLo, unHi, gtHi, hi, d, b);
      unHi, gtHi := BytesDown(ptr, block, was, med, lo, ltLo, unLo, unHi, gtHi, hi, d, b);
      PartingRange(ec, was, ptr[..], med, lo, ltLo, unLo, unHi, gtHi, hi);
      if unLo > unHi { break; }
      PartingExchange(ec, was, ptr[..], med, lo, ltLo, unLo, unHi, gtHi, hi);
      Swap(ptr, unLo, unHi);
      unLo, unHi := unLo + 1, unHi - 1;
    }
  }

  /** `mmed3`: the median of three. */
  function Median(a0: nat, b0: nat, c: nat): (r: nat)
    ensures r == a0 || r == b0 || r == c
    ensures (r <= a0 || r <= b0) && (r <= b0 || r <= c) && (r <= a0 || r <= c)
    ensures (r >= a0 || r >= b0) && (r >= b0 || r >= c) && (r >= a0 || r >= c)
  {
    var a, b := if a0 > b0 then b0 else a0, if a0 > b0 then a0 else b0;
    if b > c then if a > c then a else c else b
  }

  lemma SharesInClasses(b: seq<byte>, f: seq<nat>, lo: int, hi: int, d: nat)
    requires Shares(b, f, lo, hi, d)
    ensures InClasses(Column(b, d), f, lo, hi)
  {
  }

  /** Equal bytes at depth `d` throughout. */
  lemma SharesMore(b: seq<byte>, f: seq<nat>, lo: int, hi: int, d: nat, from: int, to: int, med: nat)
    requires Shares(b, f, lo, hi, d) && lo <= from && to <= hi
    requires forall k | from <= k < to :: Class(Column(b, d), f[k]) == med
    ensures Shares(b, f, from, to, d + 1)
  {
    forall p, q | from <= p < to && from <= q < to ensures Ord(b, f[p], f[q], d + 1) == 0 {
      assert Ord(b, f[p], f[q], d) == 0;
      assert Class(Column(b, d), f[p]) == At(b, f[p] + d) && Class(Column(b, d), f[q]) == At(b, f[q] + d);
    }
  }

  lemma AllEqual(ec: seq<nat>, was: seq<nat>, f: seq<nat>, med: nat, lo: int, ltLo: int, unLo: int, gtHi: int, hi: int)
    requires Parting(ec, was, f, med, lo, ltLo, unLo, unLo - 1, gtHi, hi)
    ensures Rearranged(was, f, lo, hi + 1) && Split(ec, f, med, lo, ltLo, unLo, unLo - 1, gtHi, hi)
    ensures gtHi < ltLo ==> forall k | lo <= k < hi + 1 :: Class(ec, f[k]) == med
  {
  }

  /**
   * Partition a range about the median of three of its bytes; `same` when all its bytes are equal. Otherwise the rows
   * of smaller bytes are `[lo, n]`, and those of greater bytes `[m, hi]`.
   */
  method SplitByByte(ptr: array<nat>, block: array<byte>, lo: int, hi: int, d: nat, ghost b: seq<byte>)
      returns (same: bool, n: int, m: int, ghost med: nat)
    requires ptr as object != block as object && Wrapped(b, block[..]) && d <= DEPTH_THRESH
    requires 0 <= lo <= hi < ptr.Length && Shares(b, ptr[..], lo, hi + 1, d)
    modifies ptr
    ensures Rearranged(old(ptr[..]), ptr[..], lo, hi + 1) && Shares(b, ptr[..], lo, hi + 1, d)
    ensures same ==> Shares(b, ptr[..], lo, hi + 1, d + 1)
    ensures !same ==> ThreeParts(Column(b, d), ptr[..], med, lo, n, m, hi) && n + 1 < m
  {
    hide Wrapped, Class, Swapped, Shares, Parting, Split, Rearranged, ThreeParts;
    ghost var f := ptr[..];
    SharesInClasses(b, f, lo, hi + 1, d);
    var c0 := RowByte(block, ptr[lo], d, b);
    var c1 := RowByte(block, ptr[hi], d, b);
    var c2 := RowByte(block, ptr[(lo + hi) / 2], d, b);
    var pivot := Median(c0, c1, c2);
    med := pivot;
    var ltLo, unLo, unHi, gtHi := PartitionBytes(ptr, block, pivot, lo, hi, d, b);
    AllEqual(Column(b, d), f, ptr[..], med, lo, ltLo, unLo, gtHi, hi);
    SharesRearranged(b, f, ptr[..], lo, hi + 1, d);
    if gtHi < ltLo {
      SharesMore(b, ptr[..], lo, hi + 1, d, lo, hi + 1, med);
      return true, lo, hi, med;
    }
    same := false;
    ghost var g := ptr[..];
    n, m := GatherEqual(ptr, Column(b, d), med, lo, ltLo, unLo, unHi, gtHi, hi);
    RearrangedTwice(f, g, ptr[..], lo, hi + 1);
    SharesRearranged(b, f, ptr[..], lo, hi + 1, d);
    PivotIsSomewhere(Column(b, d), f, ptr[..], med, lo, n, m, hi,
      if pivot == c0 then lo else if pivot == c1 then hi else (lo + hi) / 2);
  }

  // ----- the stack of ranges -----

  /** A smaller byte at depth `d` decides between rotations that agree before it. */
  lemma ByteDecides(b: seq<byte>, x: nat, y: nat, d: nat)
    requires x < |b| && y < |b| && Ord(b, x, y, d) == 0 && Class(Column(b, d), x) < Class(Column(b, d), y)
    ensures Class(Ranks(b), x) <= Class(Ranks(b), y)
  {
    ColumnAt(b, d, x);
    ColumnAt(b, d, y);
    hide Ord, Ranks, At, Class, Column;
    OrdNext(b, x + d, y + d);
    OrdBehind(b, x, y, d);
    RanksCompare(b, x, y);
  }

  lemma ColumnAt(b: seq<byte>, d: nat, x: nat)
    requires x < |b|
    ensures Class(Column(b, d), x) == At(b, x + d)
  {
    hide At;
  }

  /** The three parts of a split range: smaller, greater, equal. */
  function Part(k: int, lo: int, n: int, m: int, hi: int): (int, int) {
    if k == 0 then (lo, n) else if k == 1 then (m, hi) else (n + 1, m - 1)
  }

  function PartDepth(k: int, d: nat): nat {
    if k == 2 then d + 1 else d
  }

  function Size(r: (int, int)): int {
    r.1 - r.0
  }

  /** `ks` names the three parts in descending order of their sizes. */
  ghost predicate Descending(ks: seq<int>, lo: int, n: int, m: int, hi: int) {
    && |ks| == 3 && (forall i | 0 <= i < 3 :: 0 <= ks[i] < 3) && ks[0] != ks[1] && ks[1] != ks[2] && ks[0] != ks[2]
    && Size(Part(ks[0], lo, n, m, hi)) >= Size(Part(ks[1], lo, n, m, hi)) >= Size(Part(ks[2], lo, n, m, hi))
  }

  ghost function PartsOf(ks: seq<int>, lo: int, n: int, m: int, hi: int): (r: seq<(int, int)>)
    ensures |r| == |ks| && forall i | 0 <= i < |ks| :: r[i] == Part(ks[i], lo, n, m, hi)
  {
    seq(|ks|, i requires 0 <= i < |ks| => Part(ks[i], lo, n, m, hi))
  }

  ghost function DepthsOf(ks: seq<int>, d: nat): (r: seq<nat>)
    ensures |r| == |ks| && forall i | 0 <= i < |ks| :: r[i] == PartDepth(ks[i], d)
  {
    seq(|ks|, i requires 0 <= i < |ks| => PartDepth(ks[i], d))
  }

  /** The rows of every range agree as far as its depth says. */
  ghost predicate DepthsKept(b: seq<byte>, f: seq<nat>, st: seq<(int, int)>, ds: seq<nat>) {
    |ds| == |st| && forall k | 0 <= k < |st| :: ds[k] <= DEPTH_THRESH + 1 && Shares(b, f, st[k].0, st[k].1 + 1, ds[k])
  }

  /** With three ranges for one, the sizes are halved every two places of the stack. */
  ghost predicate HalvedByTwo(st: seq<(int, int)>, n: nat) {
    forall k | 0 <= k < |st| :: Size(st[k]) + 1 <= Halved(n, k / 2)
  }

  /** What the stack guarantees about the rows of `[lo, hi]`, which started as `was`. */
  ghost predicate Sorting(b: seq<byte>, was: seq<nat>, f: seq<nat>, st: seq<(int, int)>, ds: seq<nat>, lo: int,
      hi: int) {
    && 0 <= lo <= hi < |f| && Rearranged(was, f, lo, hi + 1) && DisjointRanges(st, lo, hi)
    && HalvedByTwo(st, hi - lo + 1) && DepthsKept(b, f, st, ds) && SortedButFor(Ranks(b), f, st, lo, hi)
  }

  /** Ranges inside the one on top take its place. */
  lemma DisjointMore(st: seq<(int, int)>, top: (int, int), more: seq<(int, int)>, lo: int, hi: int)
    requires DisjointRanges(st + [top], lo, hi) && DisjointRanges(more, top.0, top.1)
    ensures DisjointRanges(st + more, lo, hi)
  {
    var all, s := st + more, st + [top];
    assert s[|st|] == top;
    forall k | 0 <= k < |st| ensures all[k] == s[k] { }
    forall j, k | 0 <= j < k < |all| ensures all[j].1 < all[k].0 || all[k].1 < all[j].0 {
      if j < |st| <= k {
        assert s[j].1 < s[|st|].0 || s[|st|].1 < s[j].0;
      }
    }
  }

  lemma DepthsMore(b: seq<byte>, f: seq<nat>, g: seq<nat>, st: seq<(int, int)>, ds: seq<nat>, top: (int, int), d: nat,
      more: seq<(int, int)>, moreD: seq<nat>, lo: int, hi: int)
    requires DisjointRanges(st + [top], lo, hi) && DepthsKept(b, f, st + [top], ds + [d]) && |ds| == |st|
    requires Rearranged(f, g, top.0, top.1 + 1) && DepthsKept(b, g, more, moreD)
    ensures DepthsKept(b, g, st + more, ds + moreD)
  {
    hide Ord;
    var all, s, alld, sd := st + more, st + [top], ds + moreD, ds + [d];
    assert s[|st|] == top;
    forall k | 0 <= k < |all|
      ensures alld[k] <= DEPTH_THRESH + 1 && Shares(b, g, all[k].0, all[k].1 + 1, alld[k])
    {
      if k < |st| {
        assert all[k] == s[k] && alld[k] == sd[k];
        assert s[k].1 < s[|st|].0 || s[|st|].1 < s[k].0;
        assert forall p | s[k].0 <= p < s[k].1 + 1 :: g[p] == f[p];
      } else {
        assert all[k] == more[k - |st|] && alld[k] == moreD[k - |st|];
      }
    }
  }

  /** What is done to the range on top, in general: rows move within it, and the ranges `more` take its place. */
  lemma SortingMore(b: seq<byte>, was: seq<nat>, f: seq<nat>, g: seq<nat>, st: seq<(int, int)>, ds: seq<nat>,
      top: (int, int), d: nat, more: seq<(int, int)>, moreD: seq<nat>, lo: int, hi: int)
    requires Sorting(b, was, f, st + [top], ds + [d], lo, hi) && |ds| == |st| && Rearranged(f, g, top.0, top.1 + 1)
    requires DisjointRanges(more, top.0, top.1) && DepthsKept(b, g, more, moreD)
    requires HalvedByTwo(st + more, hi - lo + 1)
    requires forall p, q | 0 <= top.0 <= p < q <= top.1 < |g| ::
               Class(Ranks(b), g[p]) <= Class(Ranks(b), g[q]) || Covered(more, p, q)
    ensures Sorting(b, was, g, st + more, ds + moreD, lo, hi)
  {
    hide DepthsKept, HalvedByTwo, Ranks, Class, SortedButFor;
    assert (st + [top])[|st|] == top;
    DisjointMore(st, top, more, lo, hi);
    DepthsMore(b, f, g, st, ds, top, d, more, moreD, lo, hi);
    RefineRange(Ranks(b), f, g, st, top, more, lo, hi);
  }

  lemma SortingTop(b: seq<byte>, was: seq<nat>, f: seq<nat>, st: seq<(int, int)>, ds: seq<nat>, top: (int, int), d: nat,
      lo: int, hi: int)
    requires Sorting(b, was, f, st + [top], ds + [d], lo, hi) && |ds| == |st|
    ensures 0 <= lo <= top.0 <= top.1 + 1 <= hi + 1 <= |f| && d <= DEPTH_THRESH + 1
    ensures Shares(b, f, top.0, top.1 + 1, d) && HalvedByTwo(st + [top], hi - lo + 1) && Rearranged(was, f, lo, hi + 1)
  {
    hide Shares, Rearranged;
    assert (st + [top])[|st|] == top && (ds + [d])[|st|] == d;
  }

  lemma HalvedFewer(st: seq<(int, int)>, top: (int, int), n: nat)
    requires HalvedByTwo(st + [top], n)
    ensures HalvedByTwo(st, n) && Size(top) + 1 <= Halved(n, |st| / 2)
  {
    hide Halved;
    assert (st + [top])[|st|] == top && forall k | 0 <= k < |st| :: (st + [top])[k] == st[k];
  }

  /** A range of more than 20 rows lies fewer than 62 deep. */
  lemma MainStackIsShort(st: seq<(int, int)>, top: (int, int), n: nat)
    requires HalvedByTwo(st + [top], n) && n < 0x8000_0000 && Size(top) >= MAIN_SMALL_THRESH
    ensures |st| < 62
  {
    HalvedFewer(st, top, n);
    DeepRangesAreShort(n, |st| / 2);
  }

  lemma HalvedParts(st: seq<(int, int)>, top: (int, int), more: seq<(int, int)>, n: nat)
    requires HalvedByTwo(st + [top], n) && |more| == 3 && Size(more[0]) >= Size(more[1]) >= Size(more[2]) >= -1
    requires (Size(more[0]) + 1) + (Size(more[1]) + 1) + (Size(more[2]) + 1) <= Size(top) + 1
    ensures HalvedByTwo(st + more, n)
  {
    HalvedFewer(st, top, n);
    var all, u := st + more, |st| / 2;
    assert Halved(n, u + 1) == Halved(n, u) / 2;
    forall k | 0 <= k < |all| ensures Size(all[k]) + 1 <= Halved(n, k / 2) {
      if k < |st| { assert all[k] == st[k]; } else {
        assert all[k] == more[k - |st|] && (k / 2 == u || (k / 2 == u + 1 && k > |st|));
      }
    }
  }

  /** The range on top is sorted. */
  lemma SortingPop(b: seq<byte>, was: seq<nat>, f: seq<nat>, g: seq<nat>, st: seq<(int, int)>, ds: seq<nat>,
      top: (int, int), d: nat, lo: int, hi: int)
    requires Sorting(b, was, f, st + [top], ds + [d], lo, hi) && |ds| == |st| && Rearranged(f, g, top.0, top.1 + 1)
    requires ClassSorted(Ranks(b), g, top.0, top.1 + 1)
    ensures Sorting(b, was, g, st, ds, lo, hi)
  {
    hide Ranks, Sorting, Rearranged, HalvedByTwo, Halved, Class;
    SortingTop(b, was, f, st, ds, top, d, lo, hi);
    HalvedFewer(st, top, hi - lo + 1);
    assert st + [] == st && ds + [] == ds;
    SortingMore(b, was, f, g, st, ds, top, d, [], [], lo, hi);
  }

  /** The rows of the range on top agree one byte further. */
  lemma SortingDeeper(b: seq<byte>, was: seq<nat>, f: seq<nat>, g: seq<nat>, st: seq<(int, int)>, ds: seq<nat>,
      top: (int, int), d: nat, lo: int, hi: int)
    requires Sorting(b, was, f, st + [top], ds + [d], lo, hi) && |ds| == |st| && Rearranged(f, g, top.0, top.1 + 1)
    requires Shares(b, g, top.0, top.1 + 1, d + 1) && d <= DEPTH_THRESH
    ensures Sorting(b, was, g, st + [top], ds + [d + 1], lo, hi)
  {
    hide Ranks, Sorting, Rearranged, HalvedByTwo, Halved, Class, Shares;
    SortingTop(b, was, f, st, ds, top, d, lo, hi);
    assert forall p, q | top.0 <= p < q <= top.1 :: Covered([top], p, q) by { assert [top][0] == top; }
    SortingMore(b, was, f, g, st, ds, top, d, [top], [d + 1], lo, hi);
  }

  /** Rows in different parts are in order; rows in the same part are in one range. */
  lemma PartsCover(b: seq<byte>, g: seq<nat>, d: nat, med: nat, lo: int, n: int, m: int, hi: int, ks: seq<int>, p: int,
      q: int)
    requires ThreeParts(Column(b, d), g, med, lo, n, m, hi) && Shares(b, g, lo, hi + 1, d) && lo <= p < q <= hi
    requires Descending(ks, lo, n, m, hi)
    ensures Class(Ranks(b), g[p]) <= Class(Ranks(b), g[q]) || Covered(PartsOf(ks, lo, n, m, hi), p, q)
  {
    hide Ranks, Class, Column, Ord;
    var more := PartsOf(ks, lo, n, m, hi);
    forall k | 0 <= k < 3 && Part(k, lo, n, m, hi).0 <= p && q <= Part(k, lo, n, m, hi).1 ensures Covered(more, p, q) {
      var i := if ks[0] == k then 0 else if ks[1] == k then 1 else 2;
      assert more[i] == Part(k, lo, n, m, hi);
    }
    if Class(Column(b, d), g[p]) < Class(Column(b, d), g[q]) {
      ByteDecides(b, g[p], g[q], d);
    }
  }

  lemma TwoParts(lo: int, n: int, m: int, hi: int, j: int, k: int)
    requires lo <= n + 1 < m <= hi + 1 && 0 <= j < 3 && 0 <= k < 3
    ensures var p, q := Part(j, lo, n, m, hi), Part(k, lo, n, m, hi);
            lo <= p.0 <= p.1 + 1 && p.1 <= hi && (j != k ==> p.1 < q.0 || q.1 < p.0)
  {
  }

  lemma PartsApart(lo: int, n: int, m: int, hi: int, ks: seq<int>)
    requires Descending(ks, lo, n, m, hi) && lo <= n + 1 < m <= hi + 1
    ensures DisjointRanges(PartsOf(ks, lo, n, m, hi), lo, hi)
  {
    hide Part;
    var more := PartsOf(ks, lo, n, m, hi);
    forall j, k | 0 <= j < k < 3 ensures more[j].1 < more[k].0 || more[k].1 < more[j].0 {
      TwoParts(lo, n, m, hi, ks[j], ks[k]);
    }
    forall k | 0 <= k < 3 ensures lo <= more[k].0 <= more[k].1 + 1 && more[k].1 <= hi {
      TwoParts(lo, n, m, hi, ks[k], ks[k]);
    }
  }

  lemma PartSizes(lo: int, n: int, m: int, hi: int, ks: seq<int>)
    requires Descending(ks, lo, n, m, hi) && lo <= n + 1 < m <= hi + 1
    ensures var more := PartsOf(ks, lo, n, m, hi);
            && |more| == 3 && Size(more[0]) >= Size(more[1]) >= Size(more[2]) >= -1
            && (Size(more[0]) + 1) + (Size(more[1]) + 1) + (Size(more[2]) + 1) == hi - lo + 1
  {
    var more := PartsOf(ks, lo, n, m, hi);
    assert forall i | 0 <= i < 3 :: more[i] == Part(ks[i], lo, n, m, hi);
    var k0, k1, k2 := ks[0], ks[1], ks[2];
    assert k0 + k1 + k2 == 3;
  }

  lemma PartsShare(b: seq<byte>, g: seq<nat>, d: nat, med: nat, lo: int, n: int, m: int, hi: int, ks: seq<int>)
    requires ThreeParts(Column(b, d), g, med, lo, n, m, hi) && Shares(b, g, lo, hi + 1, d) && d <= DEPTH_THRESH
    requires Descending(ks, lo, n, m, hi)
    ensures DepthsKept(b, g, PartsOf(ks, lo, n, m, hi), DepthsOf(ks, d))
  {
    hide Class, Column, Ord;
    SharesMore(b, g, lo, hi + 1, d, n + 1, m, med);
  }

  /** The range on top is split into its three parts, the largest first. */
  lemma SortingSplit(b: seq<byte>, was: seq<nat>, f: seq<nat>, g: seq<nat>, st: seq<(int, int)>, ds: seq<nat>,
      top: (int, int), d: nat, med: nat, n: int, m: int, ks: seq<int>, lo: int, hi: int)
    requires Sorting(b, was, f, st + [top], ds + [d], lo, hi) && |ds| == |st| && Rearranged(f, g, top.0, top.1 + 1)
    requires ThreeParts(Column(b, d), g, med, top.0, n, m, top.1) && n + 1 < m
    requires Shares(b, g, top.0, top.1 + 1, d) && d <= DEPTH_THRESH && Descending(ks, top.0, n, m, top.1)
    ensures Sorting(b, was, g, st + PartsOf(ks, top.0, n, m, top.1), ds + DepthsOf(ks, d), lo, hi)
  {
    hide Ranks, Sorting, Rearranged, HalvedByTwo, Halved, Class, Shares, Descending, PartsOf, DepthsOf, DepthsKept,
      DisjointRanges, Column;
    SortingTop(b, was, f, st, ds, top, d, lo, hi);
    PartsApart(top.0, n, m, top.1, ks);
    PartsShare(b, g, d, med, top.0, n, m, top.1, ks);
    var more := PartsOf(ks, top.0, n, m, top.1);
    PartSizes(top.0, n, m, top.1, ks);
    HalvedParts(st, top, more, hi - lo + 1);
    forall p, q | 0 <= top.0 <= p < q <= top.1 < |g|
      ensures Class(Ranks(b), g[p]) <= Class(Ranks(b), g[q]) || Covered(more, p, q)
    {
      PartsCover(b, g, d, med, top.0, n, m, top.1, ks, p, q);
    }
    SortingMore(b, was, f, g, st, ds, top, d, more, DepthsOf(ks, d), lo, hi);
  }

  // ----- termination -----

  function Weight(size: int, d: nat): int {
    4 * (16 - d) * (size + 1) + 1
  }

  /** What is left to do: a range counts for its size and for the bytes left to look at. */
  ghost function Effort(st: seq<(int, int)>, ds: seq<nat>): int
    requires |st| == |ds|
  {
    if st == [] then 0
    else var k := |st| - 1; Effort(st[..k], ds[..k]) + Weight(Size(st[k]), ds[k])
  }

  lemma EffortPush(st: seq<(int, int)>, ds: seq<nat>, r: (int, int), d: nat)
    requires |st| == |ds|
    ensures Effort(st + [r], ds + [d]) == Effort(st, ds) + Weight(Size(r), d)
  {
    hide Weight;
    assert (st + [r])[..|st|] == st && (ds + [d])[..|ds|] == ds;
  }

  lemma {:induction false} EffortNonNegative(st: seq<(int, int)>, ds: seq<nat>)
    requires |st| == |ds| && forall k | 0 <= k < |st| :: Size(st[k]) >= -1 && ds[k] <= DEPTH_THRESH + 1
    ensures Effort(st, ds) >= 0
  {
    if st != [] {
      var k := |st| - 1;
      EffortNonNegative(st[..k], ds[..k]);
      if Size(st[k]) >= 0 { MulSign(16 - ds[k], Size(st[k]) + 1); }
    }
  }

  lemma WeightSplit(s0: int, s1: int, s2: int, d: nat)
    requires s0 >= -1 && s1 >= -1 && s2 >= 0 && d <= DEPTH_THRESH
    ensures Weight(s0, d) + Weight(s1, d) + Weight(s2, d + 1) < Weight(s0 + s1 + s2 + 2, d)
  {
    var w := 16 - d;
    assert 4 * w * (s0 + s1 + s2 + 3) == 4 * w * (s0 + 1) + 4 * w * (s1 + 1) + 4 * (w - 1) * (s2 + 1) + 4 * (s2 + 1);
  }

  ghost function PartWeight(k: int, lo: int, n: int, m: int, hi: int, d: nat): int {
    Weight(Size(Part(k, lo, n, m, hi)), PartDepth(k, d))
  }

  lemma PartWeights(lo: int, n: int, m: int, hi: int, ks: seq<int>, d: nat)
    requires d <= DEPTH_THRESH && lo <= n + 1 < m <= hi + 1 && Descending(ks, lo, n, m, hi)
    ensures PartWeight(ks[0], lo, n, m, hi, d) + PartWeight(ks[1], lo, n, m, hi, d) + PartWeight(ks[2], lo, n, m, hi, d)
      < Weight(hi - lo, d)
  {
    WeightSplit(n - lo, hi - m, m - 1 - (n + 1), d);
    hide Weight;
    assert PartWeight(0, lo, n, m, hi, d) == Weight(n - lo, d) && PartWeight(1, lo, n, m, hi, d) == Weight(hi - m, d);
    assert PartWeight(2, lo, n, m, hi, d) == Weight(m - 1 - (n + 1), d + 1);
    hide PartWeight;
    var k0, k1, k2 := ks[0], ks[1], ks[2];
    assert k0 + k1 + k2 == 3;
  }

  lemma EffortThree(st: seq<(int, int)>, ds: seq<nat>, lo: int, n: int, m: int, hi: int, ks: seq<int>, d: nat)
    requires |st| == |ds| && d <= DEPTH_THRESH && lo <= n + 1 < m <= hi + 1 && Descending(ks, lo, n, m, hi)
    ensures Effort(st + PartsOf(ks, lo, n, m, hi), ds + DepthsOf(ks, d)) < Effort(st, ds) + Weight(hi - lo, d)
  {
    hide Weight, Effort, Size, Part, PartDepth;
    var r, e := PartsOf(ks, lo, n, m, hi), DepthsOf(ks, d);
    assert st + r == st + [r[0]] + [r[1]] + [r[2]] && ds + e == ds + [e[0]] + [e[1]] + [e[2]];
    EffortPush(st, ds, r[0], e[0]);
    EffortPush(st + [r[0]], ds + [e[0]], r[1], e[1]);
    EffortPush(st + [r[0]] + [r[1]], ds + [e[0]] + [e[1]], r[2], e[2]);
    PartWeights(lo, n, m, hi, ks, d);
  }

  // ----- mainQSort3 -----

  /** The three parts of a split range, put in descending order of their sizes by three exchanges. */
  method OrderParts(lo: int, n: int, m: int, hi: int, d: nat)
      returns (next: seq<(int, int)>, nextD: seq<nat>, ghost ks: seq<int>)
    ensures Descending(ks, lo, n, m, hi) && next == PartsOf(ks, lo, n, m, hi) && nextD == DepthsOf(ks, d)
  {
    var k0, k1, k2 := 0, 1, 2;
    if Size(Part(k0, lo, n, m, hi)) < Size(Part(k1, lo, n, m, hi)) { k0, k1 := k1, k0; }
    if Size(Part(k1, lo, n, m, hi)) < Size(Part(k2, lo, n, m, hi)) { k1, k2 := k2, k1; }
    if Size(Part(k0, lo, n, m, hi)) < Size(Part(k1, lo, n, m, hi)) { k0, k1 := k1, k0; }
    ks := [k0, k1, k2];
    next := [Part(k0, lo, n, m, hi), Part(k1, lo, n, m, hi), Part(k2, lo, n, m, hi)];
    nextD := [PartDepth(k0, d), PartDepth(k1, d), PartDepth(k2, d)];
  }

  lemma WeightDeeper(size: int, d: nat)
    requires size >= 0 && d <= DEPTH_THRESH
    ensures Weight(size, d + 1) < Weight(size, d)
  {
    var w := 4 * (16 - d);
    assert w * (size + 1) == (w - 4) * (size + 1) + 4 * (size + 1);
  }

  lemma EffortOne(st: seq<(int, int)>, ds: seq<nat>, r: (int, int), d: nat)
    requires |st| == |ds| && Size(r) >= 0 && d <= DEPTH_THRESH
    ensures Effort(st + [r], ds + [d + 1]) < Effort(st + [r], ds + [d])
  {
    hide Weight, Effort, Size;
    EffortPush(st, ds, r, d);
    EffortPush(st, ds, r, d + 1);
    WeightDeeper(Size(r), d);
  }

  lemma EffortPop(st: seq<(int, int)>, ds: seq<nat>, r: (int, int), d: nat)
    requires |st| == |ds| && Size(r) >= -1 && d <= DEPTH_THRESH + 1
    ensures Effort(st, ds) < Effort(st + [r], ds + [d])
  {
    EffortPush(st, ds, r, d);
    if Size(r) >= 0 { MulSign(16 - d, Size(r) + 1); }
  }

  lemma PartRange(ec: seq<nat>, f: seq<nat>, med: nat, lo: int, n: int, m: int, hi: int)
    requires ThreeParts(ec, f, med, lo, n, m, hi)
    ensures lo <= n + 1 <= m <= hi + 1
  {
  }

  lemma DescendingThree(ks: seq<int>, lo: int, n: int, m: int, hi: int, d: nat)
    requires Descending(ks, lo, n, m, hi)
    ensures |PartsOf(ks, lo, n, m, hi)| == 3 == |DepthsOf(ks, d)|
  {
  }

  /**
   * One round of `mainQSort3`: the range on top is sorted, looked at one byte further, or split. `stopped` when the
   * budget was used up in sorting it.
   */
  method StepTop(ptr: array<nat>, block: array<byte>, quadrant: array<u16>, nblock: nat, lo: int, hi: int, d: nat,
      budget0: int, ghost b: seq<byte>, ghost was: seq<nat>, ghost rest: seq<(int, int)>, ghost ds: seq<nat>,
      ghost loSt: int, ghost hiSt: int)
      returns (stopped: bool, next: seq<(int, int)>, nextD: seq<nat>, budget: int)
    requires ptr as object !in {block as object, quadrant} && Readable(b, block[..], quadrant[..]) && nblock == |b|
    requires ptr.Length < MAX_ROWS && |ds| == |rest|
    requires Sorting(b, was, ptr[..], rest + [(lo, hi)], ds + [d], loSt, hiSt) && IsPermutation(ptr[..])
    modifies ptr
    ensures Rearranged(was, ptr[..], loSt, hiSt + 1) && IsPermutation(ptr[..]) && Spent(b, budget0, budget)
    ensures stopped ==> budget < 0
    ensures !stopped ==> |next| == |nextD| <= 3 && (next == [] || |rest| < 62)
    ensures !stopped ==> Sorting(b, was, ptr[..], rest + next, ds + nextD, loSt, hiSt)
    ensures !stopped ==> Effort(rest + next, ds + nextD) < Effort(rest + [(lo, hi)], ds + [d])
  {
    hide Ranks, Sorting, Rearranged, HalvedByTwo, Halved, Class, Shares, Descending, PartsOf, DepthsOf, Readable,
      Column, Wrapped, ThreeParts, Effort, ClassSorted, Varied, IsPermutation;
    ghost var f, top := ptr[..], (lo, hi);
    SortingTop(b, was, f, rest, ds, top, d, loSt, hiSt);
    stopped, next, nextD, budget := false, [], [], budget0;
    if hi - lo < MAIN_SMALL_THRESH || d > DEPTH_THRESH {
      budget := MainSimpleSort(ptr, block, quadrant, nblock, lo, hi, d, budget, b);
      RearrangedWithin(f, ptr[..], loSt, hiSt + 1, lo, hi + 1);
      RearrangedPermutation(f, ptr[..], loSt, hiSt + 1);
      RearrangedTwice(was, f, ptr[..], loSt, hiSt + 1);
      if budget < 0 { return true, [], [], budget; }
      SortingPop(b, was, f, ptr[..], rest, ds, top, d, loSt, hiSt);
      EffortPop(rest, ds, top, d);
      assert rest + [] == rest && ds + [] == ds;
      return;
    }
    MainStackIsShort(rest, top, hiSt - loSt + 1);
    ReadableParts(b, block[..], quadrant[..]);
    var same, n, m;
    ghost var med;
    same, n, m, med := SplitByByte(ptr, block, lo, hi, d, b);
    RearrangedWithin(f, ptr[..], loSt, hiSt + 1, lo, hi + 1);
    RearrangedPermutation(f, ptr[..], loSt, hiSt + 1);
    RearrangedTwice(was, f, ptr[..], loSt, hiSt + 1);
    if same {
      next, nextD := [(lo, hi)], [d + 1];
      SortingDeeper(b, was, f, ptr[..], rest, ds, top, d, loSt, hiSt);
      EffortOne(rest, ds, top, d);
    } else {
      ghost var ks;
      next, nextD, ks := OrderParts(lo, n, m, hi, d);
      SortingSplit(b, was, f, ptr[..], rest, ds, top, d, med, n, m, ks, loSt, hiSt);
      PartRange(Column(b, d), ptr[..], med, lo, n, m, hi);
      EffortThree(rest, ds, lo, n, m, hi, ks, d);
      EffortPush(rest, ds, top, d);
      DescendingThree(ks, lo, n, m, hi, d);
    }
  }

  /** The three stack arrays hold the ranges `st` and the depths `ds`. */
  ghost predicate StackHolds(los: seq<int>, his: seq<int>, depths: seq<nat>, st: seq<(int, int)>, ds: seq<nat>) {
    && |st| == |ds| <= |los| == |his| == |depths|
    && (forall k {:trigger st[k]} | 0 <= k < |st| :: los[k] == st[k].0 && his[k] == st[k].1)
    && forall k | 0 <= k < |ds| :: depths[k] == ds[k]
  }

  lemma StackNone(los: seq<int>, his: seq<int>, depths: seq<nat>)
    requires |los| == |his| == |depths|
    ensures StackHolds(los, his, depths, [], [])
  {
  }

  lemma StackTop(los: seq<int>, his: seq<int>, depths: seq<nat>, st: seq<(int, int)>, ds: seq<nat>)
    requires StackHolds(los, his, depths, st, ds) && st != []
    ensures var k := |st| - 1;
            && st == st[..k] + [(los[k], his[k])] && ds == ds[..k] + [depths[k]]
            && StackHolds(los, his, depths, st[..k], ds[..k])
  {
  }

  /** `mpush`, for one range after the other. */
  method PushRanges(stackLo: array<int>, stackHi: array<int>, stackD: array<nat>, sp0: nat, next: seq<(int, int)>,
      nextD: seq<nat>, ghost st: seq<(int, int)>, ghost ds: seq<nat>) returns (sp: nat)
    requires stackLo != stackHi && stackD as object !in {stackLo as object, stackHi} && sp0 == |st|
    requires |next| == |nextD| && sp0 + |next| <= stackLo.Length
    requires StackHolds(stackLo[..], stackHi[..], stackD[..], st, ds)
    modifies stackLo, stackHi, stackD
    ensures StackHolds(stackLo[..], stackHi[..], stackD[..], st + next, ds + nextD) && sp == sp0 + |next|
  {
    sp := sp0;
    assert st + next[..0] == st && ds + nextD[..0] == ds;
    for i := 0 to |next|
      invariant sp == sp0 + i
      invariant StackHolds(stackLo[..], stackHi[..], stackD[..], st + next[..i], ds + nextD[..i])
    {
      stackLo[sp], stackHi[sp], stackD[sp] := next[i].0, next[i].1, nextD[i];
      sp := sp + 1;
      assert st + next[..i + 1] == st + next[..i] + [next[i]] && ds + nextD[..i + 1] == ds + nextD[..i] + [nextD[i]];
    }
    assert next[..|next|] == next && nextD[..|next|] == nextD;
  }

  lemma SortingStart(b: seq<byte>, f: seq<nat>, lo: int, hi: int, d: nat)
    requires 0 <= lo <= hi < |f| && Shares(b, f, lo, hi + 1, d) && d <= DEPTH_THRESH + 1
    ensures Sorting(b, f, f, [(lo, hi)], [d], lo, hi)
  {
    hide Ord, Ranks, Class, Shares;
    forall p, q | lo <= p < q <= hi ensures Covered([(lo, hi)], p, q) {
      assert [(lo, hi)][0] == (lo, hi);
    }
  }

  lemma SortingDone(b: seq<byte>, was: seq<nat>, f: seq<nat>, lo: int, hi: int)
    requires Sorting(b, was, f, [], [], lo, hi)
    ensures ClassSorted(Ranks(b), f, lo, hi + 1)
  {
  }

  lemma SortingEffort(b: seq<byte>, was: seq<nat>, f: seq<nat>, st: seq<(int, int)>, ds: seq<nat>, lo: int, hi: int)
    requires Sorting(b, was, f, st, ds, lo, hi)
    ensures |st| == |ds| && Effort(st, ds) >= 0
  {
    EffortNonNegative(st, ds);
  }

  /** `mainQSort3`: rows that agree in their first `dSt` bytes are put in order, unless the budget is used up. */
  method MainQSort3(ptr: array<nat>, block: array<byte>, quadrant: array<u16>, nblock: nat, loSt: int, hiSt: int,
      dSt: nat, budget0: int, ghost b: seq<byte>) returns (budget: int)
    requires ptr as object !in {block as object, quadrant} && Readable(b, block[..], quadrant[..]) && nblock == |b|
    requires 0 <= loSt <= hiSt < ptr.Length < MAX_ROWS && dSt <= DEPTH_THRESH && Shares(b, ptr[..], loSt, hiSt + 1, dSt)
    requires IsPermutation(ptr[..])
    modifies ptr
    ensures Rearranged(old(ptr[..]), ptr[..], loSt, hiSt + 1) && Spent(b, budget0, budget)
    ensures budget >= 0 ==> ClassSorted(Ranks(b), ptr[..], loSt, hiSt + 1)
  {
    hide Ranks, Sorting, Rearranged, Shares, Readable, Effort, ClassSorted, StackHolds, Varied, IsPermutation;
    ghost var was := ptr[..];
    budget := budget0;
    SortingStart(b, was, loSt, hiSt, dSt);
    RearrangedSelf(was, loSt, hiSt + 1);
    var stackLo, stackHi, stackD := new int[MAIN_STACK_SIZE], new int[MAIN_STACK_SIZE], new nat[MAIN_STACK_SIZE];
    ghost var st: seq<(int, int)>, ds: seq<nat> := [], [];
    StackNone(stackLo[..], stackHi[..], stackD[..]);
    assert [] + [(loSt, hiSt)] == [(loSt, hiSt)] && [] + [dSt] == [dSt];
    var sp := PushRanges(stackLo, stackHi, stackD, 0, [(loSt, hiSt)], [dSt], st, ds);
    st, ds := [(loSt, hiSt)], [dSt];
    SortingEffort(b, was, ptr[..], st, ds, loSt, hiSt);
    while sp > 0
      invariant sp == |st| == |ds| <= 64 && StackHolds(stackLo[..], stackHi[..], stackD[..], st, ds)
      invariant Sorting(b, was, ptr[..], st, ds, loSt, hiSt) && Rearranged(was, ptr[..], loSt, hiSt + 1)
      invariant Spent(b, budget0, budget) && Effort(st, ds) >= 0 && IsPermutation(ptr[..])
      decreases Effort(st, ds)
    {
      assert sp < MAIN_STACK_SIZE - 2;
      StackTop(stackLo[..], stackHi[..], stackD[..], st, ds);
      sp := sp - 1;
      var lo, hi, d := stackLo[sp], stackHi[sp], stackD[sp];
      ghost var rest, restD := st[..sp], ds[..sp];
      var stopped, next, nextD;
      stopped, next, nextD, budget := StepTop(ptr, block, quadrant, nblock, lo, hi, d, budget, b, was, rest, restD,
        loSt, hiSt);
      if stopped { return; }
      ghost var f := ptr[..];
      sp := PushRanges(stackLo, stackHi, stackD, sp, next, nextD, rest, restD);
      st, ds := rest + next, restD + nextD;
      assert ptr[..] == f;
      SortingEffort(b, was, f, st, ds, loSt, hiSt);
    }
    assert st == [] && ds == [];
    SortingDone(b, was, ptr[..], loSt, hiSt);
  }
}
