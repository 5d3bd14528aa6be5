/** The decoder's move-to-front list, kept in sixteen segments of an array so that few bytes move per step. */
module MtfList {
  import opened Bytes

  const MTFA_SIZE := 4096
  const MTFL_SIZE := 16

  /** Element `n` moved to the front. */
  function MoveToFront<T>(l: seq<T>, n: nat): (r: seq<T>)
    requires n < |l|
    ensures |r| == |l| && r[0] == l[n]
    ensures forall k | 1 <= k < |l| :: r[k] == if k <= n then l[k - 1] else l[k]
  {
    [l[n]] + l[..n] + l[n + 1..]
  }

  /** The segments lie in order, at least a segment's length apart. */
  ghost predicate Segments(base: seq<nat>) {
    |base| == 16 && (forall r {:trigger base[r]} | 0 <= r < 15 :: base[r] + MTFL_SIZE <= base[r + 1])
      && base[15] + MTFL_SIZE <= MTFA_SIZE
  }

  lemma {:induction false} SegmentOrder(base: seq<nat>, r: nat, s: nat)
    requires Segments(base) && r <= s < 16
    ensures base[r] + MTFL_SIZE * (s - r) <= base[s]
    ensures base[s] + MTFL_SIZE * (16 - s) <= MTFA_SIZE
    decreases s - r, 16 - s
  {
    if r < s {
      SegmentOrder(base, r, s - 1);
      assert base[s - 1] + MTFL_SIZE <= base[s - 1 + 1];
    }
    if s < 15 {
      SegmentOrder(base, s + 1, s + 1);
      assert base[s] + MTFL_SIZE <= base[s + 1];
    }
  }

  /** Place `c` of segment `r` holds element 16 r + c of the list. */
  ghost predicate Stored(m: seq<byte>, base: seq<nat>, l: seq<byte>, r: int, c: int) {
    0 <= r < |base| && 0 <= c && base[r] + c < |m| && 16 * r + c < |l| && m[base[r] + c] == l[16 * r + c]
  }

  /** The array holds the list. */
  ghost predicate Holds(m: seq<byte>, base: seq<nat>, l: seq<byte>) {
    && |m| == MTFA_SIZE && Segments(base) && |l| == 256
    && forall r, c | 0 <= r < 16 && 0 <= c < 16 :: Stored(m, base, l, r, c)
  }

  lemma ElementAt(m: seq<byte>, base: seq<nat>, l: seq<byte>, r: nat, c: nat)
    requires Holds(m, base, l) && r < 16 && c < 16
    ensures base[r] + c < |m| && 16 * r + c < |l| && m[base[r] + c] == l[16 * r + c]
  {
    assert Stored(m, base, l, r, c);
  }

  /** The `n` elements from `lo` on have moved up by one; place `lo` itself may hold anything. */
  ghost predicate ShiftedUp(m: seq<byte>, m': seq<byte>, lo: nat, n: nat) {
    |m'| == |m| && forall x {:trigger m'[x]} | 0 <= x < |m| && x != lo ::
      m'[x] == if lo < x <= lo + n then m[x - 1] else m[x]
  }

  lemma SixteenSegments(base: seq<nat>)
    requires Segments(base)
    ensures |base| == 16
  {
  }

  lemma NearAt(m: seq<byte>, m': seq<byte>, base: seq<nat>, l: seq<byte>, n: nat, r: nat, c: nat)
    requires Holds(m, base, l) && n < MTFL_SIZE && |m'| == |m| && m'[base[0]] == l[n] && r < 16 && c < 16
    requires ShiftedUp(m, m', base[0], n)
    ensures Stored(m', base, MoveToFront(l, n), r, c)
  {
    hide Segments;
    SixteenSegments(base);
    SegmentOrder(base, 0, r);
    ElementAt(m, base, l, r, c);
    if r == 0 && 0 < c <= n {
      ElementAt(m, base, l, 0, c - 1);
      assert m'[base[0] + c] == m[base[0] + c - 1];
    } else if r == 0 && c == 0 {
      assert 16 * r + c == 0;
    } else {
      assert m'[base[r] + c] == m[base[r] + c];
    }
  }

  /** Moving the elements before `n` up by one and `n` to the front, within the first segment. */
  lemma NearStep(m: seq<byte>, m': seq<byte>, base: seq<nat>, l: seq<byte>, n: nat)
    requires Holds(m, base, l) && n < MTFL_SIZE && |m'| == |m| && m'[base[0]] == l[n]
    requires ShiftedUp(m, m', base[0], n)
    ensures Holds(m', base, MoveToFront(l, n))
  {
    hide Segments, MoveToFront, Stored;
    var l' := MoveToFront(l, n);
    forall r, c | 0 <= r < 16 && 0 <= c < 16 ensures Stored(m', base, l', r, c) {
      NearAt(m, m', base, l, n, r, c);
    }
  }

  /** The bases after an element of segment `lno` has gone to the front: the segments before it start one lower. */
  ghost predicate Lowered(base: seq<nat>, base': seq<nat>, lno: nat) {
    |base| == |base'| == 16 && lno < 16 &&
    forall r {:trigger base'[r]} | 0 <= r < 16 :: base'[r] + (if r < lno then 1 else 0) == base[r]
  }

  ghost predicate Untouched(base': seq<nat>, lno: nat, x: nat) {
    forall r | 0 <= r < lno && r < |base'| :: base'[r] != x
  }

  /**
   * What the general case writes: within segment `lno` everything before place `off` moves up by one, each segment up
   * to there gets the last element of the one before it in front, and the first gets the element itself.
   */
  ghost predicate Rotated(m: seq<byte>, m': seq<byte>, base: seq<nat>, base': seq<nat>, l: seq<byte>, lno: nat,
      off: nat) {
    && lno < 16 && off < 16 && |base| == |base'| == 16 && |m| == |m'| && |l| == 256
    && (forall r {:trigger base'[r]} | 0 <= r <= lno && base'[r] < |m| ::
      m'[base'[r]] == l[if r == 0 then 16 * lno + off else 16 * r - 1])
    && (forall x | base[lno] < x <= base[lno] + off && x < |m| :: m'[x] == m[x - 1])
    && forall x | 0 <= x < |m| && !(base[lno] <= x <= base[lno] + off) && Untouched(base', lno, x) :: m'[x] == m[x]
  }

  lemma LoweredSegments(base: seq<nat>, base': seq<nat>, lno: nat)
    requires Segments(base) && Lowered(base, base', lno)
    ensures Segments(base')
  {
    forall r {:trigger base'[r]} | 0 <= r < 15 ensures base'[r] + MTFL_SIZE <= base'[r + 1] {
      assert base[r] + MTFL_SIZE <= base[r + 1];
    }
  }

  lemma FrontAt(m: seq<byte>, m': seq<byte>, base: seq<nat>, base': seq<nat>, l: seq<byte>, lno: nat, off: nat, r: nat)
    requires Segments(base') && |l| == 256 && |m| == MTFA_SIZE && r <= lno
    requires Rotated(m, m', base, base', l, lno, off)
    ensures Stored(m', base', MoveToFront(l, 16 * lno + off), r, 0)
  {
    hide Untouched, Segments;
    SegmentOrder(base', r, r);
  }

  /** Only the first place of a segment is the start of one. */
  lemma UntouchedInside(base': seq<nat>, lno: nat, r: nat, c: nat)
    requires Segments(base') && lno <= 16 && r < 16 && c < 16 && (c > 0 || r >= lno)
    ensures Untouched(base', lno, base'[r] + c)
  {
    hide Segments;
    SixteenSegments(base');
    forall s | 0 <= s < lno && s < |base'| ensures base'[s] != base'[r] + c {
      if s < r { SegmentOrder(base', s, r); } else { SegmentOrder(base', r, s); }
    }
  }

  lemma LoweredAt(m: seq<byte>, m': seq<byte>, base: seq<nat>, base': seq<nat>, l: seq<byte>, lno: nat, off: nat,
      r: nat, c: nat)
    requires Holds(m, base, l) && Segments(base') && Lowered(base, base', lno) && r < lno && 1 <= c < 16
    requires Rotated(m, m', base, base', l, lno, off)
    ensures Stored(m', base', MoveToFront(l, 16 * lno + off), r, c)
  {
    hide Untouched, Segments;
    ElementAt(m, base, l, r, c - 1);
    UntouchedInside(base', lno, r, c);
    SegmentOrder(base, r, lno);
    assert base'[r] + 1 == base[r];
  }

  lemma ShiftedAt(m: seq<byte>, m': seq<byte>, base: seq<nat>, base': seq<nat>, l: seq<byte>, lno: nat, off: nat,
      c: nat)
    requires Holds(m, base, l) && Lowered(base, base', lno) && 1 <= c <= off < 16
    requires Rotated(m, m', base, base', l, lno, off)
    ensures Stored(m', base', MoveToFront(l, 16 * lno + off), lno, c)
  {
    hide Untouched, Segments;
    ElementAt(m, base, l, lno, c - 1);
    ElementAt(m, base, l, lno, c);
    assert base'[lno] == base[lno];
  }

  lemma KeptAt(m: seq<byte>, m': seq<byte>, base: seq<nat>, base': seq<nat>, l: seq<byte>, lno: nat, off: nat, r: nat,
      c: nat)
    requires Holds(m, base, l) && Segments(base') && Lowered(base, base', lno) && lno <= r < 16 && c < 16
      && (r == lno ==> c > off)
    requires Rotated(m, m', base, base', l, lno, off)
    ensures Stored(m', base', MoveToFront(l, 16 * lno + off), r, c)
  {
    hide Untouched, Segments;
    ElementAt(m, base, l, r, c);
    UntouchedInside(base', lno, r, c);
    SegmentOrder(base, lno, r);
    assert base'[r] == base[r];
  }

  lemma FarStep(m: seq<byte>, m': seq<byte>, base: seq<nat>, base': seq<nat>, l: seq<byte>, lno: nat, off: nat)
    requires Holds(m, base, l) && 1 <= lno < 16 && off < 16 && |m'| == |m|
    requires Lowered(base, base', lno) && Rotated(m, m', base, base', l, lno, off)
    ensures Holds(m', base', MoveToFront(l, 16 * lno + off))
  {
    hide MoveToFront, Rotated, Stored;
    LoweredSegments(base, base', lno);
    var l' := MoveToFront(l, 16 * lno + off);
    forall r, c | 0 <= r < 16 && 0 <= c < 16 ensures Stored(m', base', l', r, c) {
      if c == 0 && r <= lno {
        FrontAt(m, m', base, base', l, lno, off, r);
      } else if r < lno {
        LoweredAt(m, m', base, base', l, lno, off, r, c);
      } else if r == lno && c <= off {
        ShiftedAt(m, m', base, base', l, lno, off, c);
      } else {
        KeptAt(m, m', base, base', l, lno, off, r, c);
      }
    }
  }

  // ----- carrying the last elements of segments over -----

  /** The bases while segments above `i` are done and `i` itself is about to be. */
  ghost predicate CarriedBases(base0: seq<nat>, base: seq<nat>, lno: nat, i: nat) {
    |base0| == |base| == 16 && i <= lno < 16 && forall r {:trigger base[r]} | 0 <= r < 16 ::
      base[r] + (if i < r < lno then 1 else 0) == base0[r] + (if r == i == lno then 1 else 0)
  }

  /** `x` is not the start of a segment strictly between `i` and `lno`. */
  ghost predicate Apart(base: seq<nat>, i: nat, lno: nat, x: int) {
    forall r {:trigger base[r]} | i < r < lno && r < |base| :: base[r] != x
  }

  ghost predicate Carried(m0: seq<byte>, m: seq<byte>, base0: seq<nat>, base: seq<nat>, l: seq<byte>, lno: nat,
      off: nat, i: nat) {
    && CarriedBases(base0, base, lno, i) && off < 16 && |m| == |m0| == MTFA_SIZE && |l| == 256
    && (forall r {:trigger base[r]} | i < r <= lno && base[r] < |m| :: m[base[r]] == l[16 * r - 1])
    && (forall x | base0[lno] < x <= base0[lno] + off && x < |m| :: m[x] == m0[x - 1])
    && forall x | 0 <= x < |m| && !(base0[lno] <= x <= base0[lno] + off) && Apart(base, i, lno, x) :: m[x] == m0[x]
  }

  lemma CarryStart(m0: seq<byte>, m: seq<byte>, base0: seq<nat>, l: seq<byte>, lno: nat, off: nat)
    requires Segments(base0) && lno < 16 && off < 16 && |m0| == MTFA_SIZE && |l| == 256
    requires ShiftedUp(m0, m, base0[lno], off)
    ensures Carried(m0, m, base0, base0[lno := base0[lno] + 1], l, lno, off, lno)
  {
    hide Apart;
  }

  /** The last element of segment i - 1 is still where it was. */
  lemma CarryRead(m0: seq<byte>, m: seq<byte>, base0: seq<nat>, base: seq<nat>, l: seq<byte>, lno: nat, off: nat,
      i: nat)
    requires Holds(m0, base0, l) && base0[0] >= 1 && 1 <= i && Carried(m0, m, base0, base, l, lno, off, i)
    ensures 1 <= base[i] <= MTFA_SIZE - 15 && base[i - 1] + 15 < MTFA_SIZE && m[base[i - 1] + 15] == l[16 * i - 1]
  {
    hide Segments;
    SixteenSegments(base0);
    SegmentOrder(base0, i - 1, i);
    SegmentOrder(base0, i - 1, lno);
    SegmentOrder(base0, i, i);
    ElementAt(m0, base0, l, i - 1, 15);
    assert base[i - 1] == base0[i - 1] && base[i] >= base0[i];
    forall r {:trigger base[r]} | i < r < lno ensures base[r] != base[i - 1] + 15 {
      SegmentOrder(base0, i - 1, r);
    }
  }

  lemma CarryNext(m0: seq<byte>, m: seq<byte>, base0: seq<nat>, base: seq<nat>, l: seq<byte>, lno: nat, off: nat,
      i: nat)
    requires Holds(m0, base0, l) && base0[0] >= 1 && 1 <= i && Carried(m0, m, base0, base, l, lno, off, i)
    requires 1 <= base[i] <= MTFA_SIZE - 15
    ensures Carried(m0, m[base[i] - 1 := l[16 * i - 1]], base0, base[i := base[i] - 1], l, lno, off, i - 1)
  {
    hide Segments;
    SixteenSegments(base0);
    var x := base[i] - 1;
    var base' := base[i := x];
    var m' := m[x := l[16 * i - 1]];
    SegmentOrder(base0, i, lno);
    assert base[i] == base0[i] + (if i == lno then 1 else 0);
    forall r {:trigger base'[r]} | i < r <= lno ensures base'[r] != x && base[r] == base'[r] {
      SegmentOrder(base0, i, r);
    }
    forall y | 0 <= y < |m| && !(base0[lno] <= y <= base0[lno] + off) && Apart(base', i - 1, lno, y)
      ensures m'[y] == m0[y] {
      assert Apart(base, i, lno, y) by {
        forall r {:trigger base[r]} | i < r < lno && r < |base| ensures base[r] != y {
          assert base'[r] != y;
        }
      }
      if i < lno { assert base'[i] != y; }
    }
  }

  lemma FirstInRange(base: seq<nat>)
    requires Segments(base)
    ensures |base| == 16 && base[0] < MTFA_SIZE
  {
    SegmentOrder(base, 0, 0);
  }

  lemma CarryDone(m0: seq<byte>, m: seq<byte>, base0: seq<nat>, base: seq<nat>, l: seq<byte>, lno: nat, off: nat)
    requires Holds(m0, base0, l) && base0[0] >= 1 && lno >= 1 && Carried(m0, m, base0, base, l, lno, off, 0)
    ensures base[0] == base0[0] && base[0] - 1 < |m|
    ensures Lowered(base0, base[0 := base[0] - 1], lno)
    ensures Rotated(m0, m[base[0] - 1 := l[16 * lno + off]], base0, base[0 := base[0] - 1], l, lno, off)
  {
    hide Segments;
    SixteenSegments(base0);
    FirstInRange(base0);
    assert base[0] == base0[0];
    var x := base[0] - 1;
    var base' := base[0 := x];
    var m' := m[x := l[16 * lno + off]];
    SegmentOrder(base0, 0, lno);
    SegmentOrder(base0, 0, 0);
    forall r {:trigger base'[r]} | 0 < r <= lno ensures base'[r] != x && base[r] == base'[r] {
      SegmentOrder(base0, 0, r);
    }
    forall y | 0 <= y < |m| && !(base0[lno] <= y <= base0[lno] + off) && Untouched(base', lno, y)
      ensures m'[y] == m0[y] {
      assert base'[0] != y;
      assert Apart(base, 0, lno, y) by {
        forall r {:trigger base[r]} | 0 < r < lno && r < |base| ensures base[r] != y {
          assert base'[r] != y;
        }
      }
    }
  }

  // ----- the decoder's state -----

  /** While the segments are packed: what lies above `kk` is the end of the list, the rest is as it was. */
  ghost predicate Packing(m0: seq<byte>, m: seq<byte>, l: seq<byte>, kk: int) {
    && |m0| == |m| == MTFA_SIZE && |l| == 256 && MTFA_SIZE - 257 <= kk < MTFA_SIZE
    && (forall x | kk < x < MTFA_SIZE :: m[x] == l[x - (MTFA_SIZE - 256)])
    && forall x | 0 <= x <= kk :: m[x] == m0[x]
  }

  lemma PackNext(m0: seq<byte>, m: seq<byte>, base0: seq<nat>, l: seq<byte>, ii: nat, jj: nat)
    requires Holds(m0, base0, l) && ii < 16 && jj < 16 && Packing(m0, m, l, MTFA_SIZE - 256 + 16 * ii + jj)
    ensures |base0| == 16 && base0[ii] + jj < MTFA_SIZE && m[base0[ii] + jj] == l[16 * ii + jj]
    ensures Packing(m0, m[MTFA_SIZE - 256 + 16 * ii + jj := l[16 * ii + jj]], l, MTFA_SIZE - 257 + 16 * ii + jj)
  {
    hide Segments;
    SixteenSegments(base0);
    SegmentOrder(base0, ii, ii);
    ElementAt(m0, base0, l, ii, jj);
  }

  lemma PackDone(m0: seq<byte>, m: seq<byte>, base: seq<nat>, l: seq<byte>)
    requires Packing(m0, m, l, MTFA_SIZE - 257) && |base| == 16
    requires forall r {:trigger base[r]} | 0 <= r < 16 :: base[r] == MTFA_SIZE - 256 + 16 * r
    ensures Holds(m, base, l) && base[0] >= 1
  {
    forall r, c | 0 <= r < 16 && 0 <= c < 16 ensures Stored(m, base, l, r, c) {
      assert base[r] == MTFA_SIZE - 256 + 16 * r;
      assert m[base[r] + c] == l[16 * r + c];
    }
  }

  lemma ShiftedFront(m0: seq<byte>, m: seq<byte>, lo: nat, n: nat, x: byte)
    requires ShiftedUp(m0, m, lo, n) && lo < |m|
    ensures ShiftedUp(m0, m[lo := x], lo, n) && |m| == |m0|
  {
  }

  lemma HoldsGives(m: seq<byte>, base: seq<nat>, l: seq<byte>)
    requires Holds(m, base, l)
    ensures Segments(base) && |base| == 16 && |l| == 256 && |m| == MTFA_SIZE
  {
  }

  lemma FirstSegment(m: seq<byte>, base: seq<nat>, l: seq<byte>, n: nat)
    requires Holds(m, base, l) && n < MTFL_SIZE
    ensures |base| == 16 && |l| == 256 && base[0] + MTFL_SIZE <= MTFA_SIZE && m[base[0] + n] == l[n]
  {
    SegmentOrder(base, 0, 0);
    ElementAt(m, base, l, 0, n);
  }

  class MtfState {
    const mtfa: array<byte>
    const mtfbase: array<nat>
    ghost var list: seq<byte>

    ghost predicate Valid()
      reads `list, mtfa, mtfbase
    {
      && mtfa as object != mtfbase as object && mtfbase.Length == 16 && mtfa.Length == MTFA_SIZE
      && Holds(mtfa[..], mtfbase[..], list) && mtfbase[0] >= 1
    }

    /** Move the `nn0` bytes from `pp` on up by one, four at a time and then one by one. */
    method ShiftNear(pp: nat, nn0: nat)
      requires mtfa.Length == MTFA_SIZE && pp + nn0 < MTFA_SIZE
      modifies mtfa
      ensures ShiftedUp(old(mtfa[..]), mtfa[..], pp, nn0)
    {
      ghost var m0 := mtfa[..];
      var nn: nat := nn0;
      while nn > 3
        invariant nn <= nn0
        invariant forall x {:trigger mtfa[x]} | 0 <= x < MTFA_SIZE ::
          mtfa[x] == if pp + nn < x <= pp + nn0 then m0[x - 1] else m0[x]
      {
        var z := pp + nn;
        mtfa[z] := mtfa[z - 1];
        mtfa[z - 1] := mtfa[z - 2];
        mtfa[z - 2] := mtfa[z - 3];
        mtfa[z - 3] := mtfa[z - 4];
        nn := nn - 4;
      }
      while nn > 0
        invariant nn <= nn0
        invariant forall x {:trigger mtfa[x]} | 0 <= x < MTFA_SIZE ::
          mtfa[x] == if pp + nn < x <= pp + nn0 then m0[x - 1] else m0[x]
      {
        mtfa[pp + nn] := mtfa[pp + nn - 1];
        nn := nn - 1;
      }
    }

    /** Element `nn` of the first segment goes to the front. */
    method NearFront(nn: nat) returns (uc: byte)
      requires mtfa as object != mtfbase as object && Valid() && nn < MTFL_SIZE
      modifies mtfa, `list
      ensures Valid() && list == MoveToFront(old(list), nn) && uc == old(list)[nn]
    {
      hide Segments, MoveToFront, Holds, ShiftedUp;
      ghost var m0 := mtfa[..];
      FirstSegment(m0, mtfbase[..], list, nn);
      var pp := mtfbase[0];
      uc := mtfa[pp + nn];
      ShiftNear(pp, nn);
      ghost var m := mtfa[..];
      mtfa[pp] := uc;
      ShiftedFront(m0, m, pp, nn, uc);
      assert mtfa[..] == m[pp := uc];
      NearStep(m0, mtfa[..], mtfbase[..], list, nn);
      list := MoveToFront(list, nn);
    }

    /** Make room in segment `lno` by moving everything before place `off` up. */
    method ShiftSegment(lno: nat, off: nat)
      requires mtfbase.Length == 16 && mtfa.Length == MTFA_SIZE && lno < 16 && mtfbase[lno] + off < MTFA_SIZE
      modifies mtfa
      ensures ShiftedUp(old(mtfa[..]), mtfa[..], mtfbase[lno], off)
    {
      ghost var m0 := mtfa[..];
      var pp := mtfbase[lno] + off;
      while pp > mtfbase[lno]
        invariant mtfbase[lno] <= pp <= mtfbase[lno] + off
        invariant forall x {:trigger mtfa[x]} | 0 <= x < MTFA_SIZE ::
          mtfa[x] == if pp < x <= mtfbase[lno] + off then m0[x - 1] else m0[x]
      {
        mtfa[pp] := mtfa[pp - 1];
        pp := pp - 1;
      }
    }

    /** Each segment from `lno0` down passes its last element on to the one above. */
    method CarryDown(lno0: nat, ghost off: nat, ghost m0: seq<byte>, ghost base0: seq<nat>, ghost l: seq<byte>)
      requires mtfa as object != mtfbase as object && mtfbase.Length == 16 && mtfa.Length == MTFA_SIZE && lno0 < 16
      requires Holds(m0, base0, l) && |base0| == 16 && base0[0] >= 1 && |l| == 256
      requires Carried(m0, mtfa[..], base0, mtfbase[..], l, lno0, off, lno0)
      modifies mtfa, mtfbase
      ensures Carried(m0, mtfa[..], base0, mtfbase[..], l, lno0, off, 0)
    {
      hide Carried, Holds;
      var lno: nat := lno0;
      while lno > 0
        invariant lno <= lno0 && Carried(m0, mtfa[..], base0, mtfbase[..], l, lno0, off, lno)
      {
        ghost var m, base := mtfa[..], mtfbase[..];
        CarryRead(m0, m, base0, base, l, lno0, off, lno);
        CarryNext(m0, m, base0, base, l, lno0, off, lno);
        mtfbase[lno] := mtfbase[lno] - 1;
        mtfa[mtfbase[lno]] := mtfa[mtfbase[lno - 1] + MTFL_SIZE - 1];
        assert mtfbase[..] == base[lno := base[lno] - 1] && mtfa[..] == m[base[lno] - 1 := l[16 * lno - 1]];
        lno := lno - 1;
      }
    }

    /** The general case: element `off` of segment `lno` goes to the front. */
    method FarFront(lno0: nat, off: nat) returns (uc: byte)
      requires mtfa as object != mtfbase as object && Valid() && 1 <= lno0 < 16 && off < 16
      modifies mtfa, mtfbase, `list
      ensures mtfbase.Length == 16 && mtfa.Length == MTFA_SIZE
      ensures Holds(mtfa[..], mtfbase[..], list) && list == MoveToFront(old(list), 16 * lno0 + off)
        && uc == old(list)[16 * lno0 + off]
    {
      hide Segments, MoveToFront, Holds, Carried, Rotated, Lowered, ShiftedUp, Stored;
      ghost var m0, base0, l := mtfa[..], mtfbase[..], list;
      ElementAt(m0, base0, l, lno0, off);
      HoldsGives(m0, base0, l);
      uc := mtfa[mtfbase[lno0] + off];
      ShiftSegment(lno0, off);
      CarryStart(m0, mtfa[..], base0, l, lno0, off);
      mtfbase[lno0] := mtfbase[lno0] + 1;
      assert mtfbase[..] == base0[lno0 := base0[lno0] + 1];
      CarryDown(lno0, off, m0, base0, l);
      ghost var m, base := mtfa[..], mtfbase[..];
      CarryDone(m0, m, base0, base, l, lno0, off);
      FirstInRange(base0);
      mtfbase[0] := mtfbase[0] - 1;
      mtfa[mtfbase[0]] := uc;
      assert mtfbase[..] == base[0 := base[0] - 1] && mtfa[..] == m[base[0] - 1 := l[16 * lno0 + off]];
      FarStep(m0, mtfa[..], base0, mtfbase[..], l, lno0, off);
      list := MoveToFront(list, 16 * lno0 + off);
    }

    /** Pack the segments at the end of the array again. */
    method Rebuild()
      requires mtfa as object != mtfbase as object && mtfbase.Length == 16 && mtfa.Length == MTFA_SIZE
      requires Holds(mtfa[..], mtfbase[..], list)
      modifies mtfa, mtfbase
      ensures Holds(mtfa[..], mtfbase[..], list) && mtfbase[0] >= 1
    {
      hide Holds;
      ghost var m0, base0, l := mtfa[..], mtfbase[..], list;
      HoldsGives(m0, base0, l);
      var kk: int := MTFA_SIZE - 1;
      var ii := 16;
      while ii > 0
        invariant 0 <= ii <= 16 && kk == MTFA_SIZE - 257 + 16 * ii
        invariant Packing(m0, mtfa[..], l, kk)
        invariant forall r {:trigger mtfbase[r]} | 0 <= r < 16 ::
          mtfbase[r] == if r < ii then base0[r] else MTFA_SIZE - 256 + 16 * r
      {
        ii := ii - 1;
        var jj := 16;
        while jj > 0
          modifies mtfa
          invariant 0 <= jj <= 16 && kk == MTFA_SIZE - 257 + 16 * ii + jj
          invariant Packing(m0, mtfa[..], l, kk)
        {
          jj := jj - 1;
          PackNext(m0, mtfa[..], base0, l, ii, jj);
          ghost var m := mtfa[..];
          mtfa[kk] := mtfa[mtfbase[ii] + jj];
          assert mtfa[..] == m[kk := l[16 * ii + jj]];
          kk := kk - 1;
        }
        mtfbase[ii] := kk + 1;
      }
      PackDone(m0, mtfa[..], mtfbase[..], l);
    }

    /** The list before anything has moved: the bytes in order, in the last segments. */
    constructor ()
      ensures Valid() && list == seq(256, k requires 0 <= k < 256 => k as byte) && fresh(mtfa) && fresh(mtfbase)
    {
      mtfa := new byte[MTFA_SIZE];
      mtfbase := new nat[16];
      list := seq(256, k requires 0 <= k < 256 => k as byte);
      new;
      ghost var m0 := mtfa[..];
      var kk: int := MTFA_SIZE - 1;
      var ii := 16;
      while ii > 0
        modifies mtfa, mtfbase
        invariant 0 <= ii <= 16 && kk == MTFA_SIZE - 257 + 16 * ii
        invariant Packing(m0, mtfa[..], list, kk)
        invariant forall r {:trigger mtfbase[r]} | ii <= r < 16 :: mtfbase[r] == MTFA_SIZE - 256 + 16 * r
      {
        ii := ii - 1;
        var jj := 16;
        while jj > 0
          modifies mtfa
          invariant 0 <= jj <= 16 && kk == MTFA_SIZE - 257 + 16 * ii + jj
          invariant Packing(m0, mtfa[..], list, kk)
        {
          jj := jj - 1;
          mtfa[kk] := ii * MTFL_SIZE + jj;
          kk := kk - 1;
        }
        mtfbase[ii] := kk + 1;
      }
      PackDone(m0, mtfa[..], mtfbase[..], list);
    }

    /** One step of the decoder: element `nn` of the list is returned and goes to the front, wherever it is stored. */
    method Decode(nn: nat) returns (uc: byte)
      requires Valid() && nn < 256
      modifies mtfa, mtfbase, `list
      ensures Valid() && list == MoveToFront(old(list), nn) && uc == old(list)[nn]
    {
      hide Holds, MoveToFront;
      HoldsGives(mtfa[..], mtfbase[..], list);
      if nn < MTFL_SIZE {
        uc := NearFront(nn);
      } else {
        var lno, off := nn / MTFL_SIZE, nn % MTFL_SIZE;
        uc := FarFront(lno, off);
        if mtfbase[0] == 0 {
          Rebuild();
        }
      }
    }
  }
}
