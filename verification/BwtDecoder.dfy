/** The decoder's two ways of holding the inverse of the rotation sort: `tt` words and 20-bit `ll` entries. */
module BwtDecoder {
  import opened Bytes
  import opened Rotations
  import opened Permutations
  import opened RadixPass
  import opened BlockSort
  import opened InverseBwt

  ghost predicate CountsOf(l: seq<byte>, ft: seq<nat>) {
    |ft| == 256 && forall c: byte :: ft[c] == multiset(l)[c]
  }

  ghost predicate StartsOf(l: seq<byte>, cf: seq<nat>) {
    |cf| == 257 && forall c | 0 <= c <= 256 :: cf[c] == Start(l, c)
  }

  lemma CountAtMost(l: seq<byte>, c: byte)
    ensures multiset(l)[c] <= |l|
  {
    StartNext(l, c);
  }

  /** Bucket starts from byte counts, with the range checks that guard against corrupt streams. */
  method BuildCftab(unzftab: array<nat>, nblock: nat, ghost l: seq<byte>) returns (ok: bool, cftab: array<nat>)
    requires unzftab.Length == 256 && nblock == |l| && CountsOf(l, unzftab[..])
    ensures ok && fresh(cftab) && StartsOf(l, cftab[..])
  {
    cftab := new nat[257](_ => 0);
    ghost var u := unzftab[..];
    StartEnds(l);
    assert l[..|l|] == l;
    forall c: byte ensures u[c] <= nblock { PrefixCountAtMost(l, |l|, c); CountAtMost(l, c); }
    var i := 0;
    while i <= 255
      invariant 0 <= i <= 256
    {
      if unzftab[i] > nblock { return false, cftab; }
      i := i + 1;
    }
    cftab[0] := 0;
    i := 1;
    while i <= 256
      invariant 1 <= i <= 257 && cftab[0] == 0 && unzftab[..] == u
      invariant forall c | 1 <= c < i :: cftab[c] == u[c - 1]
    {
      cftab[i] := unzftab[i - 1];
      i := i + 1;
    }
    i := 1;
    while i <= 256
      invariant 1 <= i <= 257
      invariant forall c | 0 <= c < i :: cftab[c] == Start(l, c)
      invariant forall c | i <= c <= 256 :: cftab[c] == u[c - 1]
    {
      StartNext(l, i - 1);
      cftab[i] := cftab[i] + cftab[i - 1];
      i := i + 1;
    }
    assert StartsOf(l, cftab[..]);
    i := 0;
    while i <= 256
      invariant 0 <= i <= 257 && StartsOf(l, cftab[..])
    {
      assert cftab[i] == Start(l, i);
      if cftab[i] > nblock { return false, cftab; }
      i := i + 1;
    }
    i := 1;
    while i <= 256
      invariant 1 <= i <= 257 && StartsOf(l, cftab[..])
    {
      assert cftab[i] == Start(l, i) && cftab[i - 1] == Start(l, i - 1);
      StartMonotone(l, i - 1, i);
      if cftab[i - 1] > cftab[i] { return false, cftab; }
      i := i + 1;
    }
    ok := true;
  }

  /** Places used so far while the first `i` entries have been ranked. */
  ghost predicate Ranking(l: seq<byte>, cf: seq<nat>, i: nat)
    requires i <= |l|
  {
    |cf| == 257 && forall c: byte :: cf[c] == Start(l, c) + multiset(l[..i])[c]
  }

  lemma RankingStart(l: seq<byte>, cf: seq<nat>)
    requires StartsOf(l, cf)
    ensures Ranking(l, cf, 0)
  {
    assert l[..0] == [];
  }

  lemma RankingNext(l: seq<byte>, cf: seq<nat>, i: nat)
    requires i < |l| && Ranking(l, cf, i)
    ensures |cf| == 257 && cf[l[i]] == Rank(l, i) < |l|
    ensures Ranking(l, cf[l[i] := cf[l[i]] + 1], i + 1)
  {
    RankInBucket(l, i);
    forall c: byte ensures multiset(l[..i + 1])[c] == multiset(l[..i])[c] + if l[i] == c then 1 else 0 {
      PrefixCount(l, i, c);
    }
  }

  lemma RankOneToOne(l: seq<byte>, x: nat, y: nat)
    requires x < |l| && y < |l| && Rank(l, x) == Rank(l, y)
    ensures x == y
  {
    if l[x] < l[y] || (l[x] == l[y] && x < y) { RankOrder(l, x, y); }
    if l[y] < l[x] || (l[x] == l[y] && y < x) { RankOrder(l, y, x); }
  }

  // ----- FAST: one 32-bit word per row, byte below, row above -----

  /** `w | (i << 8)` for a word whose upper part is still empty. */
  function OrHigh(w: nat, i: nat): nat
    requires w < 256
  {
    w + 256 * i
  }

  /** `w & 0xff`. */
  function Low(w: nat): byte {
    w % 256
  }

  /** `w >> 8`. */
  function High(w: nat): nat {
    w / 256
  }

  lemma WordParts(c: byte, i: nat)
    ensures Low(c + 256 * i) == c && High(c + 256 * i) == i
  {
  }

  /** Words `tt` hold the column `l` below the rows `src`. */
  ghost predicate HoldsWords(l: seq<byte>, tt: seq<nat>, src: seq<nat>) {
    |l| == |src| <= |tt| && forall k | 0 <= k < |l| :: tt[k] == l[k] + 256 * src[k]
  }

  ghost predicate IsRankOf(l: seq<byte>, x: nat, k: nat) {
    x < |l| && Rank(l, x) == k
  }

  /** Exactly the ranks of the first `i` entries are filled in `src`. */
  ghost predicate FilledRows(l: seq<byte>, src: seq<nat>, i: nat) {
    && |l| == |src| && i <= |l|
    && (forall k {:trigger src[k]} | 0 <= k < |l| && src[k] != 0 :: IsRankOf(l, src[k], k) && src[k] < i)
    && (forall x: nat {:trigger Rank(l, x)} | x < i :: Rank(l, x) < |l| && src[Rank(l, x)] == x)
  }

  lemma FilledNext(l: seq<byte>, src: seq<nat>, i: nat)
    requires i < |l| && FilledRows(l, src, i)
    ensures Rank(l, i) < |l| && src[Rank(l, i)] == 0
    ensures FilledRows(l, src[Rank(l, i) := i], i + 1)
  {
    RankInBucket(l, i);
    var k := Rank(l, i);
    hide Rank, InBucket;
    if src[k] != 0 {
      assert IsRankOf(l, src[k], k);
      RankOneToOne(l, src[k], i);
    }
    var src1 := src[k := i];
    forall x: nat | x < i + 1 ensures Rank(l, x) < |l| && src1[Rank(l, x)] == x {
      if x < i && Rank(l, x) == k { RankOneToOne(l, x, i); }
    }
  }

  lemma WordsNext(l: seq<byte>, tt: seq<nat>, src: seq<nat>, i: nat, k: nat)
    requires HoldsWords(l, tt, src) && k < |l| && src[k] == 0
    ensures tt[k] < 256 && HoldsWords(l, tt[k := OrHigh(tt[k], i)], src[k := i])
  {
  }

  lemma RowsFilled(l: seq<byte>, src: seq<nat>)
    requires FilledRows(l, src, |l|)
    ensures UndoesRank(l, src)
  {
    var ranks := seq(|l|, x requires 0 <= x < |l| => Rank(l, x));
    InverseIsPermutation(src, ranks);
    forall j | 0 <= j < |src| ensures src[j] < |l| && Rank(l, src[j]) == j {
      assert ranks[src[j]] == j;
    }
  }

  /** `tt` holds, for each row, its last byte and the row T leads to. */
  ghost predicate FastVector(l: seq<byte>, t: seq<nat>, tt: seq<nat>) {
    UndoesRank(l, t) && |l| <= |tt| && forall k | 0 <= k < |l| :: tt[k] == l[k] + 256 * t[k]
  }

  lemma FilledAll(l: seq<byte>, tt: seq<nat>, src: seq<nat>)
    requires HoldsWords(l, tt, src) && FilledRows(l, src, |l|)
    ensures FastVector(l, src, tt)
  {
    hide FilledRows, UndoesRank;
    RowsFilled(l, src);
  }

  lemma {:induction false} FillRows(l: seq<byte>, i: nat) returns (src: seq<nat>)
    requires i <= |l|
    ensures FilledRows(l, src, i)
  {
    if i == 0 {
      src := seq(|l|, _ => 0);
    } else {
      src := FillRows(l, i - 1);
      FilledNext(l, src, i - 1);
      src := src[Rank(l, i - 1) := i - 1];
    }
  }

  /** Every column has its map T. */
  lemma RowsOf(l: seq<byte>) returns (t: seq<nat>)
    ensures UndoesRank(l, t)
  {
    t := FillRows(l, |l|);
    RowsFilled(l, t);
  }

  /** State of the FAST construction after `i` entries. */
  ghost predicate FastProgress(l: seq<byte>, tt: seq<nat>, cf: seq<nat>, t: seq<nat>, i: nat) {
    i <= |l| && HoldsWords(l, tt, t) && FilledRows(l, t, i) && Ranking(l, cf, i)
  }

  lemma FastProgressStart(l: seq<byte>, tt: seq<nat>, cf: seq<nat>) returns (t: seq<nat>)
    requires |l| <= |tt| && (forall i | 0 <= i < |l| :: tt[i] == l[i]) && StartsOf(l, cf)
    ensures FastProgress(l, tt, cf, t, 0)
  {
    t := seq(|l|, _ => 0);
    RankingStart(l, cf);
  }

  lemma WordByte(l: seq<byte>, tt: seq<nat>, src: seq<nat>, k: nat)
    requires HoldsWords(l, tt, src) && k < |l|
    ensures |src| == |l| <= |tt| && Low(tt[k]) == l[k]
  {
    WordParts(l[k], src[k]);
  }

  lemma FastProgressNext(l: seq<byte>, tt: seq<nat>, cf: seq<nat>, t: seq<nat>, i: nat)
    requires i < |l| && FastProgress(l, tt, cf, t, i)
    ensures |l| <= |tt| && |cf| == 257 && |t| == |l| && Low(tt[i]) == l[i]
    ensures cf[l[i]] < |l| && tt[cf[l[i]]] < 256
    ensures var k := cf[l[i]]; FastProgress(l, tt[k := OrHigh(tt[k], i)], cf[l[i] := k + 1], t[k := i], i + 1)
  {
    hide Ranking, HoldsWords, FilledRows, Rank;
    RankingNext(l, cf, i);
    FilledNext(l, t, i);
    WordsNext(l, tt, t, i, Rank(l, i));
    WordByte(l, tt, t, i);
  }

  /** Store a word and count its slot as taken. */
  method Deposit(tt: array<nat>, k: nat, w: nat, cftab: array<nat>, uc: nat)
    requires tt != cftab && k < tt.Length && uc < cftab.Length
    modifies tt, cftab
    ensures tt[..] == old(tt[..])[k := w]
    ensures cftab[..] == old(cftab[..])[uc := k + 1]
  {
    tt[k] := w;
    cftab[uc] := k + 1;
  }

  lemma FastProgressAll(l: seq<byte>, tt: seq<nat>, cf: seq<nat>, t: seq<nat>)
    requires FastProgress(l, tt, cf, t, |l|)
    ensures FastVector(l, t, tt)
  {
    FilledAll(l, tt, t);
  }

  method BuildFast(tt: array<nat>, cftab: array<nat>, nblock: nat, ghost l: seq<byte>) returns (ghost t: seq<nat>)
    requires tt != cftab && nblock == |l| <= tt.Length && StartsOf(l, cftab[..])
    requires forall i | 0 <= i < nblock :: tt[i] == l[i]
    modifies tt, cftab
    ensures FastVector(l, t, tt[..])
  {
    hide FastProgress, Low, OrHigh, FastVector, StartsOf;
    t := FastProgressStart(l, tt[..], cftab[..]);
    var i := 0;
    while i < nblock
      invariant 0 <= i <= nblock
      invariant FastProgress(l, tt[..], cftab[..], t, i)
    {
      ghost var tt0, cf0 := tt[..], cftab[..];
      FastProgressNext(l, tt0, cf0, t, i);
      var uc := Low(tt[i]);
      var k := cftab[uc];
      var w := OrHigh(tt[k], i);
      Deposit(tt, k, w, cftab, uc);
      t := t[k := i];
      i := i + 1;
    }
    FastProgressAll(l, tt[..], cftab[..], t);
  }

  datatype Got = Corrupt | Got(ch: byte, tPos: nat)

  /** One byte from the `tt` vector: the word at `tPos` gives the byte and the next position. */
  function GetFast(tt: seq<nat>, tPos: nat): Got {
    if tPos >= |tt| then Corrupt else Got(Low(tt[tPos]), High(tt[tPos]))
  }

  /** The `k`-th byte fetched after starting at `tt[origPtr] >> 8`. */
  ghost function FastByte(tt: seq<nat>, origPtr: nat, k: nat): Got
    requires origPtr < |tt|
  {
    if k == 0 then GetFast(tt, High(tt[origPtr]))
    else
      var g := FastByte(tt, origPtr, k - 1);
      if g.Corrupt? then Corrupt else GetFast(tt, g.tPos)
  }

  /** T maps rows to rows. */
  lemma RowsToRows(l: seq<byte>, t: seq<nat>)
    requires UndoesRank(l, t)
    ensures |t| == |l| && forall j | 0 <= j < |t| :: t[j] < |t|
  {
    hide Rank;
  }

  /** Byte `k` that the walk along T spells, for any column and any row to start from. */
  ghost function Spelled(l: seq<byte>, t: seq<nat>, origPtr: nat, k: nat): byte
    requires UndoesRank(l, t) && origPtr < |l|
  {
    RowsToRows(l, t);
    l[Walk(t, origPtr, k + 1)]
  }

  /** One step of the FAST decoder. */
  lemma FastStep(l: seq<byte>, t: seq<nat>, tt: seq<nat>, origPtr: nat, k: nat)
    requires FastVector(l, t, tt) && origPtr < |l|
    ensures |t| == |l| <= |tt| && forall j | 0 <= j < |t| :: t[j] < |t|
    ensures GetFast(tt, Walk(t, origPtr, k + 1)) == Got(Spelled(l, t, origPtr, k), Walk(t, origPtr, k + 2))
    ensures High(tt[origPtr]) == Walk(t, origPtr, 1)
  {
    hide UndoesRank, Low, High;
    RowsToRows(l, t);
    var p := Walk(t, origPtr, k + 1);
    WordParts(l[p], t[p]);
    WordParts(l[origPtr], t[origPtr]);
    assert Walk(t, origPtr, 0) == origPtr;
  }

  /** The FAST decoder delivers what the walk spells, for any block. */
  lemma {:induction false} FastSpells(l: seq<byte>, t: seq<nat>, tt: seq<nat>, origPtr: nat, k: nat)
    requires FastVector(l, t, tt) && origPtr < |l|
    ensures |t| == |l| <= |tt| && forall j | 0 <= j < |t| :: t[j] < |t|
    ensures FastByte(tt, origPtr, k) == Got(Spelled(l, t, origPtr, k), Walk(t, origPtr, k + 2))
  {
    hide FastVector, Spelled, Walk, High;
    FastStep(l, t, tt, origPtr, k);
    if k > 0 {
      FastSpells(l, t, tt, origPtr, k - 1);
    }
  }

  /**
   * For every block, periodic ones included, the FAST vector made from its sorted rotations spells the block over and
   * over.
   */
  lemma FastSpellsBlock(b: seq<byte>, ptr: seq<nat>, t: seq<nat>, tt: seq<nat>, origPtr: nat, k: nat)
    requires SortedRotations(b, ptr) && origPtr < |b| == |ptr| && ptr[origPtr] == 0
    requires FastVector(LastColumn(b, ptr), t, tt)
    ensures FastByte(tt, origPtr, k).Got? && FastByte(tt, origPtr, k).ch == At(b, k)
  {
    hide At, SortedRotations, UndoesRank;
    FastSpells(LastColumn(b, ptr), t, tt, origPtr, k);
    WalkSpellsBlock(b, ptr, t, origPtr, k);
  }
}
