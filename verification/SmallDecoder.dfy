/** The memory-saving decoder: 20-bit entries in two arrays, pointer reversal, and bytes found by bisection. */
module SmallDecoder {
  import opened Bytes
  import opened Permutations
  import opened RadixPass
  import opened InverseBwt
  import opened BwtDecoder

  // ----- 20-bit entries: 16 bits in `ll16`, 4 bits in half a byte of `ll4` -----

  function SetNibble(x: byte, i: nat, n: nat): byte
    requires n < 16
  {
    if i % 2 == 0 then x / 16 * 16 + n else x % 16 + n * 16
  }

  function GetNibble(x: byte, i: nat): (n: nat)
    ensures n < 16
  {
    if i % 2 == 0 then x % 16 else x / 16
  }

  lemma NibbleStored(x: byte, i: nat, n: nat, j: nat)
    requires n < 16
    ensures GetNibble(SetNibble(x, i, n), j) == if i % 2 == j % 2 then n else GetNibble(x, j)
  {
    var hi, lo, y := x / 16, x % 16, SetNibble(x, i, n);
    if i % 2 == 0 {
      assert y == 16 * hi + n;
      assert y / 16 == hi && y % 16 == n;
    } else {
      assert y == 16 * n + lo;
      assert y / 16 == n && y % 16 == lo;
    }
  }

  predicate LLRoom(ll16: seq<nat>, ll4: seq<byte>) {
    2 * |ll4| >= |ll16|
  }

  function GetLL(ll16: seq<nat>, ll4: seq<byte>, i: nat): nat
    requires LLRoom(ll16, ll4) && i < |ll16|
  {
    ll16[i] + 65536 * GetNibble(ll4[i / 2], i)
  }

  /** All the entries, as one sequence. */
  ghost function Entries(ll16: seq<nat>, ll4: seq<byte>): (s: seq<nat>)
    requires LLRoom(ll16, ll4)
    ensures |s| == |ll16| && forall j | 0 <= j < |s| :: s[j] == GetLL(ll16, ll4, j)
  {
    seq(|ll16|, j requires 0 <= j < |ll16| => GetLL(ll16, ll4, j))
  }

  /** A stored 20-bit entry reads back, and no other entry changes. */
  lemma EntryStored(ll16: seq<nat>, ll4: seq<byte>, i: nat, n: nat)
    requires LLRoom(ll16, ll4) && i < |ll16| && n < 0x10_0000
    ensures Entries(ll16[i := n % 65536], ll4[i / 2 := SetNibble(ll4[i / 2], i, n / 65536)]) ==
      Entries(ll16, ll4)[i := n]
  {
    var a, c := ll16[i := n % 65536], ll4[i / 2 := SetNibble(ll4[i / 2], i, n / 65536)];
    forall j: nat | j < |ll16| ensures GetLL(a, c, j) == if j == i then n else GetLL(ll16, ll4, j) {
      NibbleStored(ll4[i / 2], i, n / 65536, j);
      if j != i && j / 2 == i / 2 {
        assert j % 2 != i % 2;
      }
    }
  }

  method SetLL(ll16: array<nat>, ll4: array<byte>, i: nat, n: nat)
    requires ll16 as object != ll4 as object
    requires LLRoom(ll16[..], ll4[..]) && i < ll16.Length && n < 0x10_0000
    modifies ll16, ll4
    ensures LLRoom(ll16[..], ll4[..])
    ensures ll16[..] == old(ll16[..])[i := n % 65536]
    ensures Entries(ll16[..], ll4[..]) == old(Entries(ll16[..], ll4[..]))[i := n]
  {
    EntryStored(ll16[..], ll4[..], i, n);
    ll16[i] := n % 65536;
    ll4[i / 2] := SetNibble(ll4[i / 2], i, n / 65536);
  }

  // ----- the T vector -----

  ghost predicate RanksStored(l: seq<byte>, ll16: seq<nat>, ll4: seq<byte>, i: nat) {
    && i <= |l| <= |ll16| && LLRoom(ll16, ll4)
    && (forall j: nat {:trigger Rank(l, j)} | j < i :: Entries(ll16, ll4)[j] == Rank(l, j))
    && (forall j | i <= j < |l| :: ll16[j] == l[j])
  }

  lemma RanksStoredNext(l: seq<byte>, ll16: seq<nat>, ll4: seq<byte>, i: nat, new16: seq<nat>, new4: seq<byte>)
    requires i < |l| && RanksStored(l, ll16, ll4, i) && LLRoom(new16, new4) && Rank(l, i) < |l|
    requires new16 == ll16[i := Rank(l, i) % 65536] && Entries(new16, new4) == Entries(ll16, ll4)[i := Rank(l, i)]
    ensures RanksStored(l, new16, new4, i + 1)
  {
  }

  /** State of the SMALL construction after `i` entries. */
  ghost predicate SmallProgress(l: seq<byte>, ll16: seq<nat>, ll4: seq<byte>, cf: seq<nat>, i: nat) {
    RanksStored(l, ll16, ll4, i) && Ranking(l, cf, i)
  }

  lemma SmallProgressAt(l: seq<byte>, ll16: seq<nat>, ll4: seq<byte>, cf: seq<nat>, i: nat)
    requires i < |l| && SmallProgress(l, ll16, ll4, cf, i)
    ensures |cf| == 257 && ll16[i] == l[i] && cf[l[i]] == Rank(l, i) < |l|
  {
    RankingNext(l, cf, i);
  }

  lemma SmallProgressNext(l: seq<byte>, ll16: seq<nat>, ll4: seq<byte>, cf: seq<nat>, i: nat, new16: seq<nat>,
      new4: seq<byte>)
    requires i < |l| && SmallProgress(l, ll16, ll4, cf, i) && LLRoom(new16, new4) && |cf| == 257
    requires new16 == ll16[i := cf[l[i]] % 65536] && Entries(new16, new4) == Entries(ll16, ll4)[i := cf[l[i]]]
    ensures SmallProgress(l, new16, new4, cf[l[i] := cf[l[i]] + 1], i + 1)
  {
    hide Ranking, RanksStored, Entries;
    RankingNext(l, cf, i);
    RanksStoredNext(l, ll16, ll4, i, new16, new4);
  }

  lemma SmallProgressStart(l: seq<byte>, ll16: seq<nat>, ll4: seq<byte>, cf: seq<nat>)
    requires |l| <= |ll16| && LLRoom(ll16, ll4) && StartsOf(l, cf) && forall i | 0 <= i < |l| :: ll16[i] == l[i]
    ensures |cf| == 257 && SmallProgress(l, ll16, ll4, cf, 0)
  {
    RankingStart(l, cf);
  }

  lemma SmallProgressDone(l: seq<byte>, ll16: seq<nat>, ll4: seq<byte>, cf: seq<nat>, i: nat)
    requires SmallProgress(l, ll16, ll4, cf, i)
    ensures RanksStored(l, ll16, ll4, i)
  {
  }

  method BuildSmall(ll16: array<nat>, ll4: array<byte>, cftab: array<nat>, nblock: nat, ghost l: seq<byte>)
    requires ll16 as object != ll4 as object && cftab as object != ll4 as object && cftab != ll16
    requires nblock == |l| <= ll16.Length && |l| <= 900000 && LLRoom(ll16[..], ll4[..]) && StartsOf(l, cftab[..])
    requires forall i | 0 <= i < nblock :: ll16[i] == l[i]
    modifies ll16, ll4
    ensures RanksStored(l, ll16[..], ll4[..], nblock) && cftab[..] == old(cftab[..])
  {
    hide StartsOf, SmallProgress, Entries, Rank;
    ghost var cf0 := cftab[..];
    SmallProgressStart(l, ll16[..], ll4[..], cf0);
    var cftabCopy := new nat[257](c requires 0 <= c < 257 reads cftab => cftab[c]);
    assert cftabCopy[..] == cf0;
    var i := 0;
    while i < nblock
      invariant 0 <= i <= nblock && LLRoom(ll16[..], ll4[..]) && cftab[..] == cf0
      invariant SmallProgress(l, ll16[..], ll4[..], cftabCopy[..], i)
    {
      ghost var was16, was4, cf := ll16[..], ll4[..], cftabCopy[..];
      SmallProgressAt(l, was16, was4, cf, i);
      var uc := ll16[i];
      var k := cftabCopy[uc];
      SetLL(ll16, ll4, i, k);
      cftabCopy[uc] := k + 1;
      assert cftabCopy[..] == cf[uc := k + 1];
      SmallProgressNext(l, was16, was4, cf, i, ll16[..], ll4[..]);
      i := i + 1;
    }
    SmallProgressDone(l, ll16[..], ll4[..], cftabCopy[..], i);
  }

  /** Rows met when following the ranks from `o`. */
  ghost function Orbit(l: seq<byte>, o: nat, s: nat): (x: nat)
    requires o < |l|
    ensures x < |l|
  {
    if s == 0 then o
    else
      RankInBucket(l, Orbit(l, o, s - 1));
      Rank(l, Orbit(l, o, s - 1))
  }

  lemma OrbitStep(l: seq<byte>, o: nat, s: nat)
    requires o < |l|
    ensures Orbit(l, o, s) == if s == 0 then o else Rank(l, Orbit(l, o, s - 1))
  {
    hide Rank;
  }

  lemma {:induction false} OrbitBack(l: seq<byte>, o: nat, s: nat, u: nat)
    requires o < |l| && u <= s && Orbit(l, o, s) == Orbit(l, o, u)
    ensures Orbit(l, o, s - u) == o
  {
    hide *;
    OrbitStep(l, o, s);
    OrbitStep(l, o, u);
    if u > 0 {
      RankOneToOne(l, Orbit(l, o, s - 1), Orbit(l, o, u - 1));
      OrbitBack(l, o, s - 1, u - 1);
    }
  }

  ghost predicate OnOrbit(l: seq<byte>, o: nat, m: nat, x: nat)
    requires o < |l|
  {
    exists s: nat :: 1 <= s <= m && Orbit(l, o, s) == x
  }

  /** Entries after `m` reversals along the orbit of `o`. */
  ghost predicate Reversed(l: seq<byte>, ll: seq<nat>, o: nat, m: nat)
    requires o < |l|
  {
    && |l| <= |ll|
    && (forall s: nat {:trigger Orbit(l, o, s)} | 1 <= s <= m :: ll[Orbit(l, o, s)] == Orbit(l, o, s - 1))
    && (forall x: nat {:trigger ll[x]} | x < |l| && !OnOrbit(l, o, m, x) :: ll[x] == Rank(l, x))
  }

  ghost predicate NotBack(l: seq<byte>, o: nat, m: nat)
    requires o < |l|
  {
    forall s: nat {:trigger Orbit(l, o, s)} | 1 <= s <= m :: Orbit(l, o, s) != o
  }

  lemma OrbitFresh(l: seq<byte>, o: nat, m: nat)
    requires o < |l| && NotBack(l, o, m)
    ensures !OnOrbit(l, o, m, Orbit(l, o, m + 1))
  {
    if OnOrbit(l, o, m, Orbit(l, o, m + 1)) {
      var s: nat :| 1 <= s <= m && Orbit(l, o, s) == Orbit(l, o, m + 1);
      OrbitBack(l, o, m + 1, s);
    }
  }

  /** The orbit meets a new row at every step until it is back, so it is back within |l| steps. */
  lemma OrbitShort(l: seq<byte>, o: nat, m: nat)
    requires o < |l| && NotBack(l, o, m)
    ensures m < |l|
  {
    var rows := seq(m + 1, s requires 0 <= s < m + 1 => Orbit(l, o, s));
    forall p, q | 0 <= p < q < |rows| ensures rows[p] != rows[q] {
      if rows[p] == rows[q] {
        assert Orbit(l, o, q) == Orbit(l, o, p);
        OrbitBack(l, o, q, p);
      }
    }
    var all := Iota(|l|);
    forall x | x in Elements(rows) ensures x in Elements(all) {
      assert x < |l| && all[x] == x;
    }
    DistinctCount(rows);
    DistinctCount(all);
    SubsetCount(Elements(rows), Elements(all));
  }

  lemma OrbitGrows(l: seq<byte>, o: nat, m: nat, x: nat)
    requires o < |l|
    ensures OnOrbit(l, o, m, x) ==> OnOrbit(l, o, m + 1, x)
    ensures OnOrbit(l, o, m + 1, Orbit(l, o, m + 1))
  {
  }

  lemma OrbitHas(l: seq<byte>, o: nat, m: nat, s: nat)
    requires o < |l| && 1 <= s <= m
    ensures OnOrbit(l, o, m, Orbit(l, o, s))
  {
  }

  lemma ReversedNext(l: seq<byte>, ll: seq<nat>, o: nat, m: nat)
    requires o < |l| && NotBack(l, o, m) && Reversed(l, ll, o, m)
    ensures |l| <= |ll| && ll[Orbit(l, o, m + 1)] == Orbit(l, o, m + 2)
    ensures Reversed(l, ll[Orbit(l, o, m + 1) := Orbit(l, o, m)], o, m + 1)
  {
    hide Rank, OnOrbit;
    OrbitFresh(l, o, m);
    var y := Orbit(l, o, m + 1);
    var lm := ll[y := Orbit(l, o, m)];
    forall s: nat | 1 <= s <= m + 1 ensures lm[Orbit(l, o, s)] == Orbit(l, o, s - 1) {
      if s <= m { OrbitHas(l, o, m, s); }
    }
    forall x: nat | x < |l| && !OnOrbit(l, o, m + 1, x) ensures lm[x] == Rank(l, x) {
      OrbitGrows(l, o, m, x);
    }
  }

  /** On the rows that the walk from `o` visits, the entries lead where T leads. */
  ghost predicate SmallVector(l: seq<byte>, t: seq<nat>, ll: seq<nat>, o: nat) {
    && UndoesRank(l, t) && o < |l| <= |ll|
    && forall k: nat {:trigger Walk(t, o, k)} :: ll[Walk(t, o, k)] == t[Walk(t, o, k)]
  }

  lemma UndoesTo(l: seq<byte>, t: seq<nat>, x: nat)
    requires UndoesRank(l, t) && x < |l|
    ensures Rank(l, x) < |l| && t[Rank(l, x)] == x
  {
    RankInBucket(l, x);
    var j := Rank(l, x);
    RankOneToOne(l, t[j], x);
  }

  lemma OrbitZero(l: seq<byte>, o: nat)
    requires o < |l|
    ensures Orbit(l, o, 0) == o
  {
  }

  lemma OrbitNext(l: seq<byte>, o: nat, s: nat)
    requires o < |l|
    ensures Orbit(l, o, s + 1) == Rank(l, Orbit(l, o, s))
  {
  }

  lemma UndoesRange(l: seq<byte>, t: seq<nat>)
    requires UndoesRank(l, t)
    ensures |t| == |l| && forall j | 0 <= j < |t| :: t[j] < |t|
  {
  }

  /** Reversing the orbit until it is back at `o` gives T on every row of the walk. */
  lemma {:induction false} WalkOnOrbit(l: seq<byte>, t: seq<nat>, o: nat, m: nat, k: nat) returns (s: nat)
    requires UndoesRank(l, t) && o < |l| && m >= 1 && Orbit(l, o, m) == o
    ensures 1 <= s <= m && Orbit(l, o, s) == Walk(t, o, k) && t[Walk(t, o, k)] == Orbit(l, o, s - 1)
  {
    hide UndoesRank, Rank, Orbit;
    UndoesRange(l, t);
    OrbitZero(l, o);
    if k == 0 {
      s := m;
    } else {
      var r := WalkOnOrbit(l, t, o, m, k - 1);
      s := if r == 1 then m else r - 1;
    }
    OrbitNext(l, o, s - 1);
    UndoesTo(l, t, Orbit(l, o, s - 1));
  }

  lemma ReversedAll(l: seq<byte>, t: seq<nat>, ll: seq<nat>, o: nat, m: nat)
    requires UndoesRank(l, t) && o < |l| && m >= 1 && Orbit(l, o, m) == o && Reversed(l, ll, o, m)
    ensures SmallVector(l, t, ll, o)
  {
    forall k: nat ensures ll[Walk(t, o, k)] == t[Walk(t, o, k)] {
      var s := WalkOnOrbit(l, t, o, m, k);
      assert ll[Orbit(l, o, s)] == Orbit(l, o, s - 1);
    }
  }

  lemma ReversedStart(l: seq<byte>, ll16: seq<nat>, ll4: seq<byte>, o: nat)
    requires o < |l| && RanksStored(l, ll16, ll4, |l|)
    ensures LLRoom(ll16, ll4) && Reversed(l, Entries(ll16, ll4), o, 0) && NotBack(l, o, 0)
    ensures |l| <= |ll16| && GetLL(ll16, ll4, o) == Orbit(l, o, 1)
  {
    assert Entries(ll16, ll4)[o] == Rank(l, o);
  }

  lemma NotBackNext(l: seq<byte>, o: nat, m: nat)
    requires o < |l| && NotBack(l, o, m) && Orbit(l, o, m + 1) != o
    ensures NotBack(l, o, m + 1)
  {
  }

  /** Pointer reversal along the cycle of `origPtr`; it always comes back. */
  method ReversePointers(ll16: array<nat>, ll4: array<byte>, origPtr: nat, ghost l: seq<byte>, ghost t: seq<nat>)
    requires ll16 as object != ll4 as object && |l| <= 900000 && origPtr < |l| && |l| <= ll16.Length
    requires RanksStored(l, ll16[..], ll4[..], |l|) && UndoesRank(l, t)
    modifies ll16, ll4
    ensures LLRoom(ll16[..], ll4[..]) && SmallVector(l, t, Entries(ll16[..], ll4[..]), origPtr)
  {
    hide Reversed, NotBack, RanksStored, UndoesRank, SmallVector, Orbit;
    ReversedStart(l, ll16[..], ll4[..], origPtr);
    OrbitZero(l, origPtr);
    var i := origPtr;
    var j := GetLL(ll16[..], ll4[..], i);
    ghost var m := 0;
    while true
      invariant LLRoom(ll16[..], ll4[..]) && Reversed(l, Entries(ll16[..], ll4[..]), origPtr, m)
        && NotBack(l, origPtr, m)
      invariant i == Orbit(l, origPtr, m) && j == Orbit(l, origPtr, m + 1)
      decreases |l| - m
    {
      OrbitShort(l, origPtr, m);
      ReversedNext(l, Entries(ll16[..], ll4[..]), origPtr, m);
      var tmp := GetLL(ll16[..], ll4[..], j);
      SetLL(ll16, ll4, j, i);
      i := j;
      j := tmp;
      if i == origPtr { break; }
      NotBackNext(l, origPtr, m);
      m := m + 1;
    }
    ReversedAll(l, t, Entries(ll16[..], ll4[..]), origPtr, m + 1);
  }

  /** Bisection of the bucket starts: the byte whose bucket holds row `indx`. */
  method IndexIntoF(indx: nat, cftab: array<nat>, ghost l: seq<byte>) returns (nb: nat)
    requires indx < |l| && StartsOf(l, cftab[..])
    ensures nb < 256 && InBucket(l, nb, indx)
  {
    StartEnds(l);
    nb := 0;
    var na := 256;
    while true
      invariant 0 <= nb < na <= 256 && (na - nb > 1 || nb < na)
      invariant cftab.Length == 257 && cftab[nb] == Start(l, nb) <= indx < Start(l, na) == cftab[na]
      invariant na - nb > 1
      decreases na - nb
    {
      var mid := (nb + na) / 2;
      assert cftab[mid] == Start(l, mid);
      if indx >= cftab[mid] { nb := mid; } else { na := mid; }
      if na - nb == 1 { break; }
    }
  }

  /** Byte and next position of one step on the SMALL vector. */
  ghost predicate GetSmall(l: seq<byte>, ll: seq<nat>, tPos: nat, g: Got) {
    if tPos >= |ll| then g == Corrupt
    else g.Got? && InBucket(l, g.ch, tPos) && g.tPos == ll[tPos]
  }

  method FetchSmall(ll16: array<nat>, ll4: array<byte>, cftab: array<nat>, tPos: nat, ghost l: seq<byte>)
      returns (g: Got)
    requires LLRoom(ll16[..], ll4[..]) && StartsOf(l, cftab[..])
    requires tPos < |l| <= ll16.Length || tPos >= ll16.Length
    ensures GetSmall(l, Entries(ll16[..], ll4[..]), tPos, g)
  {
    if tPos >= ll16.Length { return Corrupt; }
    var nb := IndexIntoF(tPos, cftab, l);
    g := Got(nb, GetLL(ll16[..], ll4[..], tPos));
  }

  /** One step of the SMALL decoder. */
  lemma SmallStep(l: seq<byte>, t: seq<nat>, ll: seq<nat>, origPtr: nat, k: nat, g: Got)
    requires SmallVector(l, t, ll, origPtr) && |t| == |l| && forall j | 0 <= j < |t| :: t[j] < |t|
    requires GetSmall(l, ll, Walk(t, origPtr, k), g)
    ensures g == Got(Spelled(l, t, origPtr, k), Walk(t, origPtr, k + 1))
  {
    hide InBucket;
    var p := Walk(t, origPtr, k);
    RankInBucket(l, t[p]);
    BucketsDisjoint(l, l[t[p]], g.ch, p);
  }

  /**
   * At every step the SMALL decoder delivers the byte that the FAST decoder delivers, for any block and any `origPtr`.
   */
  lemma SmallIsFast(l: seq<byte>, t: seq<nat>, tt: seq<nat>, ll: seq<nat>, origPtr: nat, k: nat, g: Got)
    requires FastVector(l, t, tt) && SmallVector(l, t, ll, origPtr)
    requires |t| == |l| <= |tt| && forall j | 0 <= j < |t| :: t[j] < |t|
    requires GetSmall(l, ll, Walk(t, origPtr, k), g)
    ensures FastByte(tt, origPtr, k).Got? && FastByte(tt, origPtr, k).ch == g.ch
  {
    hide FastByte, InBucket, GetSmall, UndoesRank;
    FastSpells(l, t, tt, origPtr, k);
    SmallStep(l, t, ll, origPtr, k, g);
  }
}
