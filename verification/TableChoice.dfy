/**
 * The first half of sendMTFValues: how many tables a block gets, a first guess at them, and four rounds in which every
 * group of fifty symbols selects the table that codes it in the fewest bits and every table is made anew for the groups
 * that selected it.
 */
module TableChoice {
  import opened Arithmetic
  import opened Bytes
  import opened HuffmanTree
  import opened HuffmanOptimal
  import opened HuffmanLengths
  import opened MtfCoder
  import opened BlockFormat
  import opened BlockData

  const LESSER_ICOST := 0
  const GREATER_ICOST := 15
  const N_ITERS := 4
  const MAX_CODE := 17

  function NumGroups(nMTF: nat): (n: nat)
    ensures 2 <= n <= 6
    ensures n > 2 <==> nMTF >= 200
    ensures n > 3 <==> nMTF >= 600
    ensures n > 4 <==> nMTF >= 1200
    ensures n > 5 <==> nMTF >= 2400
  {
    if nMTF < 200 then 2 else if nMTF < 600 then 3 else if nMTF < 1200 then 4 else if nMTF < 2400 then 5 else 6
  }

  // ----- the first guess -----

  /** The sum of all frequencies from `lo` on. */
  function SumFrom(f: seq<nat>, lo: nat): nat
    decreases |f| - lo
  {
    if lo >= |f| then 0 else f[lo] + SumFrom(f, lo + 1)
  }

  lemma {:induction false} SumOneMore(f: seq<nat>, v: nat, lo: nat)
    requires v < |f|
    ensures SumFrom(f[v := f[v] + 1], lo) == SumFrom(f, lo) + if lo <= v then 1 else 0
    decreases |f| - lo
  {
    if lo < |f| { SumOneMore(f, v, lo + 1); }
  }

  lemma {:induction false} SumNothing(f: seq<nat>, lo: nat)
    requires forall k | 0 <= k < |f| :: f[k] == 0
    ensures SumFrom(f, lo) == 0
    decreases |f| - lo
  {
    if lo < |f| { SumNothing(f, lo + 1); }
  }

  /** Frequencies add up to the number of symbols. */
  lemma {:induction false} TallySum(freq: seq<nat>, syms: seq<nat>)
    requires Tallied(freq, syms, |freq|) && AllBelow(syms, |freq|)
    ensures SumFrom(freq, 0) == |syms|
    decreases |syms|
  {
    hide SumFrom;
    if syms == [] {
      SumNothing(freq, 0);
    } else {
      var rest, v := syms[..|syms| - 1], syms[|syms| - 1];
      assert syms == rest + [v];
      var less := freq[v := freq[v] - 1];
      TallySum(less, rest);
      SumOneMore(less, v, 0);
      assert less[v := less[v] + 1] == freq;
    }
  }

  ghost predicate CostRow(len: seq<nat>, alphaSize: nat) {
    |len| == alphaSize && forall v | 0 <= v < alphaSize :: len[v] <= MAX_CODE
  }

  /** Tables that take symbols, with lengths or costs up to `MAX_CODE`. */
  ghost predicate Costs(lens: seq<seq<nat>>, nGroups: nat, alphaSize: nat) {
    |lens| == nGroups && forall t | 0 <= t < nGroups :: CostRow(lens[t], alphaSize)
  }

  /** Symbols from `gs` up to but not including `end` are cheap, the others dear. */
  function RangeRow(alphaSize: nat, gs: nat, end: nat): (r: seq<nat>)
    ensures CostRow(r, alphaSize)
  {
    seq(alphaSize, v requires 0 <= v < alphaSize => if gs <= v < end then LESSER_ICOST else GREATER_ICOST)
  }

  /** No symbol is cheap in two of the tables from number `from` on, nor is any from `gs` on. */
  ghost predicate Apart(lens: seq<seq<nat>>, from: nat, gs: nat) {
    && (forall t, v | from <= t < |lens| && 0 <= v < |lens[t]| && lens[t][v] == LESSER_ICOST :: v < gs)
    && forall t, u, v | from <= t < u < |lens| && 0 <= v < |lens[t]| && v < |lens[u]| && lens[t][v] == LESSER_ICOST ::
      lens[u][v] != LESSER_ICOST
  }

  lemma ApartNext(lens: seq<seq<nat>>, from: nat, alphaSize: nat, gs: nat, end: nat)
    requires from < |lens| && Apart(lens, from + 1, gs) && gs <= end
    ensures Apart(lens[from := RangeRow(alphaSize, gs, end)], from, end)
  {
  }

  lemma {:induction false} SumShrinks(f: seq<nat>, lo: nat, hi: nat)
    requires lo <= hi
    ensures SumFrom(f, hi) <= SumFrom(f, lo)
    decreases hi - lo
  {
    if lo < hi { SumShrinks(f, lo + 1, hi); }
  }

  lemma SumSplit(f: seq<nat>, lo: nat)
    requires lo < |f|
    ensures SumFrom(f, lo) == f[lo] + SumFrom(f, lo + 1)
  {
  }

  lemma SumIncludes(f: seq<nat>, gs: nat, ge: nat, aFreq: nat)
    requires gs <= ge < |f| && aFreq + SumFrom(f, ge + 1) == SumFrom(f, gs)
    ensures aFreq >= f[ge] && aFreq - f[ge] + SumFrom(f, ge) == SumFrom(f, gs)
  {
    SumShrinks(f, gs, ge);
  }

  /** The first end at which the symbols from `gs` on make up a frequency of `q`, or the end of the alphabet. */
  ghost predicate Reaches(f: seq<nat>, gs: nat, q: nat, end: nat) {
    && gs <= end <= |f| && (end == |f| || SumFrom(f, gs) - SumFrom(f, end) >= q)
    && forall d | gs <= d < end :: SumFrom(f, gs) - SumFrom(f, d) < q
  }

  /**
   * A range of symbols ends where it makes up its part of the frequencies left; in every second part but the first and
   * the last it leaves its last symbol to the next, if it has more than one.
   */
  ghost predicate EndsPart(f: seq<nat>, nGroups: nat, nPart: nat, gs: nat, end: nat)
    requires nPart > 0
  {
    exists reach: nat :: Reaches(f, gs, SumFrom(f, gs) / nPart, reach)
      && end == if reach > gs + 1 && 1 < nPart < nGroups && (nGroups - nPart) % 2 == 1 then reach - 1 else reach
  }

  /** The end of a range of symbols that makes up the `nPart`-th part of the frequencies left. */
  method PartEnd(mtfFreq: seq<nat>, nGroups: nat, nPart: nat, gs: nat, remF: nat, alphaSize: nat)
      returns (end: nat, aFreq: nat)
    requires 1 <= nPart <= nGroups && |mtfFreq| == alphaSize && gs <= alphaSize && remF == SumFrom(mtfFreq, gs)
    ensures gs <= end <= alphaSize && aFreq + SumFrom(mtfFreq, end) == remF
    ensures EndsPart(mtfFreq, nGroups, nPart, gs, end)
  {
    hide SumFrom;
    var tFreq := remF / nPart;
    var ge: int := gs - 1;
    aFreq := 0;
    while aFreq < tFreq && ge < alphaSize - 1
      invariant gs - 1 <= ge <= alphaSize - 1 && aFreq + SumFrom(mtfFreq, ge + 1) == remF
      invariant forall d | gs <= d < ge + 1 :: remF - SumFrom(mtfFreq, d) < tFreq
      decreases alphaSize - ge
    {
      ge := ge + 1;
      SumSplit(mtfFreq, ge);
      aFreq := aFreq + mtfFreq[ge];
    }
    ghost var reach: nat := ge + 1;
    assert Reaches(mtfFreq, gs, tFreq, reach);
    if ge > gs && nPart != nGroups && nPart != 1 && (nGroups - nPart) % 2 == 1 {
      SumIncludes(mtfFreq, gs, ge, aFreq);
      aFreq := aFreq - mtfFreq[ge];
      ge := ge - 1;
    }
    end := ge + 1;
  }

  lemma NothingApart(lens: seq<seq<nat>>)
    ensures Apart(lens, |lens|, 0)
  {
  }

  lemma ApartWithin(lens: seq<seq<nat>>, gs: nat, hi: nat)
    requires Apart(lens, 0, gs) && gs <= hi
    ensures Apart(lens, 0, hi)
  {
  }

  /**
   * The first guess divides the alphabet: the ranges follow one another from the last table to the first, and a symbol
   * costs nothing in the table of its range and 15 in the others. `bounds[p]` is where the ranges of the first `p`
   * tables begin.
   */
  ghost predicate Divides(lens: seq<seq<nat>>, f: seq<nat>, bounds: seq<nat>, from: nat) {
    && |bounds| == |lens| + 1 && bounds[|lens|] == 0
    && forall p | from < p <= |lens| :: PartRow(lens[p - 1], f, |lens|, p, bounds[p], bounds[p - 1])
  }

  ghost predicate PartRow(row: seq<nat>, f: seq<nat>, nGroups: nat, p: nat, lo: nat, hi: nat)
    requires p > 0
  {
    && EndsPart(f, nGroups, p, lo, hi)
    && |row| == |f| && forall v | 0 <= v < |f| :: row[v] == if lo <= v < hi then 0 else 15
  }

  ghost predicate FirstGuess(lens: seq<seq<nat>>, f: seq<nat>) {
    exists bounds :: Divides(lens, f, bounds, 0)
  }

  lemma DividesNext(lens: seq<seq<nat>>, f: seq<nat>, bounds: seq<nat>, from: nat, lo: nat, hi: nat)
    requires Divides(lens, f, bounds, from + 1) && from < |lens| && lo == bounds[from + 1]
    requires EndsPart(f, |lens|, from + 1, lo, hi)
    ensures Divides(lens[from := RangeRow(|f|, lo, hi)], f, bounds[from := hi], from)
  {
    hide EndsPart;
    var row, next := RangeRow(|f|, lo, hi), bounds[from := hi];
    forall p | from < p <= |lens|
      ensures PartRow(lens[from := row][p - 1], f, |lens|, p, next[p], next[p - 1]) {
      if p > from + 1 { assert PartRow(lens[p - 1], f, |lens|, p, bounds[p], bounds[p - 1]); }
    }
  }

  /** The first guess: every table favours one range of symbols. */
  method FirstTables(mtfFreq: seq<nat>, nMTF: nat, nGroups: nat, alphaSize: nat) returns (lens: seq<seq<nat>>)
    requires nGroups >= 1 && |mtfFreq| == alphaSize && SumFrom(mtfFreq, 0) == nMTF
    ensures Costs(lens, nGroups, alphaSize) && Apart(lens, 0, alphaSize) && FirstGuess(lens, mtfFreq)
  {
    hide SumFrom, Apart, Divides, EndsPart;
    lens := seq(nGroups, _ => RangeRow(alphaSize, 0, 0));
    var nPart, remF, gs: nat := nGroups, nMTF, 0;
    ghost var bounds: seq<nat> := seq(nGroups + 1, _ => 0);
    NothingApart(lens);
    NothingDivided(lens, mtfFreq, bounds);
    while nPart > 0
      invariant nPart <= nGroups && gs <= alphaSize && remF == SumFrom(mtfFreq, gs)
      invariant Costs(lens, nGroups, alphaSize) && Apart(lens, nPart, gs)
      invariant |bounds| == nGroups + 1 && bounds[nPart] == gs && Divides(lens, mtfFreq, bounds, nPart)
    {
      var end, aFreq := PartEnd(mtfFreq, nGroups, nPart, gs, remF, alphaSize);
      ApartNext(lens, nPart - 1, alphaSize, gs, end);
      DividesNext(lens, mtfFreq, bounds, nPart - 1, gs, end);
      lens := lens[nPart - 1 := RangeRow(alphaSize, gs, end)];
      bounds := bounds[nPart - 1 := end];
      nPart := nPart - 1;
      gs := end;
      remF := remF - aFreq;
    }
    ApartWithin(lens, gs, alphaSize);
  }

  lemma NothingDivided(lens: seq<seq<nat>>, f: seq<nat>, bounds: seq<nat>)
    requires |bounds| == |lens| + 1 && bounds[|lens|] == 0
    ensures Divides(lens, f, bounds, |lens|)
  {
  }

  // ----- the cost of a group -----

  /** Bits that symbols `lo` up to `hi` take when coded with a table. */
  function Cost(len: seq<nat>, syms: seq<nat>, lo: nat, hi: nat): (c: nat)
    requires lo <= hi <= |syms| && CostRow(len, |len|) && AllBelow(syms, |len|)
    ensures c <= MAX_CODE * (hi - lo)
    decreases hi - lo
  {
    if lo == hi then 0 else Cost(len, syms, lo, hi - 1) + len[syms[hi - 1]]
  }

  ghost predicate Priced(cost: seq<nat>, lens: seq<seq<nat>>, syms: seq<nat>, lo: nat, hi: nat, alphaSize: nat)
    requires lo <= hi <= |syms| && Costs(lens, |lens|, alphaSize) && AllBelow(syms, alphaSize)
  {
    |cost| == |lens| && forall t | 0 <= t < |lens| :: cost[t] == Cost(lens[t], syms, lo, hi)
  }

  /** Two costs in one word of 32 bits. */
  function Packed(hi: nat, lo: nat): nat {
    65536 * hi + lo
  }

  function Add32(a: nat, b: nat): nat {
    (a + b) % 0x1_0000_0000
  }

  lemma PackedSum(hi: nat, lo: nat, h: nat, l: nat)
    requires hi + h < 65536 && lo + l < 65536
    ensures Add32(Packed(hi, lo), Packed(h, l)) == Packed(hi + h, lo + l)
    ensures Packed(hi, lo) % 65536 == lo && Packed(hi, lo) / 65536 == hi
  {
  }

  lemma PackedNone(a: seq<nat>, b: seq<nat>, syms: seq<nat>, gs: nat)
    requires CostRow(a, |a|) && CostRow(b, |a|) && AllBelow(syms, |a|) && gs <= |syms|
    ensures Packed(Cost(b, syms, gs, gs), Cost(a, syms, gs, gs)) == 0
  {
  }

  lemma PackedNext(a: seq<nat>, b: seq<nat>, syms: seq<nat>, gs: nat, i: nat)
    requires CostRow(a, |a|) && CostRow(b, |a|) && AllBelow(syms, |a|) && gs + i < |syms| && i < G_SIZE
    ensures syms[gs + i] < |a| == |b|
    ensures Add32(Packed(Cost(b, syms, gs, gs + i), Cost(a, syms, gs, gs + i)),
      Packed(b[syms[gs + i]], a[syms[gs + i]]))
         == Packed(Cost(b, syms, gs, gs + (i + 1)), Cost(a, syms, gs, gs + (i + 1)))
  {
    hide Packed, Add32;
    PackedSum(Cost(b, syms, gs, gs + i), Cost(a, syms, gs, gs + i), b[syms[gs + i]], a[syms[gs + i]]);
  }

  /** The fast track for two of six tables and a full group: one addition per symbol for both. */
  method PackedCost(a: seq<nat>, b: seq<nat>, mtfv: seq<nat>, gs: nat) returns (costA: nat, costB: nat)
    requires CostRow(a, |a|) && CostRow(b, |a|) && AllBelow(mtfv, |a|) && gs + G_SIZE <= |mtfv|
    ensures costA == Cost(a, mtfv, gs, gs + G_SIZE) && costB == Cost(b, mtfv, gs, gs + G_SIZE)
  {
    hide Cost, Packed, Add32;
    var cost := 0;
    PackedNone(a, b, mtfv, gs);
    for i := 0 to G_SIZE
      invariant cost == Packed(Cost(b, mtfv, gs, gs + i), Cost(a, mtfv, gs, gs + i))
    {
      PackedNext(a, b, mtfv, gs, i);
      cost := Add32(cost, Packed(b[mtfv[gs + i]], a[mtfv[gs + i]]));
    }
    PackedSum(Cost(b, mtfv, gs, gs + G_SIZE), Cost(a, mtfv, gs, gs + G_SIZE), 0, 0);
    costA, costB := cost % 65536, cost / 65536;
  }

  lemma CostNext(len: seq<nat>, syms: seq<nat>, lo: nat, i: nat)
    requires CostRow(len, |len|) && AllBelow(syms, |len|) && lo <= i < |syms|
    ensures Cost(len, syms, lo, lo) == 0 && Cost(len, syms, lo, i + 1) == Cost(len, syms, lo, i) + len[syms[i]]
  {
  }

  method SlowCosts(lens: seq<seq<nat>>, mtfv: seq<nat>, gs: nat, end: nat, alphaSize: nat) returns (r: seq<nat>)
    requires Costs(lens, |lens|, alphaSize) && AllBelow(mtfv, alphaSize) && gs < end <= |mtfv|
    ensures Priced(r, lens, mtfv, gs, end, alphaSize)
  {
    hide Cost;
    var cost := new nat[|lens|](_ => 0);
    forall t | 0 <= t < |lens| ensures Cost(lens[t], mtfv, gs, gs) == 0 { CostNext(lens[t], mtfv, gs, gs); }
    for i := gs to end
      invariant forall t | 0 <= t < |lens| :: cost[t] == Cost(lens[t], mtfv, gs, i)
    {
      for t := 0 to |lens|
        invariant forall u | 0 <= u < |lens| :: cost[u] == Cost(lens[u], mtfv, gs, if u < t then i + 1 else i)
      {
        CostNext(lens[t], mtfv, gs, i);
        cost[t] := cost[t] + lens[t][mtfv[i]];
      }
    }
    r := cost[..];
  }

  /** The costs of a group with every table. */
  method GroupCosts(lens: seq<seq<nat>>, mtfv: seq<nat>, gs: nat, end: nat, alphaSize: nat) returns (cost: seq<nat>)
    requires 2 <= |lens| <= 6 && Costs(lens, |lens|, alphaSize) && AllBelow(mtfv, alphaSize) && gs < end <= |mtfv|
    ensures Priced(cost, lens, mtfv, gs, end, alphaSize)
  {
    hide Cost;
    if |lens| == 6 && end - gs == G_SIZE {
      var c0, c1 := PackedCost(lens[0], lens[1], mtfv, gs);
      var c2, c3 := PackedCost(lens[2], lens[3], mtfv, gs);
      var c4, c5 := PackedCost(lens[4], lens[5], mtfv, gs);
      cost := [c0, c1, c2, c3, c4, c5];
    } else {
      cost := SlowCosts(lens, mtfv, gs, end, alphaSize);
    }
  }

  /** The first table that codes symbols `lo` up to `hi` in the fewest bits. */
  ghost predicate Best(lens: seq<seq<nat>>, syms: seq<nat>, lo: nat, hi: nat, alphaSize: nat, bt: nat)
    requires lo <= hi <= |syms| && Costs(lens, |lens|, alphaSize) && AllBelow(syms, alphaSize)
  {
    && bt < |lens|
    && (forall t | 0 <= t < |lens| :: Cost(lens[bt], syms, lo, hi) <= Cost(lens[t], syms, lo, hi))
    && forall t | 0 <= t < bt :: Cost(lens[bt], syms, lo, hi) < Cost(lens[t], syms, lo, hi)
  }

  method PickTable(cost: seq<nat>) returns (bt: nat)
    requires cost != [] && forall t | 0 <= t < |cost| :: cost[t] < 999999999
    ensures bt < |cost| && (forall t | 0 <= t < |cost| :: cost[bt] <= cost[t])
      && forall t | 0 <= t < bt :: cost[bt] < cost[t]
  {
    var bc, b: int := 999999999, -1;
    for t := 0 to |cost|
      invariant (t == 0 && b == -1 && bc == 999999999) || (0 <= b < t && bc == cost[b])
      invariant forall u | 0 <= u < t :: bc <= cost[u]
      invariant forall u | 0 <= u < b :: bc < cost[u]
    {
      if cost[t] < bc {
        bc := cost[t];
        b := t;
      }
    }
    bt := b;
  }

  method ChooseFor(lens: seq<seq<nat>>, mtfv: seq<nat>, gs: nat, end: nat, alphaSize: nat) returns (bt: nat)
    requires 2 <= |lens| <= 6 && Costs(lens, |lens|, alphaSize) && AllBelow(mtfv, alphaSize) && gs < end <= |mtfv|
      && end - gs <= G_SIZE
    ensures Best(lens, mtfv, gs, end, alphaSize, bt)
  {
    hide Cost;
    var cost := GroupCosts(lens, mtfv, gs, end, alphaSize);
    forall t | 0 <= t < |cost| ensures cost[t] < 999999999 {
      assert cost[t] == Cost(lens[t], mtfv, gs, end) <= MAX_CODE * (end - gs);
    }
    bt := PickTable(cost);
  }

  // ----- a round -----

  const MAX_SYMBOLS := 900001

  function GroupEnd(g: nat, n: nat): nat {
    if G_SIZE * (g + 1) <= n then G_SIZE * (g + 1) else n
  }

  /** The first `|sel|` groups have selected the table that is best for them. */
  ghost predicate BestSelectors(lens: seq<seq<nat>>, syms: seq<nat>, sel: seq<byte>, alphaSize: nat)
    requires Costs(lens, |lens|, alphaSize) && AllBelow(syms, alphaSize)
  {
    forall g | 0 <= g < |sel| ::
      G_SIZE * g < |syms| && Best(lens, syms, G_SIZE * g, GroupEnd(g, |syms|), alphaSize, sel[g])
  }

  lemma BestMore(lens: seq<seq<nat>>, syms: seq<nat>, sel: seq<byte>, alphaSize: nat, bt: byte)
    requires Costs(lens, |lens|, alphaSize) && AllBelow(syms, alphaSize) && BestSelectors(lens, syms, sel, alphaSize)
    requires G_SIZE * |sel| < |syms| && Best(lens, syms, G_SIZE * |sel|, GroupEnd(|sel|, |syms|), alphaSize, bt)
    ensures BestSelectors(lens, syms, sel + [bt], alphaSize)
  {
    hide Best;
  }

  /** How often symbol `v` is coded with table `t`, among the first `m` symbols. */
  ghost function Uses(syms: seq<nat>, sel: seq<byte>, t: nat, v: nat, m: nat): nat
    requires m <= |syms| && m <= G_SIZE * |sel|
  {
    if m == 0 then 0 else Uses(syms, sel, t, v, m - 1) + if syms[m - 1] == v && sel[(m - 1) / G_SIZE] == t then 1 else 0
  }

  ghost function UsesOf(syms: seq<nat>, sel: seq<byte>, t: nat, alphaSize: nat): (r: seq<nat>)
    requires |syms| <= G_SIZE * |sel|
    ensures |r| == alphaSize
  {
    seq(alphaSize, v requires 0 <= v < alphaSize => Uses(syms, sel, t, v, |syms|))
  }

  lemma {:induction false} UsesKept(syms: seq<nat>, sel: seq<byte>, bt: byte, t: nat, v: nat, m: nat)
    requires m <= |syms| && m <= G_SIZE * |sel|
    ensures Uses(syms, sel + [bt], t, v, m) == Uses(syms, sel, t, v, m)
  {
    if m > 0 {
      UsesKept(syms, sel, bt, t, v, m - 1);
      assert (m - 1) / G_SIZE < |sel|;
    }
  }

  /** The table `rfreq` counts the uses among the first `m` symbols. */
  ghost predicate Counted(rfreq: array2<nat>, syms: seq<nat>, sel: seq<byte>, m: nat)
    requires m <= |syms| && m <= G_SIZE * |sel|
    reads rfreq
  {
    forall t, v | 0 <= t < rfreq.Length0 && 0 <= v < rfreq.Length1 :: rfreq[t, v] == Uses(syms, sel, t, v, m)
  }

  lemma UsesNext(syms: seq<nat>, sel: seq<byte>, t: nat, v: nat, i: nat, g: nat)
    requires i < |syms| && g < |sel| && G_SIZE * g <= i < G_SIZE * (g + 1)
    ensures Uses(syms, sel, t, v, i + 1) == Uses(syms, sel, t, v, i) + if syms[i] == v && sel[g] == t then 1 else 0
  {
    DivModUnique(i, G_SIZE, g, i - G_SIZE * g);
  }

  /** Count the symbols of group `g`, which has selected table `bt`. */
  method CountGroup(rfreq: array2<nat>, mtfv: seq<nat>, g: nat, end: nat, bt: byte, ghost sel: seq<byte>)
    requires g < |sel| && sel[g] == bt && bt < rfreq.Length0 && AllBelow(mtfv, rfreq.Length1)
    requires G_SIZE * g < end <= |mtfv| && end <= G_SIZE * (g + 1) && Counted(rfreq, mtfv, sel, G_SIZE * g)
    modifies rfreq
    ensures Counted(rfreq, mtfv, sel, end)
  {
    hide Uses;
    for i := G_SIZE * g to end
      invariant Counted(rfreq, mtfv, sel, i)
    {
      forall t: nat, v: nat ensures Uses(mtfv, sel, t, v, i + 1) == Uses(mtfv, sel, t, v, i) + if mtfv[i] == v
        && sel[g] == t then 1 else 0 {
        UsesNext(mtfv, sel, t, v, i, g);
      }
      rfreq[bt, mtfv[i]] := rfreq[bt, mtfv[i]] + 1;
    }
  }

  lemma NoUses(syms: seq<nat>, sel: seq<byte>, t: nat, v: nat)
    ensures Uses(syms, sel, t, v, 0) == 0
  {
  }

  /** A group more stays within the array of selectors. */
  lemma SelectorRoom(nSelectors: nat, n: nat)
    requires n <= MAX_SYMBOLS && G_SIZE * nSelectors < n
    ensures nSelectors < MAX_SELECTORS
  {
  }

  lemma CountedKept(rfreq: array2<nat>, syms: seq<nat>, sel: seq<byte>, bt: byte, m: nat)
    requires m <= |syms| && m <= G_SIZE * |sel| && Counted(rfreq, syms, sel, m)
    ensures Counted(rfreq, syms, sel + [bt], m)
  {
    hide Uses;
    forall t: nat, v: nat ensures Uses(syms, sel + [bt], t, v, m) == Uses(syms, sel, t, v, m) {
      UsesKept(syms, sel, bt, t, v, m);
    }
  }

  lemma CountedNone(rfreq: array2<nat>, syms: seq<nat>)
    requires forall t, v | 0 <= t < rfreq.Length0 && 0 <= v < rfreq.Length1 :: rfreq[t, v] == 0
    ensures Counted(rfreq, syms, [], 0)
  {
    hide Uses;
    forall t: nat, v: nat ensures Uses(syms, [], t, v, 0) == 0 { NoUses(syms, [], t, v); }
  }

  lemma BestNone(lens: seq<seq<nat>>, syms: seq<nat>, alphaSize: nat)
    requires Costs(lens, |lens|, alphaSize) && AllBelow(syms, alphaSize)
    ensures BestSelectors(lens, syms, [], alphaSize)
  {
  }

  lemma BestRange(lens: seq<seq<nat>>, syms: seq<nat>, lo: nat, hi: nat, alphaSize: nat, bt: nat)
    requires lo <= hi <= |syms| && Costs(lens, |lens|, alphaSize) && AllBelow(syms, alphaSize)
      && Best(lens, syms, lo, hi, alphaSize, bt)
    ensures bt < |lens|
  {
  }

  /** All groups select their tables, whose uses are counted. The selectors stay within their array. */
  method SelectTables(lens: seq<seq<nat>>, mtfv: seq<nat>, alphaSize: nat, selector: array<byte>)
      returns (nSelectors: nat, rfreq: array2<nat>)
    requires 2 <= |lens| <= 6 && Costs(lens, |lens|, alphaSize) && AllBelow(mtfv, alphaSize) && |mtfv| <= MAX_SYMBOLS
    requires selector.Length == MAX_SELECTORS
    modifies selector
    ensures G_SIZE * nSelectors - G_SIZE < |mtfv| <= G_SIZE * nSelectors || (mtfv == [] && nSelectors == 0)
    ensures nSelectors < MAX_SELECTORS && BestSelectors(lens, mtfv, selector[..nSelectors], alphaSize)
    ensures |mtfv| <= G_SIZE * nSelectors && rfreq.Length0 == |lens| && rfreq.Length1 == alphaSize
    ensures Counted(rfreq, mtfv, selector[..nSelectors], |mtfv|) && fresh(rfreq)
  {
    hide Best, Cost, Counted, BestSelectors, Costs, AllBelow;
    rfreq := new nat[|lens|, alphaSize]((_, _) => 0);
    nSelectors := 0;
    ghost var sel: seq<byte> := [];
    CountedNone(rfreq, mtfv);
    BestNone(lens, mtfv, alphaSize);
    var gs: nat := 0;
    while gs < |mtfv|
      modifies selector, rfreq
      invariant gs <= |mtfv| && (gs < |mtfv| ==> gs == G_SIZE * nSelectors) && gs <= G_SIZE * nSelectors
      invariant nSelectors > 0 ==> G_SIZE * nSelectors - G_SIZE < |mtfv|
      invariant nSelectors == 0 ==> gs == 0
      invariant nSelectors < MAX_SELECTORS && sel == selector[..nSelectors]
      invariant BestSelectors(lens, mtfv, sel, alphaSize) && Counted(rfreq, mtfv, sel, gs)
      decreases |mtfv| - gs
    {
      SelectorRoom(nSelectors, |mtfv|);
      var ge := if gs + G_SIZE - 1 >= |mtfv| then |mtfv| - 1 else gs + G_SIZE - 1;
      var bt := ChooseFor(lens, mtfv, gs, ge + 1, alphaSize);
      assert bt < |lens| by { BestRange(lens, mtfv, gs, ge + 1, alphaSize, bt); }
      BestMore(lens, mtfv, sel, alphaSize, bt);
      CountedKept(rfreq, mtfv, sel, bt, gs);
      CountGroup(rfreq, mtfv, nSelectors, ge + 1, bt, sel + [bt]);
      selector[nSelectors] := bt;
      sel := sel + [bt];
      assert selector[..nSelectors + 1] == sel;
      nSelectors := nSelectors + 1;
      gs := ge + 1;
    }
  }

  // ----- new tables -----

  /** A table no other beats for these uses, rescaled as often as codewords came out too long and no more. */
  ghost predicate Fitted(len: seq<nat>, uses: seq<nat>) {
    && |len| == |uses| && (forall v | 0 <= v < |len| :: 1 <= len[v] <= MAX_CODE) && KraftSum(len) == 1.0
    && exists rounds: nat :: CheapestRescaled(rounds, LeafWeights(uses), len, MAX_CODE)
  }

  /** A table used fewer than 6765 times, unused symbols counted once, is one no other beats. */
  lemma FittedIsCheapest(len: seq<nat>, uses: seq<nat>)
    requires Fitted(len, uses) && Sum(LeafWeights(uses)) < 6765
    ensures Cheapest(LeafWeights(uses), len)
  {
    hide Cheapest, KraftSum, Sum, LeafWeights, CheapestRescaled, Fib;
    var rounds: nat :| CheapestRescaled(rounds, LeafWeights(uses), len, MAX_CODE);
    FibNineteen();
    LightIsOptimal(rounds, uses, len, MAX_CODE);
  }

  lemma UsesStep(syms: seq<nat>, sel: seq<byte>, t: nat, v: nat, m: nat)
    requires 0 < m <= |syms| && m <= G_SIZE * |sel|
    ensures var a, b := Uses(syms, sel, t, v, m), Uses(syms, sel, t, v, m - 1);
      a == b || (v == syms[m - 1] && a == b + 1)
  {
  }

  lemma {:induction false} SumZero(f: seq<nat>)
    requires forall k | 0 <= k < |f| :: f[k] == 0
    ensures Sum(f) == 0
  {
    if f != [] { SumZero(f[..|f| - 1]); }
  }

  lemma {:induction false} SumGrows(f: seq<nat>, g: seq<nat>, x: nat)
    requires |f| == |g| && forall k | 0 <= k < |f| :: f[k] == g[k] || (k == x && f[k] == g[k] + 1)
    ensures Sum(f) <= Sum(g) + if x < |f| then 1 else 0
  {
    if f != [] { SumGrows(f[..|f| - 1], g[..|g| - 1], x); }
  }

  /** The uses of the first `w` symbols of the alphabet, among the first `m` symbols: at most `m`. */
  lemma {:induction false} UsesAtMost(syms: seq<nat>, sel: seq<byte>, t: nat, alphaSize: nat, w: nat, m: nat,
      f: seq<nat>)
    requires m <= |syms| && m <= G_SIZE * |sel| && w <= |f| && forall v | 0 <= v < w :: f[v] == Uses(syms, sel, t, v, m)
    ensures Sum(f[..w]) <= m
    decreases m, w
  {
    hide Uses, Sum;
    if m == 0 {
      forall v | 0 <= v < w ensures f[v] == 0 { NoUses(syms, sel, t, v); }
      SumZero(f[..w]);
    } else {
      var g := seq(|f|, v requires 0 <= v < |f| => if v < w then Uses(syms, sel, t, v, m - 1) else 0);
      UsesAtMost(syms, sel, t, alphaSize, w, m - 1, g);
      forall v | 0 <= v < w ensures f[v] == g[v] || (v == syms[m - 1] && f[v] == g[v] + 1) {
        UsesStep(syms, sel, t, v, m);
      }
      SumGrows(f[..w], g[..w], syms[m - 1]);
    }
  }

  lemma {:induction false} LeavesAtMost(f: seq<nat>)
    ensures Sum(LeafWeights(f)) <= Sum(f) + |f|
  {
    if f != [] {
      var m := |f| - 1;
      LeavesAtMost(f[..m]);
      assert LeafWeights(f)[..m] == LeafWeights(f[..m]);
    }
  }

  method FitTable(freq: seq<nat>, ghost syms: seq<nat>, ghost sel: seq<byte>, ghost t: nat) returns (len: seq<nat>)
    requires 2 <= |freq| <= 258 && |syms| <= G_SIZE * |sel| && |syms| <= 1_000_000
      && freq == UsesOf(syms, sel, t, |freq|)
    ensures Fitted(len, freq)
  {
    hide Uses, Sum, LeafWeights, KraftSum, CheapestRescaled, Cheapest, Fib;
    UsesAtMost(syms, sel, t, |freq|, |freq|, |syms|, freq);
    assert freq[..|freq|] == freq;
    LeavesAtMost(freq);
    var a := new nat[|freq|];
    ghost var rounds := MakeCodeLengths(a, freq, |freq|, MAX_CODE);
    len := a[..];
    assert a[..|freq|] == len;
  }

  method Row(rfreq: array2<nat>, t: nat) returns (freq: seq<nat>)
    requires t < rfreq.Length0
    ensures |freq| == rfreq.Length1 && forall v | 0 <= v < |freq| :: freq[v] == rfreq[t, v]
  {
    freq := [];
    for v := 0 to rfreq.Length1
      invariant |freq| == v && forall k | 0 <= k < v :: freq[k] == rfreq[t, k]
    {
      freq := freq + [rfreq[t, v]];
    }
  }

  lemma UsesAre(freq: seq<nat>, syms: seq<nat>, sel: seq<byte>, t: nat, alphaSize: nat)
    requires |syms| <= G_SIZE * |sel| && |freq| == alphaSize
      && forall v | 0 <= v < alphaSize :: freq[v] == Uses(syms, sel, t, v, |syms|)
    ensures freq == UsesOf(syms, sel, t, alphaSize)
  {
  }

  lemma FittedRow(len: seq<nat>, uses: seq<nat>)
    requires Fitted(len, uses)
    ensures CostRow(len, |uses|)
  {
    hide CheapestRescaled, LeafWeights, KraftSum;
  }

  /** Every table is one no prefix code beats on the groups that selected it. */
  ghost predicate AllFitted(tables: seq<seq<nat>>, syms: seq<nat>, sel: seq<byte>, alphaSize: nat)
    requires |syms| <= G_SIZE * |sel|
  {
    forall t | 0 <= t < |tables| :: |tables[t]| == alphaSize && Fitted(tables[t], UsesOf(syms, sel, t, alphaSize))
  }

  /** A round: groups select tables by their costs, then tables are made for the groups that selected them. */
  method Improve(lens0: seq<seq<nat>>, mtfv: seq<nat>, alphaSize: nat, selector: array<byte>)
      returns (lens: seq<seq<nat>>, nSelectors: nat)
    requires 2 <= |lens0| <= 6 && Costs(lens0, |lens0|, alphaSize) && 2 <= alphaSize <= 258 && 0 < |mtfv| <= MAX_SYMBOLS
    requires AllBelow(mtfv, alphaSize) && selector.Length == MAX_SELECTORS
    modifies selector
    ensures nSelectors < MAX_SELECTORS && G_SIZE * nSelectors - G_SIZE < |mtfv| <= G_SIZE * nSelectors
    ensures |lens| == |lens0| && Costs(lens, |lens|, alphaSize)
      && BestSelectors(lens0, mtfv, selector[..nSelectors], alphaSize)
    ensures AllFitted(lens, mtfv, selector[..nSelectors], alphaSize)
  {
    hide Uses, Best, Cost, Fitted, UsesOf;
    var rfreq;
    nSelectors, rfreq := SelectTables(lens0, mtfv, alphaSize, selector);
    ghost var sel := selector[..nSelectors];
    lens := [];
    for t := 0 to |lens0|
      modifies {}
      invariant |lens| == t && sel == selector[..nSelectors]
      invariant forall u | 0 <= u < t ::
        |lens[u]| == alphaSize && CostRow(lens[u], alphaSize) && Fitted(lens[u], UsesOf(mtfv, sel, u, alphaSize))
    {
      var freq := Row(rfreq, t);
      UsesAre(freq, mtfv, sel, t, alphaSize);
      var len := FitTable(freq, mtfv, sel, t);
      FittedRow(len, freq);
      lens := lens + [len];
    }
  }

  lemma FittedCode(len: seq<nat>, uses: seq<nat>)
    requires Fitted(len, uses) && |uses| >= 2
    ensures |len| == |uses| && CodeOk(len)
  {
    hide CheapestRescaled, LeafWeights, KraftSum;
  }

  lemma SelectorsAre(lens: seq<seq<nat>>, syms: seq<nat>, sel: seq<byte>, alphaSize: nat)
    requires Costs(lens, |lens|, alphaSize) && AllBelow(syms, alphaSize) && BestSelectors(lens, syms, sel, alphaSize)
    requires |syms| > 0 && G_SIZE * |sel| - G_SIZE < |syms| <= G_SIZE * |sel|
    ensures Selects(sel, |lens|, |syms|) && 1 <= |sel| <= |syms| / G_SIZE + 1
  {
    hide Cost;
    forall g | 0 <= g < |sel| ensures sel[g] < |lens| {
      BestRange(lens, syms, G_SIZE * g, GroupEnd(g, |syms|), alphaSize, sel[g]);
    }
  }

  /**
   * One round leads to the next: every group selects the first table that codes it in the fewest bits, and the next
   * tables fit the groups that selected them.
   */
  ghost predicate Round(tables: seq<seq<nat>>, sel: seq<byte>, next: seq<seq<nat>>, syms: seq<nat>, alphaSize: nat) {
    && |next| == |tables| && Costs(tables, |tables|, alphaSize) && AllBelow(syms, alphaSize)
    && G_SIZE * |sel| - G_SIZE < |syms| <= G_SIZE * |sel|
    && BestSelectors(tables, syms, sel, alphaSize) && AllFitted(next, syms, sel, alphaSize)
  }

  /** All rounds from the first guess on: the tables after each, and the selectors of each. */
  ghost predicate Rounds(tables: seq<seq<seq<nat>>>, sels: seq<seq<byte>>, syms: seq<nat>, freq: seq<nat>,
      alphaSize: nat)
  {
    && |tables| == |sels| + 1 && |tables[0]| == NumGroups(|syms|) && Costs(tables[0], |tables[0]|, alphaSize)
    && Apart(tables[0], 0, alphaSize) && FirstGuess(tables[0], freq)
    && forall i | 0 <= i < |sels| :: Round(tables[i], sels[i], tables[i + 1], syms, alphaSize)
  }

  lemma RoundsNext(tables: seq<seq<seq<nat>>>, sels: seq<seq<byte>>, syms: seq<nat>, freq: seq<nat>,
      alphaSize: nat, sel: seq<byte>, next: seq<seq<nat>>)
    requires Rounds(tables, sels, syms, freq, alphaSize) && Round(tables[|sels|], sel, next, syms, alphaSize)
    ensures Rounds(tables + [next], sels + [sel], syms, freq, alphaSize)
  {
    hide Round, Apart, Costs, FirstGuess;
    var ts, ss := tables + [next], sels + [sel];
    forall i | 0 <= i < |ss| ensures Round(ts[i], ss[i], ts[i + 1], syms, alphaSize) {
      if i < |sels| {
        assert ts[i] == tables[i] && ts[i + 1] == tables[i + 1] && ss[i] == sels[i];
      }
    }
  }

  lemma RoundsAt(tables: seq<seq<seq<nat>>>, sels: seq<seq<byte>>, syms: seq<nat>, freq: seq<nat>, alphaSize: nat,
      i: nat)
    requires Rounds(tables, sels, syms, freq, alphaSize) && i < |sels|
    ensures Round(tables[i], sels[i], tables[i + 1], syms, alphaSize)
  {
  }

  lemma FirstSize(tables: seq<seq<nat>>, nGroups: nat, alphaSize: nat)
    requires Costs(tables, nGroups, alphaSize)
    ensures |tables| == nGroups
  {
  }

  lemma RoundIs(tables: seq<seq<nat>>, sel: seq<byte>, next: seq<seq<nat>>, syms: seq<nat>, alphaSize: nat)
    requires |next| == |tables| && Costs(tables, |tables|, alphaSize) && AllBelow(syms, alphaSize)
    requires G_SIZE * |sel| - G_SIZE < |syms| <= G_SIZE * |sel|
    requires BestSelectors(tables, syms, sel, alphaSize) && AllFitted(next, syms, sel, alphaSize)
    ensures Round(tables, sel, next, syms, alphaSize)
  {
  }

  lemma LastRound(tables: seq<seq<nat>>, sel: seq<byte>, next: seq<seq<nat>>, syms: seq<nat>, alphaSize: nat)
    requires Round(tables, sel, next, syms, alphaSize) && alphaSize >= 2 && |syms| > 0
    ensures CodesOk(next, alphaSize) && Selects(sel, |next|, |syms|) && 1 <= |sel| <= |syms| / G_SIZE + 1
    ensures Costs(next, |next|, alphaSize)
  {
    hide Uses, Cost, Fitted, UsesOf, CodeOk, Best, CostRow, BestSelectors, AllBelow;
    forall t | 0 <= t < |next| ensures CodeOk(next[t]) && CostRow(next[t], alphaSize) {
      FittedCode(next[t], UsesOf(syms, sel, t, alphaSize));
      FittedRow(next[t], UsesOf(syms, sel, t, alphaSize));
    }
    SelectorsAre(tables, syms, sel, alphaSize);
  }

  /**
   * The tables and selectors of a block, after `N_ITERS` rounds from the first guess. The ghost results are the tables
   * and the selectors of every round. The selectors fit their array.
   */
  method ChooseTables(mtfv: seq<nat>, mtfFreq: seq<nat>, alphaSize: nat)
      returns (tables: seq<seq<nat>>, selectors: seq<byte>, ghost allTables: seq<seq<seq<nat>>>,
        ghost allSelectors: seq<seq<byte>>)
    requires 2 <= alphaSize <= 258 && 0 < |mtfv| <= MAX_SYMBOLS && AllBelow(mtfv, alphaSize)
    requires |mtfFreq| == alphaSize && Tallied(mtfFreq, mtfv, alphaSize)
    ensures Rounds(allTables, allSelectors, mtfv, mtfFreq, alphaSize) && |allSelectors| == 4
    ensures tables == allTables[4] && selectors == allSelectors[3] && |tables| == NumGroups(|mtfv|)
    ensures CodesOk(tables, alphaSize) && Selects(selectors, |tables|, |mtfv|)
    ensures 1 <= |selectors| <= |mtfv| / G_SIZE + 1 && |selectors| < MAX_SELECTORS
  {
    hide Round, Apart, FirstGuess, CodesOk, Selects, Costs, AllBelow, Tallied, SumFrom, BestSelectors, AllFitted;
    var nGroups := NumGroups(|mtfv|);
    TallySum(mtfFreq, mtfv);
    tables := FirstTables(mtfFreq, |mtfv|, nGroups, alphaSize);
    allTables, allSelectors := [tables], [];
    FirstSize(tables, nGroups, alphaSize);
    var selector, nSelectors := new byte[MAX_SELECTORS], 0;
    for iter := 0 to N_ITERS
      modifies selector
      invariant |allSelectors| == iter && Rounds(allTables, allSelectors, mtfv, mtfFreq, alphaSize)
      invariant tables == allTables[iter]
      invariant |tables| == nGroups && Costs(tables, nGroups, alphaSize)
      invariant iter > 0 ==> nSelectors < MAX_SELECTORS && allSelectors[iter - 1] == selector[..nSelectors]
    {
      ghost var before := tables;
      tables, nSelectors := Improve(tables, mtfv, alphaSize, selector);
      RoundIs(before, selector[..nSelectors], tables, mtfv, alphaSize);
      RoundsNext(allTables, allSelectors, mtfv, mtfFreq, alphaSize, selector[..nSelectors], tables);
      allTables, allSelectors := allTables + [tables], allSelectors + [selector[..nSelectors]];
    }
    selectors := selector[..nSelectors];
    RoundsAt(allTables, allSelectors, mtfv, mtfFreq, alphaSize, N_ITERS - 1);
    LastRound(allTables[N_ITERS - 1], selectors, tables, mtfv, alphaSize);
  }
}
