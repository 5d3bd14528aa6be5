/** The byte-swapped computation of big-endian machines: every word is the reverse of the little-endian one. */
module BigEndian {
  import opened Gf2
  import opened CrcBytes
  import opened CrcWords
  import opened CrcBraid

  /** `byte_swap`. */
  function Swap(w: word): (r: word)
    ensures |r| == |w|
  {
    seq(|w|, k requires 0 <= k < |w| => w[|w| - 1 - k])
  }

  /** The register as a word of `n` octets. */
  function Extend(c: bv32, n: nat): (r: word)
    ensures |r| == n
  {
    Mix(c, Zeros(n))
  }

  function Swapped(c: bv32, n: nat): (r: word)
    ensures |r| == n
  {
    Swap(Extend(c, n))
  }

  function XorWords(a: word, b: word): (r: word)
    requires |a| == |b|
    ensures |r| == |a|
  {
    seq(|a|, k requires 0 <= k < |a| => Xor8(a[k], b[k]))
  }

  lemma SwapSwap(w: word)
    ensures Swap(Swap(w)) == w
  {
  }

  /** Octet `k` of the register. */
  function Octet(c: bv32, k: nat): octet {
    if k == 0 then Low(c) else Octet(High(c), k - 1)
  }

  lemma {:induction false} MixAt(c: bv32, w: word, k: nat)
    requires k < |w|
    ensures Mix(c, w)[k] == Xor8(Octet(c, k), w[k])
    decreases k
  {
    hide Xor8, Low, High;
    if k > 0 {
      MixAt(High(c), w[1..], k - 1);
    }
  }

  lemma {:induction false} OctetAdd(a: bv32, b: bv32, k: nat)
    ensures Octet(Add(a, b), k) == Xor8(Octet(a, k), Octet(b, k))
    decreases k
  {
    hide Xor8, Low, High, Add;
    if k == 0 {
      LowAdd(a, b);
    } else {
      HighAddAll(a, b);
      OctetAdd(High(a), High(b), k - 1);
    }
  }

  lemma ExtendAt(c: bv32, n: nat, k: nat)
    requires k < n
    ensures Extend(c, n)[k] == Octet(c, k)
  {
    hide Xor8, Mix;
    MixAt(c, Zeros(n), k);
    OctetZero(Octet(c, k));
  }

  lemma SwappedAt(c: bv32, n: nat, k: nat)
    requires k < n
    ensures Swapped(c, n)[k] == Octet(c, n - 1 - k)
  {
    hide Extend, Octet;
    ExtendAt(c, n, n - 1 - k);
  }

  /** Adding swapped registers is swapping their sum. */
  lemma SwappedAdd(a: bv32, b: bv32, n: nat)
    ensures XorWords(Swapped(a, n), Swapped(b, n)) == Swapped(Add(a, b), n)
  {
    hide Xor8, Add, Swapped, Octet;
    forall k | 0 <= k < n ensures XorWords(Swapped(a, n), Swapped(b, n))[k] == Swapped(Add(a, b), n)[k] {
      SwappedAt(a, n, k);
      SwappedAt(b, n, k);
      SwappedAt(Add(a, b), n, k);
      OctetAdd(a, b, n - 1 - k);
    }
  }

  lemma SwapAt(w: word, k: nat)
    requires k < |w|
    ensures Swap(w)[k] == w[|w| - 1 - k]
  {
  }

  lemma SwappedXorAt(c: bv32, w: word, k: nat)
    requires k < |w|
    ensures Xor8(Swapped(c, |w|)[k], Swap(w)[k]) == Xor8(Octet(c, |w| - 1 - k), w[|w| - 1 - k])
  {
    hide *;
    SwappedAt(c, |w|, k);
    SwapAt(w, k);
  }

  lemma SwapMixAt(c: bv32, w: word, k: nat)
    requires k < |w|
    ensures Swap(Mix(c, w))[k] == Xor8(Octet(c, |w| - 1 - k), w[|w| - 1 - k])
  {
    hide *;
    MixAt(c, w, |w| - 1 - k);
    SwapAt(Mix(c, w), k);
  }

  lemma XorAt(a: word, b: word, k: nat)
    requires |a| == |b| && k < |a|
    ensures XorWords(a, b)[k] == Xor8(a[k], b[k])
  {
    hide Xor8;
  }

  lemma SwappedMixAt(c: bv32, w: word, k: nat)
    requires k < |w|
    ensures XorWords(Swapped(c, |w|), Swap(w))[k] == Swap(Mix(c, w))[k]
  {
    hide *;
    XorAt(Swapped(c, |w|), Swap(w), k);
    SwappedXorAt(c, w, k);
    SwapMixAt(c, w, k);
  }

  /** Mixing a swapped register into a swapped word. */
  lemma SwappedMix(c: bv32, w: word)
    ensures XorWords(Swapped(c, |w|), Swap(w)) == Swap(Mix(c, w))
  {
    hide *;
    var l, r := XorWords(Swapped(c, |w|), Swap(w)), Swap(Mix(c, w));
    forall k | 0 <= k < |w| ensures l[k] == r[k] {
      SwappedMixAt(c, w, k);
    }
  }

  lemma OctetCommutes(a: octet, b: octet)
    ensures Xor8(a, b) == Xor8(b, a)
  {
  }

  lemma XorWordsCommutes(a: word, b: word)
    requires |a| == |b|
    ensures XorWords(a, b) == XorWords(b, a)
  {
    hide Xor8;
    forall k | 0 <= k < |a| ensures Xor8(a[k], b[k]) == Xor8(b[k], a[k]) {
      OctetCommutes(a[k], b[k]);
    }
  }

  /** A table whose entries are the swapped entries of another. */
  ghost predicate IsSwapped(big: seq<word>, table: Table, n: nat) {
    |big| == 256 && |table| == 256 && forall i {:trigger big[i]} | 0 <= i < 256 :: big[i] == Swapped(table[i], n)
  }

  function AtBig(big: seq<word>, b: octet): word
    requires |big| == 256
  {
    big[b as int]
  }

  lemma AtSwapped(big: seq<word>, table: Table, n: nat, b: octet)
    requires IsSwapped(big, table, n)
    ensures AtBig(big, b) == Swapped(At(table, b), n)
  {
    hide Swapped;
  }

  /** One round of crc_word_big is one of crc_word, swapped. */
  lemma SwappedRound(big: seq<word>, table: Table, data: word)
    requires data != [] && IsSwapped(big, table, |data|)
    ensures var d := Swap(data);
            XorWords([0] + d[..|d| - 1], AtBig(big, d[|d| - 1])) == Swap(Mix(At(table, data[0]), data[1..] + [0]))
  {
    hide Swapped, At, AtBig, Mix, XorWords, Extend;
    var d, r := Swap(data), data[1..] + [0];
    assert [0] + d[..|d| - 1] == Swap(r);
    AtSwapped(big, table, |data|, data[0]);
    SwappedMix(At(table, data[0]), r);
    XorWordsCommutes(Swap(r), AtBig(big, data[0]));
  }

  lemma BigSize(big: seq<word>, table: Table, n: nat)
    requires IsSwapped(big, table, n)
    ensures |big| == 256 && forall b: octet :: |AtBig(big, b)| == n
  {
    hide At;
    forall b: octet ensures |AtBig(big, b)| == n {
      AtSwapped(big, table, n, b);
    }
  }

  lemma StateSize(w: word, k: nat)
    requires k <= |w|
    ensures |WordState(w, k)| == |w|
  {
  }

  lemma StateLast(w: word)
    ensures WordState(w, |w|) == Extend(Fold(0, w), |w|)
  {
    hide Mix;
    assert w[|w|..] + Zeros(|w|) == Zeros(|w|);
    assert w[..|w|] == w;
  }

  /** `crc_word_big`. */
  method CrcWordBig(big: seq<word>, word0: word, ghost table: Table, ghost w: word) returns (data: word)
    requires IsCrcTable(table) && |w| >= 4 && IsSwapped(big, table, |w|) && word0 == Swap(w)
    ensures data == Swapped(Fold(0, w), |w|)
  {
    hide At, AtBig, Mix, Fold, Zeros, XorWords, Swap, IsSwapped, WordState, IsCrcTable;
    data := word0;
    WordFirst(w);
    BigSize(big, table, |w|);
    var n := |word0|;
    for k := 0 to n
      invariant data == Swap(WordState(w, k)) && |WordState(w, k)| == |w|
    {
      WordNext(table, w, k);
      StateSize(w, k + 1);
      SwappedRound(big, table, WordState(w, k));
      data := XorWords([0] + data[..n - 1], AtBig(big, data[n - 1]));
    }
    StateLast(w);
  }

  // ----- braids -----

  /** The sum of what the tables yield for the octets from `k` on. */
  function Sum(ltl: seq<Table>, w: word, k: nat): bv32
    requires |ltl| == |w| && k <= |w| && forall i | 0 <= i < |ltl| :: |ltl[i]| == 256
    decreases |w| - k
  {
    if k == |w| then 0 else Add(At(ltl[k], w[k]), Sum(ltl, w, k + 1))
  }

  ghost predicate Sizes(ltl: seq<Table>) {
    forall i | 0 <= i < |ltl| :: |ltl[i]| == 256
  }

  lemma TableSizes(ltl: seq<Table>, gap: nat)
    requires AreBraidTables(ltl, gap)
    ensures Sizes(ltl)
  {
    forall i | 0 <= i < |ltl| ensures |ltl[i]| == 256 {
      assert IsBraidTable(ltl[i], gap, |ltl|, i);
    }
  }

  lemma {:induction false} SumRight(ltl: seq<Table>, gap: nat, w: word, k: nat)
    requires AreBraidTables(ltl, gap) && |w| == |ltl| && k <= |w| && Sizes(ltl)
    ensures Add(TimesN(8 * (gap + |w| - k), Fold(0, w[..k])), Sum(ltl, w, k)) == TimesN(8 * gap, Fold(0, w))
    decreases |w| - k
  {
    hide Add, TimesN, Fold, At, Wide, AreBraidTables;
    if k == |w| {
      assert w[..k] == w;
      AddZero(TimesN(8 * gap, Fold(0, w)));
    } else {
      var n := 8 * (gap + |w| - k);
      BraidAt(ltl, gap, k, w[k]);
      BraidStep(gap, w, k);
      SumRight(ltl, gap, w, k + 1);
      AddAssociates(TimesN(n, Fold(0, w[..k])), TimesN(n, Wide(w[k])), Sum(ltl, w, k + 1));
    }
  }

  lemma SumWhole(ltl: seq<Table>, gap: nat, w: word)
    requires AreBraidTables(ltl, gap) && |w| == |ltl| && Sizes(ltl)
    ensures Sum(ltl, w, 0) == TimesN(8 * gap, Fold(0, w))
  {
    hide Add, TimesN, AreBraidTables, Sum;
    SumRight(ltl, gap, w, 0);
    assert w[..0] == [];
    TimesNZero(8 * (gap + |w|));
    AddZero(Sum(ltl, w, 0));
  }

  /** Big table `k` is the swapped little table `n - 1 - k`. */
  ghost predicate AreBigTables(big: seq<seq<word>>, ltl: seq<Table>) {
    |big| == |ltl| && forall k {:trigger big[k]} | 0 <= k < |big| :: IsSwapped(big[k], ltl[|ltl| - 1 - k], |ltl|)
  }

  lemma BigAt(big: seq<seq<word>>, ltl: seq<Table>, k: nat, b: octet)
    requires AreBigTables(big, ltl) && k < |big|
    ensures |big[k]| == 256 && |ltl[|ltl| - 1 - k]| == 256
    ensures AtBig(big[k], b) == Swapped(At(ltl[|ltl| - 1 - k], b), |ltl|)
  {
    hide Swapped, At, AtBig;
    AtSwapped(big[k], ltl[|ltl| - 1 - k], |ltl|, b);
  }

  lemma SizeBig(big: seq<seq<word>>, ltl: seq<Table>)
    requires AreBigTables(big, ltl)
    ensures |big| == |ltl|
  {
  }

  lemma SumLast(ltl: seq<Table>, w: word)
    requires |ltl| == |w| && |w| > 0 && Sizes(ltl)
    ensures Sum(ltl, w, |w| - 1) == At(ltl[|w| - 1], w[|w| - 1])
  {
    hide At, Add;
    assert Sum(ltl, w, |w|) == 0;
    AddZero(At(ltl[|w| - 1], w[|w| - 1]));
  }

  /** One word of a braid on a big-endian machine. */
  method BraidWordBig(big: seq<seq<word>>, word0: word, ghost ltl: seq<Table>, ghost w: word, ghost gap: nat)
      returns (c: word)
    requires AreBraidTables(ltl, gap) && AreBigTables(big, ltl) && |w| == |ltl| && word0 == Swap(w)
    ensures c == Swapped(TimesN(8 * gap, Fold(0, w)), |w|)
  {
    hide Add, TimesN, Fold, At, AtBig, AreBigTables, Swapped, XorWords, IsBraidTable;
    ghost var n := |w|;
    TableSizes(ltl, gap);
    SizeBig(big, ltl);
    BigAt(big, ltl, 0, word0[0]);
    c := AtBig(big[0], word0[0]);
    SumLast(ltl, w);
    for k := 1 to |word0|
      invariant c == Swapped(Sum(ltl, w, n - k), n)
    {
      BigAt(big, ltl, k, word0[k]);
      SwappedAdd(Sum(ltl, w, n - k), At(ltl[n - 1 - k], w[n - 1 - k]), n);
      AddCommutes(Sum(ltl, w, n - k), At(ltl[n - 1 - k], w[n - 1 - k]));
      c := XorWords(c, AtBig(big[k], word0[k]));
    }
    SumWhole(ltl, gap, w);
  }
}
