/** Braided computation: several sparse CRCs, each over every N-th word, and their combination. */
module CrcBraid {
  import opened Gf2
  import opened CrcBytes
  import opened CrcWords

  /**
   * Table `k` yields what octet `k` of a word contributes once the register has passed the rest of the word and `gap`
   * further octets, those of the other braids.
   */
  ghost predicate IsBraidTable(t: Table, gap: nat, w: nat, k: nat)
    requires k <= w
  {
    |t| == 256 && forall i: int {:trigger t[i]} | 0 <= i < 256 :: t[i] == TimesN(8 * (gap + w - k), Wide(i as octet))
  }

  ghost predicate AreBraidTables(ltl: seq<Table>, gap: nat) {
    |ltl| >= 4 && forall k {:trigger ltl[k]} | 0 <= k < |ltl| :: IsBraidTable(ltl[k], gap, |ltl|, k)
  }

  lemma BraidAt(ltl: seq<Table>, gap: nat, k: nat, b: octet)
    requires AreBraidTables(ltl, gap) && k < |ltl|
    ensures |ltl[k]| == 256 && At(ltl[k], b) == TimesN(8 * (gap + |ltl| - k), Wide(b))
  {
    hide TimesN, Wide;
    assert IsBraidTable(ltl[k], gap, |ltl|, k);
  }

  lemma BraidStep(gap: nat, w: word, k: nat)
    requires k < |w|
    ensures Add(TimesN(8 * (gap + |w| - k), Fold(0, w[..k])), TimesN(8 * (gap + |w| - k), Wide(w[k])))
         == TimesN(8 * (gap + |w| - (k + 1)), Fold(0, w[..k + 1]))
  {
    hide Add, TimesN, Wide, Fold;
    var c, b, n := Fold(0, w[..k]), Wide(w[k]), 8 * (gap + |w| - (k + 1));
    TimesNLinear(8 + n, c, b);
    TimesNAdd(8, n, Add(c, b));
    assert w[..k + 1] == w[..k] + [w[k]];
    FoldSnoc(0, w[..k], w[k]);
  }

  lemma BraidFirst(gap: nat, w: word)
    requires |w| > 0
    ensures TimesN(8 * (gap + |w|), Wide(w[0])) == TimesN(8 * (gap + |w| - 1), Fold(0, w[..1]))
  {
    hide Add, TimesN, Wide;
    BraidStep(gap, w, 0);
    assert w[..0] == [];
    TimesNZero(8 * (gap + |w|));
    AddZero(TimesN(8 * (gap + |w|), Wide(w[0])));
  }

  /** One word of a braid: the sum of what the tables yield for its octets. */
  method BraidWord(ltl: seq<Table>, w: word, ghost gap: nat) returns (c: bv32)
    requires AreBraidTables(ltl, gap) && |w| == |ltl|
    ensures c == TimesN(8 * gap, Fold(0, w))
  {
    hide Add, TimesN, Wide, Fold, At, IsBraidTable;
    BraidAt(ltl, gap, 0, w[0]);
    BraidFirst(gap, w);
    c := At(ltl[0], w[0]);
    for k := 1 to |w|
      invariant c == TimesN(8 * (gap + |w| - k), Fold(0, w[..k]))
    {
      BraidAt(ltl, gap, k, w[k]);
      BraidStep(gap, w, k);
      c := Add(c, At(ltl[k], w[k]));
    }
    assert w[..|w|] == w;
  }

  // ----- the state between blocks -----

  /** What the braids' registers will have contributed when `len` more octets, `w` per word, have passed. */
  ghost function Weight(crcs: seq<bv32>, w: nat, len: nat): bv32
    decreases |crcs|
  {
    if crcs == [] || len < w then 0 else Add(TimesN(8 * len, crcs[0]), Weight(crcs[1..], w, len - w))
  }

  /** The braids and the octets `m` still to come determine the register at the end. */
  ghost predicate Owes(crcs: seq<bv32>, w: nat, m: seq<octet>, final: bv32) {
    final == Add(Weight(crcs, w, |m|), Fold(0, m))
  }

  /** The registers after one block each of whose words has gone through its braid. */
  ghost function Next(crcs: seq<bv32>, w: nat, gap: nat, m: seq<octet>): seq<bv32>
    decreases |crcs|
  {
    if crcs == [] || |m| < w then []
    else [TimesN(8 * gap, Fold(crcs[0], m[..w]))] + Next(crcs[1..], w, gap, m[w..])
  }

  lemma {:induction false} WeightZeros(crcs: seq<bv32>, w: nat, len: nat)
    requires forall k | 0 <= k < |crcs| :: crcs[k] == 0
    ensures Weight(crcs, w, len) == 0
    decreases |crcs|
  {
    hide Add, TimesN;
    if crcs != [] && len >= w {
      TimesNZero(8 * len);
      WeightZeros(crcs[1..], w, len - w);
      AddZero(0);
    }
  }

  /** At the start the first braid holds the register, the others nothing. */
  lemma OwesStart(crc: bv32, crcs: seq<bv32>, w: nat, m: seq<octet>)
    requires |crcs| > 0 && crcs[0] == crc && (forall k | 1 <= k < |crcs| :: crcs[k] == 0) && |m| >= w
    ensures Owes(crcs, w, m, Fold(crc, m))
  {
    hide Add, TimesN, Fold;
    WeightZeros(crcs[1..], w, |m| - w);
    AddZero(TimesN(8 * |m|, crc));
    FoldFrom(crc, m);
  }

  /** The register over a prefix of `n` octets, brought to the end of `m`. */
  ghost function Prefix(m: seq<octet>, n: nat): bv32
    requires n <= |m|
  {
    TimesN(8 * (|m| - n), Fold(0, m[..n]))
  }

  lemma PrefixSplit(m: seq<octet>, w: nat, n: nat)
    requires w + n <= |m|
    ensures Prefix(m, w + n) == Add(Prefix(m, w), Prefix(m[w..], n))
  {
    hide Add, TimesN, Fold;
    var a, b := m[..w], m[w..][..n];
    assert m[..w + n] == a + b;
    FoldConcat(0, a, b);
    FoldFrom(Fold(0, a), b);
    TimesNLinear(8 * (|m| - w - n), TimesN(8 * n, Fold(0, a)), Fold(0, b));
    TimesNAdd(8 * n, 8 * (|m| - w - n), Fold(0, a));
  }

  lemma PrefixNone(m: seq<octet>)
    ensures Prefix(m, 0) == 0
  {
    hide TimesN;
    assert m[..0] == [];
    TimesNZero(8 * |m|);
  }

  lemma PrefixAll(m: seq<octet>, n: nat)
    requires n <= |m|
    ensures Fold(0, m) == Add(Prefix(m, n), Fold(0, m[n..]))
  {
    hide Add, TimesN, Fold;
    assert m == m[..n] + m[n..];
    FoldConcat(0, m[..n], m[n..]);
    FoldFrom(Fold(0, m[..n]), m[n..]);
  }

  /** What one braid owes after its word, against before. */
  lemma WordWeight(c: bv32, w: nat, gap: nat, m: seq<octet>)
    requires |m| >= w + gap
    ensures TimesN(8 * (|m| - w - gap), TimesN(8 * gap, Fold(c, m[..w]))) == Add(TimesN(8 * |m|, c), Prefix(m, w))
  {
    hide Add, TimesN, Fold;
    FoldFrom(c, m[..w]);
    var n := 8 * (|m| - w);
    TimesNAdd(8 * gap, 8 * (|m| - w - gap), Fold(c, m[..w]));
    TimesNLinear(n, TimesN(8 * w, c), Fold(0, m[..w]));
    TimesNAdd(8 * w, n, c);
  }

  lemma LessOne(k: nat, w: nat)
    requires k > 0
    ensures (k - 1) * w == k * w - w && k * w >= w
  {
  }

  lemma {:induction false} NextWeight(crcs: seq<bv32>, w: nat, gap: nat, m: seq<octet>, n: nat)
    requires w > 0 && n == |crcs| * w && |m| >= w + gap + n
    ensures Weight(Next(crcs, w, gap, m), w, |m| - w - gap) == Add(Weight(crcs, w, |m|), Prefix(m, n))
    decreases |crcs|
  {
    hide Add, TimesN, Fold, Prefix;
    if crcs == [] {
      PrefixNone(m);
      AddZero(0);
    } else {
      var rest := crcs[1..];
      LessOne(|crcs|, w);
      NextWeight(rest, w, gap, m[w..], n - w);
      WordWeight(crcs[0], w, gap, m);
      PrefixSplit(m, w, n - w);
      var next := Next(crcs, w, gap, m);
      assert next[1..] == Next(rest, w, gap, m[w..]);
      AddExchange(TimesN(8 * |m|, crcs[0]), Prefix(m, w), Weight(rest, w, |m| - w), Prefix(m[w..], n - w));
    }
  }

  /** A block leaves unchanged what is owed. */
  lemma OwesNext(crcs: seq<bv32>, w: nat, gap: nat, m: seq<octet>, final: bv32)
    requires w > 0 && gap + w == |crcs| * w && |m| >= 2 * (gap + w)
    requires Owes(crcs, w, m, final)
    ensures Owes(Next(crcs, w, gap, m), w, m[gap + w..], final)
  {
    hide Add, TimesN, Fold, Prefix, Weight, Next;
    NextWeight(crcs, w, gap, m, gap + w);
    PrefixAll(m, gap + w);
    AddAssociates(Weight(crcs, w, |m|), Prefix(m, gap + w), Fold(0, m[gap + w..]));
  }

  // ----- the last block -----

  /** While the braids are combined: `c` has passed the words before `m`, the braids in `crcs` are still to be added. */
  ghost predicate Joining(c: bv32, crcs: seq<bv32>, w: nat, m: seq<octet>, final: bv32) {
    final == Add(TimesN(8 * |m|, c), Add(Weight(crcs, w, |m|), Fold(0, m)))
  }

  lemma JoinStart(crcs: seq<bv32>, w: nat, m: seq<octet>, final: bv32)
    requires Owes(crcs, w, m, final)
    ensures Joining(0, crcs, w, m, final)
  {
    hide Add, TimesN, Fold, Weight;
    TimesNZero(8 * |m|);
    AddZero(final);
  }

  lemma JoinSum(tc: bv32, td: bv32, rest: bv32, p: bv32, tail: bv32)
    ensures Add(tc, Add(Add(td, rest), Add(p, tail))) == Add(Add(Add(tc, td), p), Add(rest, tail))
  {
    hide Add;
    AddExchange(td, rest, p, tail);
    AddAssociates(tc, Add(td, p), Add(rest, tail));
    AddAssociates(tc, td, p);
  }

  lemma JoinNext(c: bv32, crcs: seq<bv32>, w: nat, m: seq<octet>, final: bv32)
    requires Joining(c, crcs, w, m, final) && crcs != [] && |m| >= w
    ensures Joining(Fold(Add(c, crcs[0]), m[..w]), crcs[1..], w, m[w..], final)
  {
    hide Add, TimesN, Fold;
    var n, a, d := 8 * (|m| - w), m[..w], crcs[0];
    var rest, tail := Weight(crcs[1..], w, |m| - w), Fold(0, m[w..]);
    var p, tc, td := TimesN(n, Fold(0, a)), TimesN(8 * |m|, c), TimesN(8 * |m|, d);
    PrefixAll(m, w);
    FoldFrom(Add(c, d), a);
    TimesNLinear(n, TimesN(8 * w, Add(c, d)), Fold(0, a));
    TimesNAdd(8 * w, n, Add(c, d));
    TimesNLinear(8 * |m|, c, d);
    JoinSum(tc, td, rest, p, tail);
  }

  lemma JoinDone(c: bv32, w: nat, m: seq<octet>, final: bv32)
    requires Joining(c, [], w, m, final)
    ensures final == Fold(c, m)
  {
    hide Add, TimesN, Fold;
    AddZero(Fold(0, m));
    FoldFrom(c, m);
  }
}
