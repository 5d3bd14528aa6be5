/** The SFMT generator: one number at a time or a whole array at once, and the repair of its initial state. */
module Sfmt {
  /** A word of 32 bits, the lowest first, and a word of 128 bits. */
  type Word = s: seq<bool> | |s| == 32 witness seq(32, _ => false)
  type W128 = s: seq<Word> | |s| == 4 witness seq(4, _ => seq(32, _ => false))

  /** `do_recursion`, of which nothing is assumed, with the size of the state and the pick-up position. */
  datatype Params = Params(rec: (W128, W128, W128, W128) -> W128, n: nat, pos1: nat)

  predicate ParamsOk(p: Params) {
    p.n >= 2 && 1 <= p.pos1 < p.n
  }

  /** The sequence that the recursion defines from an initial state. */
  function X(p: Params, init: seq<W128>, i: nat): W128
    requires ParamsOk(p) && |init| == p.n
  {
    if i < p.n then init[i]
    else p.rec(X(p, init, i - p.n), X(p, init, i - p.n + p.pos1), X(p, init, i - 2), X(p, init, i - 1))
  }

  /** The random number with number `m`: a quarter of a word of the sequence. */
  function Output(p: Params, init: seq<W128>, m: nat): Word
    requires ParamsOk(p) && |init| == p.n
  {
    X(p, init, p.n + m / 4)[m % 4]
  }

  class Generator {
    const p: Params
    const state: array<W128>
    var idx: nat
    ghost const init: seq<W128>
    ghost var base: nat // the state holds the words of the sequence from here on

    ghost predicate Valid()
      reads `idx, `base, state
    {
      && ParamsOk(p) && state.Length == p.n == |init| && idx <= 4 * p.n
      && (base >= p.n || (base == 0 && idx == 4 * p.n))
      && forall j {:trigger state[j]} | 0 <= j < p.n :: state[j] == X(p, init, base + j)
    }

    /** The number of the next random number. */
    ghost function Next(): (m: nat)
      requires Valid()
      reads `idx, `base, state
    {
      4 * base + idx - 4 * p.n
    }

    /** A state is given, as one of the initialisation functions leaves it: all of its numbers are used up. */
    constructor (q: Params, start: array<W128>)
      requires ParamsOk(q) && start.Length == q.n
      ensures Valid() && p == q && state == start && init == start[..] && idx == 4 * p.n && Next() == 0
    {
      p, state, idx, init, base := q, start, 4 * q.n, start[..], 0;
    }

    lemma Recursion(i: nat)
      requires ParamsOk(p) && |init| == p.n
      ensures X(p, init, i + p.n) == p.rec(X(p, init, i), X(p, init, i + p.pos1), X(p, init, i + p.n - 2),
        X(p, init, i + p.n - 1))
    {
    }

    /**
     * The first `i` words of the state are the next ones already; `r1` and `r2` are where the two words before the
     * `i`-th are.
     */
    ghost predicate Advancing(b: nat, i: nat, r1: nat, r2: nat)
      reads state
    {
      && ParamsOk(p) && state.Length == p.n == |init| && i <= p.n
      && (forall j {:trigger state[j]} | 0 <= j < p.n :: state[j] == X(p, init, if j < i then b + p.n + j else b + j))
      && r2 == (if i == 0 then p.n - 1 else i - 1) && r1 == if i == 0 then p.n - 2 else if i == 1 then p.n - 1
        else i - 2
    }

    /** One step of the recursion in place; `q` is where the picked-up word is. */
    method Advance(ghost b: nat, i: nat, q: nat, r1: nat, r2: nat)
      requires Advancing(b, i, r1, r2) && i < p.n && q == if i < p.n - p.pos1 then i + p.pos1 else i + p.pos1 - p.n
      modifies state
      ensures Advancing(b, i + 1, r2, i)
    {
      hide X;
      Recursion(b + i);
      assert state[r1] == X(p, init, b + p.n + i - 2) && state[r2] == X(p, init, b + p.n + i - 1);
      assert state[q] == X(p, init, b + i + p.pos1);
      state[i] := p.rec(state[i], state[q], state[r1], state[r2]);
    }

    lemma AdvanceStart()
      requires Valid()
      ensures Advancing(base, 0, p.n - 2, p.n - 1)
    {
    }

    lemma AdvanceDone(b: nat, r1: nat, r2: nat)
      requires Advancing(b, p.n, r1, r2) && base == b + p.n && idx <= 4 * p.n
      ensures Valid()
    {
      hide X;
    }

    /** `sfmt_gen_rand_all`: the next words of the sequence, in place. */
    method GenRandAll()
      requires Valid()
      modifies state, `base
      ensures Valid() && base == old(base) + p.n
    {
      hide X, Advancing;
      ghost var b := base;
      var r1, r2 := p.n - 2, p.n - 1;
      assert Advancing(b, 0, r1, r2) by { AdvanceStart(); }
      var i := 0;
      while i < p.n - p.pos1
        modifies state
        invariant i <= p.n - p.pos1 && 0 <= r1 && 0 <= r2 && Advancing(b, i, r1, r2)
      {
        Advance(b, i, i + p.pos1, r1, r2);
        r1 := r2;
        r2 := i;
        i := i + 1;
      }
      while i < p.n
        modifies state
        invariant p.n - p.pos1 <= i <= p.n && 0 <= r1 && 0 <= r2 && Advancing(b, i, r1, r2)
      {
        Advance(b, i, i + p.pos1 - p.n, r1, r2);
        r1 := r2;
        r2 := i;
        i := i + 1;
      }
      base := b + p.n;
      AdvanceDone(b, r1, r2);
    }

    lemma NextIs()
      requires Valid() && idx < 4 * p.n
      ensures state[idx / 4][idx % 4] == Output(p, init, Next())
    {
      hide X;
      assert state[idx / 4] == X(p, init, base + idx / 4);
      assert Next() / 4 == base - p.n + idx / 4 && Next() % 4 == idx % 4;
    }

    /** Once the numbers of the state are used up the next ones are made. */
    method Refill()
      requires Valid()
      modifies state, `idx, `base
      ensures Valid() && idx < 4 * p.n && Next() == old(Next()) && (old(idx) % 2 == 0 ==> idx % 2 == 0)
    {
      hide X;
      if idx >= 4 * p.n {
        GenRandAll();
        idx := 0;
      }
    }

    /** `sfmt_genrand_uint32`. */
    method GenrandUint32() returns (r: Word)
      requires Valid()
      modifies state, `idx, `base
      ensures Valid() && r == Output(p, init, old(Next())) && Next() == old(Next()) + 1
    {
      hide X, Output;
      Refill();
      NextIs();
      r := state[idx / 4][idx % 4];
      idx := idx + 1;
    }

    /** `sfmt_genrand_uint64`: the low and the high half. */
    method GenrandUint64() returns (lo: Word, hi: Word)
      requires Valid() && idx % 2 == 0
      modifies state, `idx, `base
      ensures Valid() && idx % 2 == 0 && Next() == old(Next()) + 2
      ensures lo == Output(p, init, old(Next())) && hi == Output(p, init, old(Next()) + 1)
    {
      hide X, Output;
      Refill();
      NextIs();
      lo := state[idx / 4][idx % 4];
      idx := idx + 1;
      NextIs();
      hi := state[idx / 4][idx % 4];
      idx := idx + 1;
    }

    /** The first `i` places of the array are filled with the words that follow the state's. */
    ghost predicate Filled(a: array<W128>, i: nat, b: nat)
      reads a
    {
      ParamsOk(p) && |init| == p.n && i <= a.Length && forall j {:trigger a[j]} | 0 <= j < i ::
        a[j] == X(p, init, b + p.n + j)
    }

    /** One more word, from words that came before. */
    method Put(a: array<W128>, i: nat, ghost b: nat, x: W128, y: W128, u: W128, v: W128)
      requires Filled(a, i, b) && i < a.Length
      requires x == X(p, init, b + i) && y == X(p, init, b + i + p.pos1) && u == X(p, init, b + i + p.n - 2)
        && v == X(p, init, b + i + p.n - 1)
      modifies a
      ensures Filled(a, i + 1, b)
    {
      hide X;
      Recursion(b + i);
      a[i] := p.rec(x, y, u, v);
    }

    /** The two words before place `i`: in the state, or in the array. */
    method Before(a: array<W128>, i: nat, back: nat) returns (w: W128)
      requires Valid() && Filled(a, i, base) && 1 <= back <= 2
      ensures w == X(p, init, base + p.n + i - back)
    {
      hide X;
      w := if i < back then state[p.n + i - back] else a[i - back];
    }

    /** The first `n` words, from the state and, at the end, from the words before. */
    method FillStart(a: array<W128>)
      requires Valid() && a != state && a.Length >= p.n
      modifies a
      ensures Valid() && Filled(a, p.n, base)
    {
      hide X;
      var n := p.n;
      var i := 0;
      while i < n - p.pos1
        invariant Valid() && i <= n - p.pos1 && Filled(a, i, base)
      {
        var r1 := Before(a, i, 2);
        var r2 := Before(a, i, 1);
        Put(a, i, base, state[i], state[i + p.pos1], r1, r2);
        i := i + 1;
      }
      while i < n
        invariant Valid() && n - p.pos1 <= i <= n && Filled(a, i, base)
      {
        var r1 := Before(a, i, 2);
        var r2 := Before(a, i, 1);
        Put(a, i, base, state[i], a[i + p.pos1 - n], r1, r2);
        i := i + 1;
      }
    }

    /** The words up to the last `n`, while the state still holds those before. */
    method FillFirst(a: array<W128>) returns (i: nat)
      requires Valid() && a != state && a.Length >= p.n
      modifies a
      ensures Valid() && i == (if a.Length < 2 * p.n then p.n else a.Length - p.n) && Filled(a, i, base)
    {
      hide X;
      FillStart(a);
      var n := p.n;
      i := n;
      while i < a.Length - n
        invariant Valid() && n <= i && (i <= a.Length - n || i == n) && Filled(a, i, base)
      {
        Put(a, i, base, a[i - n], a[i + p.pos1 - n], a[i - 2], a[i - 1]);
        i := i + 1;
      }
    }

    /** The last `n` words, of which the state gets a copy. */
    method FillLast(a: array<W128>, i0: nat)
      requires Valid() && a != state && a.Length >= p.n && i0 == (if a.Length < 2 * p.n then p.n else a.Length - p.n)
        && Filled(a, i0, base)
      modifies a, state, `base
      ensures Valid() && base == old(base) + a.Length && Filled(a, a.Length, old(base))
    {
      hide X;
      ghost var b := base;
      var n, size, i, j := p.n, a.Length, i0, 0;
      while j < 2 * n - size
        modifies state
        invariant 0 <= j && (j <= 2 * n - size || j == 0) && Filled(a, i, b)
        invariant forall q {:trigger state[q]} | 0 <= q < j :: state[q] == X(p, init, b + size + q)
      {
        state[j] := a[j + size - n];
        j := j + 1;
      }
      while i < size
        modifies a, state
        invariant i0 <= i <= size && j == i - (size - n) && Filled(a, i, b)
        invariant forall q {:trigger state[q]} | 0 <= q < j :: state[q] == X(p, init, b + size + q)
      {
        Put(a, i, b, a[i - n], a[i + p.pos1 - n], a[i - 2], a[i - 1]);
        state[j] := a[i];
        i := i + 1;
        j := j + 1;
      }
      base := b + size;
    }

    /**
     * `sfmt_fill_array32`, on the array seen as words of 128 bits: it holds what as many calls of the serial generator
     * would return, and what comes after is the same as after them.
     */
    method FillArray32(a: array<W128>)
      requires Valid() && idx == 4 * p.n && a.Length >= p.n && a != state
      modifies a, state, `idx, `base
      ensures Valid() && Next() == old(Next()) + 4 * a.Length && idx == 4 * p.n
      ensures forall m {:trigger Output(p, init, m)} | old(Next()) <= m < Next() ::
        var j := m - old(Next()); a[j / 4][j % 4] == Output(p, init, m)
    {
      hide X;
      ghost var b := base;
      var i := FillFirst(a);
      FillLast(a, i);
      idx := 4 * p.n;
      forall m | 4 * b <= m < 4 * b + 4 * a.Length ensures a[(m - 4 * b) / 4][(m - 4 * b) % 4] == Output(p, init, m) {
        var j := (m - 4 * b) / 4;
        assert a[j] == X(p, init, b + p.n + j);
        assert m / 4 == b + j && m % 4 == (m - 4 * b) % 4;
      }
    }
  }

  // ----- period certification -----

  function And(a: Word, b: Word): Word {
    seq(32, i requires 0 <= i < 32 => a[i] && b[i])
  }

  function Xor(a: Word, b: Word): Word {
    seq(32, i requires 0 <= i < 32 => a[i] != b[i])
  }

  function ShiftRight(a: Word, k: nat): Word {
    seq(32, i requires 0 <= i < 32 => i + k < 32 && a[i + k])
  }

  /** The word `1 << j`. */
  function Single(j: nat): Word {
    seq(32, i requires 0 <= i < 32 => i == j)
  }

  /** An odd number of the bits are set. */
  function Odd(s: seq<bool>): bool {
    s != [] && Odd(s[..|s| - 1]) != s[|s| - 1]
  }

  lemma {:induction false} OddConcat(a: seq<bool>, b: seq<bool>)
    ensures Odd(a + b) == (Odd(a) != Odd(b))
  {
    if b == [] {
      assert a + b == a;
    } else {
      OddConcat(a, b[..|b| - 1]);
      assert (a + b)[..|a + b| - 1] == a + b[..|b| - 1];
    }
  }

  lemma {:induction false} OddXor(a: seq<bool>, b: seq<bool>, c: seq<bool>)
    requires |a| == |b| == |c| && forall i | 0 <= i < |c| :: c[i] == (a[i] != b[i])
    ensures Odd(c) == (Odd(a) != Odd(b))
  {
    if c != [] {
      OddXor(a[..|a| - 1], b[..|b| - 1], c[..|c| - 1]);
    }
  }

  /** `inner ^= inner >> i` folds twice as many bits into the lowest `i`. */
  lemma FoldHalf(x: Word, i: nat)
    requires 1 <= i <= 16
    ensures Odd(Xor(x, ShiftRight(x, i))[..i]) == Odd(x[..2 * i])
  {
    var y := Xor(x, ShiftRight(x, i));
    OddXor(x[..i], x[i..2 * i], y[..i]);
    OddConcat(x[..i], x[i..2 * i]);
    assert x[..2 * i] == x[..i] + x[i..2 * i];
  }

  function IdxOf(i: nat, only64: bool): nat
    requires i < 4
  {
    if only64 then (if i % 2 == 0 then i + 1 else i - 1) else i
  }

  /** The bits of the first word of the state that the parity check vector picks. */
  function Picked(w: W128, parity: W128, only64: bool): seq<bool> {
    if only64 then And(w[1], parity[0]) + And(w[0], parity[1]) + And(w[3], parity[2]) + And(w[2], parity[3])
    else And(w[0], parity[0]) + And(w[1], parity[1]) + And(w[2], parity[2]) + And(w[3], parity[3])
  }

  /** The check holds: an odd number of the picked bits are set. */
  predicate Certified(w: W128, parity: W128, only64: bool) {
    Odd(Picked(w, parity, only64))
  }

  lemma OddNone(x: Word)
    requires forall i | 0 <= i < 32 :: !x[i]
    ensures !Odd(x) && !Odd([])
  {
    OddXor(x, x, x);
  }

  lemma OddOne(b: bool)
    ensures Odd([b]) == b
  {
    assert [b][..0] == [];
  }

  /** The check word: all picked words, one upon the other. */
  method Inner(w: W128, parity: W128, only64: bool) returns (odd: bool)
    ensures odd == Certified(w, parity, only64)
  {
    hide Odd, And;
    var inner: Word := Single(32);
    ghost var seen: seq<bool> := [];
    OddNone(inner);
    for i := 0 to 4
      invariant Odd(inner) == Odd(seen)
      invariant seen == (if i > 0 then And(w[IdxOf(0, only64)], parity[0]) else [])
        + (if i > 1 then And(w[IdxOf(1, only64)], parity[1]) else [])
                        + (if i > 2 then And(w[IdxOf(2, only64)], parity[2]) else [])
                          + (if i > 3 then And(w[IdxOf(3, only64)], parity[3]) else [])
    {
      var x := And(w[IdxOf(i, only64)], parity[i]);
      OddXor(inner, x, Xor(inner, x));
      OddConcat(seen, x);
      inner := Xor(inner, x);
      seen := seen + x;
    }
    assert inner[..32] == inner;
    var i := 16;
    while i > 0
      invariant i in {16, 8, 4, 2, 1, 0}
      invariant Odd(inner[..if i == 0 then 1 else 2 * i]) == Odd(seen)
    {
      FoldHalf(inner, i);
      inner := Xor(inner, ShiftRight(inner, i));
      i := i / 2;
    }
    OddOne(inner[0]);
    assert inner[..1] == [inner[0]];
    odd := inner[0];
  }

  lemma {:induction false} OddSingle(s: seq<bool>, j: nat)
    requires j < |s| && forall i | 0 <= i < |s| :: s[i] <==> i == j
    ensures Odd(s)
  {
    if j == |s| - 1 {
      OddXor(s[..j], s[..j], s[..j]);
    } else {
      OddSingle(s[..|s| - 1], j);
    }
  }

  /** Flipping a bit that the vector picks flips the parity of a word's picked bits. */
  lemma FlipWord(x: Word, p: Word, j: nat)
    requires j < 32 && p[j]
    ensures Odd(And(Xor(x, Single(j)), p)) == !Odd(And(x, p))
  {
    OddSingle(Single(j), j);
    OddXor(And(x, p), Single(j), And(Xor(x, Single(j)), p));
  }

  lemma FourParts(w: W128, parity: W128, only64: bool)
    ensures Certified(w, parity, only64)
         == (((Odd(And(w[IdxOf(0, only64)], parity[0])) != Odd(And(w[IdxOf(1, only64)], parity[1])))
              != Odd(And(w[IdxOf(2, only64)], parity[2]))) != Odd(And(w[IdxOf(3, only64)], parity[3])))
  {
    hide Odd, And;
    var a: seq<bool>, b: seq<bool> := And(w[IdxOf(0, only64)], parity[0]), And(w[IdxOf(1, only64)], parity[1]);
    var c: seq<bool>, d: seq<bool> := And(w[IdxOf(2, only64)], parity[2]), And(w[IdxOf(3, only64)], parity[3]);
    OddConcat(a, b);
    OddConcat(a + b, c);
    OddConcat(a + b + c, d);
  }

  /** So it flips the check. */
  lemma FlipCertifies(w: W128, parity: W128, only64: bool, i: nat, j: nat)
    requires i < 4 && j < 32 && parity[i][j]
    ensures var k := IdxOf(i, only64);
      Certified(w[k := Xor(w[k], Single(j))], parity, only64) == !Certified(w, parity, only64)
  {
    hide Odd, And, Xor, Single;
    var k := IdxOf(i, only64);
    var v: W128 := w[k := Xor(w[k], Single(j))];
    FlipWord(w[k], parity[i], j);
    FourParts(w, parity, only64);
    FourParts(v, parity, only64);
  }

  /** The vector has a bit in common with the word `1 << j`. */
  lemma CommonBit(p: Word, j: nat)
    requires j < 32
    ensures (true in And(Single(j), p)) <==> p[j]
  {
    if p[j] { assert And(Single(j), p)[j]; }
  }

  function ShiftLeft(a: Word): Word {
    seq(32, i requires 0 <= i < 32 => i > 0 && a[i - 1])
  }

  lemma NextSingle(j: nat)
    requires j < 32
    ensures ShiftLeft(Single(j)) == Single(j + 1)
  {
  }

  ghost predicate HasBit(parity: W128) {
    exists i, j | 0 <= i < 4 && 0 <= j < 32 :: parity[i][j]
  }

  /** Bit `j` of word `k` is flipped, and no other. */
  ghost predicate Flipped(w: W128, v: W128, k: nat, j: nat) {
    k < 4 && j < 32 && v == w[k := Xor(w[k], Single(j))]
  }

  /** The first bit of the vector, the words taken in order and each from its lowest bit on. */
  ghost predicate FirstBit(parity: W128, i: nat, j: nat) {
    && i < 4 && j < 32 && parity[i][j]
    && forall a, b | 0 <= a < 4 && 0 <= b < 32 && parity[a][b] :: i < a || (i == a && j <= b)
  }

  /** The bit of the state is flipped that the first bit of the vector picks. */
  ghost predicate FirstFlipped(w: W128, v: W128, parity: W128, only64: bool) {
    exists i: nat, j: nat :: FirstBit(parity, i, j) && Flipped(w, v, if only64 then [1, 0, 3, 2][i] else i, j)
  }

  /**
   * `period_certification`. It changes nothing if the check holds or the parity check vector is zero. Otherwise it
   * flips the bit that the first bit of the vector picks, and afterwards the check holds.
   */
  method PeriodCertification(state: array<W128>, parity: W128, only64: bool)
    requires state.Length > 0
    modifies state
    ensures forall k | 1 <= k < state.Length :: state[k] == old(state[k])
    ensures Certified(old(state[0]), parity, only64) ==> state[0] == old(state[0])
    ensures Certified(state[0], parity, only64) <==> Certified(old(state[0]), parity, only64) || HasBit(parity)
    ensures !HasBit(parity) ==> state[0] == old(state[0])
    ensures HasBit(parity) && !Certified(old(state[0]), parity, only64) ==>
      FirstFlipped(old(state[0]), state[0], parity, only64)
  {
    hide Odd, And, Xor, Single, Certified;
    var odd := Inner(state[0], parity, only64);
    if odd { return; }
    for i := 0 to 4
      invariant state[..] == old(state[..]) && forall a, j | 0 <= a < i && 0 <= j < 32 :: !parity[a][j]
    {
      var work := Single(0);
      for j := 0 to 32
        invariant state[..] == old(state[..]) && work == Single(j) && forall k | 0 <= k < j :: !parity[i][k]
      {
        CommonBit(parity[i], j);
        if true in And(work, parity[i]) {
          var k := IdxOf(i, only64);
          FlipCertifies(state[0], parity, only64, i, j);
          ghost var was: W128 := state[0];
          state[0] := state[0][k := Xor(state[0][k], work)];
          assert parity[i][j] && HasBit(parity);
          assert FirstBit(parity, i, j) && Flipped(was, state[0], k, j);
          return;
        }
        work := ShiftLeft(work);
        NextSingle(j);
      }
    }
  }
}
