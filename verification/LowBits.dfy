/** Bits packed into bytes from the least significant end, as deflate streams have them (section 3.1.1 of RFC 1951). */
module LowBits {
  import opened Arithmetic
  import opened Bytes
  import opened CanonicalCode

  /** The number whose bits these are, the lowest first. */
  function LowVal(s: seq<bit>): nat {
    if s == [] then 0 else s[0] + 2 * LowVal(s[1..])
  }

  function LowBitsOf(v: nat, n: nat): (s: seq<bit>)
    ensures |s| == n
  {
    if n == 0 then [] else [v % 2] + LowBitsOf(v / 2, n - 1)
  }

  function BytesLow(b: seq<byte>): (s: seq<bit>)
    ensures |s| == 8 * |b|
  {
    if b == [] then [] else LowBitsOf(b[0], 8) + BytesLow(b[1..])
  }

  lemma {:induction false} LowValOf(v: nat, n: nat)
    requires v < Pow2(n)
    ensures LowVal(LowBitsOf(v, n)) == v
  {
    if n > 0 { LowValOf(v / 2, n - 1); }
  }

  lemma {:induction false} LowValBound(s: seq<bit>)
    ensures LowVal(s) < Pow2(|s|)
  {
    if s != [] { LowValBound(s[1..]); }
  }

  lemma Doubled(v: nat, p: nat, w: nat, x: nat)
    ensures x + 2 * (v * p + w) == v * (2 * p) + (x + 2 * w)
  {
    Regroup(v, p, 2, 0);
  }

  lemma {:induction false} LowValConcat(a: seq<bit>, b: seq<bit>)
    ensures LowVal(a + b) == LowVal(b) * Pow2(|a|) + LowVal(a)
  {
    if a == [] {
      assert a + b == b;
    } else {
      LowValConcat(a[1..], b);
      assert (a + b)[1..] == a[1..] + b;
      Doubled(LowVal(b), Pow2(|a| - 1), LowVal(a[1..]), a[0]);
    }
  }

  /** The first `n` bits, and what is left when they are shifted out. */
  lemma LowValSplit(s: seq<bit>, n: nat)
    requires n <= |s|
    ensures LowVal(s) % Pow2(n) == LowVal(s[..n]) && LowVal(s) / Pow2(n) == LowVal(s[n..])
  {
    hide LowVal, Pow2;
    assert s == s[..n] + s[n..];
    LowValConcat(s[..n], s[n..]);
    LowValBound(s[..n]);
    DivModUnique(LowVal(s), Pow2(n), LowVal(s[n..]), LowVal(s[..n]));
  }

  /** Byte `i` takes up its eight bits. */
  lemma {:induction false} ByteAtBits(b: seq<byte>, i: nat)
    requires i < |b|
    ensures BytesLow(b)[8 * i..8 * i + 8] == LowBitsOf(b[i], 8)
    ensures BytesLow(b)[8 * i..] == BytesLow(b[i..])
  {
    hide LowBitsOf;
    if i == 0 {
      assert b[0..] == b;
      assert BytesLow(b)[0..] == BytesLow(b);
    } else {
      ByteAtBits(b[1..], i - 1);
      var first, rest := LowBitsOf(b[0], 8), BytesLow(b[1..]);
      assert BytesLow(b) == first + rest;
      assert (first + rest)[8 * i..8 * i + 8] == rest[8 * (i - 1)..8 * (i - 1) + 8];
      assert (first + rest)[8 * i..] == rest[8 * (i - 1)..];
      assert b[1..][i - 1..] == b[i..];
    }
  }

  lemma {:induction false} BytesAfter(b: seq<byte>, i: nat)
    requires i <= |b|
    ensures BytesLow(b)[8 * i..] == BytesLow(b[i..])
  {
    if i < |b| {
      ByteAtBits(b, i);
    } else {
      assert b[i..] == [];
    }
  }
}
