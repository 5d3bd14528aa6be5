/** The canonical code of a table of lengths, its decoding tables, and decoding bit by bit. */
module CanonicalCode {
  import opened Arithmetic
  import opened HuffmanTree
  import opened HuffmanOptimal

  const MAX_CODE_LEN := 23
  const MAX_LENGTH := 20

  /** How many of the first `m` symbols have length `n`. */
  ghost function CountEq(length: seq<nat>, n: nat, m: nat): nat
    requires m <= |length|
  {
    if m == 0 then 0 else CountEq(length, n, m - 1) + if length[m - 1] == n then 1 else 0
  }

  /** How many of the first `m` symbols have a length below `n`. */
  ghost function CountBelow(length: seq<nat>, n: nat, m: nat): nat
    requires m <= |length|
  {
    if m == 0 then 0 else CountBelow(length, n, m - 1) + if length[m - 1] < n then 1 else 0
  }

  ghost function Count(length: seq<nat>, n: nat): nat {
    CountEq(length, n, |length|)
  }

  ghost function Below(length: seq<nat>, n: nat): nat {
    CountBelow(length, n, |length|)
  }

  lemma {:induction false} BelowNext(length: seq<nat>, n: nat, m: nat)
    requires m <= |length|
    ensures CountBelow(length, n + 1, m) == CountBelow(length, n, m) + CountEq(length, n, m)
  {
    if m > 0 { BelowNext(length, n, m - 1); }
  }

  lemma {:induction false} CountLess(length: seq<nat>, n: nat, s: nat, m: nat)
    requires s < m <= |length| && length[s] == n
    ensures CountEq(length, n, s) < CountEq(length, n, m)
  {
    if m > s + 1 { CountLess(length, n, s, m - 1); }
  }

  lemma {:induction false} BelowMonotone(length: seq<nat>, n: nat, n': nat, m: nat)
    requires n <= n' && m <= |length|
    ensures CountBelow(length, n, m) <= CountBelow(length, n', m) <= m
  {
    if m > 0 { BelowMonotone(length, n, n', m - 1); }
  }

  ghost predicate Lengths(length: seq<nat>, minLen: nat, maxLen: nat) {
    1 <= minLen <= maxLen <= MAX_LENGTH && forall i | 0 <= i < |length| :: minLen <= length[i] <= maxLen
  }

  lemma {:induction false} NoneBelow(length: seq<nat>, minLen: nat, maxLen: nat, m: nat)
    requires Lengths(length, minLen, maxLen) && m <= |length|
    ensures CountBelow(length, minLen, m) == 0
  {
    if m > 0 { NoneBelow(length, minLen, maxLen, m - 1); }
  }

  /** The first codeword of length `n`: twice the first value after those of length n - 1. */
  ghost function First(length: seq<nat>, minLen: nat, n: nat): nat {
    if n <= minLen then 0 else 2 * (First(length, minLen, n - 1) + Count(length, n - 1))
  }

  ghost function CodeOf(length: seq<nat>, minLen: nat, s: nat): nat
    requires s < |length|
  {
    First(length, minLen, length[s]) + CountEq(length, length[s], s)
  }

  lemma FirstIsZero(length: seq<nat>, minLen: nat)
    ensures First(length, minLen, minLen) == 0
  {
  }

  lemma CountNone(length: seq<nat>, n: nat)
    ensures CountEq(length, n, 0) == 0
  {
  }

  lemma CountNext(length: seq<nat>, n: nat, i: nat)
    requires i < |length|
    ensures CountEq(length, n, i + 1) == CountEq(length, n, i) + if length[i] == n then 1 else 0
  {
  }

  lemma FirstNext(length: seq<nat>, minLen: nat, n: nat)
    requires n >= minLen
    ensures First(length, minLen, n + 1) == 2 * (First(length, minLen, n) + CountEq(length, n, |length|))
  {
  }

  /** `BZ2_hbAssignCodes`. */
  method AssignCodes(code: array<nat>, length: seq<nat>, minLen: nat, maxLen: nat)
    requires Lengths(length, minLen, maxLen) && |length| <= code.Length
    modifies code
    ensures forall s | 0 <= s < |length| :: code[s] == CodeOf(length, minLen, s)
  {
    hide First, CountEq;
    var vec := 0;
    FirstIsZero(length, minLen);
    for n := minLen to maxLen + 1
      invariant vec == First(length, minLen, n)
      invariant forall s | 0 <= s < |length| && length[s] < n :: code[s] == CodeOf(length, minLen, s)
    {
      CountNone(length, n);
      for i := 0 to |length|
        invariant vec == First(length, minLen, n) + CountEq(length, n, i)
        invariant forall s | 0 <= s < |length| && (length[s] < n || (length[s] == n && s < i)) ::
          code[s] == CodeOf(length, minLen, s)
      {
        CountNext(length, n, i);
        if length[i] == n {
          code[i] := vec;
          vec := vec + 1;
        }
      }
      FirstNext(length, minLen, n);
      vec := vec * 2;
    }
  }

  // ----- codewords fit when the Kraft inequality holds -----

  /** The Kraft sum of the lengths below `n`. */
  ghost function KraftBelow(length: seq<nat>, n: nat): real {
    if length == [] then 0.0
    else KraftBelow(length[..|length| - 1], n) + if length[|length| - 1] < n then Half(length[|length| - 1]) else 0.0
  }

  lemma {:induction false} CountPrefix(length: seq<nat>, n: nat, p: nat, m: nat)
    requires m <= p <= |length|
    ensures CountEq(length[..p], n, m) == CountEq(length, n, m)
  {
    if m > 0 { CountPrefix(length, n, p, m - 1); }
  }

  lemma {:induction false} KraftBelowNext(length: seq<nat>, n: nat)
    ensures KraftBelow(length, n + 1) == KraftBelow(length, n) + Count(length, n) as real * Half(n)
  {
    hide Half;
    if length != [] {
      var m := |length| - 1;
      KraftBelowNext(length[..m], n);
      CountPrefix(length, n, m, m);
      Distribute(Count(length[..m], n) as real, 1.0, Half(n));
    }
  }

  lemma {:induction false} KraftBelowAtMost(length: seq<nat>, n: nat)
    ensures 0.0 <= KraftBelow(length, n) <= KraftSum(length)
  {
    if length != [] { KraftBelowAtMost(length[..|length| - 1], n); }
  }

  lemma DoubleHalf(x: nat, n: nat)
    requires n > 0
    ensures (2 * x) as real * Half(n) == x as real * Half(n - 1)
  {
    assert Half(n) == Half(n - 1) / 2.0;
  }

  lemma {:induction false} KraftBelowNone(length: seq<nat>, minLen: nat, maxLen: nat)
    requires Lengths(length, minLen, maxLen)
    ensures KraftBelow(length, minLen) == 0.0
  {
    if length != [] { KraftBelowNone(length[..|length| - 1], minLen, maxLen); }
  }

  /** The codewords below length `n` take up exactly the part of the code space before the first one of that length. */
  lemma {:induction false} FirstIsKraft(length: seq<nat>, minLen: nat, maxLen: nat, n: nat)
    requires Lengths(length, minLen, maxLen) && n >= minLen
    ensures First(length, minLen, n) as real * Half(n) == KraftBelow(length, n)
  {
    hide CountEq, KraftBelow, First, Half;
    if n == minLen {
      FirstIsZero(length, minLen);
      KraftBelowNone(length, minLen, maxLen);
    } else {
      FirstIsKraft(length, minLen, maxLen, n - 1);
      KraftBelowNext(length, n - 1);
      FirstNext(length, minLen, n - 1);
      var f, c := First(length, minLen, n - 1), Count(length, n - 1);
      Distribute(f as real, c as real, Half(n - 1));
      DoubleHalf(f + c, n);
    }
  }

  lemma PowZero()
    ensures Pow2(0) == 1
  {
  }

  lemma Fits(x: real, h: real, p: real)
    requires x * h <= 1.0 && h * p == 1.0 && p > 0.0
    ensures x <= p
  {
    assert x == x * (h * p) == (x * h) * p;
    AtMost(x * h, p);
  }

  /** With a Kraft sum of at most one, every codeword fits in its length. */
  lemma CodeFits(length: seq<nat>, minLen: nat, maxLen: nat, s: nat)
    requires Lengths(length, minLen, maxLen) && KraftSum(length) <= 1.0 && s < |length|
    ensures CodeOf(length, minLen, s) < Pow2(length[s])
  {
    hide First, CountEq, KraftBelow, KraftSum, Pow2, Half;
    var n := length[s];
    CountLess(length, n, s, |length|);
    FirstNext(length, minLen, n);
    FirstIsKraft(length, minLen, maxLen, n + 1);
    KraftBelowAtMost(length, n + 1);
    HalfPow(n, n);
    PowZero();
    DoubleHalf(First(length, minLen, n) + Count(length, n), n + 1);
    Fits((First(length, minLen, n) + Count(length, n)) as real, Half(n), Pow2(n) as real);
  }

  // ----- bits, the most significant first -----

  type bit = b: int | 0 <= b < 2

  function BitsOf(v: nat, n: nat): (r: seq<bit>)
    ensures |r| == n
  {
    if n == 0 then [] else BitsOf(v / 2, n - 1) + [v % 2]
  }

  function Value(bits: seq<bit>): nat {
    if bits == [] then 0 else 2 * Value(bits[..|bits| - 1]) + bits[|bits| - 1]
  }

  lemma {:induction false} ValueOfBits(v: nat, n: nat)
    requires v < Pow2(n)
    ensures Value(BitsOf(v, n)) == v
  {
    if n > 0 {
      ValueOfBits(v / 2, n - 1);
    }
  }

  lemma {:induction false} BitsOfValue(bits: seq<bit>)
    ensures BitsOf(Value(bits), |bits|) == bits && Value(bits) < Pow2(|bits|)
  {
    if bits != [] {
      BitsOfValue(bits[..|bits| - 1]);
    }
  }

  /** The codeword of a symbol as bits. */
  ghost function Codeword(length: seq<nat>, minLen: nat, s: nat): seq<bit>
    requires s < |length|
  {
    BitsOf(CodeOf(length, minLen, s), length[s])
  }

  /** Every shorter prefix of a long enough value lies beyond the codewords of its own length. */
  lemma {:induction false} PrefixBeyond(length: seq<nat>, minLen: nat, bits: seq<bit>, m: nat)
    requires minLen <= m < |bits| && Value(bits) >= First(length, minLen, |bits|)
    ensures Value(bits[..m]) >= First(length, minLen, m) + Count(length, m)
    decreases |bits|
  {
    hide CountEq;
    var n := |bits|;
    var shorter := bits[..n - 1];
    assert Value(shorter) >= First(length, minLen, n - 1) + Count(length, n - 1);
    if m < n - 1 {
      PrefixBeyond(length, minLen, shorter, m);
      assert shorter[..m] == bits[..m];
    } else {
      assert shorter == bits[..m];
    }
  }

  /** No codeword is a prefix of another. */
  lemma PrefixFree(length: seq<nat>, minLen: nat, maxLen: nat, s: nat, t: nat)
    requires Lengths(length, minLen, maxLen) && KraftSum(length) <= 1.0
    requires s < |length| && t < |length| && s != t && length[s] <= length[t]
    ensures Codeword(length, minLen, t)[..length[s]] != Codeword(length, minLen, s)
  {
    hide KraftSum, First, CountEq, BitsOf, Value;
    var n, m := length[t], length[s];
    var a, b := Codeword(length, minLen, s), Codeword(length, minLen, t);
    CodeFits(length, minLen, maxLen, s);
    CodeFits(length, minLen, maxLen, t);
    ValueOfBits(CodeOf(length, minLen, s), m);
    ValueOfBits(CodeOf(length, minLen, t), n);
    CountLess(length, m, s, |length|);
    if m < n {
      PrefixBeyond(length, minLen, b, m);
    } else {
      assert b[..n] == b;
      if s < t { CountLess(length, n, s, t); } else { CountLess(length, n, t, s); }
    }
  }
}
