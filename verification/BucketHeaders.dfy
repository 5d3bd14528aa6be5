/** The sorter's bit table: one bit per entry of `fmap`, set where a bucket begins. */
module BucketHeaders {
  function Mask(i: nat): bv32
    requires i < 32
  {
    (1 as bv32) << i
  }

  function And(a: bv32, b: bv32): bv32 {
    a & b
  }

  function Or(a: bv32, b: bv32): bv32 {
    a | b
  }

  function Not(a: bv32): bv32 {
    !a
  }

  lemma MaskNonZero(i: nat)
    requires i < 32
    ensures Mask(i) != 0
  {
  }

  lemma MasksDiffer(i: nat, j: nat)
    requires i < 32 && j < 32 && i != j
    ensures And(Mask(i), Mask(j)) == 0
  {
  }

  lemma AndOr(w: bv32, m: bv32, k: bv32)
    ensures And(Or(w, m), k) == Or(And(w, k), And(m, k))
  {
  }

  lemma AndOrSelf(w: bv32, m: bv32)
    ensures And(Or(w, m), m) == m
  {
  }

  lemma OrZero(w: bv32)
    ensures Or(w, 0) == w
  {
  }

  lemma AndNotSelf(w: bv32, m: bv32)
    ensures And(And(w, Not(m)), m) == 0
  {
  }

  lemma AndNotOther(w: bv32, m: bv32, k: bv32)
    requires And(m, k) == 0
    ensures And(And(w, Not(m)), k) == And(w, k)
  {
  }

  predicate Bit(w: bv32, i: nat)
    requires i < 32
  {
    And(w, Mask(i)) != 0
  }

  function OrBit(w: bv32, i: nat): bv32
    requires i < 32
  {
    Or(w, Mask(i))
  }

  function AndNotBit(w: bv32, i: nat): bv32
    requires i < 32
  {
    And(w, Not(Mask(i)))
  }

  lemma OrBitSets(w: bv32, i: nat, j: nat)
    requires i < 32 && j < 32
    ensures Bit(OrBit(w, i), j) <==> i == j || Bit(w, j)
  {
    hide Mask, And, Or;
    if i == j {
      MaskNonZero(i);
      AndOrSelf(w, Mask(i));
    } else {
      MasksDiffer(i, j);
      AndOr(w, Mask(i), Mask(j));
      OrZero(And(w, Mask(j)));
    }
  }

  lemma AndNotBitClears(w: bv32, i: nat, j: nat)
    requires i < 32 && j < 32
    ensures Bit(AndNotBit(w, i), j) <==> i != j && Bit(w, j)
  {
    hide Mask, And, Not;
    if i == j {
      AndNotSelf(w, Mask(i));
    } else {
      MasksDiffer(i, j);
      AndNotOther(w, Mask(i), Mask(j));
    }
  }

  lemma FullBit(w: bv32, i: nat)
    requires i < 32
    ensures w == 0xffff_ffff ==> Bit(w, i)
    ensures w == 0 ==> !Bit(w, i)
  {
    MaskNonZero(i);
  }

  /** Bit `k` of the table. */
  predicate IsSet(t: seq<bv32>, k: nat)
    requires k < 32 * |t|
  {
    Bit(t[k / 32], k % 32)
  }

  function WithSet(t: seq<bv32>, k: nat): (r: seq<bv32>)
    requires k < 32 * |t|
    ensures |r| == |t|
  {
    t[k / 32 := OrBit(t[k / 32], k % 32)]
  }

  function WithClear(t: seq<bv32>, k: nat): (r: seq<bv32>)
    requires k < 32 * |t|
    ensures |r| == |t|
  {
    t[k / 32 := AndNotBit(t[k / 32], k % 32)]
  }

  /** Setting bit `k` sets that bit and no other. */
  lemma SetBit(t: seq<bv32>, k: nat, j: nat)
    requires k < 32 * |t| && j < 32 * |t|
    ensures IsSet(WithSet(t, k), j) <==> j == k || IsSet(t, j)
  {
    hide Bit, OrBit;
    if j / 32 == k / 32 {
      OrBitSets(t[k / 32], k % 32, j % 32);
    }
  }

  /** Clearing bit `k` clears that bit and no other. */
  lemma ClearBit(t: seq<bv32>, k: nat, j: nat)
    requires k < 32 * |t| && j < 32 * |t|
    ensures IsSet(WithClear(t, k), j) <==> j != k && IsSet(t, j)
  {
    hide Bit, AndNotBit;
    if j / 32 == k / 32 {
      AndNotBitClears(t[k / 32], k % 32, j % 32);
    }
  }

  lemma FullWord(t: seq<bv32>, k: nat, j: nat)
    requires k % 32 == 0 && k <= j < k + 32 <= 32 * |t|
    ensures t[k / 32] == 0xffff_ffff ==> IsSet(t, j)
    ensures t[k / 32] == 0 ==> !IsSet(t, j)
  {
    assert j / 32 == k / 32;
    FullBit(t[k / 32], j % 32);
  }

  /** The first entry of the bucket that entry `p` lies in. */
  ghost function Header(t: seq<bv32>, p: nat): (h: nat)
    requires p < 32 * |t| && IsSet(t, 0)
    ensures h <= p && IsSet(t, h) && forall k: nat | h < k <= p :: !IsSet(t, k)
  {
    if IsSet(t, p) then p else Header(t, p - 1)
  }

  lemma HeaderIs(t: seq<bv32>, p: nat, h: nat)
    requires p < 32 * |t| && IsSet(t, 0)
    requires h <= p && IsSet(t, h) && forall k: nat | h < k <= p :: !IsSet(t, k)
    ensures Header(t, p) == h
  {
    var g := Header(t, p);
    assert g <= h;
  }

  lemma HeaderMonotone(t: seq<bv32>, p: nat, q: nat)
    requires p <= q < 32 * |t| && IsSet(t, 0)
    ensures Header(t, p) <= Header(t, q)
  {
    var h := Header(t, p);
  }

  method SetBH(bhtab: array<bv32>, k: nat)
    requires k < 32 * bhtab.Length
    modifies bhtab
    ensures bhtab[..] == WithSet(old(bhtab[..]), k)
    ensures forall j: nat | j < 32 * bhtab.Length :: IsSet(bhtab[..], j) <==> j == k || IsSet(old(bhtab[..]), j)
  {
    ghost var t := bhtab[..];
    bhtab[k / 32] := OrBit(bhtab[k / 32], k % 32);
    assert bhtab[..] == WithSet(t, k);
    forall j: nat | j < 32 * bhtab.Length ensures IsSet(bhtab[..], j) <==> j == k || IsSet(t, j) {
      SetBit(t, k, j);
    }
  }

  method ClearBH(bhtab: array<bv32>, k: nat)
    requires k < 32 * bhtab.Length
    modifies bhtab
    ensures bhtab[..] == WithClear(old(bhtab[..]), k)
    ensures forall j: nat | j < 32 * bhtab.Length :: IsSet(bhtab[..], j) <==> j != k && IsSet(old(bhtab[..]), j)
  {
    ghost var t := bhtab[..];
    bhtab[k / 32] := AndNotBit(bhtab[k / 32], k % 32);
    assert bhtab[..] == WithClear(t, k);
    forall j: nat | j < 32 * bhtab.Length ensures IsSet(bhtab[..], j) <==> j != k && IsSet(t, j) {
      ClearBit(t, k, j);
    }
  }

  /** First clear bit at or after `k0`: single bits up to a word boundary, whole words, then single bits. */
  method SkipSet(bhtab: array<bv32>, k0: nat, ghost stop: nat) returns (k: nat)
    requires k0 <= stop < 32 * bhtab.Length && !IsSet(bhtab[..], stop)
    ensures k0 <= k <= stop && !IsSet(bhtab[..], k)
    ensures forall j: nat | k0 <= j < k :: IsSet(bhtab[..], j)
  {
    hide IsSet;
    ghost var t := bhtab[..];
    k := k0;
    while IsSet(bhtab[..], k) && k % 32 != 0
      invariant k0 <= k <= stop && bhtab[..] == t
      invariant forall j: nat | k0 <= j < k :: IsSet(t, j)
      decreases stop - k
    {
      k := k + 1;
    }
    if IsSet(bhtab[..], k) {
      while bhtab[k / 32] == 0xffff_ffff
        invariant k0 <= k <= stop && k % 32 == 0 && bhtab[..] == t
        invariant forall j: nat | k0 <= j < k :: IsSet(t, j)
        decreases stop - k
      {
        forall j: nat | k <= j < k + 32 ensures IsSet(t, j) { FullWord(t, k, j); }
        k := k + 32;
      }
      while IsSet(bhtab[..], k)
        invariant k0 <= k <= stop && bhtab[..] == t
        invariant forall j: nat | k0 <= j < k :: IsSet(t, j)
      decreases stop - k
      {
        k := k + 1;
      }
    }
  }

  /** First set bit at or after `k0`, found the same way. */
  method SkipClear(bhtab: array<bv32>, k0: nat, ghost stop: nat) returns (k: nat)
    requires k0 <= stop < 32 * bhtab.Length && IsSet(bhtab[..], stop)
    ensures k0 <= k <= stop && IsSet(bhtab[..], k)
    ensures forall j: nat | k0 <= j < k :: !IsSet(bhtab[..], j)
  {
    hide IsSet;
    ghost var t := bhtab[..];
    k := k0;
    while !IsSet(bhtab[..], k) && k % 32 != 0
      invariant k0 <= k <= stop && bhtab[..] == t
      invariant forall j: nat | k0 <= j < k :: !IsSet(t, j)
      decreases stop - k
    {
      k := k + 1;
    }
    if !IsSet(bhtab[..], k) {
      while bhtab[k / 32] == 0
        invariant k0 <= k <= stop && k % 32 == 0 && bhtab[..] == t
        invariant forall j: nat | k0 <= j < k :: !IsSet(t, j)
        decreases stop - k
      {
        forall j: nat | k <= j < k + 32 ensures !IsSet(t, j) { FullWord(t, k, j); }
        k := k + 32;
      }
      while !IsSet(bhtab[..], k)
        invariant k0 <= k <= stop && bhtab[..] == t
        invariant forall j: nat | k0 <= j < k :: !IsSet(t, j)
      decreases stop - k
      {
        k := k + 1;
      }
    }
  }

  /** The next bucket of two or more entries after entry `r0`, if any. */
  method NextBucket(bhtab: array<bv32>, nblock: nat, r0: int) returns (found: bool, l: int, r: int)
    requires -1 <= r0 < nblock && nblock + 1 < 32 * bhtab.Length
    requires IsSet(bhtab[..], r0 + 1) && IsSet(bhtab[..], nblock) && !IsSet(bhtab[..], nblock + 1)
    ensures found ==> r0 < l < r < nblock && IsSet(bhtab[..], r + 1)
    ensures found ==> forall k: nat | r0 < k <= l :: IsSet(bhtab[..], k)
    ensures found ==> forall k: nat | l < k <= r :: !IsSet(bhtab[..], k)
    ensures !found ==> forall k: nat | r0 < k < nblock :: IsSet(bhtab[..], k)
  {
    var k := SkipSet(bhtab, r0 + 1, nblock + 1);
    l := k - 1;
    r := l;
    if l >= nblock { return false, l, r; }
    k := SkipClear(bhtab, k, nblock);
    r := k - 1;
    found := true;
  }
}
