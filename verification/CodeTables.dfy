/** The decoding tables `limit`, `base` and `perm`, and decoding a symbol with them. */
module CodeTables {
  import opened HuffmanOptimal
  import opened CanonicalCode

  /** Place of a symbol in the order of length, then number. */
  ghost function Place(length: seq<nat>, s: nat): nat
    requires s < |length|
  {
    Below(length, length[s]) + CountEq(length, length[s], s)
  }

  ghost predicate IsPerm(perm: seq<nat>, length: seq<nat>) {
    |perm| >= |length| && forall s {:trigger Place(length, s)} | 0 <= s < |length| ::
      Place(length, s) < |length| && perm[Place(length, s)] == s
  }

  /** `limit[n]` is the greatest codeword of length n; `base[n]` takes a codeword of length n to its place. */
  ghost predicate IsLimit(limit: seq<int>, length: seq<nat>, minLen: nat, maxLen: nat) {
    |limit| == MAX_CODE_LEN && maxLen < MAX_CODE_LEN &&
    (forall n | minLen <= n <= maxLen :: limit[n] == First(length, minLen, n) + Count(length, n) - 1) &&
    forall n | maxLen < n < MAX_CODE_LEN :: limit[n] == 0
  }

  ghost predicate IsBase(base: seq<int>, length: seq<nat>, minLen: nat, maxLen: nat) {
    |base| == MAX_CODE_LEN && maxLen < MAX_CODE_LEN &&
    (forall n {:trigger base[n]} | minLen <= n <= maxLen :: base[n] == First(length, minLen, n) - Below(length, n)) &&
    forall n {:trigger base[n]} | maxLen < n < MAX_CODE_LEN :: base[n] == Below(length, n)
  }

  lemma PlaceInRange(length: seq<nat>, s: nat)
    requires s < |length|
    ensures Place(length, s) < Below(length, length[s] + 1) <= |length|
  {
    CountLess(length, length[s], s, |length|);
    BelowNext(length, length[s], |length|);
    BelowMonotone(length, length[s] + 1, length[s] + 1, |length|);
  }

  /** Symbols placed before symbol `j` of length `i`. */
  ghost predicate Placed(length: seq<nat>, i: nat, j: nat, s: nat)
    requires s < |length|
  {
    length[s] < i || (length[s] == i && s < j)
  }

  lemma PlaceBefore(length: seq<nat>, i: nat, j: nat, s: nat)
    requires s < |length| && j <= |length| && Placed(length, i, j, s)
    ensures Place(length, s) < Below(length, i) + CountEq(length, i, j)
  {
    if length[s] < i {
      PlaceInRange(length, s);
      BelowMonotone(length, length[s] + 1, i, |length|);
    } else {
      CountLess(length, i, s, j);
    }
  }

  lemma PlaceIs(length: seq<nat>, j: nat)
    requires j < |length|
    ensures Place(length, j) == Below(length, length[j]) + CountEq(length, length[j], j) < |length|
  {
    PlaceInRange(length, j);
  }

  lemma BelowStep(length: seq<nat>, i: nat)
    ensures Below(length, i + 1) == Below(length, i) + CountEq(length, i, |length|)
  {
    BelowNext(length, i, |length|);
  }

  lemma NothingBelow(length: seq<nat>, minLen: nat, maxLen: nat)
    requires Lengths(length, minLen, maxLen)
    ensures Below(length, minLen) == 0
  {
    NoneBelow(length, minLen, maxLen, |length|);
  }

  method MakePerm(perm: array<nat>, length: seq<nat>, minLen: nat, maxLen: nat)
    requires Lengths(length, minLen, maxLen) && perm.Length >= |length|
    modifies perm
    ensures IsPerm(perm[..], length)
  {
    hide CountEq, Place, Below;
    var pp := 0;
    NothingBelow(length, minLen, maxLen);
    for i := minLen to maxLen + 1
      invariant pp == Below(length, i)
      invariant forall s {:trigger Place(length, s)} | 0 <= s < |length| && length[s] < i ::
        Place(length, s) < perm.Length && perm[Place(length, s)] == s
    {
      CountNone(length, i);
      for j := 0 to |length|
        invariant pp == Below(length, i) + CountEq(length, i, j)
        invariant forall s {:trigger Place(length, s)} | 0 <= s < |length| && Placed(length, i, j, s) ::
                    Place(length, s) < perm.Length && perm[Place(length, s)] == s
      {
        CountNext(length, i, j);
        if length[j] == i {
          PlaceIs(length, j);
          forall s {:trigger Place(length, s)} | 0 <= s < |length| && Placed(length, i, j, s)
            ensures Place(length, s) < pp {
            PlaceBefore(length, i, j, s);
          }
          perm[pp] := j;
          pp := pp + 1;
        }
      }
      BelowStep(length, i);
    }
    forall s {:trigger Place(length, s)} | 0 <= s < |length| ensures Place(length, s) < |length| {
      PlaceInRange(length, s);
    }
  }

  lemma CountNothing(length: seq<nat>)
    ensures forall n: nat :: CountEq(length, n, 0) == 0
  {
  }

  lemma {:induction false} BelowZero(length: seq<nat>, m: nat)
    requires m <= |length|
    ensures CountBelow(length, 0, m) == 0
  {
    if m > 0 { BelowZero(length, m - 1); }
  }

  /** First `base[n]` counts the symbols of length n - 1, then those of lengths below n. */
  method CountLengths(base: array<int>, length: seq<nat>, minLen: nat, maxLen: nat)
    requires Lengths(length, minLen, maxLen) && base.Length == MAX_CODE_LEN
    modifies base
    ensures forall n | 0 <= n < MAX_CODE_LEN :: base[n] == Below(length, n)
  {
    hide CountEq, CountBelow;
    for i := 0 to MAX_CODE_LEN
      invariant forall n | 0 <= n < i :: base[n] == 0
    {
      base[i] := 0;
    }
    CountNothing(length);
    for i := 0 to |length|
      invariant base[0] == 0 && forall n {:trigger base[n]} | 1 <= n < MAX_CODE_LEN ::
        base[n] == CountEq(length, n - 1, i)
    {
      forall n {:trigger base[n]} | 1 <= n < MAX_CODE_LEN
        ensures CountEq(length, n - 1, i + 1) == CountEq(length, n - 1, i) + if length[i] == n - 1 then 1 else 0
      {
        CountNext(length, n - 1, i);
      }
      base[length[i] + 1] := base[length[i] + 1] + 1;
    }
    BelowZero(length, |length|);
    for i := 1 to MAX_CODE_LEN
      invariant forall n {:trigger base[n]} | 0 <= n < i :: base[n] == Below(length, n)
      invariant forall n {:trigger base[n]} | i <= n < MAX_CODE_LEN :: base[n] == CountEq(length, n - 1, |length|)
    {
      BelowNext(length, i - 1, |length|);
      base[i] := base[i] + base[i - 1];
    }
  }

  method MakeLimit(limit: array<int>, base: array<int>, length: seq<nat>, minLen: nat, maxLen: nat)
    requires Lengths(length, minLen, maxLen) && limit != base && limit.Length == base.Length == MAX_CODE_LEN
    requires forall n | 0 <= n < MAX_CODE_LEN :: base[n] == Below(length, n)
    modifies limit
    ensures IsLimit(limit[..], length, minLen, maxLen)
  {
    hide CountEq, CountBelow, Below, First;
    for i := 0 to MAX_CODE_LEN
      invariant forall n | 0 <= n < i :: limit[n] == 0
    {
      limit[i] := 0;
    }
    var vec := 0;
    FirstIsZero(length, minLen);
    for i := minLen to maxLen + 1
      invariant vec == First(length, minLen, i)
      invariant forall n | minLen <= n < i :: limit[n] == First(length, minLen, n) + Count(length, n) - 1
      invariant forall n | i <= n < MAX_CODE_LEN :: limit[n] == 0
    {
      BelowStep(length, i);
      FirstNext(length, minLen, i);
      vec := vec + (base[i + 1] - base[i]);
      limit[i] := vec - 1;
      vec := vec * 2;
    }
  }

  method ShiftBase(limit: array<int>, base: array<int>, length: seq<nat>, minLen: nat, maxLen: nat)
    requires Lengths(length, minLen, maxLen) && limit != base && limit.Length == base.Length == MAX_CODE_LEN
    requires forall n | 0 <= n < MAX_CODE_LEN :: base[n] == Below(length, n)
    requires IsLimit(limit[..], length, minLen, maxLen)
    modifies base
    ensures IsBase(base[..], length, minLen, maxLen)
  {
    hide CountEq, CountBelow, Below, First;
    NothingBelow(length, minLen, maxLen);
    FirstIsZero(length, minLen);
    for i := minLen + 1 to maxLen + 1
      invariant forall n {:trigger base[n]} | minLen <= n < i :: base[n] == First(length, minLen, n) - Below(length, n)
      invariant forall n {:trigger base[n]} | i <= n < MAX_CODE_LEN :: base[n] == Below(length, n)
    {
      FirstNext(length, minLen, i - 1);
      assert limit[..][i - 1] == limit[i - 1];
      base[i] := (limit[i - 1] + 1) * 2 - base[i];
    }
  }

  /** `BZ2_hbCreateDecodeTables`. */
  method CreateDecodeTables(limit: array<int>, base: array<int>, perm: array<nat>, length: seq<nat>, minLen: nat,
      maxLen: nat)
    requires Lengths(length, minLen, maxLen) && limit != base && limit as object != perm as object
      && base as object != perm as object
    requires limit.Length == base.Length == MAX_CODE_LEN && perm.Length >= |length|
    modifies limit, base, perm
    ensures IsPerm(perm[..], length)
    ensures IsLimit(limit[..], length, minLen, maxLen) && IsBase(base[..], length, minLen, maxLen)
  {
    hide CountEq, CountBelow, Below, IsPerm, First, IsLimit, IsBase;
    MakePerm(perm, length, minLen, maxLen);
    CountLengths(base, length, minLen, maxLen);
    MakeLimit(limit, base, length, minLen, maxLen);
    ShiftBase(limit, base, length, minLen, maxLen);
  }

  // ----- decoding -----

  /** A symbol's codeword stands at a position of a bit string. */
  ghost predicate Stands(bits: seq<bit>, pos: nat, length: seq<nat>, minLen: nat, s: nat) {
    s < |length| && pos + length[s] <= |bits| && bits[pos..pos + length[s]] == Codeword(length, minLen, s)
  }

  ghost predicate NoneShorter(bits: seq<bit>, pos: nat, length: seq<nat>, minLen: nat, zn: nat) {
    forall s: nat | Stands(bits, pos, length, minLen, s) :: length[s] >= zn
  }

  /** While decoding: `zn` bits make up `zvec`, and no codeword of a smaller length stands here. */
  ghost predicate Searching(bits: seq<bit>, pos: nat, length: seq<nat>, minLen: nat, zn: nat, zvec: nat) {
    && minLen <= zn && pos + zn <= |bits| && zvec == Value(bits[pos..pos + zn]) && zvec >= First(length, minLen, zn)
    && NoneShorter(bits, pos, length, minLen, zn)
  }

  lemma StandsValue(bits: seq<bit>, pos: nat, length: seq<nat>, minLen: nat, maxLen: nat, s: nat)
    requires Lengths(length, minLen, maxLen) && KraftSum(length) <= 1.0 && Stands(bits, pos, length, minLen, s)
    ensures var n := length[s];
      Value(bits[pos..pos + n]) == CodeOf(length, minLen, s) < First(length, minLen, n) + Count(length, n)
  {
    hide KraftSum, First, CountEq, Value, BitsOf;
    CodeFits(length, minLen, maxLen, s);
    ValueOfBits(CodeOf(length, minLen, s), length[s]);
    CountLess(length, length[s], s, |length|);
  }

  lemma {:induction false} NoneLonger(length: seq<nat>, n: nat, m: nat)
    requires m <= |length| && forall i | 0 <= i < m :: length[i] != n
    ensures CountEq(length, n, m) == 0
  {
    if m > 0 { NoneLonger(length, n, m - 1); }
  }

  lemma StandsHere(bits: seq<bit>, pos: nat, length: seq<nat>, minLen: nat, s: nat)
    requires Stands(bits, pos, length, minLen, s)
    ensures s < |length| && pos + length[s] <= |bits|
  {
  }

  /** The bits so far are no codeword: read one more. */
  lemma SearchNext(bits: seq<bit>, pos: nat, length: seq<nat>, minLen: nat, maxLen: nat, limit: seq<int>, zn: nat,
      zvec: nat)
    requires Lengths(length, minLen, maxLen) && KraftSum(length) <= 1.0 && IsLimit(limit, length, minLen, maxLen)
    requires Searching(bits, pos, length, minLen, zn, zvec) && zn <= 20 && zvec > limit[zn]
    ensures NoneShorter(bits, pos, length, minLen, zn + 1)
    ensures pos + zn < |bits| ==> Searching(bits, pos, length, minLen, zn + 1, 2 * zvec + bits[pos + zn])
  {
    hide KraftSum, Stands, First, CountEq;
    forall s: nat | Stands(bits, pos, length, minLen, s) ensures s < |length| && length[s] >= zn + 1 {
      StandsHere(bits, pos, length, minLen, s);
      StandsValue(bits, pos, length, minLen, maxLen, s);
    }
    FirstNext(length, minLen, zn);
    if zn > maxLen {
      NoneLonger(length, zn, |length|);
    }
    if pos + zn < |bits| {
      assert bits[pos..pos + zn + 1][..zn] == bits[pos..pos + zn];
    }
  }

  lemma {:induction false} NthSymbol(length: seq<nat>, n: nat, k: nat, m: nat) returns (s: nat)
    requires m <= |length| && k < CountEq(length, n, m)
    ensures s < m && length[s] == n && CountEq(length, n, s) == k
  {
    if length[m - 1] == n && k == CountEq(length, n, m - 1) {
      s := m - 1;
    } else {
      s := NthSymbol(length, n, k, m - 1);
    }
  }

  /** Beyond the longest codeword the tables stop nothing. */
  lemma {:induction false} BeyondLongest(length: seq<nat>, minLen: nat, maxLen: nat, n: nat)
    requires Lengths(length, minLen, maxLen) && n > maxLen && Count(length, maxLen) > 0
    ensures First(length, minLen, n) > 0
  {
    if n > maxLen + 1 {
      BeyondLongest(length, minLen, maxLen, n - 1);
    }
  }

  /** The value does not exceed its limit: it is the codeword of the symbol at its place. */
  lemma SearchFound(bits: seq<bit>, pos: nat, length: seq<nat>, minLen: nat, maxLen: nat, limit: seq<int>,
      base: seq<int>, perm: seq<nat>, zn: nat, zvec: nat) returns (s: nat)
    requires Lengths(length, minLen, maxLen) && KraftSum(length) <= 1.0 && Count(length, maxLen) > 0
    requires IsPerm(perm, length) && IsLimit(limit, length, minLen, maxLen) && IsBase(base, length, minLen, maxLen)
    requires Searching(bits, pos, length, minLen, zn, zvec) && zn <= 20 && zvec <= limit[zn]
    ensures Stands(bits, pos, length, minLen, s) && length[s] == zn && s < |length|
    ensures 0 <= zvec - base[zn] < |length| <= |perm| && perm[zvec - base[zn]] == s
  {
    hide KraftSum, First, CountEq, CountBelow, Value, BitsOf;
    if zn > maxLen {
      BeyondLongest(length, minLen, maxLen, zn);
    }
    s := NthSymbol(length, zn, zvec - First(length, minLen, zn), |length|);
    assert Place(length, s) == zvec - base[zn];
    BitsOfValue(bits[pos..pos + zn]);
  }

  /** At most one symbol stands at a position. */
  lemma StandsAlone(bits: seq<bit>, pos: nat, length: seq<nat>, minLen: nat, maxLen: nat, s: nat, t: nat)
    requires Lengths(length, minLen, maxLen) && KraftSum(length) <= 1.0
    requires Stands(bits, pos, length, minLen, s) && Stands(bits, pos, length, minLen, t)
    ensures s == t
  {
    hide KraftSum, Codeword;
    var n, m := length[s], length[t];
    assert n <= m ==> bits[pos..pos + m][..n] == bits[pos..pos + n];
    assert m <= n ==> bits[pos..pos + n][..m] == bits[pos..pos + m];
    if s != t {
      if n <= m { PrefixFree(length, minLen, maxLen, s, t); } else { PrefixFree(length, minLen, maxLen, t, s); }
    }
  }

  /** Every place below the number of symbols is some symbol's. */
  lemma {:induction false} PlaceTaken(length: seq<nat>, n: nat, p: nat) returns (s: nat)
    requires n > 0 && p < Below(length, n)
    ensures s < |length| && Place(length, s) == p
  {
    hide CountEq;
    BelowZero(length, |length|);
    BelowNext(length, n - 1, |length|);
    if p < Below(length, n - 1) {
      s := PlaceTaken(length, n - 1, p);
    } else {
      s := NthSymbol(length, n - 1, p - Below(length, n - 1), |length|);
    }
  }

  lemma {:induction false} AllBelowLength(length: seq<nat>, n: nat, m: nat)
    requires m <= |length| && forall i | 0 <= i < m :: length[i] < n
    ensures CountBelow(length, n, m) == m
  {
    if m > 0 { AllBelowLength(length, n, m - 1); }
  }

  /** Whatever the code, a value not beyond its limit gives the place of a symbol, or none. */
  lemma LimitedPlace(length: seq<nat>, minLen: nat, maxLen: nat, limit: seq<int>, base: seq<int>, perm: seq<nat>,
      zn: nat, zvec: nat)
    requires Lengths(length, minLen, maxLen) && IsPerm(perm, length) && IsLimit(limit, length, minLen, maxLen)
      && IsBase(base, length, minLen, maxLen)
    requires minLen <= zn <= 20 && zvec <= limit[zn] && length != []
    ensures var place := zvec - base[zn]; place < |length| && (place >= 0 ==> perm[place] < |length|)
  {
    hide CountEq, First, CountBelow;
    var place := zvec - base[zn];
    if zn > maxLen {
      AllBelowLength(length, zn, |length|);
    } else {
      BelowNext(length, zn, |length|);
      BelowMonotone(length, zn + 1, zn + 1, |length|);
      if place >= 0 {
        var s := PlaceTaken(length, zn + 1, place);
      }
    }
  }

  lemma TooFewBits(bits: seq<bit>, pos: nat, length: seq<nat>, minLen: nat, maxLen: nat)
    requires Lengths(length, minLen, maxLen) && |bits| < pos + minLen
    ensures forall s: nat :: !Stands(bits, pos, length, minLen, s)
  {
  }

  lemma NoneThatLong(bits: seq<bit>, pos: nat, length: seq<nat>, minLen: nat, maxLen: nat, zn: nat, zvec: nat)
    requires Lengths(length, minLen, maxLen) && Searching(bits, pos, length, minLen, zn, zvec) && zn > 20
    ensures forall s: nat :: !Stands(bits, pos, length, minLen, s)
  {
    hide Value, Codeword, First;
  }

  lemma NoneThatFits(bits: seq<bit>, pos: nat, length: seq<nat>, minLen: nat, zn: nat)
    requires pos + zn > |bits| && NoneShorter(bits, pos, length, minLen, zn)
    ensures forall s: nat :: !Stands(bits, pos, length, minLen, s)
  {
    hide Codeword;
  }
}
