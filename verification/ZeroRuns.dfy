/**
 * Move-to-front positions and zero runs as bijective base-two numerals: what the encoder emits and the decoder makes of
 * it.
 */
module ZeroRuns {
  import opened Arithmetic
  import opened Bytes
  import opened MtfList

  const RUNA := 0
  const RUNB := 1
  const N_LIMIT := 0x20_0000 // 2 * 1024 * 1024

  datatype Option<T> = None | Some(value: T)

  /** The numeral of a run length: digits one and two, written RUNA and RUNB, the lowest first. */
  function Digits(z: nat): (d: seq<nat>)
    requires z >= 1
    ensures |d| >= 1 && forall k | 0 <= k < |d| :: d[k] <= RUNB
  {
    var p := z - 1;
    if p < 2 then [p % 2] else [p % 2] + Digits((p - 2) / 2 + 1)
  }

  function Flush(z: nat): seq<nat> {
    if z == 0 then [] else Digits(z)
  }

  /** A numeral has no more digits than its value. */
  lemma {:induction false} DigitsAtMost(z: nat)
    requires z >= 1
    ensures |Digits(z)| <= z && Pow2(|Digits(z)|) <= z + 1
  {
    var p := z - 1;
    if p < 2 {
      assert Pow2(1) == 2 * Pow2(0);
    } else {
      var y := (p - 2) / 2 + 1;
      DigitsAtMost(y);
      assert Pow2(|Digits(z)|) == 2 * Pow2(|Digits(y)|);
    }
  }

  function IndexOf(l: seq<byte>, x: byte): (j: nat)
    requires x in l
    ensures j < |l| && l[j] == x && forall i | 0 <= i < j :: l[i] != x
  {
    if l[0] == x then 0 else
      assert x in l[1..];
      1 + IndexOf(l[1..], x)
  }

  lemma MoveKeeps(l: seq<byte>, j: nat)
    requires j < |l|
    ensures forall x :: x in l <==> x in MoveToFront(l, j)
    ensures multiset(MoveToFront(l, j)) == multiset(l)
  {
    assert l == l[..j] + ([l[j]] + l[j + 1..]);
    assert MoveToFront(l, j) == [l[j]] + (l[..j] + l[j + 1..]);
    assert multiset(MoveToFront(l, j)) == multiset(l);
    forall x ensures x in l <==> x in MoveToFront(l, j) {
      assert x in l <==> x in multiset(l);
      assert x in MoveToFront(l, j) <==> x in multiset(MoveToFront(l, j));
    }
  }

  ghost predicate AllIn(l: seq<byte>, col: seq<byte>) {
    forall k | 0 <= k < |col| :: col[k] in l
  }

  lemma AllInRest(l: seq<byte>, col: seq<byte>)
    requires AllIn(l, col) && col != []
    ensures col[0] in l && AllIn(l, col[1..])
  {
  }

  /** What generateMTFValues emits for a column, with `zp` zeros pending. */
  ghost function Encoded(l: seq<byte>, col: seq<byte>, zp: nat, eob: nat): seq<nat>
    requires AllIn(l, col)
    decreases |col|
  {
    if col == [] then Flush(zp) + [eob]
    else
      var j := IndexOf(l, col[0]);
      AllInRest(l, col);
      if j == 0 then Encoded(l, col[1..], zp + 1, eob)
      else
        MoveKeeps(l, j);
        Flush(zp) + [j + 1] + Encoded(MoveToFront(l, j), col[1..], 0, eob)
  }

  function Repeated(x: byte, n: nat): (r: seq<byte>)
    ensures |r| == n && forall k | 0 <= k < n :: r[k] == x
  {
    if n == 0 then [] else [x] + Repeated(x, n - 1)
  }

  /**
   * What the decoder makes of the symbols: `run` is the value of the digits read since the last other symbol, `n` the
   * value of the next digit's place.
   */
  function Decoded(l: seq<byte>, syms: seq<nat>, eob: nat, run: nat, n: nat): Option<seq<byte>>
    decreases |syms|
  {
    if syms == [] || l == [] then None
    else
      var s := syms[0];
      if s == eob then Some(Repeated(l[0], run))
      else if s <= RUNB then
        if n >= 2 * 1024 * 1024 then None else Decoded(l, syms[1..], eob, run + (s + 1) * n, 2 * n)
      else if s > |l| then None
      else
        match Decoded(MoveToFront(l, s - 1), syms[1..], eob, 0, 1)
        case None => None
        case Some(rest) => Some(Repeated(l[0], run) + [l[s - 1]] + rest)
  }

  lemma DigitValue(z: nat, d: nat, y: nat, n: nat)
    requires z == 2 * y + d + 1
    ensures (d + 1) * n + y * (2 * n) == z * n
  {
    assert z * n == (2 * y + (d + 1)) * n == 2 * y * n + (d + 1) * n;
  }

  lemma DoublePlace(n: nat, k: nat)
    ensures 2 * n * Pow2(k) == n * Pow2(k + 1) && (k == 0 ==> n * Pow2(k + 1) == 2 * n)
  {
    assert Pow2(k + 1) == 2 * Pow2(k);
    Regroup(n, 2, Pow2(k), 0);
  }

  lemma PlaceSmall(n: nat, k: nat)
    requires k >= 1 && n * Pow2(k) <= N_LIMIT && n >= 1
    ensures n < N_LIMIT
  {
    var more := Pow2(k) - 2;
    assert Pow2(k) == 2 * Pow2(k - 1);
    hide Pow2;
    assert n * Pow2(k) == n * more + 2 * n;
  }

  /** A digit that is read adds to the run. */
  lemma DigitRead(l: seq<byte>, d: nat, rest: seq<nat>, eob: nat, run: nat, n: nat)
    requires l != [] && d <= RUNB < eob && n < N_LIMIT
    ensures Decoded(l, [d] + rest, eob, run, n) == Decoded(l, rest, eob, run + (d + 1) * n, 2 * n)
  {
    hide Repeated, MoveToFront;
    assert ([d] + rest)[1..] == rest;
  }

  /** The lowest digit of a numeral, and what the others stand for. */
  lemma DigitsSplit(z: nat) returns (d: nat, y: nat)
    requires z >= 1
    ensures z == 2 * y + d + 1 && d <= RUNB
    ensures Digits(z) == if y == 0 then [d] else [d] + Digits(y)
  {
    d := (z - 1) % 2;
    y := if z - 1 < 2 then 0 else (z - 3) / 2 + 1;
  }

  /** A numeral is read back as its value, provided its digits stay below the guard. */
  lemma {:induction false} DigitsDecoded(l: seq<byte>, z: nat, rest: seq<nat>, eob: nat, run: nat, n: nat)
    requires z >= 1 && l != [] && eob > RUNB && n * Pow2(|Digits(z)|) <= N_LIMIT && n >= 1
    ensures Decoded(l, Digits(z) + rest, eob, run, n) == Decoded(l, rest, eob, run + z * n, n * Pow2(|Digits(z)|))
  {
    hide *;
    var d, y := DigitsSplit(z);
    PlaceSmall(n, |Digits(z)|);
    DigitValue(z, d, y, n);
    if y == 0 {
      DoublePlace(n, 0);
      DigitRead(l, d, rest, eob, run, n);
    } else {
      assert Digits(z) + rest == [d] + (Digits(y) + rest);
      DigitRead(l, d, Digits(y) + rest, eob, run, n);
      DoublePlace(n, |Digits(y)|);
      DigitsDecoded(l, y, rest, eob, run + (d + 1) * n, 2 * n);
    }
  }

  /** The decoder's list agrees with the encoder's, which lists only the symbols in use. */
  ghost predicate Extends(l: seq<byte>, yy: seq<byte>) {
    0 < |yy| <= |l| && l[..|yy|] == yy
  }

  lemma MoveExtends(l: seq<byte>, yy: seq<byte>, j: nat)
    requires Extends(l, yy) && j < |yy|
    ensures Extends(MoveToFront(l, j), MoveToFront(yy, j))
  {
    var a, b := MoveToFront(l, j), MoveToFront(yy, j);
    assert a[..|yy|] == b;
  }

  lemma RunValue(z: nat)
    requires 1 <= z <= 900000
    ensures 1 * Pow2(|Digits(z)|) <= N_LIMIT
  {
    DigitsAtMost(z);
  }

  lemma {:induction false} RepeatMore(x: byte, n: nat)
    ensures Repeated(x, n) + [x] == Repeated(x, n + 1)
  {
    if n > 0 { RepeatMore(x, n - 1); }
  }

  /** What the decoder makes of a symbol other than RUNA and RUNB, and of those after it. */
  function After(l: seq<byte>, s: nat, rest: seq<nat>, eob: nat, run: nat): Option<seq<byte>>
    requires l != [] && s > RUNB
  {
    if s == eob then Some(Repeated(l[0], run))
    else if s > |l| then None
    else
      match Decoded(MoveToFront(l, s - 1), rest, eob, 0, 1)
      case None => None
      case Some(tail) => Some(Repeated(l[0], run) + [l[s - 1]] + tail)
  }

  lemma AfterIs(l: seq<byte>, s: nat, rest: seq<nat>, eob: nat, run: nat, n: nat)
    requires l != [] && s > RUNB
    ensures Decoded(l, [s] + rest, eob, run, n) == After(l, s, rest, eob, run)
  {
    hide MoveToFront, Repeated;
    assert ([s] + rest)[1..] == rest;
  }

  /** The pending zeros, once flushed, are read back as a run. */
  lemma FlushDecoded(l: seq<byte>, zp: nat, s: nat, rest: seq<nat>, eob: nat)
    requires zp <= 900000 && l != [] && eob > RUNB && RUNB < s
    ensures Decoded(l, Flush(zp) + ([s] + rest), eob, 0, 1) == After(l, s, rest, eob, zp)
  {
    hide After, Decoded, Digits;
    if zp == 0 {
      assert Flush(zp) + ([s] + rest) == [s] + rest;
      AfterIs(l, s, rest, eob, 0, 1);
    } else {
      RunValue(zp);
      DigitsDecoded(l, zp, [s] + rest, eob, 0, 1);
      AfterIs(l, s, rest, eob, zp, 1 * Pow2(|Digits(zp)|));
    }
  }

  lemma EncodedMove(yy: seq<byte>, col: seq<byte>, zp: nat, eob: nat)
    requires AllIn(yy, col) && col != [] && IndexOf(yy, col[0]) != 0
    ensures var j := IndexOf(yy, col[0]);
            && j < |yy| && yy[j] == col[0] && AllIn(MoveToFront(yy, j), col[1..])
            && Encoded(yy, col, zp, eob) == Flush(zp) + ([j + 1] + Encoded(MoveToFront(yy, j), col[1..], 0, eob))
  {
    hide Flush, MoveToFront;
    var j := IndexOf(yy, col[0]);
    MoveKeeps(yy, j);
  }

  lemma EncodedEnd(yy: seq<byte>, zp: nat, eob: nat)
    ensures Encoded(yy, [], zp, eob) == Flush(zp) + ([eob] + [])
  {
    assert [eob] + [] == [eob];
  }

  lemma EncodedZero(yy: seq<byte>, col: seq<byte>, zp: nat, eob: nat)
    requires AllIn(yy, col) && col != [] && IndexOf(yy, col[0]) == 0
    ensures AllIn(yy, col[1..]) && yy != [] && yy[0] == col[0]
      && Encoded(yy, col, zp, eob) == Encoded(yy, col[1..], zp + 1, eob)
  {
    hide Flush, MoveToFront;
  }

  lemma RepeatNone(x: byte, rest: seq<byte>)
    ensures Repeated(x, 0) + rest == rest
  {
  }

  lemma ThenRest(run: seq<byte>, col: seq<byte>)
    requires col != []
    ensures run + [col[0]] + col[1..] == run + col
  {
  }

  /** Reading back what was emitted yields the column, for all columns up to the greatest block size. */
  lemma {:induction false} RoundTrip(l: seq<byte>, yy: seq<byte>, col: seq<byte>, zp: nat)
    requires AllIn(yy, col) && Extends(l, yy) && zp + |col| <= 900000
    ensures l != [] && Decoded(l, Encoded(yy, col, zp, |yy| + 1), |yy| + 1, 0, 1) == Some(Repeated(l[0], zp) + col)
    decreases |col|
  {
    hide Encoded, Decoded, Flush, MoveToFront, Repeated, IndexOf;
    var eob := |yy| + 1;
    if col == [] {
      EncodedEnd(yy, zp, eob);
      FlushDecoded(l, zp, eob, [], eob);
      assert Repeated(l[0], zp) + col == Repeated(l[0], zp);
    } else {
      var j, rest := IndexOf(yy, col[0]), col[1..];
      if j == 0 {
        EncodedZero(yy, col, zp, eob);
        RoundTrip(l, yy, rest, zp + 1);
        RepeatMore(l[0], zp);
        assert l[0] == l[..|yy|][0];
        ThenRest(Repeated(l[0], zp), col);
      } else {
        EncodedMove(yy, col, zp, eob);
        MoveExtends(l, yy, j);
        var l', yy' := MoveToFront(l, j), MoveToFront(yy, j);
        RoundTrip(l', yy', rest, 0);
        RepeatNone(l'[0], rest);
        FlushDecoded(l, zp, j + 1, Encoded(yy', rest, 0, eob), eob);
        assert l[j] == l[..|yy|][j];
        ThenRest(Repeated(l[0], zp), col);
      }
    }
  }

  /** No more symbols than bytes, and the end marker. */
  lemma {:induction false} EncodedAtMost(yy: seq<byte>, col: seq<byte>, zp: nat, eob: nat)
    requires AllIn(yy, col)
    ensures |Encoded(yy, col, zp, eob)| <= |col| + zp + 1
    decreases |col|
  {
    hide MoveToFront, Digits;
    if zp > 0 { DigitsAtMost(zp); }
    if col != [] {
      var j := IndexOf(yy, col[0]);
      if j == 0 {
        EncodedAtMost(yy, col[1..], zp + 1, eob);
      } else {
        MoveKeeps(yy, j);
        EncodedAtMost(MoveToFront(yy, j), col[1..], 0, eob);
      }
    }
  }
}
