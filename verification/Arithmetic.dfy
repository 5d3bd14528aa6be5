/** Powers of two, and quotients and remainders, in the small steps the verifier wants. */
module Arithmetic {
  function Pow2(k: nat): (p: nat)
    ensures p > 0
  {
    if k == 0 then 1 else 2 * Pow2(k - 1)
  }

  lemma MulSign(k: int, m: int)
    requires m > 0
    ensures k >= 1 ==> k * m >= m
    ensures k <= -1 ==> k * m <= -m
  {
  }

  lemma DivModUnique(x: nat, m: nat, q: nat, r: nat)
    requires m > 0 && x == q * m + r && r < m
    ensures x / m == q && x % m == r
  {
    var q', r' := x / m, x % m;
    assert x == q' * m + r';
    assert (q - q') * m == r' - r;
    MulSign(q - q', m);
  }

  lemma Regroup(q: int, p: int, m: int, t: int)
    ensures (q * p + t) * m == q * (p * m) + t * m
  {
  }

  /** Halving a number and its remainder modulo an even modulus go together. */
  lemma HalfMod(x: nat, p: nat)
    requires p > 0
    ensures x % (2 * p) == 2 * (x / 2 % p) + x % 2
    ensures x % (2 * p) / 2 == x / 2 % p && x % (2 * p) % 2 == x % 2
  {
    var h := x / 2;
    assert h == h / p * p + h % p;
    assert x == (h / p) * (2 * p) + (2 * (h % p) + x % 2) by {
      assert x == 2 * h + x % 2;
      assert 2 * (h / p * p) == (h / p) * (2 * p);
    }
    DivModUnique(x, 2 * p, h / p, 2 * (h % p) + x % 2);
  }

  lemma {:induction false} PowAdd(j: nat, k: nat)
    ensures Pow2(j + k) == Pow2(j) * Pow2(k)
  {
    if k > 0 {
      PowAdd(j, k - 1);
      assert Pow2(j + k) == 2 * Pow2(j + (k - 1));
    }
  }

  lemma TwoDigits(x: int, q: int, n: int, r: int, p: int, m: int, t: int, u: int)
    requires x == q * n + r && n == p * m && r == t * m + u
    ensures x == (q * p + t) * m + u
  {
    Regroup(q, p, m, t);
  }

  lemma DivModParts(x: nat, m: nat) returns (q: nat, r: nat)
    requires m > 0
    ensures x == q * m + r && r == x % m < m
  {
    q, r := x / m, x % m;
  }

  lemma ModModMultiple(x: nat, p: nat, m: nat, n: nat)
    requires m > 0 && n > 0 && n == p * m
    ensures x % n % m == x % m
  {
    var q, r := DivModParts(x, n);
    var t, u := DivModParts(r, m);
    TwoDigits(x, q, n, r, p, m, t, u);
    DivModUnique(x, m, q * p + t, u);
  }

  lemma ModOfMod(x: nat, j: nat, k: nat)
    requires j <= k
    ensures x % Pow2(k) % Pow2(j) == x % Pow2(j)
  {
    hide Pow2;
    PowAdd(k - j, j);
    ModModMultiple(x, Pow2(k - j), Pow2(j), Pow2(k));
  }

  lemma DivMod(x: nat, m: nat)
    requires m > 0
    ensures x == x / m * m + x % m
  {
  }

  lemma ModOne(x: nat)
    ensures x % 1 == 0
  {
  }

  lemma MulLess(a: nat, b: nat, c: nat)
    requires a < b && c > 0
    ensures a * c < b * c
  {
  }

  lemma ShiftMod(x: nat, s: nat, k: nat)
    ensures x * Pow2(s) % Pow2(k + s) == x % Pow2(k) * Pow2(s)
  {
    hide Pow2;
    var m, p := Pow2(k), Pow2(s);
    PowAdd(k, s);
    var q, r := x / m, x % m;
    DivMod(x, m);
    Regroup(q, m, p, r);
    MulLess(r, m, p);
    DivModUnique(x * p, m * p, q, r * p);
  }

  lemma MultipleMod(h: nat, s: nat, k: nat)
    requires k <= s
    ensures h * Pow2(s) % Pow2(k) == 0
  {
    hide Pow2;
    PowAdd(s - k, k);
    var p, t := Pow2(k), Pow2(s - k);
    Regroup(h, t, p, 0);
    DivModUnique(h * Pow2(s), p, h * t, 0);
  }

  lemma Reduced(x: nat, m: nat)
    requires x < m
    ensures x % m == x
  {
  }

  lemma {:induction false} PowAtLeast(k: nat)
    requires k >= 8
    ensures Pow2(k) >= 256
  {
    if k == 8 {
      assert Pow2(8) == 256;
    } else {
      PowAtLeast(k - 1);
    }
  }

  lemma QuotientDown(x: int, w: int, q: int, r: int)
    requires x == w * q + r
    ensures x - w == w * (q - 1) + r
  {
  }

  lemma NextMultiple(w: int, q: int, q': int)
    requires w > 0 && q < q'
    ensures w * q + w <= w * q'
  {
    assert w * q + w == w * (q + 1) <= w * q';
  }

  lemma QuotientAlone(w: int, q: int, r: int, q': int, r': int)
    requires w > 0 && 0 <= r < w && 0 <= r' < w && w * q + r == w * q' + r'
    ensures r == r'
  {
    if q < q' {
      NextMultiple(w, q, q');
    } else if q' < q {
      NextMultiple(w, q', q);
    }
  }

  lemma RemainderIs(x: int, w: int, q: int, r: int)
    requires w > 0 && 0 <= r < w && x == w * q + r
    ensures x % w == r
  {
    var q', r' := x / w, x % w;
    QuotientAlone(w, q, r, q', r');
  }

  lemma RemainderDown(x: int, w: int)
    requires w > 0
    ensures (x - w) % w == x % w
  {
    var q, r := x / w, x % w;
    QuotientDown(x, w, q, r);
    RemainderIs(x - w, w, q - 1, r);
  }
}
