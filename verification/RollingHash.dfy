/** The match finder's rolling hash of three bytes. */
module RollingHash {
  import opened Arithmetic
  import opened Bytes

  /** Bitwise exclusive or. */
  function Xor(a: nat, b: nat): nat
    decreases a + b
  {
    if a == 0 && b == 0 then 0 else 2 * Xor(a / 2, b / 2) + (a % 2 + b % 2) % 2
  }

  lemma XorUnfold(a: nat, b: nat)
    ensures Xor(a, b) == 2 * Xor(a / 2, b / 2) + (a % 2 + b % 2) % 2
    ensures Xor(a, b) / 2 == Xor(a / 2, b / 2) && Xor(a, b) % 2 == (a % 2 + b % 2) % 2
  {
  }

  lemma OddCancels(a: nat, b: nat, c: nat)
    requires a < 2 && b < 2 && c < 2 && (a + b) % 2 == (a + c) % 2
    ensures b == c
  {
  }

  lemma {:induction false} XorCancels(a: nat, b: nat, c: nat)
    requires Xor(a, b) == Xor(a, c)
    ensures b == c
    decreases a + b + c
  {
    hide Xor;
    XorUnfold(a, b);
    XorUnfold(a, c);
    if a + b + c > 0 {
      XorCancels(a / 2, b / 2, c / 2);
      OddCancels(a % 2, b % 2, c % 2);
    }
  }

  lemma {:induction false} XorZero(c: nat)
    ensures Xor(0, c) == c
  {
    if c > 0 {
      XorZero(c / 2);
    }
  }

  /** Exclusive or acts on the low `k` bits alone. */
  lemma {:induction false} XorMod(a: nat, b: nat, k: nat)
    ensures Xor(a, b) % Pow2(k) == Xor(a % Pow2(k), b % Pow2(k))
  {
    hide Xor;
    if k == 0 {
      ModOne(a);
      ModOne(b);
      ModOne(Xor(a, b));
      XorZero(0);
    } else {
      var p := Pow2(k - 1);
      XorMod(a / 2, b / 2, k - 1);
      XorUnfold(a, b);
      HalfMod(Xor(a, b), p);
      HalfMod(a, p);
      HalfMod(b, p);
      XorUnfold(a % (2 * p), b % (2 * p));
    }
  }

  /** `hash_shift`: three shifts move a byte out of the hash. */
  function Shift(bits: nat): nat {
    (bits + 2) / 3
  }

  /** `UPDATE_HASH`: shift, exclusive-or the next byte in, and mask. */
  function UpdateHash(bits: nat, h: nat, c: byte): (r: nat)
    ensures r < Pow2(bits)
  {
    Xor(h * Pow2(Shift(bits)), c) % Pow2(bits)
  }

  function Hash3(bits: nat, a: byte, b: byte, c: byte): nat {
    UpdateHash(bits, UpdateHash(bits, a, b), c)
  }

  lemma UpdateMod(bits: nat, h: nat, c: byte, k: nat)
    requires k <= bits
    ensures UpdateHash(bits, h, c) % Pow2(k) == Xor(h * Pow2(Shift(bits)) % Pow2(k), c % Pow2(k))
  {
    ModOfMod(Xor(h * Pow2(Shift(bits)), c), k, bits);
    XorMod(h * Pow2(Shift(bits)), c, k);
  }

  lemma UpdateAgrees(bits: nat, g: nat, h: nat, c: byte, k: nat)
    requires k + Shift(bits) <= bits && g % Pow2(k) == h % Pow2(k)
    ensures UpdateHash(bits, g, c) % Pow2(k + Shift(bits)) == UpdateHash(bits, h, c) % Pow2(k + Shift(bits))
  {
    hide UpdateHash, Xor, Pow2;
    var s := Shift(bits);
    UpdateMod(bits, g, c, k + s);
    UpdateMod(bits, h, c, k + s);
    ShiftMod(g, s, k);
    ShiftMod(h, s, k);
  }

  lemma UpdateForgets(bits: nat, h: nat, c: byte, k: nat)
    requires k <= Shift(bits) && k <= bits
    ensures UpdateHash(bits, h, c) % Pow2(k) == c % Pow2(k)
  {
    hide Pow2, Xor, UpdateHash;
    var s := Shift(bits);
    UpdateMod(bits, h, c, k);
    MultipleMod(h, s, k);
    XorZero(c % Pow2(k));
  }

  /** After two more bytes the hash no longer depends on the byte before them: the hash rolls. */
  lemma HashRolls(bits: nat, a: byte, b: byte, c: byte, d: byte)
    requires bits >= 8
    ensures UpdateHash(bits, Hash3(bits, a, b, c), d) == Hash3(bits, b, c, d)
  {
    hide UpdateHash, Xor, Pow2;
    var s := Shift(bits);
    var k := bits - 2 * s;
    UpdateForgets(bits, a, b, k);
    UpdateAgrees(bits, UpdateHash(bits, a, b), b, c, k);
    UpdateAgrees(bits, Hash3(bits, a, b, c), UpdateHash(bits, b, c), d, k + s);
    assert k + s + s == bits;
    Reduced(UpdateHash(bits, Hash3(bits, a, b, c), d), Pow2(bits));
    Reduced(Hash3(bits, b, c, d), Pow2(bits));
  }

  /** Equal hashes and equal first two bytes leave no choice for the third. */
  lemma ThirdByteForced(bits: nat, a: byte, b: byte, c: byte, d: byte)
    requires bits >= 8 && Hash3(bits, a, b, c) == Hash3(bits, a, b, d)
    ensures c == d
  {
    var h := UpdateHash(bits, a, b);
    var m := Pow2(bits);
    PowAtLeast(bits);
    UpdateMod(bits, h, c, bits);
    UpdateMod(bits, h, d, bits);
    Reduced(c, m);
    Reduced(d, m);
    XorCancels(h * Pow2(Shift(bits)) % m, c, d);
  }

  lemma {:induction false} XorShifted(a: nat, b: nat, s: nat)
    ensures Xor(a * Pow2(s), b * Pow2(s)) == Xor(a, b) * Pow2(s)
  {
    hide Xor;
    if s > 0 {
      var x, y := a * Pow2(s - 1), b * Pow2(s - 1);
      XorShifted(a, b, s - 1);
      Regroup(a, Pow2(s - 1), 2, 0);
      Regroup(b, Pow2(s - 1), 2, 0);
      Regroup(Xor(a, b), Pow2(s - 1), 2, 0);
      XorUnfold(2 * x, 2 * y);
    }
  }

  /** Masking before a shift makes no difference to what is masked after it. */
  lemma MaskLater(z: nat, s: nat, bits: nat)
    ensures z % Pow2(bits) * Pow2(s) % Pow2(bits) == z * Pow2(s) % Pow2(bits)
  {
    hide Pow2;
    ShiftMod(z, s, bits);
    ModOfMod(z * Pow2(s), bits, bits + s);
  }

  /** The hash of three bytes: the bytes shifted by a third of its width each, one upon the other. */
  lemma HashIs(bits: nat, a: byte, b: byte, c: byte)
    ensures var s := (bits + 2) / 3;
      Hash3(bits, a, b, c) == Xor(Xor(a * Pow2(2 * s), b * Pow2(s)), c) % Pow2(bits)
  {
    hide Xor, Pow2;
    var s, m := (bits + 2) / 3, Pow2(bits);
    var z := Xor(a * Pow2(s), b);
    MaskLater(z, s, bits);
    PowAdd(s, s);
    Regroup(a, Pow2(s), Pow2(s), 0);
    XorShifted(a * Pow2(s), b, s);
    XorMod(z % m * Pow2(s), c, bits);
    XorMod(z * Pow2(s), c, bits);
  }
}
