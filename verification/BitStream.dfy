/**
 * The bit stream of bzip2: bits are packed into bytes from the most significant end, and read back across any chunking.
 */
module BitStream {
  import opened Arithmetic
  import opened Bytes
  import opened CanonicalCode

  function BytesToBits(s: seq<byte>): (r: seq<bit>)
    ensures |r| == 8 * |s|
  {
    if s == [] then [] else BytesToBits(s[..|s| - 1]) + BitsOf(s[|s| - 1], 8)
  }

  lemma BytesToBitsNext(s: seq<byte>, b: byte)
    ensures BytesToBits(s + [b]) == BytesToBits(s) + BitsOf(b, 8)
  {
    assert (s + [b])[..|s|] == s;
  }

  lemma {:induction false} BytesToBitsConcat(s: seq<byte>, u: seq<byte>)
    ensures BytesToBits(s + u) == BytesToBits(s) + BytesToBits(u)
  {
    hide BitsOf;
    if u == [] {
      assert s + u == s;
    } else {
      var u0, b := u[..|u| - 1], u[|u| - 1];
      BytesToBitsConcat(s, u0);
      BytesToBitsNext(s + u0, b);
      assert s + u == s + u0 + [b];
    }
  }

  lemma {:induction false} ValueBound(b: seq<bit>)
    ensures Value(b) < Pow2(|b|)
  {
    if b != [] { ValueBound(b[..|b| - 1]); }
  }

  lemma Twice(a: nat, p: nat, v: nat, x: nat)
    ensures 2 * (a * p + v) + x == a * (2 * p) + (2 * v + x)
  {
  }

  /** The value of a concatenation. */
  lemma {:induction false} ValueConcat(a: seq<bit>, b: seq<bit>)
    ensures Value(a + b) == Value(a) * Pow2(|b|) + Value(b)
  {
    if b == [] {
      assert a + b == a;
    } else {
      var b0, x := b[..|b| - 1], b[|b| - 1];
      ValueConcat(a, b0);
      assert (a + b)[..|a + b| - 1] == a + b0 && (a + b)[|a + b| - 1] == x;
      Twice(Value(a), Pow2(|b0|), Value(b0), x);
    }
  }

  lemma PowEight()
    ensures Pow2(8) == 256
  {
    assert Pow2(4) == 16;
  }

  lemma Pow24()
    ensures Pow2(24) == 0x100_0000 && Pow2(32) == 0x1_0000_0000
  {
    PowEight();
    PowAdd(8, 8);
    PowAdd(16, 8);
    PowAdd(16, 16);
  }

  lemma Shifted(a: nat, rest: nat, buff: nat)
    requires buff == a * 0x100_0000 + rest && rest < 0x100_0000
    ensures buff * 256 % 0x1_0000_0000 == rest * 256
  {
    DivModUnique(buff * 256, 0x1_0000_0000, a, rest * 256);
  }

  /** The first eight of the live bits, in the top byte of the buffer, and what is left after shifting them out. */
  lemma TopByte(p: seq<bit>, buff: nat)
    requires 8 <= |p| <= 32 && buff == Value(p) * Pow2(32 - |p|)
    ensures buff / 0x100_0000 == Value(p[..8]) < 256
    ensures buff * 256 % 0x1_0000_0000 == Value(p[8..]) * Pow2(32 - |p[8..]|)
  {
    hide Pow2, Value;
    var a, b := p[..8], p[8..];
    var k, s := |b|, 32 - |p|;
    assert p == a + b;
    ValueConcat(a, b);
    ValueBound(a);
    ValueBound(b);
    Pow24();
    PowEight();
    PowAdd(k, s);
    PowAdd(8, s);
    var rest := Value(b) * Pow2(s);
    Regroup(Value(a), Pow2(k), Pow2(s), Value(b));
    MulLess(Value(b), Pow2(k), Pow2(s));
    DivModUnique(buff, Pow2(24), Value(a), rest);
    Regroup(Value(b), Pow2(s), 256, 0);
    Shifted(Value(a), rest, buff);
  }

  /** Bits added below the live ones. */
  lemma BitsBelow(p: seq<bit>, buff: nat, v: nat, n: nat)
    requires |p| + n <= 32 && buff == Value(p) * Pow2(32 - |p|) && v < Pow2(n)
    ensures buff + v * Pow2(32 - |p| - n) == Value(p + BitsOf(v, n)) * Pow2(32 - |p| - n)
  {
    hide Pow2, Value, BitsOf;
    var s := 32 - |p| - n;
    ValueOfBits(v, n);
    ValueConcat(p, BitsOf(v, n));
    PowAdd(n, s);
    Regroup(Value(p), Pow2(n), Pow2(s), v);
  }

  /** Bitwise or of numbers without a common bit. */
  function Or(a: nat, b: nat): nat {
    a + b
  }

  lemma EmptyValue()
    ensures Value([]) == 0
  {
  }

  class BitWriter {
    var bsBuff: nat
    var bsLive: nat
    var zbits: seq<byte>
    ghost var live: seq<bit>

    ghost predicate Valid()
      reads this
    {
      |live| == bsLive <= 32 && bsBuff == Value(live) * Pow2(32 - bsLive)
    }

    /** Everything written so far. */
    ghost function Bits(): seq<bit>
      reads this
    {
      BytesToBits(zbits) + live
    }

    /** `BZ2_bsInitWrite`. */
    constructor ()
      ensures Valid() && Bits() == [] && zbits == []
    {
      bsBuff, bsLive, zbits, live := 0, 0, [], [];
    }

    /** `zbits` is emptied; live bits stay. */
    method Restart()
      requires Valid()
      modifies this
      ensures Valid() && zbits == [] && old(BytesToBits(zbits)) + Bits() == old(Bits())
    {
      zbits := [];
      assert [] + live == live;
    }

    method PutByte()
      requires Valid() && bsLive >= 8
      modifies this
      ensures Valid() && Bits() == old(Bits()) && bsLive == old(bsLive) - 8
    {
      hide Pow2, Value, BitsOf, BytesToBits;
      TopByte(live, bsBuff);
      BytesToBitsNext(zbits, bsBuff / 0x100_0000);
      BitsOfValue(live[..8]);
      assert BytesToBits(zbits) + live == BytesToBits(zbits) + live[..8] + live[8..];
      zbits := zbits + [bsBuff / 0x100_0000];
      bsBuff := bsBuff * 256 % 0x1_0000_0000;
      bsLive := bsLive - 8;
      live := live[8..];
    }

    /** `bsW`: `n` bits, the most significant first. */
    method BsW(n: nat, v: nat)
      requires Valid() && 1 <= n <= 24 && v < Pow2(n)
      modifies this
      ensures Valid() && Bits() == old(Bits()) + BitsOf(v, n)
    {
      hide Pow2, Value, BitsOf, BytesToBits;
      while bsLive >= 8
        invariant Valid() && Bits() == old(Bits())
      {
        PutByte();
      }
      BitsBelow(live, bsBuff, v, n);
      assert BytesToBits(zbits) + (live + BitsOf(v, n)) == BytesToBits(zbits) + live + BitsOf(v, n);
      bsBuff := Or(bsBuff, v * Pow2(32 - bsLive - n));
      bsLive := bsLive + n;
      live := live + BitsOf(v, n);
    }

    /** `bsFinishWrite`: the last byte is filled up with zero bits. */
    method FinishWrite()
      requires Valid()
      modifies this
      ensures bsLive == 0 && Valid() && exists pad: seq<bit> :: |pad| < 8 && BytesToBits(zbits) == old(Bits()) + pad
    {
      hide Pow2, Value, BitsOf, BytesToBits;
      ghost var bits := Bits();
      while bsLive >= 8
        invariant Valid() && Bits() == bits
      {
        PutByte();
      }
      if bsLive > 0 {
        ghost var pad := BitsOf(0, 8 - bsLive);
        Pow24();
        BitsBelow(live, bsBuff, 0, 8 - bsLive);
        ghost var full := live + pad;
        TopByte(full, bsBuff);
        BytesToBitsNext(zbits, bsBuff / 0x100_0000);
        BitsOfValue(full[..8]);
        assert full[..8] == full && full[8..] == [];
        assert BytesToBits(zbits) + full == bits + pad;
        zbits := zbits + [bsBuff / 0x100_0000];
        bsBuff := bsBuff * 256 % 0x1_0000_0000;
        EmptyValue();
        bsLive := 0;
        live := [];
        assert |pad| < 8 && BytesToBits(zbits) == bits + pad;
      } else {
        assert BytesToBits(zbits) == bits + [];
        assert bsBuff == Value(live) * Pow2(32 - bsLive);
      }
    }
  }

  // ----- reading -----

  /** `n` of the live bits: the first ones, and what is left. */
  lemma TakeBits(p: seq<bit>, buff: nat, n: nat)
    requires n <= |p| && buff % Pow2(|p|) == Value(p)
    ensures buff / Pow2(|p| - n) % Pow2(n) == Value(p[..n])
    ensures buff % Pow2(|p| - n) == Value(p[n..])
  {
    hide Pow2, Value;
    var a, b := p[..n], p[n..];
    var k := |p| - n;
    assert p == a + b;
    ValueConcat(a, b);
    ValueBound(a);
    ValueBound(b);
    PowAdd(n, k);
    var q, r := DivModParts(buff, Pow2(|p|));
    TwoDigits(buff, q, Pow2(|p|), r, Pow2(n), Pow2(k), Value(a), Value(b));
    DivModUnique(buff, Pow2(k), q * Pow2(n) + Value(a), Value(b));
    DivModUnique(q * Pow2(n) + Value(a), Pow2(n), q, Value(a));
  }

  /** One more byte below the live bits; the buffer keeps 32 bits. */
  lemma ByteBelow(p: seq<bit>, buff: nat, b: byte)
    requires |p| + 8 <= 32 && buff % Pow2(|p|) == Value(p)
    ensures (buff * 256 + b) % 0x1_0000_0000 % Pow2(|p| + 8) == Value(p + BitsOf(b, 8))
  {
    hide Pow2, Value, BitsOf;
    PowEight();
    Pow24();
    ValueOfBits(b, 8);
    ValueConcat(p, BitsOf(b, 8));
    ValueBound(p + BitsOf(b, 8));
    ModOfMod(buff * 256 + b, |p| + 8, 32);
    PowAdd(|p|, 8);
    var q, r := DivModParts(buff, Pow2(|p|));
    Regroup(q, Pow2(|p|), 256, r);
    DivModUnique(buff * 256 + b, Pow2(|p| + 8), q, Value(p) * 256 + b);
  }

  datatype Got = NeedMore | Got(v: nat)

  lemma FirstByte(s: seq<byte>)
    requires s != []
    ensures BytesToBits(s) == BitsOf(s[0], 8) + BytesToBits(s[1..])
  {
    hide BitsOf;
    BytesToBitsConcat([s[0]], s[1..]);
    assert [s[0]] + s[1..] == s;
    assert [s[0]][..0] == [];
    assert BytesToBits([s[0]]) == BitsOf(s[0], 8);
  }

  class BitReader {
    var bsBuff: nat
    var bsLive: nat
    var nextIn: seq<byte>
    ghost var live: seq<bit>

    ghost predicate Valid()
      reads this
    {
      |live| == bsLive <= 32 && bsBuff % Pow2(bsLive) == Value(live)
    }

    /** The bits still to be read. */
    ghost function Rest(): seq<bit>
      reads this
    {
      live + BytesToBits(nextIn)
    }

    constructor ()
      ensures Valid() && Rest() == []
    {
      bsBuff, bsLive, nextIn, live := 0, 0, [], [];
    }

    /** The caller supplies more input. */
    method Feed(chunk: seq<byte>)
      requires Valid()
      modifies `nextIn
      ensures Valid() && Rest() == old(Rest()) + BytesToBits(chunk)
    {
      hide Pow2, Value, BytesToBits;
      BytesToBitsConcat(nextIn, chunk);
      assert live + (BytesToBits(nextIn) + BytesToBits(chunk)) == live + BytesToBits(nextIn) + BytesToBits(chunk);
      nextIn := nextIn + chunk;
    }

    /** `GET_BITS`: either the next `n` bits, or nothing is lost and more input is needed. */
    method GetBits(n: nat) returns (g: Got)
      requires Valid() && 1 <= n <= 24
      modifies this
      ensures Valid()
      ensures |old(Rest())| >= n ==>
        g.Got? && g.v < Pow2(n) && BitsOf(g.v, n) == old(Rest())[..n] && Rest() == old(Rest())[n..]
      ensures |old(Rest())| < n ==> g.NeedMore? && Rest() == old(Rest()) && nextIn == []
    {
      hide Pow2, Value, BitsOf, BytesToBits;
      ghost var rest := Rest();
      while bsLive < n
        invariant Valid() && Rest() == rest
        decreases |nextIn|
      {
        if nextIn == [] { return NeedMore; }
        ByteBelow(live, bsBuff, nextIn[0]);
        FirstByte(nextIn);
        assert live + (BitsOf(nextIn[0], 8) + BytesToBits(nextIn[1..])) ==
          live + BitsOf(nextIn[0], 8) + BytesToBits(nextIn[1..]);
        bsBuff := (bsBuff * 256 + nextIn[0]) % 0x1_0000_0000;
        bsLive := bsLive + 8;
        live := live + BitsOf(nextIn[0], 8);
        nextIn := nextIn[1..];
      }
      TakeBits(live, bsBuff, n);
      BitsOfValue(live[..n]);
      ValueBound(live[..n]);
      assert rest[..n] == live[..n] && rest[n..] == live[n..] + BytesToBits(nextIn);
      g := Got(bsBuff / Pow2(bsLive - n) % Pow2(n));
      bsLive := bsLive - n;
      live := live[n..];
    }
  }
}
