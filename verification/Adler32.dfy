/**
 * The Adler-32 checksum (section 2.2 of RFC 1950): sums whose reduction is put off, reduction without division, and
 * combination.
 */
module Adler32 {
  import opened Arithmetic
  import opened Bytes

  const BASE := 65521
  const NMAX := 5552

  // ----- the definition, a byte at a time -----

  datatype Sums = Sums(a: nat, b: nat)

  /** Both sums after one byte. */
  function Step(s: Sums, x: byte): Sums {
    var a := (s.a + x) % BASE;
    Sums(a, (s.b + a) % BASE)
  }

  function Fold(s: Sums, buf: seq<byte>): Sums {
    if buf == [] then s else Step(Fold(s, buf[..|buf| - 1]), buf[|buf| - 1])
  }

  predicate Reduced(s: Sums) {
    s.a < BASE && s.b < BASE
  }

  function Reduce(s: Sums): (r: Sums)
    ensures Reduced(r)
  {
    Sums(s.a % BASE, s.b % BASE)
  }

  /** Both sums in one word. */
  function Word(s: Sums): nat {
    s.a + 65536 * s.b
  }

  /** The sums in a word, of which the lower 32 bits count; they need not be reduced. */
  function Parts(adler: nat): (s: Sums)
    ensures s.a < 65536 && s.b < 65536
  {
    Sums(adler % 65536, adler / 65536 % 65536)
  }

  // ----- sums that are not reduced -----

  function RawA(a: nat, buf: seq<byte>): nat {
    if buf == [] then a else RawA(a, buf[..|buf| - 1]) + buf[|buf| - 1]
  }

  function RawB(a: nat, b: nat, buf: seq<byte>): nat {
    if buf == [] then b else RawB(a, b, buf[..|buf| - 1]) + RawA(a, buf)
  }

  function Raw(s: Sums, buf: seq<byte>): Sums {
    Sums(RawA(s.a, buf), RawB(s.a, s.b, buf))
  }

  lemma SumMod(x: nat, y: nat)
    ensures (x % BASE + y) % BASE == (x + y) % BASE
  {
    var q, r := DivModParts(x, BASE);
    var q', r' := DivModParts(r + y, BASE);
    DivModUnique(x + y, BASE, q + q', r');
  }

  /** One byte, on sums that are reduced only afterwards. */
  lemma StepReduced(s: Sums, x: byte)
    ensures Step(Reduce(s), x) == Reduce(Sums(s.a + x, s.b + (s.a + x)))
  {
    SumMod(s.a, x);
    SumMod(s.b, s.a + x);
    SumMod(s.a + x, s.b % BASE);
  }

  /** Reduction may be put off to the end. */
  lemma {:induction false} FoldIsRaw(s: Sums, buf: seq<byte>)
    ensures Fold(Reduce(s), buf) == Reduce(Raw(s, buf))
  {
    if buf != [] {
      var init := buf[..|buf| - 1];
      FoldIsRaw(s, init);
      StepReduced(Raw(s, init), buf[|buf| - 1]);
    }
  }

  /** The sums of two pieces, the second begun anew or where the first ended. */
  lemma {:induction false} FoldConcat(s: Sums, u: seq<byte>, v: seq<byte>)
    ensures Fold(s, u + v) == Fold(Fold(s, u), v)
  {
    if v == [] {
      assert u + v == u;
    } else {
      FoldConcat(s, u, v[..|v| - 1]);
      assert (u + v)[..|u + v| - 1] == u + v[..|v| - 1];
    }
  }

  // ----- how far reduction can be put off -----

  /** The greatest second sum after `n` bytes, from first and second sums of at most `m`. */
  function Greatest(m: nat, n: nat): nat {
    255 * n * (n + 1) / 2 + (n + 1) * m
  }

  lemma {:induction false} Triangle(n: nat) returns (t: nat)
    ensures n * (n + 1) == 2 * t
  {
    if n == 0 {
      t := 0;
    } else {
      var u := Triangle(n - 1);
      t := u + n;
    }
  }

  lemma GreatestNext(m: nat, n: nat)
    ensures Greatest(m, n + 1) == Greatest(m, n) + m + 255 * (n + 1)
  {
    var t := Triangle(n);
    assert 255 * (n + 1) * (n + 2) == 2 * (255 * t + 255 * (n + 1)) by {
      assert (n + 1) * (n + 2) == n * (n + 1) + 2 * (n + 1);
    }
    assert 255 * n * (n + 1) == 2 * (255 * t);
    assert (n + 2) * m == (n + 1) * m + m;
  }

  lemma {:induction false} RawAtMost(s: Sums, m: nat, buf: seq<byte>)
    requires s.a <= m && s.b <= m
    ensures RawA(s.a, buf) <= m + 255 * |buf| && RawB(s.a, s.b, buf) <= Greatest(m, |buf|)
  {
    if buf != [] {
      RawAtMost(s, m, buf[..|buf| - 1]);
      GreatestNext(m, |buf| - 1);
    }
  }

  lemma {:induction false} GreatestGrows(m: nat, n: nat, n': nat)
    requires n <= n'
    ensures Greatest(m, n) <= Greatest(m, n')
    decreases n'
  {
    hide Greatest;
    if n < n' {
      GreatestGrows(m, n, n' - 1);
      GreatestNext(m, n' - 1);
    }
  }

  /** NMAX is the largest number of bytes for which reduced sums never exceed 32 bits. */
  lemma NmaxIsLargest(n: nat)
    ensures Greatest(BASE - 1, n) <= 0xffff_ffff <==> n <= NMAX
  {
    if n <= NMAX {
      GreatestGrows(BASE - 1, n, NMAX);
    } else {
      GreatestGrows(BASE - 1, NMAX + 1, n);
    }
  }

  /** The bound holds even for sums that come in unreduced. */
  lemma NoOverflow(s: Sums, buf: seq<byte>)
    requires s.a < 65536 && s.b < 65536 && |buf| <= NMAX
    ensures Raw(s, buf).a <= 0xffff_ffff && Raw(s, buf).b <= 0xffff_ffff
  {
    RawAtMost(s, 65535, buf);
    GreatestGrows(65535, |buf|, NMAX);
  }

  // ----- reduction without division -----

  /** CHOP: 65536 is 15 modulo BASE. */
  function Chop(a: nat): nat {
    a % 65536 + 15 * (a / 65536)
  }

  function Less(a: nat): nat {
    if a >= BASE then a - BASE else a
  }

  function ShiftMod28(a: nat): nat {
    Less(Chop(a))
  }

  function ShiftMod(a: nat): nat {
    ShiftMod28(Chop(a))
  }

  /** 63 bits folded to fewer than 40: 2^32 is 225 modulo BASE, which is 256 - 32 + 1. */
  function Fold63(a: nat): nat {
    var tmp := a / 0x1_0000_0000;
    a % 0x1_0000_0000 + (256 * tmp - 32 * tmp + tmp)
  }

  function ShiftMod63(a: nat): nat {
    Less(Chop(Chop(Fold63(a))))
  }

  lemma AddMultiple(x: nat, q: nat)
    ensures (x + q * BASE) % BASE == x % BASE
  {
    var p, r := DivModParts(x, BASE);
    DivModUnique(x + q * BASE, BASE, p + q, r);
  }

  lemma ChopKeeps(a: nat)
    ensures Chop(a) % BASE == a % BASE
  {
    var q := a / 65536;
    assert a == Chop(a) + q * BASE;
    AddMultiple(Chop(a), q);
  }

  /** MOD28 is the remainder exactly as long as one subtraction suffices, in particular below 2^28. */
  lemma Mod28Is(a: nat)
    ensures ShiftMod28(a) == a % BASE <==> Chop(a) < 2 * BASE
    ensures a < 0x1000_0000 ==> ShiftMod28(a) == a % BASE
  {
    ChopKeeps(a);
  }

  lemma ModIs(a: nat)
    requires a < 0x1_0000_0000
    ensures ShiftMod(a) == a % BASE
  {
    ChopKeeps(a);
    Mod28Is(Chop(a));
  }

  lemma ChopAtMost(a: nat, n: nat)
    requires a < 65536 * n
    ensures Chop(a) <= 65520 + 15 * n
  {
  }

  lemma Fold63Keeps(a: nat)
    requires a < 0x8000_0000_0000_0000
    ensures Fold63(a) % BASE == a % BASE && Fold63(a) < 65536 * 7_438_336
  {
    var tmp := a / 0x1_0000_0000;
    assert a == Fold63(a) + (tmp * 65551) * BASE;
    hide Fold63;
    AddMultiple(Fold63(a), tmp * 65551);
  }

  lemma LessIs(a: nat)
    requires a < 2 * BASE
    ensures Less(a) == a % BASE
  {
  }

  lemma Mod63Is(a: nat)
    requires a < 0x8000_0000_0000_0000
    ensures ShiftMod63(a) == a % BASE
  {
    hide Chop, Fold63, Less;
    var c := Fold63(a);
    Fold63Keeps(a);
    ChopKeeps(c);
    ChopKeeps(Chop(c));
    ChopAtMost(c, 7_438_336);
    ChopAtMost(Chop(c), 1704);
    LessIs(Chop(Chop(c)));
  }

  /** MOD, MOD28 and MOD63, in both builds. */
  function Mod(noDivide: bool, a: nat): nat {
    if noDivide then ShiftMod(a) else a % BASE
  }

  function Mod28(noDivide: bool, a: nat): nat {
    if noDivide then ShiftMod28(a) else a % BASE
  }

  function Mod63(noDivide: bool, a: nat): nat {
    if noDivide then ShiftMod63(a) else a % BASE
  }

  // ----- adler32_z -----

  function Add32(x: nat, y: nat): nat {
    (x + y) % 0x1_0000_0000
  }

  lemma RawNext(s: Sums, buf: seq<byte>, n: nat, k: nat)
    requires n + k < |buf|
    ensures Raw(s, buf[n..n + k + 1]) == var r := Raw(s, buf[n..n + k]);
      Sums(r.a + buf[n + k], r.b + (r.a + buf[n + k]))
    ensures Raw(s, buf[n..n + 0]) == s
  {
    assert buf[n..n + k + 1][..k] == buf[n..n + k];
  }

  /** Bytes `lo` up to `hi` added to sums of 32 bits: not so many that the sums could overflow. */
  method AddBytes(buf: seq<byte>, lo: nat, hi: nat, s: Sums, ghost s0: Sums, ghost from: nat) returns (r: Sums)
    requires from <= lo <= hi <= |buf| && hi - from <= NMAX && s0.a < 65536 && s0.b < 65536
      && s == Raw(s0, buf[from..lo])
    ensures r == Raw(s0, buf[from..hi])
  {
    hide Raw;
    var adler, sum2 := s.a, s.b;
    for i := lo to hi
      invariant Sums(adler, sum2) == Raw(s0, buf[from..i])
    {
      RawNext(s0, buf, from, i - from);
      NoOverflow(s0, buf[from..i + 1]);
      assert buf[from + (i - from)] == buf[i];
      adler := Add32(adler, buf[i]);
      sum2 := Add32(sum2, adler);
    }
    r := Sums(adler, sum2);
  }

  /** The sums so far, reduced, are those of the bytes so far. */
  lemma PartReduced(s: Sums, buf: seq<byte>, lo: nat, hi: nat, p: Sums)
    requires lo <= hi <= |buf| && Reduce(p) == Fold(Reduce(s), buf[..lo])
    ensures Reduce(Raw(p, buf[lo..hi])) == Fold(Reduce(s), buf[..hi])
  {
    FoldIsRaw(p, buf[lo..hi]);
    assert buf[..hi] == buf[..lo] + buf[lo..hi];
    FoldConcat(Reduce(s), buf[..lo], buf[lo..hi]);
  }

  lemma RawNone(s: Sums, buf: seq<byte>, pos: nat)
    requires pos <= |buf|
    ensures Raw(s, buf[pos..pos]) == s
  {
  }

  /** A block of at most NMAX bytes, then one reduction; sixteen bytes at a time, then one at a time. */
  method AddBlock(buf: seq<byte>, pos: nat, len: nat, s: Sums, noDivide: bool) returns (r: Sums)
    requires pos + len <= |buf| && len <= NMAX && s.a < 65536 && s.b < 65536
    ensures r == Reduce(Raw(s, buf[pos..pos + len]))
  {
    hide Raw, ShiftMod;
    var t := s;
    var at, end := pos, pos + len;
    RawNone(s, buf, pos);
    while end - at >= 16
      invariant pos <= at <= end && t == Raw(s, buf[pos..at])
    {
      t := AddBytes(buf, at, at + 16, t, s, pos);
      at := at + 16;
    }
    t := AddBytes(buf, at, end, t, s, pos);
    NoOverflow(s, buf[pos..end]);
    ModIs(t.a);
    ModIs(t.b);
    r := Sums(Mod(noDivide, t.a), Mod(noDivide, t.b));
  }

  /** Where a single byte leaves the second sum unreduced: only if it came in unreduced. */
  predicate Overfull(s: Sums, buf: seq<byte>) {
    |buf| == 1 && s.b + (s.a + buf[0]) % BASE >= 2 * BASE
  }

  lemma OneByte(s: Sums, buf: seq<byte>)
    requires |buf| == 1
    ensures Fold(Reduce(s), buf) == Sums((s.a + buf[0]) % BASE, (s.b + (s.a + buf[0]) % BASE) % BASE)
  {
    assert buf[..0] == [];
    assert Fold(Reduce(s), buf[..0]) == Reduce(s);
    SumMod(s.a, buf[0]);
    SumMod(s.b, (s.a + buf[0]) % BASE);
  }

  /** A single byte. */
  method AddOne(s: Sums, x: byte, ghost buf: seq<byte>) returns (r: Sums)
    requires s.a < 65536 && s.b < 65536 && buf == [x]
    ensures r.a < 65536 && r.b < 65536 && (r == Fold(Reduce(s), buf) <==> !Overfull(s, buf))
  {
    hide Fold;
    OneByte(s, buf);
    var adler := Less(s.a + x);
    var sum2 := Less(s.b + adler);
    r := Sums(adler, sum2);
  }

  /** Fifteen bytes: one subtraction reduces the first sum, and MOD28 the second. */
  lemma ShortSums(s: Sums, buf: seq<byte>)
    requires s.a < 65536 && s.b < 65536 && |buf| < 16
    ensures Raw(s, buf[0..|buf|]).a < 2 * BASE && Raw(s, buf[0..|buf|]).b < 0x1000_0000
  {
    assert buf[0..|buf|] == buf;
    RawAtMost(s, 65535, buf);
    GreatestGrows(65535, |buf|, 15);
  }

  /** Fewer than sixteen bytes. */
  method AddFew(s: Sums, buf: seq<byte>, noDivide: bool) returns (r: Sums)
    requires s.a < 65536 && s.b < 65536 && |buf| < 16
    ensures r == Fold(Reduce(s), buf)
  {
    hide Fold, Raw, ShiftMod28, Chop;
    RawNone(s, buf, 0);
    var t := AddBytes(buf, 0, |buf|, s, s, 0);
    ShortSums(s, buf);
    assert buf[0..|buf|] == buf;
    FoldIsRaw(s, buf);
    Mod28Is(t.b);
    r := Sums(Less(t.a), Mod28(noDivide, t.b));
  }

  lemma FoldNone(s: Sums, buf: seq<byte>)
    ensures Reduce(s) == Fold(Reduce(s), buf[..0])
  {
  }

  lemma ReducedTwice(s: Sums)
    ensures Reduced(s) ==> Reduce(s) == s
  {
  }

  /** Blocks of NMAX bytes, then the rest. */
  method AddMany(s: Sums, bytes: seq<byte>, noDivide: bool) returns (t: Sums)
    requires s.a < 65536 && s.b < 65536 && |bytes| >= 16
    ensures t == Fold(Reduce(s), bytes)
  {
    hide Fold, Raw;
    var len, pos := |bytes|, 0;
    t := s;
    FoldNone(s, bytes);
    while len - pos >= NMAX
      invariant pos <= len && t.a < 65536 && t.b < 65536 && Reduce(t) == Fold(Reduce(s), bytes[..pos])
        && (pos > 0 ==> Reduced(t))
    {
      PartReduced(s, bytes, pos, pos + NMAX, t);
      t := AddBlock(bytes, pos, NMAX, t, noDivide);
      ReducedTwice(t);
      pos := pos + NMAX;
    }
    if len - pos > 0 {
      PartReduced(s, bytes, pos, len, t);
      t := AddBlock(bytes, pos, len - pos, t, noDivide);
    } else {
      ReducedTwice(t);
    }
    assert bytes[..len] == bytes;
  }

  lemma {:induction false} SumsFit(s: Sums, buf: seq<byte>)
    requires Reduced(s)
    ensures Reduced(Fold(s, buf))
  {
    if buf != [] { SumsFit(s, buf[..|buf| - 1]); }
  }

  lemma NotOverfull(s: Sums, buf: seq<byte>)
    ensures |buf| != 1 || Reduced(s) ==> !Overfull(s, buf)
  {
  }

  lemma WordParts(s: Sums)
    requires s.a < 65536 && s.b < 65536
    ensures Word(s) % 65536 == s.a && Word(s) / 65536 % 65536 == s.b
  {
    DivModUnique(Word(s), 65536, s.b, s.a);
  }

  lemma WordOnce(s: Sums, t: Sums)
    requires s.a < 65536 && s.b < 65536 && t.a < 65536 && t.b < 65536
    ensures Word(s) == Word(t) <==> s == t
  {
    WordParts(s);
    WordParts(t);
  }

  /**
   * `adler32_z`. On all its paths it gives the checksum of the definition, started from the sums that come in, reduced.
   * The one exception is a single byte that finds a second sum not reduced and leaves it so. No checksum does that.
   */
  method Adler32Z(adler: nat, buf: array?<byte>, len: nat, noDivide: bool) returns (r: nat)
    requires if buf == null then len != 1 else len <= buf.Length
    ensures buf == null ==> r == 1
    ensures buf != null ==> (r == Word(Fold(Reduce(Parts(adler)), buf[..len])) <==> !Overfull(Parts(adler), buf[..len]))
    ensures buf != null && Reduced(Parts(adler)) ==> r == Word(Fold(Parts(adler), buf[..len]))
  {
    hide Fold, Overfull, Word;
    var s := Parts(adler);
    ReducedTwice(s);
    var t: Sums;
    if len == 1 {
      t := AddOne(s, buf[0], buf[..len]);
    } else {
      if buf == null { return 1; }
      if len < 16 { t := AddFew(s, buf[..len], noDivide); } else { t := AddMany(s, buf[..len], noDivide); }
    }
    SumsFit(Reduce(s), buf[..len]);
    WordOnce(t, Fold(Reduce(s), buf[..len]));
    NotOverfull(s, buf[..len]);
    r := Word(t);
  }

  /** Such a byte: sums 65520 and 65535, and a zero. */
  lemma OverfullByte()
    ensures Overfull(Parts(65520 + 65536 * 65535), [0])
  {
    WordParts(Sums(65520, 65535));
  }

  // ----- adler32_combine_ -----

  lemma OneMore(n: nat, a: nat)
    ensures (n + 1) * a == n * a + a
  {
  }

  /** The first sum adds up; the second also gains the first once for every byte that follows. */
  lemma {:induction false} RawFrom(s: Sums, buf: seq<byte>)
    ensures Raw(s, buf).a == s.a + Raw(Sums(0, 0), buf).a
    ensures Raw(s, buf).b == s.b + |buf| * s.a + Raw(Sums(0, 0), buf).b
  {
    if buf != [] {
      RawFrom(s, buf[..|buf| - 1]);
      OneMore(|buf| - 1, s.a);
    }
  }

  lemma ProductMod(n: nat, a: nat)
    ensures n * a % BASE == n % BASE * a % BASE
  {
    var q, r := DivModParts(n, BASE);
    assert n * a == r * a + (q * a) * BASE by { Regroup(q, BASE, a, r); }
    AddMultiple(r * a, q * a);
  }

  lemma ContinuedA(a: nat, z: nat)
    ensures (a + z) % BASE == (a + (1 + z) % BASE + BASE - 1) % BASE
  {
    SumMod(1 + z, a + (BASE - 1));
    AddMultiple(a + z, 1);
  }

  lemma RearrangedSum(na: nat, n: nat, z: nat, b: nat, p: nat, m: nat, q: nat, t: nat, k: nat, rem: nat, base: nat)
    requires na == p * base + m && n + z == q * base + t && n == k * base + rem
    ensures b + na + z + (k + 1) * base == m + b + t + base - rem + (p + q) * base
  {
    assert (k + 1) * base == k * base + base && (p + q) * base == p * base + q * base;
  }

  lemma Shifts(y: nat, x: nat, p: nat, k: nat)
    requires y + k * BASE == x + p * BASE
    ensures y % BASE == x % BASE
  {
    AddMultiple(y, k);
    AddMultiple(x, p);
  }

  lemma ContinuedParts(na: nat, n: nat, z: nat, b: nat)
    ensures (b + na + z) % BASE == (na % BASE + b + (n + z) % BASE + BASE - n % BASE) % BASE
  {
    var p, m := DivModParts(na, BASE);
    var q, t := DivModParts(n + z, BASE);
    var k, rem := DivModParts(n, BASE);
    RearrangedSum(na, n, z, b, p, m, q, t, k, rem, BASE);
    Shifts(b + na + z, m + b + t + BASE - rem, p + q, k + 1);
  }

  lemma ContinuedB(a: nat, b: nat, z: nat, n: nat)
    ensures (b + n * a + z) % BASE == (n % BASE * a % BASE + b + (n + z) % BASE + BASE - n % BASE) % BASE
  {
    ProductMod(n, a);
    ContinuedParts(n * a, n, z, b);
  }

  /** What the checksum of a continuation is, in terms of the checksum of what is appended. */
  lemma ContinuedFold(s: Sums, buf: seq<byte>)
    ensures var t := Fold(Sums(1, 0), buf);
            var m := |buf| % BASE * s.a % BASE;
            Fold(Reduce(s), buf) == Sums((s.a + t.a + BASE - 1) % BASE, (m + s.b + t.b + BASE - |buf| % BASE) % BASE)
  {
    var u, n := Sums(1, 0), |buf|;
    FoldIsRaw(s, buf);
    FoldIsRaw(u, buf);
    RawFrom(s, buf);
    RawFrom(u, buf);
    var z := Raw(Sums(0, 0), buf);
    ContinuedA(s.a, z.a);
    ContinuedB(s.a, s.b, z.b, n);
  }

  lemma ReducedSmall(s: Sums)
    requires Reduced(s)
    ensures s.a < BASE && s.b < BASE
  {
  }

  function LessTwice(a: nat): nat {
    if a >= 2 * BASE then a - 2 * BASE else a
  }

  /** The two sums before the subtractions are small enough for them. */
  ghost predicate Enough(s: Sums, buf: seq<byte>) {
    var t := Fold(Sums(1, 0), buf);
    s.a + t.a <= 2 * BASE && |buf| % BASE * s.a % BASE + s.b + t.b < 3 * BASE + |buf| % BASE
  }

  lemma Subtracted(x: nat, y: nat)
    requires x <= 3 * BASE + 12 && y <= 4 * BASE + 12
    ensures Less(Less(x)) == x % BASE <==> x < 3 * BASE
    ensures Less(LessTwice(y)) == y % BASE <==> y < 4 * BASE
    ensures Less(Less(x)) < 65536 && Less(LessTwice(y)) < 65536
  {
  }

  /** What the subtractions make of the two sums. */
  lemma CombinedSums(s: Sums, buf: seq<byte>)
    requires s.a < 65536 && s.b < 65536
    ensures var t := Fold(Sums(1, 0), buf);
            var x, y := s.a + (t.a + BASE - 1), |buf| % BASE * s.a % BASE + (s.b + t.b + BASE - |buf| % BASE);
            && y >= 0
            && var w := Word(Sums(Less(Less(x)), Less(LessTwice(y))));
               && (w == Word(Fold(Reduce(s), buf)) <==> Enough(s, buf))
               && (Reduced(s) ==> w == Word(Fold(s, buf)))
  {
    hide Fold, Word;
    var t := Fold(Sums(1, 0), buf);
    SumsFit(Sums(1, 0), buf);
    ContinuedFold(s, buf);
    var x, y: nat := s.a + (t.a + BASE - 1), |buf| % BASE * s.a % BASE + (s.b + t.b + BASE - |buf| % BASE);
    Subtracted(x, y);
    WordOnce(Sums(Less(Less(x)), Less(LessTwice(y))), Fold(Reduce(s), buf));
    ReducedTwice(s);
  }

  lemma ProductSmall(rem: nat, a: nat)
    requires rem < BASE && a < 65536
    ensures 0 <= rem * a < 0x1_0000_0000
  {
    if a > 0 { MulLess(rem, BASE, a); }
  }

  /** The checksum of a concatenation, by its parts. */
  lemma ConcatFold(u: seq<byte>, v: seq<byte>)
    ensures var s := Fold(Sums(1, 0), u); Fold(Sums(1, 0), u + v) == Fold(s, v) && Reduced(s) && Parts(Word(s)) == s
  {
    FoldConcat(Sums(1, 0), u, v);
    SumsFit(Sums(1, 0), u);
    WordParts(Fold(Sums(1, 0), u));
  }

  /**
   * `adler32_combine_`. From a checksum of `u` and one of `buf` it gives the checksum of the concatenation. The sums of
   * the first may even be unreduced, as long as the subtractions suffice: then the result is what `buf` makes of them.
   */
  method Combine(adler1: nat, adler2: nat, len2: int, noDivide: bool, ghost u: seq<byte>, ghost buf: seq<byte>)
      returns (r: nat)
    requires len2 < 0x8000_0000_0000_0000
    requires len2 >= 0 ==> len2 == |buf| && adler2 == Word(Fold(Sums(1, 0), buf))
    ensures len2 < 0 ==> r == 0xffff_ffff
    ensures len2 >= 0 ==> (r == Word(Fold(Reduce(Parts(adler1)), buf)) <==> Enough(Parts(adler1), buf))
    ensures len2 >= 0 && Reduced(Parts(adler1)) ==> r == Word(Fold(Parts(adler1), buf))
    ensures len2 >= 0 && adler1 == Word(Fold(Sums(1, 0), u)) ==> r == Word(Fold(Sums(1, 0), u + buf))
  {
    hide Fold, ShiftMod, ShiftMod63, Reduce, Reduced, Word, Enough;
    if len2 < 0 { return 0xffff_ffff; }
    ConcatFold(u, buf);
    ghost var t := Fold(Sums(1, 0), buf);
    SumsFit(Sums(1, 0), buf);
    ReducedSmall(t);
    WordParts(t);
    Mod63Is(len2);
    var rem := Mod63(noDivide, len2);
    var sum1 := adler1 % 65536;
    ProductSmall(rem, sum1);
    var sum2 := rem * sum1;
    ModIs(sum2);
    sum2 := Mod(noDivide, sum2);
    CombinedSums(Parts(adler1), buf);
    sum1 := sum1 + (adler2 % 65536 + BASE - 1);
    sum2 := sum2 + (adler1 / 65536 % 65536 + adler2 / 65536 % 65536 + BASE - rem);
    sum1 := Less(sum1);
    sum1 := Less(sum1);
    sum2 := LessTwice(sum2);
    sum2 := Less(sum2);
    r := Word(Sums(sum1, sum2));
  }

  /** Bytes all 255. */
  function Full(n: nat): (f: seq<byte>)
    ensures |f| == n
  {
    if n == 0 then [] else Full(n - 1) + [255]
  }

  lemma {:induction false} FullSum(a: nat, n: nat)
    ensures RawA(a, Full(n)) == a + 255 * n
  {
    if n > 0 { FullSum(a, n - 1); }
  }

  /** The subtractions do not suffice for a first sum of 65535 and the checksum of 256 bytes 255 and a byte 227. */
  lemma NotEnough()
    ensures !Enough(Parts(65535), Full(256) + [227])
  {
    hide Full;
    var buf := Full(256) + [227];
    FullSum(1, 256);
    assert buf[..|buf| - 1] == Full(256);
    FoldIsRaw(Sums(1, 0), buf);
  }
}
