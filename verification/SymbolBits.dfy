/**
 * Symbols as the bits of a block: codewords, and extra bits for what a length or a distance exceeds its base by
 * (section 3.2.5 of RFC 1951); and that decoding tables with these codewords read them back.
 */
module SymbolBits {
  import opened Arithmetic
  import opened Bytes
  import opened CanonicalCode
  import opened Lz77Symbols
  import opened LowBits
  import opened InflateFast
  import opened InflateCalls

  /** `lbase` and `lext`: the shortest length of each length code, and its extra bits. */
  const LENGTH_BASE: seq<nat> := [
    3, 4, 5, 6, 7, 8, 9, 10, 11, 13, 15, 17, 19, 23, 27, 31, 35, 43, 51, 59, 67, 83, 99, 115, 131, 163, 195,
    227, 258]
  const LENGTH_EXTRA: seq<nat> := [
    0, 0, 0, 0, 0, 0, 0, 0, 1, 1, 1, 1, 2, 2, 2, 2, 3, 3, 3, 3, 4, 4, 4, 4, 5, 5, 5, 5, 0]

  /** `dbase` and `dext`. */
  const DIST_BASE: seq<nat> := [
    1, 2, 3, 4, 5, 7, 9, 13, 17, 25, 33, 49, 65, 97, 129, 193, 257, 385, 513, 769, 1025, 1537, 2049, 3073,
    4097, 6145, 8193, 12289, 16385, 24577]
  const DIST_EXTRA: seq<nat> := [
    0, 0, 0, 0, 1, 1, 2, 2, 3, 3, 4, 4, 5, 5, 6, 6, 7, 7, 8, 8, 9, 9, 10, 10, 11, 11, 12, 12, 13, 13]

  /** The last code up to `k` whose base is not above `v`. */
  function CodeUpTo(base: seq<nat>, k: nat, v: nat): (r: nat)
    requires k < |base|
    ensures r <= k && (base[0] <= v ==> base[r] <= v) && (r < k ==> v < base[r + 1])
  {
    if k == 0 || base[k] <= v then k else CodeUpTo(base, k - 1, v)
  }

  function LengthCode(len: nat): (r: nat)
    ensures r < 29
  {
    CodeUpTo(LENGTH_BASE, 28, len)
  }

  function DistCode(dist: nat): (r: nat)
    ensures r < 30
  {
    CodeUpTo(DIST_BASE, 29, dist)
  }

  lemma SmallPowers()
    ensures Pow2(0) == 1 && Pow2(1) == 2 && Pow2(2) == 4 && Pow2(3) == 8 && Pow2(4) == 16 && Pow2(5) == 32
    ensures Pow2(6) == 64 && Pow2(7) == 128 && Pow2(8) == 256 && Pow2(9) == 512 && Pow2(10) == 1024
    ensures Pow2(11) == 2048 && Pow2(12) == 4096 && Pow2(13) == 8192
  {
    assert Pow2(2) == 4;
    assert Pow2(4) == 16;
    assert Pow2(6) == 64;
    assert Pow2(8) == 256;
    assert Pow2(10) == 1024;
    assert Pow2(12) == 4096;
  }

  /** The lengths of a code reach up to the next base, or up to 258. */
  lemma LengthSpan(k: nat)
    requires k < 29
    ensures LENGTH_EXTRA[k] <= 5 && LENGTH_BASE[k] + Pow2(LENGTH_EXTRA[k]) >= if k < 28 then LENGTH_BASE[k + 1] else 259
  {
    hide Pow2;
    SmallPowers();
  }

  lemma DistSpan(k: nat)
    requires k < 30
    ensures DIST_EXTRA[k] <= 13 && DIST_BASE[k] + Pow2(DIST_EXTRA[k]) >= if k < 29 then DIST_BASE[k + 1] else 32769
  {
    hide Pow2;
    SmallPowers();
  }

  /** What a length exceeds its base by fits the extra bits of its code. */
  lemma LengthFits(len: nat)
    requires 3 <= len <= 258
    ensures var k := LengthCode(len); LENGTH_BASE[k] <= len < LENGTH_BASE[k] + Pow2(LENGTH_EXTRA[k])
  {
    hide Pow2;
    LengthSpan(LengthCode(len));
  }

  lemma DistFits(dist: nat)
    requires 1 <= dist <= 32768
    ensures var k := DistCode(dist); DIST_BASE[k] <= dist < DIST_BASE[k] + Pow2(DIST_EXTRA[k])
  {
    hide Pow2;
    DistSpan(DistCode(dist));
  }

  // ----- the bits of a block -----

  /** Codewords: of literals, of the end of the block, of length codes and of distance codes. */
  datatype Coding = Coding(lits: map<byte, seq<bit>>, end: seq<bit>, lens: map<nat, seq<bit>>,
    dists: map<nat, seq<bit>>)

  /** The symbols of the alphabet that are used have codewords. */
  predicate Codable(c: Coding, s: Symbol) {
    match s
    case Literal(b) => b in c.lits
    case Match(dist, len) =>
      3 <= len <= 258 && 1 <= dist <= 32768 && LengthCode(len) in c.lens && DistCode(dist) in c.dists
  }

  /** The codeword of a length, and its extra bits, the lowest first. */
  function LengthBits(c: Coding, len: nat): seq<bit>
    requires 3 <= len <= 258 && LengthCode(len) in c.lens
  {
    var k := LengthCode(len);
    LengthFits(len);
    c.lens[k] + LowBitsOf(len - LENGTH_BASE[k], LENGTH_EXTRA[k])
  }

  function DistBits(c: Coding, dist: nat): seq<bit>
    requires 1 <= dist <= 32768 && DistCode(dist) in c.dists
  {
    var k := DistCode(dist);
    DistFits(dist);
    c.dists[k] + LowBitsOf(dist - DIST_BASE[k], DIST_EXTRA[k])
  }

  /** A literal is its codeword; a match is its length and then its distance. */
  function SymbolBits(c: Coding, s: Symbol): seq<bit>
    requires Codable(c, s)
  {
    match s
    case Literal(b) => c.lits[b]
    case Match(dist, len) => LengthBits(c, len) + DistBits(c, dist)
  }

  predicate AllCodable(c: Coding, syms: seq<Symbol>) {
    forall i | 0 <= i < |syms| :: Codable(c, syms[i])
  }

  /** The bits of the first `k` symbols. */
  function FirstBits(c: Coding, syms: seq<Symbol>, k: nat): seq<bit>
    requires AllCodable(c, syms) && k <= |syms|
  {
    if k == 0 then [] else FirstBits(c, syms, k - 1) + SymbolBits(c, syms[k - 1])
  }

  /** `compress_block`: all symbols, and the end of the block. */
  function BlockBits(c: Coding, syms: seq<Symbol>): seq<bit>
    requires AllCodable(c, syms)
  {
    FirstBits(c, syms, |syms|) + c.end
  }

  // ----- the tables -----

  /** The bits are the codeword of an entry with this operation and this value. */
  ghost predicate Stands(t: Table, w: seq<bit>, op: nat, val: nat, dist: bool)
    requires TableOk(t, dist)
  {
    var r := Short(t, w, dist);
    r.Found? && r.n == |w| && r.e.op == op && r.e.val == val
  }

  /**
   * A codeword that fits the first level: the entry at the index its bits make, the first bit lowest, which says how
   * long it is.
   */
  lemma RootStands(t: Table, w: seq<bit>, dist: bool)
    requires TableOk(t, dist) && |w| <= t.root && LowVal(w) < |t.codes|
    requires var e := t.codes[LowVal(w)]; e.bits == |w| && (e.op / 16 == 1 || e.op == 96 || (e.op == 0 && !dist))
    ensures Stands(t, w, t.codes[LowVal(w)].op, t.codes[LowVal(w)].val, dist)
  {
    hide TableOk, LowVal, Pow2;
    assert w[..|w|] == w && LowFirst(w, t.root) == LowVal(w);
  }

  /**
   * A longer codeword: its first bits lead to an entry whose operation is the number of bits that index the second
   * level, and the rest of it, counted from there, leads to its own entry.
   */
  lemma LinkStands(t: Table, w: seq<bit>, w2: seq<bit>, dist: bool)
    requires TableOk(t, dist) && |w| == t.root && LowVal(w) < |t.codes|
    requires var e := t.codes[LowVal(w)];
      && e.bits == |w| && 1 <= e.op <= 15 && |w2| <= e.op && e.val + LowVal(w2) < |t.codes|
      && t.codes[e.val + LowVal(w2)].bits == |w2|
    ensures var e := t.codes[t.codes[LowVal(w)].val + LowVal(w2)]; Stands(t, w + w2, e.op, e.val, dist)
  {
    hide TableOk, LowVal, Pow2, LeafOk;
    var s := w + w2;
    assert s[..t.root] == w && LowFirst(s, t.root) == LowVal(w);
    var e := t.codes[LowVal(w)];
    assert s[e.bits..] == w2 && w2[..|w2|] == w2 && LowFirst(w2, e.op) == LowVal(w2);
  }

  /** The tables have these codewords, and the bases and numbers of extra bits of the format. */
  ghost predicate Tabled(c: Coding, lens: Table, dists: Table)
    requires TableOk(lens, false) && TableOk(dists, true)
  {
    && (forall b | b in c.lits :: Stands(lens, c.lits[b], 0, b, false))
    && Stands(lens, c.end, 96, 0, false)
    && (forall k | k in c.lens :: k < 29 && Stands(lens, c.lens[k], 16 + LENGTH_EXTRA[k], LENGTH_BASE[k], false))
    && (forall k | k in c.dists :: k < 30 && Stands(dists, c.dists[k], 16 + DIST_EXTRA[k], DIST_BASE[k], true))
  }

  /** A codeword of an entry with `e` extra bits, and these, are read as its value and what they add to it. */
  lemma ExtraRead(t: Table, w: seq<bit>, e: nat, base: nat, x: nat, u: seq<bit>, dist: bool)
    requires TableOk(t, dist) && Stands(t, w, 16 + e, base, dist) && e <= (if dist then 13 else 5) && x < Pow2(e)
    ensures PieceOf(t, w + LowBitsOf(x, e) + u, dist) == Piece(Short(t, w, dist).e, base + x, |w| + e)
    ensures Has(16 + e, 16) && !Has(16 + e, 32) && 16 + e != 0
  {
    hide TableOk, Pow2, LowVal, LowBitsOf, Short, LeafOk;
    ShortMore(t, w, LowBitsOf(x, e) + u, dist);
    var s := w + LowBitsOf(x, e) + u;
    assert s == w + (LowBitsOf(x, e) + u);
    assert (16 + e) % 16 == e;
    assert s[|w|..|w| + e] == LowBitsOf(x, e);
    LowValOf(x, e);
  }

  /** A codeword without extra bits. */
  lemma PlainRead(t: Table, w: seq<bit>, op: nat, val: nat, u: seq<bit>, dist: bool)
    requires TableOk(t, dist) && Stands(t, w, op, val, dist) && !Has(op, 16)
    ensures PieceOf(t, w + u, dist) == Piece(Short(t, w, dist).e, 0, |w|)
  {
    hide TableOk, Pow2, Short, LeafOk;
    ShortMore(t, w, u, dist);
  }

  lemma LiteralRead(lens: Table, dists: Table, w: seq<bit>, b: byte, u: seq<bit>)
    requires TableOk(lens, false) && TableOk(dists, true) && Stands(lens, w, 0, b, false)
    ensures Next(lens, dists, w + u) == (Lit(b), |w|)
  {
    hide TableOk, PieceOf, Stands, Short;
    PlainRead(lens, w, 0, b, u, false);
    StandsFor(lens, w, 0, b, false);
  }

  /** A length and a distance, each a codeword and its extra bits, are one match, and no other bits are taken. */
  lemma MatchRead(lens: Table, dists: Table, w: seq<bit>, e: nat, base: nat, x: nat, w2: seq<bit>, e2: nat, base2: nat,
      x2: nat, u: seq<bit>)
    requires TableOk(lens, false) && TableOk(dists, true)
    requires Stands(lens, w, 16 + e, base, false) && e <= 5 && x < Pow2(e)
    requires Stands(dists, w2, 16 + e2, base2, true) && e2 <= 13 && x2 < Pow2(e2)
    ensures Next(lens, dists, (w + LowBitsOf(x, e)) + (w2 + LowBitsOf(x2, e2)) + u) ==
      (Copy(base2 + x2, base + x), |w| + e + |w2| + e2)
  {
    hide TableOk, PieceOf, Stands, Pow2, LowBitsOf, Short, Has;
    var a, b := w + LowBitsOf(x, e), w2 + LowBitsOf(x2, e2);
    assert a + b + u == a + (b + u);
    assert (a + (b + u))[|a|..] == b + u;
    ExtraRead(lens, w, e, base, x, b + u, false);
    ExtraRead(dists, w2, e2, base2, x2, u, true);
    StandsFor(lens, w, 16 + e, base, false);
    StandsFor(dists, w2, 16 + e2, base2, true);
  }

  lemma LengthParts(c: Coding, lens: Table, dists: Table, len: nat) returns (w: seq<bit>, e: nat, base: nat, x: nat)
    requires TableOk(lens, false) && TableOk(dists, true) && Tabled(c, lens, dists)
    requires 3 <= len <= 258 && LengthCode(len) in c.lens
    ensures Stands(lens, w, 16 + e, base, false) && e <= 5 && x < Pow2(e) && base + x == len
    ensures LengthBits(c, len) == w + LowBitsOf(x, e)
  {
    hide TableOk, Stands, Pow2, LowBitsOf, LengthCode;
    var k := LengthCode(len);
    LengthFits(len);
    LengthSpan(k);
    w, e, base, x := c.lens[k], LENGTH_EXTRA[k], LENGTH_BASE[k], len - LENGTH_BASE[k];
  }

  lemma DistParts(c: Coding, lens: Table, dists: Table, dist: nat) returns (w: seq<bit>, e: nat, base: nat, x: nat)
    requires TableOk(lens, false) && TableOk(dists, true) && Tabled(c, lens, dists)
    requires 1 <= dist <= 32768 && DistCode(dist) in c.dists
    ensures Stands(dists, w, 16 + e, base, true) && e <= 13 && x < Pow2(e) && base + x == dist
    ensures DistBits(c, dist) == w + LowBitsOf(x, e)
  {
    hide TableOk, Stands, Pow2, LowBitsOf, DistCode;
    var k := DistCode(dist);
    DistFits(dist);
    DistSpan(k);
    w, e, base, x := c.dists[k], DIST_EXTRA[k], DIST_BASE[k], dist - DIST_BASE[k];
  }

  /** A symbol is read back from its bits, whatever follows, and takes these bits only. */
  lemma SymbolRead(c: Coding, lens: Table, dists: Table, s: Symbol, u: seq<bit>)
    requires TableOk(lens, false) && TableOk(dists, true) && Tabled(c, lens, dists) && Codable(c, s)
    ensures Next(lens, dists, SymbolBits(c, s) + u) ==
      (match s case Literal(b) => Lit(b) case Match(dist, len) => Copy(dist, len), |SymbolBits(c, s)|)
  {
    hide TableOk, Next, Stands, Tabled, Pow2, LowBitsOf, LengthCode, DistCode, LengthBits, DistBits;
    match s
    case Literal(b) =>
      LiteralStands(c, lens, dists, b);
      LiteralRead(lens, dists, c.lits[b], b, u);
    case Match(dist, len) =>
      var w, e, base, x := LengthParts(c, lens, dists, len);
      var w2, e2, base2, x2 := DistParts(c, lens, dists, dist);
      MatchRead(lens, dists, w, e, base, x, w2, e2, base2, x2, u);
  }

  lemma LiteralStands(c: Coding, lens: Table, dists: Table, b: byte)
    requires TableOk(lens, false) && TableOk(dists, true) && Tabled(c, lens, dists) && b in c.lits
    ensures Stands(lens, c.lits[b], 0, b, false)
  {
    hide TableOk, Stands;
  }

  lemma StandsFor(t: Table, w: seq<bit>, op: nat, val: nat, dist: bool)
    requires TableOk(t, dist) && Stands(t, w, op, val, dist)
    ensures Short(t, w, dist).Found? && Short(t, w, dist).e.op == op && Short(t, w, dist).e.val == val
  {
    hide TableOk, Short;
  }

  lemma {:induction false} FirstWithin(c: Coding, syms: seq<Symbol>, k: nat, n: nat)
    requires AllCodable(c, syms) && k <= n <= |syms|
    ensures FirstBits(c, syms, k) <= FirstBits(c, syms, n)
    decreases n
  {
    hide SymbolBits, Codable;
    if k < n { FirstWithin(c, syms, k, n - 1); }
  }

  /** Symbol `k` stands in the block after those before it. */
  lemma SymbolStands(c: Coding, syms: seq<Symbol>, k: nat, tail: seq<bit>) returns (u: seq<bit>)
    requires AllCodable(c, syms) && k < |syms|
    ensures |FirstBits(c, syms, k)| <= |BlockBits(c, syms) + tail|
    ensures (BlockBits(c, syms) + tail)[|FirstBits(c, syms, k)|..] == SymbolBits(c, syms[k]) + u
  {
    hide SymbolBits, Codable;
    var s, p, q := BlockBits(c, syms) + tail, |FirstBits(c, syms, k)|, |FirstBits(c, syms, k + 1)|;
    FirstWithin(c, syms, k + 1, |syms|);
    assert s[..q] == FirstBits(c, syms, k + 1);
    u := s[q..];
    assert s[p..q] == SymbolBits(c, syms[k]);
  }

  lemma NoBits(c: Coding, syms: seq<Symbol>)
    requires AllCodable(c, syms)
    ensures FirstBits(c, syms, 0) == []
  {
  }

  lemma OneMore(c: Coding, syms: seq<Symbol>, k: nat)
    requires AllCodable(c, syms) && 0 < k <= |syms|
    ensures |FirstBits(c, syms, k)| == |FirstBits(c, syms, k - 1)| + |SymbolBits(c, syms[k - 1])|
  {
    hide SymbolBits, Codable;
  }

  lemma {:induction false} AfterBits(c: Coding, lens: Table, dists: Table, syms: seq<Symbol>, tail: seq<bit>, k: nat)
    requires TableOk(lens, false) && TableOk(dists, true) && Tabled(c, lens, dists) && AllCodable(c, syms)
    requires k <= |syms|
    ensures After(lens, dists, BlockBits(c, syms) + tail, 0, k) == |FirstBits(c, syms, k)|
  {
    hide TableOk, Tabled, SymbolBits, Next, BlockBits, FirstBits, Codable;
    if k == 0 {
      NoBits(c, syms);
    } else {
      AfterBits(c, lens, dists, syms, tail, k - 1);
      var u := SymbolStands(c, syms, k - 1, tail);
      SymbolRead(c, lens, dists, syms[k - 1], u);
      OneMore(c, syms, k);
    }
  }

  /**
   * The bits of a block carry its symbols and then the end of the block, whatever follows. With `CallsRestore`, what
   * was tallied for an input is written as bits from which the calls restore the input.
   */
  lemma BitsCarry(c: Coding, lens: Table, dists: Table, syms: seq<Symbol>, tail: seq<bit>)
    requires TableOk(lens, false) && TableOk(dists, true) && Tabled(c, lens, dists) && AllCodable(c, syms)
    ensures CarriesAll(lens, dists, BlockBits(c, syms) + tail, syms)
  {
    hide TableOk, Tabled, SymbolBits, Next, BlockBits, Stands, Codable;
    var s := BlockBits(c, syms) + tail;
    forall j | 0 <= j < |syms| ensures Same(Next(lens, dists, s[After(lens, dists, s, 0, j)..]).0, syms[j]) {
      AfterBits(c, lens, dists, syms, tail, j);
      var u := SymbolStands(c, syms, j, tail);
      SymbolRead(c, lens, dists, syms[j], u);
    }
    AfterBits(c, lens, dists, syms, tail, |syms|);
    EndRead(c, lens, dists, syms, tail);
  }

  lemma EndRead(c: Coding, lens: Table, dists: Table, syms: seq<Symbol>, tail: seq<bit>)
    requires TableOk(lens, false) && TableOk(dists, true) && Tabled(c, lens, dists) && AllCodable(c, syms)
    ensures Next(lens, dists, (BlockBits(c, syms) + tail)[|FirstBits(c, syms, |syms|)|..]).0 == EndOfBlock
  {
    hide TableOk, FirstBits, PieceOf, Stands, Short;
    assert (BlockBits(c, syms) + tail)[|FirstBits(c, syms, |syms|)|..] == c.end + tail;
    PlainRead(lens, c.end, 96, 0, tail, false);
    StandsFor(lens, c.end, 96, 0, false);
  }
}
