/** inflate_fast: the bit buffer, the decoding tables, and the loop over literals and matches. */
module InflateFast {
  import opened Arithmetic
  import opened Bytes
  import opened CanonicalCode
  import opened Lz77Symbols
  import opened LowBits
  import opened InflateWindow

  // ----- decoding tables, as inflate_table leaves them -----

  datatype Code = Code(op: nat, bits: nat, val: nat)
  datatype Table = Table(codes: seq<Code>, root: nat)

  /** `op & b`. */
  predicate Has(op: nat, b: nat)
    requires b > 0
  {
    op / b % 2 == 1
  }

  /** `op & 15`. */
  function ExtraBits(op: nat): nat {
    op % 16
  }

  /** The entry leads to a second-level table. An operation of zero is a literal in the length table. */
  predicate Link(op: nat, dist: bool) {
    !Has(op, 16) && !Has(op, 64) && (op != 0 || dist)
  }

  /**
   * A literal, a base with extra bits, the end of the block, or no code. Lengths are 3..258 with at most 5 extra bits,
   * distances 1..32768 with at most 13; the codeword takes no more than `room` bits.
   */
  ghost predicate LeafOk(e: Code, room: nat, dist: bool) {
    && e.bits <= room && !Link(e.op, dist) && (e.op == 0 || e.op / 16 == 1 || e.op == 64 || e.op == 96)
    && (Has(e.op, 16) ==>
          if dist then ExtraBits(e.op) <= 13 && 1 <= e.val && e.val + Pow2(ExtraBits(e.op)) <= 32769
          else ExtraBits(e.op) <= 5 && MIN_MATCH <= e.val && e.val + Pow2(ExtraBits(e.op)) <= MAX_MATCH + 1)
  }

  ghost predicate SubOk(t: Table, e: Code, j: nat, dist: bool) {
    e.val + j < |t.codes| && e.bits <= 15 && LeafOk(t.codes[e.val + j], 15 - e.bits, dist)
  }

  /** Two numbers have their lowest `n` bits in common. */
  predicate Agree(i: nat, j: nat, n: nat) {
    i % Pow2(n) == j % Pow2(n)
  }

  /** If place `j` begins with the codeword of the entry at place `i`, the entry stands there too. */
  ghost predicate Again(codes: seq<Code>, at: nat, i: nat, j: nat) {
    at + i < |codes| && at + j < |codes| && (Agree(i, j, codes[at + i].bits) ==> codes[at + j] == codes[at + i])
  }

  /** An entry stands at all places that begin with its codeword. */
  ghost predicate Repeated(codes: seq<Code>, at: nat, width: nat) {
    at + Pow2(width) <= |codes| && forall i: nat, j: nat | i < Pow2(width) && j < Pow2(width) :: Again(codes, at, i, j)
  }

  ghost predicate EntryOk(t: Table, e: Code, dist: bool) {
    if Link(e.op, dist) then
      e.bits + e.op <= 15 && (forall j: nat | j < Pow2(e.op) :: SubOk(t, e, j, dist)) && Repeated(t.codes, e.val, e.op)
    else LeafOk(e, 15, dist)
  }

  ghost predicate TableOk(t: Table, dist: bool) {
    && t.root <= 15 && Pow2(t.root) <= |t.codes| && (forall i: nat | i < Pow2(t.root) :: EntryOk(t, t.codes[i], dist))
    && Repeated(t.codes, 0, t.root)
  }

  lemma EntryFits(t: Table, i: nat, dist: bool)
    requires TableOk(t, dist) && i < Pow2(t.root)
    ensures i < |t.codes| && EntryOk(t, t.codes[i], dist)
  {
    hide Pow2, EntryOk;
  }

  lemma SubFits(t: Table, e: Code, j: nat, dist: bool)
    requires EntryOk(t, e, dist) && Link(e.op, dist) && j < Pow2(e.op)
    ensures e.val + j < |t.codes| && LeafOk(t.codes[e.val + j], 15, dist) && e.bits + t.codes[e.val + j].bits <= 15
  {
    hide Pow2, Link, Has;
    assert SubOk(t, e, j, dist);
  }

  /** The entry for the bits that come next, and the length of its codeword. */
  ghost function Lookup(t: Table, s: seq<bit>, dist: bool): (r: (Code, nat))
    requires TableOk(t, dist) && |s| >= 15
    ensures r.1 <= 15 && LeafOk(r.0, 15, dist)
  {
    LowValBound(s[..t.root]);
    EntryFits(t, LowVal(s[..t.root]), dist);
    var e := t.codes[LowVal(s[..t.root])];
    if Link(e.op, dist) then
      LowValBound(s[e.bits..e.bits + e.op]);
      SubFits(t, e, LowVal(s[e.bits..e.bits + e.op]), dist);
      var e2 := t.codes[e.val + LowVal(s[e.bits..e.bits + e.op])];
      (e2, e.bits + e2.bits)
    else (e, e.bits)
  }

  // ----- a codeword in bits that may be too few -----

  /** The first `n` bits, or all if there are fewer; those that are missing count as zeros. */
  ghost function LowFirst(s: seq<bit>, n: nat): (v: nat)
    ensures v < Pow2(n)
  {
    var m := if |s| < n then |s| else n;
    LowValBound(s[..m]);
    PowGrows(m, n);
    LowVal(s[..m])
  }

  datatype Found = Missing | Found(e: Code, n: nat)

  /** The entry for the bits that come next, if there are enough of them to tell. */
  ghost function Short(t: Table, s: seq<bit>, dist: bool): (r: Found)
    requires TableOk(t, dist)
    ensures r.Found? ==> r.n <= |s| && r.n <= 15 && LeafOk(r.e, 15, dist)
  {
    EntryFits(t, LowFirst(s, t.root), dist);
    var e := t.codes[LowFirst(s, t.root)];
    if e.bits > |s| then Missing
    else if Link(e.op, dist) then
      var j := LowFirst(s[e.bits..], e.op);
      SubFits(t, e, j, dist);
      var e2 := t.codes[e.val + j];
      if e.bits + e2.bits > |s| then Missing else Found(e2, e.bits + e2.bits)
    else Found(e, e.bits)
  }

  lemma {:induction false} PowGrows(a: nat, b: nat)
    requires a <= b
    ensures Pow2(a) <= Pow2(b)
    decreases b - a
  {
    if a < b { PowGrows(a, b - 1); }
  }

  /** With bits enough for any codeword it is the entry of the tables. */
  lemma ShortIs(t: Table, s: seq<bit>, dist: bool)
    requires TableOk(t, dist) && |s| >= 15
    ensures Short(t, s, dist) == Found(Lookup(t, s, dist).0, Lookup(t, s, dist).1)
  {
    hide LowVal, Pow2;
    LowValBound(s[..t.root]);
    var e := t.codes[LowVal(s[..t.root])];
    assert EntryOk(t, e, dist);
    if Link(e.op, dist) {
      LowValBound(s[e.bits..e.bits + e.op]);
      assert s[e.bits..][..e.op] == s[e.bits..e.bits + e.op];
      assert SubOk(t, e, LowVal(s[e.bits..e.bits + e.op]), dist);
    }
  }

  /** More bits change only what the missing ones were taken for. */
  lemma LowFirstAgrees(s: seq<bit>, u: seq<bit>, n: nat, m: nat)
    requires m <= |s|
    ensures Agree(LowFirst(s, n), LowFirst(s + u, n), m)
  {
    hide LowVal, Pow2;
    var a, b := if |s| < n then |s| else n, if |s + u| < n then |s + u| else n;
    var x, y := s[..a], (s + u)[..b];
    if m <= a {
      LowValSplit(x, m);
      LowValSplit(y, m);
      assert x[..m] == y[..m];
    } else {
      assert x == y;
    }
  }

  lemma EntryAgain(codes: seq<Code>, at: nat, width: nat, i: nat, j: nat)
    requires Repeated(codes, at, width) && i < Pow2(width) && j < Pow2(width)
    requires Agree(i, j, codes[at + i].bits) || Agree(i, j, codes[at + j].bits)
    ensures codes[at + i] == codes[at + j]
  {
    hide Pow2;
    assert Again(codes, at, i, j) && Again(codes, at, j, i);
  }

  /** What has been told by some bits more bits tell too, and what is told with no more bits than these. */
  lemma ShortMore(t: Table, s: seq<bit>, u: seq<bit>, dist: bool)
    requires TableOk(t, dist)
    ensures Short(t, s, dist).Found? ==> Short(t, s + u, dist) == Short(t, s, dist)
    ensures var r := Short(t, s + u, dist); r.Found? && r.n <= |s| ==> Short(t, s, dist) == r
  {
    hide LowVal, Pow2, Agree, Repeated, LeafOk, LowFirst;
    var i, j := LowFirst(s, t.root), LowFirst(s + u, t.root);
    var e, f := t.codes[i], t.codes[j];
    assert EntryOk(t, e, dist) && EntryOk(t, f, dist);
    if e.bits <= |s| || f.bits <= |s| {
      LowFirstAgrees(s, u, t.root, if e.bits <= |s| then e.bits else f.bits);
      EntryAgain(t.codes, 0, t.root, i, j);
      assert (s + u)[e.bits..] == s[e.bits..] + u;
      if Link(e.op, dist) {
        var k, l := LowFirst(s[e.bits..], e.op), LowFirst(s[e.bits..] + u, e.op);
        assert SubOk(t, e, k, dist) && SubOk(t, e, l, dist);
        var e2, f2 := t.codes[e.val + k], t.codes[e.val + l];
        if e.bits + e2.bits <= |s| || e.bits + f2.bits <= |s| {
          LowFirstAgrees(s[e.bits..], u, e.op, if e.bits + e2.bits <= |s| then e2.bits else f2.bits);
          EntryAgain(t.codes, e.val, e.op, k, l);
        }
      }
    }
  }

  // ----- what comes next in the stream -----

  datatype Item = Lit(b: byte) | Copy(dist: nat, len: nat) | EndOfBlock | BadCode | TooFewBits

  /** A codeword with its extra bits: the entry, the value they make, and how many bits they are. */
  datatype Piece = NoPiece | Piece(e: Code, v: nat, n: nat)

  lemma PieceInRange(e: Code, v: nat, dist: bool)
    requires LeafOk(e, 15, dist) && Has(e.op, 16) && v < Pow2(ExtraBits(e.op))
    ensures ExtraBits(e.op) <= if dist then 13 else 5
    ensures if dist then 1 <= e.val + v <= 32768 else MIN_MATCH <= e.val + v <= MAX_MATCH
  {
    hide Pow2, Link;
  }

  ghost function PieceOf(t: Table, s: seq<bit>, dist: bool): (r: Piece)
    requires TableOk(t, dist)
    ensures r.Piece? ==> r.n <= |s| && LeafOk(r.e, 15, dist) && r.n <= if dist then 28 else 20
    ensures r.Piece? && Has(r.e.op, 16) ==> if dist then 1 <= r.v <= 32768 else MIN_MATCH <= r.v <= MAX_MATCH
  {
    match Short(t, s, dist)
    case Missing => NoPiece
    case Found(e, n) =>
      if Has(e.op, 16) then
        if |s| < n + ExtraBits(e.op) then NoPiece
        else
          LowValBound(s[n..n + ExtraBits(e.op)]);
          PieceInRange(e, LowVal(s[n..n + ExtraBits(e.op)]), dist);
          Piece(e, e.val + LowVal(s[n..n + ExtraBits(e.op)]), n + ExtraBits(e.op))
      else Piece(e, 0, n)
  }

  /** The next literal, match or mark (sections 3.2.3 and 3.2.5 of RFC 1951), and the bits it takes. */
  ghost function Next(lens: Table, dists: Table, s: seq<bit>): (r: (Item, nat))
    requires TableOk(lens, false) && TableOk(dists, true)
    ensures r.1 <= 48 && r.1 <= |s|
    ensures r.0.Copy? ==> MIN_MATCH <= r.0.len <= MAX_MATCH && 1 <= r.0.dist <= 32768
  {
    match PieceOf(lens, s, false)
    case NoPiece => (TooFewBits, 0)
    case Piece(h, len, n) =>
      if h.op == 0 then (Lit((h.val % 256) as byte), n)
      else if Has(h.op, 16) then
        match PieceOf(dists, s[n..], true)
        case NoPiece => (TooFewBits, 0)
        case Piece(d, dist, m) => if Has(d.op, 16) then (Copy(dist, len), n + m) else (BadCode, n + m)
      else if Has(h.op, 32) then (EndOfBlock, n)
      else (BadCode, n)
  }

  /** Position in the stream after `k` items from `c` on. */
  ghost function After(lens: Table, dists: Table, stream: seq<bit>, c: nat, k: nat): (p: nat)
    requires TableOk(lens, false) && TableOk(dists, true) && c <= |stream|
    ensures p <= |stream|
  {
    if k == 0 then c
    else
      var q := After(lens, dists, stream, c, k - 1);
      q + Next(lens, dists, stream[q..]).1
  }

  /** The history after `k` items: every match appends bytes that lie its distance back. */
  ghost function Played(lens: Table, dists: Table, stream: seq<bit>, c: nat, h: seq<byte>, k: nat): seq<byte>
    requires TableOk(lens, false) && TableOk(dists, true) && c <= |stream|
  {
    if k == 0 then h
    else
      var g := Played(lens, dists, stream, c, h, k - 1);
      match Next(lens, dists, stream[After(lens, dists, stream, c, k - 1)..]).0
      case Lit(b) => g + [b]
      case Copy(dist, len) => if 1 <= dist <= |g| then CopyBack(g, dist, len) else g
      case _ => g
  }

  /** The first `k` items are literals, and matches that reach back no further than the history. */
  ghost predicate Playable(lens: Table, dists: Table, stream: seq<bit>, c: nat, h: seq<byte>, k: nat)
    requires TableOk(lens, false) && TableOk(dists, true) && c <= |stream|
  {
    k > 0 ==>
      && Playable(lens, dists, stream, c, h, k - 1)
      && var i := Next(lens, dists, stream[After(lens, dists, stream, c, k - 1)..]).0;
       i.Lit? || (i.Copy? && 1 <= i.dist <= |Played(lens, dists, stream, c, h, k - 1)|)
  }

  // ----- the bit buffer -----

  lemma PowEightLow()
    ensures Pow2(8) == 256
  {
    assert Pow2(4) == 16;
  }

  lemma HoldMore(stream: seq<bit>, c: nat, bits: nat, hold: nat, b: byte)
    requires c + bits + 8 <= |stream| && hold == LowVal(stream[c..c + bits])
      && stream[c + bits..c + bits + 8] == LowBitsOf(b, 8)
    ensures hold + b * Pow2(bits) == LowVal(stream[c..c + bits + 8])
  {
    hide LowVal, Pow2, LowBitsOf;
    assert stream[c..c + bits + 8] == stream[c..c + bits] + stream[c + bits..c + bits + 8];
    LowValConcat(stream[c..c + bits], LowBitsOf(b, 8));
    PowEightLow();
    LowValOf(b, 8);
  }

  lemma HoldLess(stream: seq<bit>, c: nat, bits: nat, hold: nat, n: nat)
    requires c + bits <= |stream| && n <= bits && hold == LowVal(stream[c..c + bits])
    ensures hold % Pow2(n) == LowVal(stream[c..][..n]) && hold / Pow2(n) == LowVal(stream[c + n..c + n + (bits - n)])
  {
    hide LowVal, Pow2;
    LowValSplit(stream[c..c + bits], n);
    assert stream[c..c + bits][..n] == stream[c..][..n];
    assert stream[c..c + bits][n..] == stream[c + n..c + n + (bits - n)];
  }

  lemma RootFits(t: Table, dist: bool)
    requires TableOk(t, dist)
    ensures t.root <= 15
  {
  }

  lemma LeafFits(e: Code, room: nat, dist: bool)
    ensures LeafOk(e, room, dist) ==> e.bits <= room && !Link(e.op, dist)
  {
  }

  /** The entry of the first level: found, or a link. */
  lemma FirstLevel(t: Table, s: seq<bit>, dist: bool, i: nat)
    requires TableOk(t, dist) && |s| >= 15 && i == LowVal(s[..t.root])
    ensures i < |t.codes|
    ensures var e := t.codes[i];
            if Link(e.op, dist) then e.bits + e.op <= 15 else e.bits <= 15 && Lookup(t, s, dist) == (e, e.bits)
  {
    hide LowVal, Pow2, LeafOk, SubOk, Link;
    LowValBound(s[..t.root]);
    assert EntryOk(t, t.codes[i], dist);
    LeafFits(t.codes[i], 15, dist);
  }

  /** The entry of the second level. */
  lemma SecondLevel(t: Table, s: seq<bit>, dist: bool, i: nat, j: nat)
    requires TableOk(t, dist) && |s| >= 15 && i == LowVal(s[..t.root]) && i < |t.codes| && Link(t.codes[i].op, dist)
    requires t.codes[i].bits + t.codes[i].op <= 15 && j == LowVal(s[t.codes[i].bits..][..t.codes[i].op])
    ensures var e := t.codes[i];
            && e.val + j < |t.codes| && !Link(t.codes[e.val + j].op, dist) && e.bits + t.codes[e.val + j].bits <= 15
            && Lookup(t, s, dist) == (t.codes[e.val + j], e.bits + t.codes[e.val + j].bits)
  {
    hide LowVal, Pow2, LeafOk, Link;
    var e := t.codes[i];
    assert s[e.bits..][..e.op] == s[e.bits..e.bits + e.op];
    LowValBound(s[..t.root]);
    LowValBound(s[e.bits..e.bits + e.op]);
    assert EntryOk(t, e, dist);
    assert SubOk(t, e, j, dist);
    LeafFits(t.codes[e.val + j], 15 - e.bits, dist);
  }

  lemma SmallMod(x: nat, m: nat)
    requires x < m
    ensures x % m == x
  {
  }

  lemma {:induction false} LowBitsAgain(s: seq<bit>)
    ensures LowBitsOf(LowVal(s), |s|) == s
  {
    if s != [] { LowBitsAgain(s[1..]); }
  }

  class Inflater {
    const input: seq<byte>
    const lens: Table
    const dists: Table
    var inPos: nat
    var hold: nat
    var bits: nat
    ghost const before: seq<bit> // in the bit buffer at the start
    ghost var consumed: nat

    /** All the bits there are: those in the buffer at the start, and the input's. */
    ghost function Stream(): (s: seq<bit>)
      ensures |s| == |before| + 8 * |input|
    {
      before + BytesLow(input)
    }

    /**
     * What is fetched is consumed or in the buffer; the buffer never has more than 30 bits, so it fits a word of 32.
     */
    ghost predicate Valid()
      reads `inPos, `hold, `bits, `consumed
    {
      && |before| <= 30 && bits <= 30 && inPos <= |input| && consumed + bits == |before| + 8 * inPos
      && hold == LowVal(Stream()[consumed..consumed + bits])
      && TableOk(lens, false) && TableOk(dists, true)
    }

    constructor (data: seq<byte>, l: Table, d: Table, h: nat, b: nat)
      requires b <= 30 && h < Pow2(b) && TableOk(l, false) && TableOk(d, true)
      ensures Valid() && input == data && lens == l && dists == d && before == LowBitsOf(h, b) && consumed == 0
        && inPos == 0 && bits == b
    {
      input, lens, dists, inPos, hold, bits := data, l, d, 0, h, b;
      before, consumed := LowBitsOf(h, b), 0;
      new;
      LowValOf(h, b);
      assert Stream()[0..0 + b] == before;
    }

    /** The bits not yet consumed. */
    ghost function Unread(): seq<bit>
      requires consumed <= |Stream()|
      reads `consumed
    {
      Stream()[consumed..]
    }

    /** The bits in the buffer. */
    ghost function Buffer(): (s: seq<bit>)
      requires consumed + bits <= |Stream()|
      ensures |s| == bits
      reads `consumed, `bits
    {
      Stream()[consumed..consumed + bits]
    }

    /** Bits fetched, in the buffer, consumed and unread. */
    lemma Accounts()
      requires Valid()
      ensures consumed + bits == |before| + 8 * inPos && inPos <= |input| && consumed <= |Stream()|
        && |Unread()| == |before| + 8 * |input| - consumed
      ensures TableOk(lens, false) && TableOk(dists, true)
    {
      hide TableOk, LowVal;
    }

    /** What is in the buffer is unread, and is all that is unread once the input is used up. */
    lemma BufferIs()
      requires Valid()
      ensures bits <= 30 && consumed + bits <= |Stream()| && bits <= |Unread()| && Unread()[..bits] == Buffer()
      ensures inPos <= |input| && (inPos == |input| ==> Unread() == Buffer())
    {
      hide TableOk, LowVal;
    }

    lemma ByteInStream(i: nat)
      requires i < |input|
      ensures Stream()[|before| + 8 * i..|before| + 8 * i + 8] == LowBitsOf(input[i], 8)
    {
      hide BytesLow, LowBitsOf;
      ByteAtBits(input, i);
      assert Stream()[|before| + 8 * i..|before| + 8 * i + 8] == BytesLow(input)[8 * i..8 * i + 8];
    }

    /** A byte of input into the bit buffer. */
    method Fetch()
      requires Valid() && inPos < |input| && bits <= 22
      modifies `inPos, `hold, `bits
      ensures Valid() && inPos == old(inPos) + 1 && bits == old(bits) + 8
    {
      hide LowVal, Pow2, LowBitsOf, BytesLow, TableOk;
      ByteAtBits(input, inPos);
      ByteInStream(inPos);
      HoldMore(Stream(), consumed, bits, hold, input[inPos]);
      hold := hold + input[inPos] * Pow2(bits);
      inPos := inPos + 1;
      bits := bits + 8;
    }

    /** The lowest `n` bits of the buffer. */
    method Peek(n: nat) returns (v: nat)
      requires Valid() && n <= bits
      ensures v == LowVal(Unread()[..n]) < Pow2(n)
    {
      hide LowVal, Pow2, TableOk;
      HoldLess(Stream(), consumed, bits, hold, n);
      LowValBound(Unread()[..n]);
      v := hold % Pow2(n);
    }

    /** `BITS`: the lowest `n` bits of the buffer; where it has fewer they are zeros. */
    method PeekShort(n: nat) returns (v: nat)
      requires Valid()
      ensures consumed + bits <= |Stream()| && v == LowFirst(Buffer(), n)
    {
      hide LowVal, Pow2, TableOk;
      if n <= bits {
        HoldLess(Stream(), consumed, bits, hold, n);
        assert Unread()[..n] == Buffer()[..n];
      } else {
        LowValBound(Buffer());
        PowGrows(bits, n);
        SmallMod(hold, Pow2(n));
        assert Buffer()[..bits] == Buffer();
      }
      v := hold % Pow2(n);
    }

    method Drop(n: nat)
      requires Valid() && n <= bits
      modifies `hold, `bits, `consumed
      ensures Valid() && consumed == old(consumed) + n && bits == old(bits) - n && Unread() == old(Unread())[n..]
    {
      hide LowVal, Pow2, TableOk, Stream;
      HoldLess(Stream(), consumed, bits, hold, n);
      hold := hold / Pow2(n);
      bits := bits - n;
      consumed := consumed + n;
    }

    /** Two levels of a decoding table: the entry whose codeword comes next. */
    method Decode(t: Table, dist: bool) returns (here: Code)
      requires Valid() && bits >= 15 && TableOk(t, dist)
      modifies `hold, `bits, `consumed
      ensures Valid() && |old(Unread())| >= 15
      ensures var (e, n) := Lookup(t, old(Unread()), dist);
        here == e && n <= old(bits) && consumed == old(consumed) + n && bits == old(bits) - n
      ensures Unread() == old(Unread())[consumed - old(consumed)..]
    {
      hide LowVal, Pow2, Stream, Valid, Lookup, LeafOk, Link, TableOk, SubOk, Unread;
      Accounts();
      ghost var s := Unread();
      RootFits(t, dist);
      var i := Peek(t.root);
      FirstLevel(t, s, dist, i);
      here := t.codes[i];
      ghost var first := here;
      ghost var level := 0;
      Drop(here.bits);
      while Link(here.op, dist)
        invariant Valid() && 0 <= level <= 1 && consumed >= old(consumed) && consumed <= |Stream()|
        invariant Unread() == s[consumed - old(consumed)..] && bits == old(bits) - (consumed - old(consumed))
        invariant level == 0 ==> here == first && consumed == old(consumed) + here.bits
        invariant level == 1 ==> !Link(here.op, dist) && Link(first.op, dist)
        invariant level == 1 ==> (here, consumed - old(consumed)) == Lookup(t, s, dist)
        decreases 1 - level
      {
        var j := Peek(here.op);
        SecondLevel(t, s, dist, i, j);
        here := t.codes[here.val + j];
        Drop(here.bits);
        Accounts();
        level := 1;
      }
    }

    lemma StreamFrom(i: nat)
      requires i <= |input|
      ensures Stream()[|before| + 8 * i..] == BytesLow(input[i..])
    {
      hide BytesLow;
      BytesAfter(input, i);
      assert Stream()[|before| + 8 * i..] == BytesLow(input)[8 * i..];
    }

    /** What is unread lies in the buffer and in the rest of the input. */
    lemma UnreadParts()
      requires Valid()
      ensures consumed <= |Stream()| && Unread() == LowBitsOf(hold, bits) + BytesLow(input[inPos..])
    {
      hide LowVal, Pow2, TableOk, LowBitsOf, BytesLow, Stream;
      LowBitsAgain(Stream()[consumed..consumed + bits]);
      StreamFrom(inPos);
      assert Stream()[consumed..] == Stream()[consumed..consumed + bits] + Stream()[consumed + bits..];
    }

    /** Whole bytes left in the buffer go back to the input. */
    method GiveBack()
      requires Valid() && bits / 8 <= inPos
      modifies `inPos, `hold, `bits
      ensures Valid() && bits < 8 && Unread() == old(Unread()) == LowBitsOf(hold, bits) + BytesLow(input[inPos..])
    {
      hide LowVal, Pow2, TableOk, LowBitsOf, BytesLow, Stream;
      var len := bits / 8;
      HoldLess(Stream(), consumed, bits, hold, bits - 8 * len);
      inPos := inPos - len;
      bits := bits - 8 * len;
      hold := hold % Pow2(bits);
      assert Stream()[consumed..][..bits] == Stream()[consumed..consumed + bits];
      UnreadParts();
    }
  }

  // ----- the loop -----

  datatype Mode = LEN | LENEXT | DIST | DISTEXT | MATCH | LIT | TYPE | BAD

  /** What an item does to the history, and the mode it leaves. */
  ghost predicate Performs(i: Item, h: seq<byte>, mode: Mode, h': seq<byte>) {
    match i
    case Lit(b) => mode == LEN && h' == h + [b]
    case Copy(dist, len) =>
      if 1 <= dist <= |h| then mode == LEN && h' == CopyBack(h, dist, len) else mode == BAD && h' == h
    case EndOfBlock => mode == TYPE && h' == h
    case BadCode => mode == BAD && h' == h
    case TooFewBits => false
  }

  /** Bits for one more codeword. */
  method Refill(z: Inflater)
    requires z.Valid() && (z.bits < 15 ==> z.inPos + 2 <= |z.input|)
    modifies z`inPos, z`hold, z`bits
    ensures z.Valid() && z.bits >= 15 && (old(z.bits) >= 15 ==> z.bits == old(z.bits) && z.inPos == old(z.inPos))
    ensures old(z.bits) < 15 ==> z.bits == old(z.bits) + 16 && z.inPos == old(z.inPos) + 2
  {
    if z.bits < 15 {
      z.Fetch();
      z.Fetch();
    }
  }

  /** `op` extra bits, fetching what is missing. */
  method Extra(z: Inflater, op: nat) returns (v: nat)
    requires z.Valid() && op <= 13 && op <= z.bits + 16 && (op > z.bits ==> 8 * z.inPos + op - z.bits <= 8 * |z.input|)
    modifies z`inPos, z`hold, z`bits, z`consumed
    ensures z.Valid() && op <= |old(z.Unread())| && v == LowVal(old(z.Unread())[..op])
    ensures z.consumed == old(z.consumed) + op && z.Unread() == old(z.Unread())[op..]
    ensures z.inPos == old(z.inPos) + if old(z.bits) >= op then 0 else if old(z.bits) + 8 >= op then 1 else 2
    ensures z.bits == old(z.bits) + 8 * (z.inPos - old(z.inPos)) - op
  {
    hide TableOk, LowVal;
    if z.bits < op {
      z.Fetch();
      if z.bits < op { z.Fetch(); }
    }
    v := z.Peek(op);
    z.Drop(op);
  }

  /** A codeword without extra bits, or with those that were read after it. */
  lemma PieceIs(t: Table, s: seq<bit>, dist: bool, e: Code, m: nat, v: nat)
    requires TableOk(t, dist) && |s| >= 15 && Lookup(t, s, dist) == (e, m)
    ensures !Has(e.op, 16) ==> PieceOf(t, s, dist) == Piece(e, 0, m)
    ensures Has(e.op, 16) && m + ExtraBits(e.op) <= |s| && v == LowVal(s[m..][..ExtraBits(e.op)]) ==>
      PieceOf(t, s, dist) == Piece(e, e.val + v, m + ExtraBits(e.op))
  {
    hide TableOk, LowVal, Lookup, Short, Has, LeafOk, Pow2;
    ShortIs(t, s, dist);
    if m + ExtraBits(e.op) <= |s| {
      assert s[m..][..ExtraBits(e.op)] == s[m..m + ExtraBits(e.op)];
    }
  }

  lemma LeafBits(e: Code, room: nat, dist: bool)
    requires LeafOk(e, room, dist)
    ensures e.bits <= room && (Has(e.op, 16) ==> ExtraBits(e.op) <= if dist then 13 else 5)
  {
  }

  /** After the codeword, of `m` bits, there are enough bits left in the buffer and the input for `op` more. */
  lemma DistanceRoom(b0: nat, p0: nat, size: nat, b: nat, p: nat, m: nat, op: nat)
    requires p0 <= size && (b0 < 28 ==> 8 * p0 + 28 - b0 <= 8 * size) && m <= 15 && p <= size
    requires if b0 >= 15 then b == b0 - m && p == p0 else b == b0 + 16 - m && p == p0 + 2
    ensures op <= 13 ==> op <= b + 16 && (op > b ==> 8 * p + op - b <= 8 * size)
    ensures op <= 13 ==>
      var q := p + if b >= op then 0 else if b + 8 >= op then 1 else 2;
      q >= p0 && (q > p0 ==> 8 * (q - p0) <= 35 - b0)
    ensures p > p0 ==> 8 * (p - p0) <= 35 - b0
  {
  }

  /** The codeword of a distance, and its extra bits. No more than 28 bits are needed. */
  method ReadDistance(z: Inflater) returns (here: Code, dist: nat, ghost n: nat)
    requires z.Valid() && (z.bits < 28 ==> 8 * z.inPos + 28 - z.bits <= 8 * |z.input|)
    modifies z`inPos, z`hold, z`bits, z`consumed
    ensures z.Valid() && z.consumed == old(z.consumed) + n
    ensures PieceOf(z.dists, old(z.Unread()), true) == Piece(here, dist, n)
    ensures z.inPos >= old(z.inPos) && (z.inPos > old(z.inPos) ==> 8 * (z.inPos - old(z.inPos)) <= 35 - old(z.bits))
  {
    hide *;
    z.Accounts();
    ghost var s, b0, p0, size := z.Unread(), z.bits, z.inPos, |z.input|;
    Refill(z);
    z.Accounts();
    ghost var m := Lookup(z.dists, s, true).1;
    here := z.Decode(z.dists, true);
    LeafBits(here, 15, true);
    dist := 0;
    n := m;
    PieceIs(z.dists, s, true, here, m, 0);
    z.Accounts();
    DistanceRoom(b0, p0, size, z.bits, z.inPos, m, ExtraBits(here.op));
    if Has(here.op, 16) {
      var v := Extra(z, ExtraBits(here.op));
      PieceIs(z.dists, s, true, here, m, v);
      dist := here.val + v;
      n := m + ExtraBits(here.op);
    }
  }

  method ReadLength(z: Inflater) returns (here: Code, len: nat, ghost n: nat)
    requires z.Valid() && z.inPos + 3 <= |z.input|
    modifies z`inPos, z`hold, z`bits, z`consumed
    ensures z.Valid() && z.consumed == old(z.consumed) + n
    ensures PieceOf(z.lens, old(z.Unread()), false) == Piece(here, len, n)
    ensures old(z.inPos) <= z.inPos <= old(z.inPos) + 3
    ensures z.Unread() == old(z.Unread())[n..]
  {
    hide *;
    z.Accounts();
    ghost var s := z.Unread();
    Refill(z);
    z.Accounts();
    ghost var m := Lookup(z.lens, s, false).1;
    here := z.Decode(z.lens, false);
    LeafBits(here, 15, false);
    len := 0;
    n := m;
    PieceIs(z.lens, s, false, here, m, 0);
    if Has(here.op, 16) {
      var v := Extra(z, ExtraBits(here.op));
      PieceIs(z.lens, s, false, here, m, v);
      assert s[m..][ExtraBits(here.op)..] == s[m + ExtraBits(here.op)..];
      len := here.val + v;
      n := m + ExtraBits(here.op);
    }
  }

  /** The item that comes next, by the codewords that were read. */
  lemma NextRead(lens: Table, dists: Table, s: seq<bit>, h: Code, len: nat, n: nat)
    requires TableOk(lens, false) && TableOk(dists, true) && PieceOf(lens, s, false) == Piece(h, len, n)
    ensures n <= |s| && n <= 20 && (Has(h.op, 16) ==> MIN_MATCH <= len <= MAX_MATCH)
    ensures h.op == 0 ==> Next(lens, dists, s) == (Lit((h.val % 256) as byte), n)
    ensures h.op != 0 && !Has(h.op, 16) ==> Next(lens, dists, s) == (if Has(h.op, 32) then EndOfBlock else BadCode, n)
  {
    hide PieceOf, TableOk;
  }

  lemma NextMatched(lens: Table, dists: Table, s: seq<bit>, h: Code, len: nat, n: nat, d: Code, dist: nat, m: nat)
    requires TableOk(lens, false) && TableOk(dists, true) && n <= |s| && h.op != 0 && Has(h.op, 16)
    requires PieceOf(lens, s, false) == Piece(h, len, n) && PieceOf(dists, s[n..], true) == Piece(d, dist, m)
    ensures Next(lens, dists, s) == (if Has(d.op, 16) then Copy(dist, len) else BadCode, n + m)
    ensures Has(d.op, 16) ==> 1 <= dist <= 32768
  {
    hide PieceOf, TableOk;
  }

  lemma Sizes()
    ensures MIN_MATCH == 3 && MAX_MATCH == 258
  {
  }

  lemma LitPerforms(b: byte, h: seq<byte>)
    ensures Performs(Lit(b), h, LEN, h + [b])
  {
  }

  lemma CopyPerforms(dist: nat, len: nat, h: seq<byte>, ok: bool, g: seq<byte>)
    requires dist >= 1 && (ok <==> dist <= |h|) && (ok ==> g == CopyBack(h, dist, len)) && (!ok ==> g == h)
    ensures Performs(Copy(dist, len), h, if ok then LEN else BAD, g)
  {
    hide CopyBack;
  }

  lemma PerformsItem(i: Item, h: seq<byte>, mode: Mode, g: seq<byte>)
    requires Performs(i, h, mode, g)
    ensures !i.TooFewBits?
  {
  }

  lemma MarkPerforms(h: seq<byte>)
    ensures Performs(EndOfBlock, h, TYPE, h) && Performs(BadCode, h, BAD, h)
  {
  }

  /**
   * One round of the loop. It fetches at most six bytes and writes at most 258; the item that comes next in the stream
   * is consumed and takes its effect.
   */
  method OneItem(z: Inflater, o: Output) returns (mode: Mode)
    requires z.Valid() && o.Valid() && z.inPos + 6 <= |z.input| && o.outPos + MAX_MATCH <= o.out.Length
    modifies z`inPos, z`hold, z`bits, z`consumed, o`outPos, o.out
    ensures z.Valid() && o.Valid() && |old(z.Unread())| >= 48
    ensures var (i, n) := Next(z.lens, z.dists, old(z.Unread()));
            Performs(i, old(o.History()), mode, o.History()) && z.consumed == old(z.consumed) + n
    ensures old(z.inPos) <= z.inPos <= old(z.inPos) + 6 && old(o.outPos) <= o.outPos <= old(o.outPos) + MAX_MATCH
    ensures mode == LEN ==> o.outPos > old(o.outPos)
    ensures o.out[..old(o.outPos)] == old(o.out[..o.outPos])
  {
    hide *;
    z.Accounts();
    o.Accounts();
    ghost var s, h := z.Unread(), o.History();
    Sizes();
    var here, len, n := ReadLength(z);
    z.Accounts();
    NextRead(z.lens, z.dists, s, here, len, n);
    if here.op == 0 {
      o.Append((here.val % 256) as byte);
      mode := LEN;
      LitPerforms((here.val % 256) as byte, h);
    } else if Has(here.op, 16) {
      var there, dist, m := ReadDistance(z);
      z.Accounts();
      NextMatched(z.lens, z.dists, s, here, len, n, there, dist, m);
      if Has(there.op, 16) {
        var ok := o.CopyMatch(dist, len);
        mode := if ok then LEN else BAD;
        CopyPerforms(dist, len, h, ok, o.History());
      } else {
        mode := BAD;
        MarkPerforms(h);
      }
    } else if Has(here.op, 32) {
      mode := TYPE;
      MarkPerforms(h);
    } else {
      mode := BAD;
      MarkPerforms(h);
    }
  }

  // ----- the whole call -----

  /** After `k` items from position `c` and history `h` the call stands at position `p` with history `g`. */
  ghost predicate Stands(lens: Table, dists: Table, stream: seq<bit>, c: nat, h: seq<byte>, k: nat, p: nat,
      g: seq<byte>) {
    && TableOk(lens, false) && TableOk(dists, true) && c <= |stream|
    && Playable(lens, dists, stream, c, h, k)
    && p == After(lens, dists, stream, c, k) && g == Played(lens, dists, stream, c, h, k)
  }

  /**
   * The call ends before item `k` for want of room or input, or with item `k`: at the end of the block, or in error.
   */
  ghost predicate Ends(lens: Table, dists: Table, stream: seq<bit>, c: nat, h: seq<byte>, k: nat, mode: Mode, p: nat,
      g: seq<byte>) {
    && TableOk(lens, false) && TableOk(dists, true) && c <= |stream|
    && Playable(lens, dists, stream, c, h, k) && g == Played(lens, dists, stream, c, h, k)
    && var q := After(lens, dists, stream, c, k);
       var (i, n) := Next(lens, dists, stream[q..]);
       match mode
       case LEN => p == q
       case TYPE => i == EndOfBlock && p == q + n
       case BAD => (i == BadCode || (i.Copy? && i.dist > |g|)) && p == q + n
       case _ => false
  }

  lemma StandsAtStart(lens: Table, dists: Table, stream: seq<bit>, c: nat, h: seq<byte>)
    requires TableOk(lens, false) && TableOk(dists, true) && c <= |stream|
    ensures Stands(lens, dists, stream, c, h, 0, c, h)
  {
    hide TableOk;
  }

  lemma StandsNext(lens: Table, dists: Table, stream: seq<bit>, c: nat, h: seq<byte>, k: nat, p: nat, g: seq<byte>,
      mode: Mode, g': seq<byte>)
    requires Stands(lens, dists, stream, c, h, k, p, g) && p <= |stream|
    requires Performs(Next(lens, dists, stream[p..]).0, g, mode, g')
    ensures var p' := p + Next(lens, dists, stream[p..]).1;
            if mode == LEN then Stands(lens, dists, stream, c, h, k + 1, p', g')
              else Ends(lens, dists, stream, c, h, k, mode, p', g')
  {
    hide TableOk, Next;
  }

  lemma StandsIsEnd(lens: Table, dists: Table, stream: seq<bit>, c: nat, h: seq<byte>, k: nat, p: nat, g: seq<byte>)
    requires Stands(lens, dists, stream, c, h, k, p, g)
    ensures Ends(lens, dists, stream, c, h, k, LEN, p, g)
  {
    hide TableOk, Next;
  }

  lemma StreamSize(z: Inflater)
    ensures |z.Stream()| == |z.before| + 8 * |z.input|
  {
  }

  lemma UnreadIs(z: Inflater)
    requires z.Valid()
    ensures z.consumed <= |z.Stream()| && z.Unread() == z.Stream()[z.consumed..]
  {
    hide TableOk, LowVal, Inflater.Stream;
  }

  lemma FewBits(z: Inflater)
    requires z.Valid()
    ensures z.bits <= 30
  {
  }

  /** Where the bits in the buffer are too few for a codeword, the next item takes more than these. */
  lemma LongItem(z: Inflater)
    requires z.Valid() && z.consumed + z.bits <= |z.Stream()| && TableOk(z.lens, false) && TableOk(z.dists, true)
    requires Short(z.lens, z.Buffer(), false).Missing?
    ensures var (i, n) := Next(z.lens, z.dists, z.Unread()); i.TooFewBits? || n > z.bits
  {
    hide Inflater.Valid, Inflater.Stream, Inflater.Unread, Inflater.Buffer, TableOk, Short;
    z.BufferIs();
    ghost var s, u := z.Buffer(), z.Unread()[z.bits..];
    assert z.Unread() == s + u;
    ShortMore(z.lens, s, u, false);
  }

  /**
   * `inflate_fast`. There may be more bits in its buffer than one byte if they are too few for a codeword, although the
   * comment in the source excludes that. All the items it takes are literals and matches within the history, each with
   * its effect on the output; then the block ends, or the data are in error, or input or room run short. On return less
   * than a byte is in the bit buffer, and the buffer and the input account for every bit that is not consumed.
   */
  method InflateFast(z: Inflater, o: Output) returns (mode: Mode, ghost k: nat)
    requires z.Valid() && o.Valid() && z.inPos + 6 <= |z.input| && o.outPos + MAX_MATCH <= o.out.Length
    requires z.consumed + z.bits <= |z.Stream()| && TableOk(z.lens, false) && z.bits < 15
    requires z.bits < 8 || Short(z.lens, z.Buffer(), false).Missing?
    modifies z`inPos, z`hold, z`bits, z`consumed, o`outPos, o.out
    ensures z.Valid() && o.Valid()
    ensures Ends(z.lens, z.dists, z.Stream(), old(z.consumed), old(o.History()), k, mode, z.consumed, o.History())
    ensures z.bits < 8 && z.Unread() == LowBitsOf(z.hold, z.bits) + BytesLow(z.input[z.inPos..])
    ensures mode == LEN ==> o.outPos > old(o.outPos) && (|z.Unread()| < 78 || o.outPos + MAX_MATCH > o.out.Length)
    ensures old(z.consumed) <= z.consumed && z.Unread() == old(z.Unread())[z.consumed - old(z.consumed)..]
    ensures o.out[..old(o.outPos)] == old(o.out[..o.outPos]) && old(o.outPos) <= o.outPos
  {
    hide TableOk, LowVal, LowBitsOf, BytesLow, Performs, Next, Stands, Ends, Output.History, Output.Valid,
      Inflater.Valid, Inflater.Stream;
    ghost var stream, c, h := z.Stream(), z.consumed, o.History();
    z.Accounts();
    o.Accounts();
    StreamSize(z);
    StandsAtStart(z.lens, z.dists, stream, c, h);
    k := 0;
    var more := true;
    mode := LEN;
    while more
      invariant z.Valid() && o.Valid() && old(o.outPos) <= o.outPos <= o.out.Length && z.inPos <= |z.input|
      invariant old(z.consumed) <= z.consumed && (more || mode != LEN || o.outPos > old(o.outPos))
      invariant old(z.bits) < 8 || z.consumed > c + old(z.bits) || (z.consumed == c && z.bits == old(z.bits) && more)
      invariant more ==> mode == LEN && z.inPos + 6 <= |z.input| && o.outPos + MAX_MATCH <= o.out.Length
      invariant mode == LEN ==> Stands(z.lens, z.dists, stream, c, h, k, z.consumed, o.History())
      invariant mode != LEN ==> Ends(z.lens, z.dists, stream, c, h, k, mode, z.consumed, o.History())
      invariant !more && mode == LEN ==> z.inPos + 6 > |z.input| || o.outPos + MAX_MATCH > o.out.Length
      invariant o.out[..old(o.outPos)] == old(o.out[..o.outPos])
      decreases more, o.out.Length - o.outPos
    {
      ghost var p, g, was := z.consumed, o.History(), o.out[..o.outPos];
      z.Accounts();
      UnreadIs(z);
      if old(z.bits) >= 8 && z.consumed == c { LongItem(z); }
      mode := OneItem(z, o);
      StandsNext(z.lens, z.dists, stream, c, h, k, p, g, mode, o.History());
      PerformsItem(Next(z.lens, z.dists, stream[p..]).0, g, mode, o.History());
      assert o.out[..old(o.outPos)] == was[..old(o.outPos)];
      if mode == LEN { k := k + 1; }
      more := mode == LEN && z.inPos + 6 <= |z.input| && o.outPos + MAX_MATCH <= o.out.Length;
    }
    if mode == LEN { StandsIsEnd(z.lens, z.dists, stream, c, h, k, z.consumed, o.History()); }
    z.Accounts();
    FewBits(z);
    UnreadIs(z);
    z.GiveBack();
  }

  // ----- joined to the compressor, symbol by symbol -----

  predicate Same(i: Item, s: Symbol) {
    match i
    case Lit(b) => s == Literal(b)
    case Copy(dist, len) => s == Match(dist, len)
    case _ => false
  }

  /** The first `k` items of the stream are these symbols. */
  ghost predicate Carries(lens: Table, dists: Table, stream: seq<bit>, c: nat, syms: seq<Symbol>)
    requires TableOk(lens, false) && TableOk(dists, true) && c <= |stream|
  {
    forall j | 0 <= j < |syms| :: Same(Next(lens, dists, stream[After(lens, dists, stream, c, j)..]).0, syms[j])
  }

  /** Played from an empty history, symbols that can be expanded give their expansion. */
  lemma {:induction false} PlayedIsExpanded(lens: Table, dists: Table, stream: seq<bit>, c: nat, syms: seq<Symbol>)
    requires TableOk(lens, false) && TableOk(dists, true) && c <= |stream| && Carries(lens, dists, stream, c, syms)
      && WellFormed(syms)
    ensures Playable(lens, dists, stream, c, [], |syms|) && Played(lens, dists, stream, c, [], |syms|) == Expand(syms)
    decreases |syms|
  {
    hide TableOk, Next, CopyBack;
    if syms != [] {
      var n := |syms| - 1;
      PlayedIsExpanded(lens, dists, stream, c, syms[..n]);
      assert Same(Next(lens, dists, stream[After(lens, dists, stream, c, n)..]).0, syms[n]);
    }
  }
}
