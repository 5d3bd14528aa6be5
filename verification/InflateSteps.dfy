/**
 * The states of inflate between the items of a block: it takes bits byte by byte as it needs them, and goes on where
 * input or room for output had run out.
 */
module InflateSteps {
  import opened Arithmetic
  import opened Bytes
  import opened CanonicalCode
  import opened Lz77Symbols
  import opened LowBits
  import opened InflateWindow
  import opened InflateFast

  // ----- what a state stands for -----

  /** The fields of the state that say what has been read of the current item. */
  datatype Fields = Fields(mode: Mode, length: nat, offset: nat, extra: nat)

  /** So much of a match is written. */
  ghost predicate Partly(g0: seq<byte>, dist: nat, done: nat, g: seq<byte>) {
    if done == 0 then g == g0 else 1 <= dist <= |g0| && g == CopyBack(g0, dist, done)
  }

  /** An item at which there is no going on: no code, or a match of which at most a part could be written. */
  ghost predicate Stuck(i: Item, g0: seq<byte>, g: seq<byte>) {
    (i == BadCode && g == g0) || (i.Copy? && exists done :: 0 <= done < i.len && Partly(g0, i.dist, done, g))
  }

  /**
   * Of the item that the bits `s` begin with, `n` bits are consumed; the history was `g0` when it began and is `g` now.
   */
  ghost predicate Midway(lens: Table, dists: Table, s: seq<bit>, f: Fields, n: nat, g0: seq<byte>, g: seq<byte>)
    requires TableOk(lens, false) && TableOk(dists, true)
  {
    && n <= |s|
    && match f.mode
       case LEN => n == 0 && g == g0
       case LENEXT =>
         var h := Short(lens, s, false);
         g == g0 && h.Found? && Has(h.e.op, 16) && h.n == n && f.length == h.e.val && f.extra == ExtraBits(h.e.op)
       case DIST =>
         var h := PieceOf(lens, s, false);
         g == g0 && h.Piece? && Has(h.e.op, 16) && h.n == n && f.length == h.v
       case DISTEXT =>
         var h := PieceOf(lens, s, false);
         && g == g0 && h.Piece? && Has(h.e.op, 16) && f.length == h.v
         && var d := Short(dists, s[h.n..], true);
            d.Found? && Has(d.e.op, 16) && h.n + d.n == n && f.offset == d.e.val && f.extra == ExtraBits(d.e.op)
       case MATCH =>
         var i := Next(lens, dists, s);
         && i.0.Copy? && i.1 == n && i.0.dist == f.offset && 1 <= f.length <= i.0.len
         && Partly(g0, f.offset, i.0.len - f.length, g)
       case LIT => g == g0 && Next(lens, dists, s) == (Lit((f.length % 256) as byte), n)
       case TYPE => g == g0 && Next(lens, dists, s) == (EndOfBlock, n)
       case BAD => Stuck(Next(lens, dists, s).0, g0, g)
  }

  // ----- more bits change nothing -----

  lemma PieceMore(t: Table, s: seq<bit>, u: seq<bit>, dist: bool)
    requires TableOk(t, dist) && PieceOf(t, s, dist).Piece?
    ensures PieceOf(t, s + u, dist) == PieceOf(t, s, dist)
  {
    hide TableOk, Short, LowVal, LeafOk, Pow2, Has;
    ShortMore(t, s, u, dist);
    var h := Short(t, s, dist);
    if Has(h.e.op, 16) {
      assert (s + u)[h.n..h.n + ExtraBits(h.e.op)] == s[h.n..h.n + ExtraBits(h.e.op)];
    }
  }

  lemma NextMore(lens: Table, dists: Table, s: seq<bit>, u: seq<bit>)
    requires TableOk(lens, false) && TableOk(dists, true) && !Next(lens, dists, s).0.TooFewBits?
    ensures Next(lens, dists, s + u) == Next(lens, dists, s)
  {
    hide TableOk, PieceOf;
    PieceMore(lens, s, u, false);
    var h := PieceOf(lens, s, false);
    if h.e.op != 0 && Has(h.e.op, 16) {
      assert (s + u)[h.n..] == s[h.n..] + u;
      PieceMore(dists, s[h.n..], u, true);
    }
  }

  lemma MidwayMore(lens: Table, dists: Table, s: seq<bit>, u: seq<bit>, f: Fields, n: nat, g0: seq<byte>, g: seq<byte>)
    requires TableOk(lens, false) && TableOk(dists, true) && Midway(lens, dists, s, f, n, g0, g)
    ensures Midway(lens, dists, s + u, f, n, g0, g)
  {
    hide TableOk, PieceOf, Short, Next, Partly, Has;
    match f.mode {
      case LEN =>
      case LENEXT => ShortMore(lens, s, u, false);
      case DIST => PieceMore(lens, s, u, false);
      case DISTEXT =>
        PieceMore(lens, s, u, false);
        var h := PieceOf(lens, s, false);
        assert (s + u)[h.n..] == s[h.n..] + u;
        ShortMore(dists, s[h.n..], u, true);
      case MATCH => NextMore(lens, dists, s, u);
      case LIT => NextMore(lens, dists, s, u);
      case TYPE => NextMore(lens, dists, s, u);
      case BAD => NextMore(lens, dists, s, u);
    }
  }

  // ----- from state to state -----

  /** What an entry of the length table leads to. */
  function AfterLen(f: Fields, here: Code): Fields {
    var g := f.(length := here.val);
    if here.op == 0 then g.(mode := LIT)
    else if Has(here.op, 32) then g.(mode := TYPE)
    else if Has(here.op, 64) then g.(mode := BAD)
    else g.(mode := LENEXT, extra := ExtraBits(here.op))
  }

  lemma LeafKinds(e: Code, room: nat, dist: bool)
    requires LeafOk(e, room, dist)
    ensures e.op == 0 ==> !Has(e.op, 16) && !dist
    ensures e.op != 0 ==> (Has(e.op, 16) <==> !Has(e.op, 64)) && (Has(e.op, 32) ==> Has(e.op, 64))
    ensures Has(e.op, 16) ==> ExtraBits(e.op) <= if dist then 13 else 5
  {
    hide Pow2;
  }

  lemma LenRead(lens: Table, dists: Table, s: seq<bit>, f: Fields, here: Code, n: nat, g: seq<byte>)
    requires TableOk(lens, false) && TableOk(dists, true) && Short(lens, s, false) == Found(here, n)
    ensures Midway(lens, dists, s, AfterLen(f, here), n, g, g)
    ensures AfterLen(f, here).mode == BAD ==> Next(lens, dists, s).0 == BadCode
  {
    hide TableOk, Short, Has, LeafOk;
    LeafKinds(here, 15, false);
  }

  lemma LenExtRead(lens: Table, dists: Table, s: seq<bit>, f: Fields, n: nat, v: nat, g: seq<byte>)
    requires TableOk(lens, false) && TableOk(dists, true) && f.mode == LENEXT && Midway(lens, dists, s, f, n, g, g)
    requires n + f.extra <= |s| && v == LowVal(s[n..][..f.extra])
    ensures Midway(lens, dists, s, f.(mode := DIST, length := f.length + v), n + f.extra, g, g)
  {
    hide TableOk, Short, Has, LeafOk, LowVal;
    assert s[n..][..f.extra] == s[n..n + f.extra];
  }

  function AfterDist(f: Fields, here: Code): Fields {
    if Has(here.op, 64) then f.(mode := BAD) else f.(mode := DISTEXT, offset := here.val, extra := ExtraBits(here.op))
  }

  lemma DistRead(lens: Table, dists: Table, s: seq<bit>, f: Fields, n: nat, here: Code, m: nat, g: seq<byte>)
    requires TableOk(lens, false) && TableOk(dists, true) && f.mode == DIST && Midway(lens, dists, s, f, n, g, g)
    requires Short(dists, s[n..], true) == Found(here, m)
    ensures Midway(lens, dists, s, AfterDist(f, here), n + m, g, g)
    ensures AfterDist(f, here).mode == BAD ==> Next(lens, dists, s).0 == BadCode
  {
    hide TableOk, Short, LeafOk, LowVal;
    LeafKinds(here, 15, true);
    PieceKind(lens, s);
  }

  lemma PieceKind(lens: Table, s: seq<bit>)
    requires TableOk(lens, false)
    ensures PieceOf(lens, s, false).Piece? && Has(PieceOf(lens, s, false).e.op, 16) ==>
      PieceOf(lens, s, false).e.op != 0
  {
    hide TableOk, PieceOf;
  }

  lemma DistExtRead(lens: Table, dists: Table, s: seq<bit>, f: Fields, n: nat, v: nat, g: seq<byte>)
    requires TableOk(lens, false) && TableOk(dists, true) && f.mode == DISTEXT && Midway(lens, dists, s, f, n, g, g)
    requires n + f.extra <= |s| && v == LowVal(s[n..][..f.extra])
    ensures Midway(lens, dists, s, f.(mode := MATCH, offset := f.offset + v), n + f.extra, g, g)
    ensures f.offset + v >= 1
  {
    hide TableOk, Short, LeafOk, LowVal;
    PieceKind(lens, s);
    var h := PieceOf(lens, s, false);
    DistPiece(dists, s[h.n..], n - h.n, f.extra);
    assert s[h.n..][n - h.n..] == s[n..];
  }

  lemma DistPiece(dists: Table, s: seq<bit>, n: nat, extra: nat)
    requires TableOk(dists, true) && Short(dists, s, true).Found? && Short(dists, s, true).n == n
    requires Has(Short(dists, s, true).e.op, 16) && extra == ExtraBits(Short(dists, s, true).e.op) && n + extra <= |s|
    ensures PieceOf(dists, s, true) ==
      Piece(Short(dists, s, true).e, Short(dists, s, true).e.val + LowVal(s[n..][..extra]), n + extra)
  {
    hide TableOk, Short, LeafOk, LowVal;
    assert s[n..][..extra] == s[n..n + extra];
  }

  /** Bits are missing for the next step. */
  ghost predicate Lacks(lens: Table, dists: Table, f: Fields, s: seq<bit>)
    requires TableOk(lens, false) && TableOk(dists, true)
  {
    match f.mode
    case LEN => Short(lens, s, false).Missing?
    case LENEXT => |s| < f.extra
    case DIST => Short(dists, s, true).Missing?
    case DISTEXT => |s| < f.extra
    case _ => false
  }

  /** Where bits are missing for the next step, they are missing for the item. */
  lemma LacksItem(lens: Table, dists: Table, s: seq<bit>, f: Fields, n: nat, g0: seq<byte>, g: seq<byte>)
    requires TableOk(lens, false) && TableOk(dists, true) && Midway(lens, dists, s, f, n, g0, g)
    requires Lacks(lens, dists, f, s[n..])
    ensures Next(lens, dists, s).0.TooFewBits?
  {
    hide TableOk, Short, LeafOk, LowVal;
    PieceKind(lens, s);
    if f.mode == LEN { assert s[0..] == s; }
    if f.mode == DISTEXT {
      var h := PieceOf(lens, s, false);
      assert |s[h.n..]| == |s| - h.n;
    }
  }

  // ----- the bits -----

  /** Fewer than eight bits are in the buffer, or too few for the next step. */
  ghost predicate Lean(z: Inflater, f: Fields)
    requires TableOk(z.lens, false) && TableOk(z.dists, true) && z.consumed + z.bits <= |z.Stream()|
    reads z`consumed, z`bits
  {
    z.bits < 8 || Lacks(z.lens, z.dists, f, z.Buffer())
  }

  /** The last byte in the buffer was needed. */
  ghost predicate Needed(t: Table, s: seq<bit>, dist: bool)
    requires TableOk(t, dist)
  {
    |s| < 8 || Short(t, s[..|s| - 8], dist).Missing?
  }

  lemma NeededFirst(t: Table, s: seq<bit>, dist: bool)
    requires TableOk(t, dist) && (|s| < 8 || Short(t, s, dist).Missing?)
    ensures Needed(t, s, dist)
  {
    hide TableOk, Short;
    if |s| >= 8 {
      assert s[..|s| - 8] + s[|s| - 8..] == s;
      ShortMore(t, s[..|s| - 8], s[|s| - 8..], dist);
    }
  }

  /** Once the codeword is dropped, fewer than eight bits are left. */
  lemma NeededLast(t: Table, s: seq<bit>, u: seq<bit>, dist: bool)
    requires TableOk(t, dist) && Needed(t, s, dist) && Short(t, s, dist).Found?
    ensures |s| - Short(t, s, dist).n < 8 && Short(t, s + u, dist) == Short(t, s, dist)
  {
    hide TableOk, Short;
    ShortMore(t, s, u, dist);
    if |s| >= 8 {
      assert s[..|s| - 8] + s[|s| - 8..] == s;
      ShortMore(t, s[..|s| - 8], s[|s| - 8..], dist);
    }
  }

  /** `PULLBYTE`: a byte goes behind the bits in the buffer. */
  method PullByte(z: Inflater)
    requires z.Valid() && z.inPos < |z.input| && z.bits < 15
    modifies z`inPos, z`hold, z`bits
    ensures z.Valid() && z.bits == old(z.bits) + 8 && z.inPos == old(z.inPos) + 1 && z.Unread() == old(z.Unread())
    ensures z.consumed + z.bits <= |z.Stream()| && old(z.consumed + z.bits) <= |z.Stream()|
      && z.Buffer()[..old(z.bits)] == old(z.Buffer())
  {
    hide Inflater.Valid, Inflater.Stream;
    z.BufferIs();
    z.Fetch();
    z.BufferIs();
  }

  /** The entries that the bits in the buffer lead to, on either level. */
  lemma FirstEntry(t: Table, s: seq<bit>, dist: bool)
    requires TableOk(t, dist)
    ensures LowFirst(s, t.root) < |t.codes|
    ensures var e := t.codes[LowFirst(s, t.root)];
            && (e.bits > |s| ==> Short(t, s, dist).Missing?) && e.bits <= 15
            && (e.bits <= |s| && !Link(e.op, dist) ==> Short(t, s, dist) == Found(e, e.bits))
            && (Link(e.op, dist) <==> e.op / 16 % 16 == 0 && (e.op != 0 || dist))
  {
    hide LowFirst, Pow2, SubOk, Repeated;
    assert EntryOk(t, t.codes[LowFirst(s, t.root)], dist);
  }

  lemma SecondEntry(t: Table, s: seq<bit>, dist: bool, e: Code)
    requires TableOk(t, dist) && LowFirst(s, t.root) < |t.codes| && e == t.codes[LowFirst(s, t.root)]
    requires e.bits <= |s| && Link(e.op, dist)
    ensures var j := e.val + LowFirst(s[e.bits..], e.op);
            && j < |t.codes| && e.bits + t.codes[j].bits <= 15
            && Short(t, s, dist) ==
               (if e.bits + t.codes[j].bits > |s| then Missing else Found(t.codes[j], e.bits + t.codes[j].bits))
  {
    hide LowFirst, Pow2, Repeated, Link;
    assert EntryOk(t, e, dist);
    assert SubOk(t, e, LowFirst(s[e.bits..], e.op), dist);
  }

  /** The bits after those of a first entry. */
  method PeekBehind(z: Inflater, skip: nat, n: nat) returns (v: nat)
    requires z.Valid() && skip <= z.bits
    ensures z.consumed + z.bits <= |z.Stream()| && v == LowFirst(z.Buffer()[skip..], n)
  {
    hide Pow2, LowVal, TableOk;
    var w := z.PeekShort(skip + n);
    var m := if z.bits < skip + n then z.bits else skip + n;
    LowValSplit(z.Buffer()[..m], skip);
    assert z.Buffer()[..m][skip..] == z.Buffer()[skip..][..m - skip];
    v := w / Pow2(skip);
  }

  /** One more byte where an entry has shown that the bits in the buffer are too few. */
  method PullFor(z: Inflater, t: Table, dist: bool)
    requires z.Valid() && TableOk(t, dist) && z.inPos < |z.input| && z.bits < 15
    requires z.consumed + z.bits <= |z.Stream()| && Short(t, z.Buffer(), dist).Missing?
    modifies z`inPos, z`hold, z`bits
    ensures z.Valid() && z.consumed + z.bits <= |z.Stream()| && Needed(t, z.Buffer(), dist)
    ensures z.inPos == old(z.inPos) + 1 && z.bits == old(z.bits) + 8 && z.Unread() == old(z.Unread())
    ensures z.Buffer()[..old(z.bits)] == old(z.Buffer())
  {
    hide Inflater.Valid, Inflater.Stream, TableOk, Short;
    PullByte(z);
    assert |z.Buffer()| - 8 == old(z.bits);
  }

  /** The codeword that comes next, byte by byte; if input runs out first, nothing is lost. */
  method PullCode(z: Inflater, t: Table, dist: bool) returns (ok: bool, here: Code, ghost n: nat)
    requires z.Valid() && TableOk(t, dist) && z.consumed + z.bits <= |z.Stream()|
    requires z.bits < 8 || Short(t, z.Buffer(), dist).Missing?
    modifies z`inPos, z`hold, z`bits, z`consumed
    ensures z.Valid() && z.inPos >= old(z.inPos)
    ensures ok ==> Short(t, old(z.Unread()), dist) == Found(here, n) && z.consumed == old(z.consumed) + n
    ensures ok ==> z.bits < 8 && z.Unread() == old(z.Unread())[n..]
    ensures !ok ==> z.consumed == old(z.consumed) && z.Unread() == old(z.Unread()) && z.inPos == |z.input|
    ensures !ok ==> Short(t, z.Unread(), dist).Missing? && z.consumed + z.bits <= |z.Stream()|
    ensures !ok ==> z.Buffer() == z.Unread()
  {
    hide Inflater.Valid, Inflater.Stream, Inflater.Unread, Inflater.Buffer, TableOk, Short, Needed, Link, LowFirst;
    n := 0;
    z.BufferIs();
    NeededFirst(t, z.Buffer(), dist);
    var i := z.PeekShort(t.root);
    FirstEntry(t, z.Buffer(), dist);
    here := t.codes[i];
    while here.bits > z.bits
      invariant z.Valid() && z.inPos >= old(z.inPos) && z.consumed == old(z.consumed) && z.Unread() == old(z.Unread())
      invariant z.consumed + z.bits <= |z.Stream()| && Needed(t, z.Buffer(), dist) && z.inPos <= |z.input|
      invariant LowFirst(z.Buffer(), t.root) < |t.codes| && here == t.codes[LowFirst(z.Buffer(), t.root)]
      decreases |z.input| - z.inPos
    {
      FirstEntry(t, z.Buffer(), dist);
      z.BufferIs();
      if z.inPos == |z.input| { return false, here, n; }
      PullFor(z, t, dist);
      z.BufferIs();
      i := z.PeekShort(t.root);
      FirstEntry(t, z.Buffer(), dist);
      here := t.codes[i];
    }
    FirstEntry(t, z.Buffer(), dist);
    z.BufferIs();
    if here.op / 16 % 16 == 0 && (here.op != 0 || dist) {
      ok, here, n := PullSecond(z, t, dist, here);
    } else {
      ok, n := true, here.bits;
      FoundInBuffer(z, t, dist);
      z.Drop(here.bits);
    }
  }

  /** The entry found for the buffer is the one for all that is unread. */
  lemma FoundInBuffer(z: Inflater, t: Table, dist: bool)
    requires z.Valid() && TableOk(t, dist) && z.consumed + z.bits <= |z.Stream()| && Needed(t, z.Buffer(), dist)
    requires Short(t, z.Buffer(), dist).Found?
    ensures Short(t, z.Unread(), dist) == Short(t, z.Buffer(), dist) && z.bits - Short(t, z.Buffer(), dist).n < 8
  {
    hide Inflater.Valid, Inflater.Stream, Inflater.Unread, Inflater.Buffer, TableOk, Short, Needed;
    z.BufferIs();
    assert z.Unread() == z.Buffer() + z.Unread()[z.bits..];
    NeededLast(t, z.Buffer(), z.Unread()[z.bits..], dist);
  }

  /** The second level. */
  method PullSecond(z: Inflater, t: Table, dist: bool, last: Code) returns (ok: bool, here: Code, ghost n: nat)
    requires z.Valid() && TableOk(t, dist) && z.consumed + z.bits <= |z.Stream()| && Needed(t, z.Buffer(), dist)
    requires LowFirst(z.Buffer(), t.root) < |t.codes| && last == t.codes[LowFirst(z.Buffer(), t.root)]
    requires last.bits <= z.bits && Link(last.op, dist)
    modifies z`inPos, z`hold, z`bits, z`consumed
    ensures z.Valid() && z.inPos >= old(z.inPos)
    ensures ok ==> Short(t, old(z.Unread()), dist) == Found(here, n) && z.consumed == old(z.consumed) + n
    ensures ok ==> z.bits < 8 && z.Unread() == old(z.Unread())[n..]
    ensures !ok ==> z.consumed == old(z.consumed) && z.Unread() == old(z.Unread()) && z.inPos == |z.input|
    ensures !ok ==> Short(t, z.Unread(), dist).Missing? && z.consumed + z.bits <= |z.Stream()|
    ensures !ok ==> z.Buffer() == z.Unread()
  {
    hide Inflater.Valid, Inflater.Stream, Inflater.Unread, Inflater.Buffer, TableOk, Short, Needed, Link, LowFirst;
    n := 0;
    z.BufferIs();
    var j := PeekBehind(z, last.bits, last.op);
    SecondEntry(t, z.Buffer(), dist, last);
    here := t.codes[last.val + j];
    while last.bits + here.bits > z.bits
      invariant z.Valid() && z.inPos >= old(z.inPos) && z.consumed == old(z.consumed) && z.Unread() == old(z.Unread())
      invariant z.consumed + z.bits <= |z.Stream()| && Needed(t, z.Buffer(), dist) && z.inPos <= |z.input|
      invariant LowFirst(z.Buffer(), t.root) < |t.codes| && last == t.codes[LowFirst(z.Buffer(), t.root)]
      invariant last.bits <= z.bits && last.val + LowFirst(z.Buffer()[last.bits..], last.op) < |t.codes|
      invariant here == t.codes[last.val + LowFirst(z.Buffer()[last.bits..], last.op)]
      decreases |z.input| - z.inPos
    {
      SecondEntry(t, z.Buffer(), dist, last);
      z.BufferIs();
      if z.inPos == |z.input| { return false, here, n; }
      ghost var buffer := z.Buffer();
      PullFor(z, t, dist);
      SameEntry(z, t, dist, buffer);
      z.BufferIs();
      j := PeekBehind(z, last.bits, last.op);
      SecondEntry(t, z.Buffer(), dist, last);
      here := t.codes[last.val + j];
    }
    SecondEntry(t, z.Buffer(), dist, last);
    z.BufferIs();
    ok, n := true, last.bits + here.bits;
    FoundInBuffer(z, t, dist);
    z.Drop(last.bits);
    ghost var s := z.Unread();
    z.Drop(here.bits);
  }

  /** The first entry stays the same when a byte is added behind its codeword. */
  lemma SameEntry(z: Inflater, t: Table, dist: bool, buffer: seq<bit>)
    requires z.Valid() && TableOk(t, dist) && z.consumed + z.bits <= |z.Stream()|
    requires |buffer| <= z.bits && z.Buffer()[..|buffer|] == buffer && LowFirst(buffer, t.root) < |t.codes|
    requires t.codes[LowFirst(buffer, t.root)].bits <= |buffer|
    ensures LowFirst(z.Buffer(), t.root) < |t.codes|
      && t.codes[LowFirst(z.Buffer(), t.root)] == t.codes[LowFirst(buffer, t.root)]
  {
    hide Inflater.Valid, Inflater.Stream, Inflater.Unread, Inflater.Buffer, LowFirst, Pow2, Agree, EntryOk, Repeated;
    var i, j := LowFirst(buffer, t.root), LowFirst(z.Buffer(), t.root);
    assert z.Buffer() == buffer + z.Buffer()[|buffer|..];
    LowFirstAgrees(buffer, z.Buffer()[|buffer|..], t.root, t.codes[i].bits);
    EntryAgain(t.codes, 0, t.root, i, j);
  }

  // ----- items of a stream that goes on -----

  /** The item at a place is the same with more bits behind it. */
  lemma NextLonger(lens: Table, dists: Table, s: seq<bit>, u: seq<bit>, q: nat)
    requires TableOk(lens, false) && TableOk(dists, true) && q <= |s| && !Next(lens, dists, s[q..]).0.TooFewBits?
    ensures Next(lens, dists, (s + u)[q..]) == Next(lens, dists, s[q..])
  {
    hide TableOk, Next;
    NextMore(lens, dists, s[q..], u);
    assert (s + u)[q..] == s[q..] + u;
  }

  lemma {:induction false} StandsLonger(lens: Table, dists: Table, s: seq<bit>, u: seq<bit>, c: nat, h: seq<byte>,
      k: nat, p: nat, g: seq<byte>)
    requires Stands(lens, dists, s, c, h, k, p, g)
    ensures Stands(lens, dists, s + u, c, h, k, p, g)
  {
    hide TableOk, Next, CopyBack;
    if k > 0 {
      var q, f := After(lens, dists, s, c, k - 1), Played(lens, dists, s, c, h, k - 1);
      StandsLonger(lens, dists, s, u, c, h, k - 1, q, f);
      NextLonger(lens, dists, s, u, q);
    }
  }

  /** Bits before the place where a call begins make no difference. */
  lemma {:induction false} StandsShifted(lens: Table, dists: Table, s: seq<bit>, c: nat, h: seq<byte>, k: nat, p: nat,
      g: seq<byte>)
    requires c <= |s| && Stands(lens, dists, s[c..], 0, h, k, p, g)
    ensures Stands(lens, dists, s, c, h, k, c + p, g)
  {
    hide TableOk, Next, CopyBack;
    if k > 0 {
      var q, f := After(lens, dists, s[c..], 0, k - 1), Played(lens, dists, s[c..], 0, h, k - 1);
      StandsShifted(lens, dists, s, c, h, k - 1, q, f);
      assert s[c..][q..] == s[c + q..];
    }
  }

  lemma {:induction false} CopyBackOnto(x: seq<byte>, h: seq<byte>, dist: nat, len: nat)
    requires 1 <= dist <= |h|
    ensures CopyBack(x + h, dist, len) == x + CopyBack(h, dist, len)
    decreases len
  {
    if len > 0 {
      var more := [h[|h| - dist]];
      assert (x + h)[|x + h| - dist] == h[|h| - dist] && x + h + more == x + (h + more);
      CopyBackOnto(x, h + more, dist, len - 1);
    }
  }

  /** Bytes before the history that matches reach back to make no difference either. */
  lemma {:induction false} StandsOnto(lens: Table, dists: Table, s: seq<bit>, c: nat, x: seq<byte>, h: seq<byte>,
      k: nat, p: nat, g: seq<byte>)
    requires Stands(lens, dists, s, c, h, k, p, g)
    ensures Stands(lens, dists, s, c, x + h, k, p, x + g)
  {
    hide TableOk, Next, CopyBack;
    if k > 0 {
      var q, f := After(lens, dists, s, c, k - 1), Played(lens, dists, s, c, h, k - 1);
      StandsOnto(lens, dists, s, c, x, h, k - 1, q, f);
      match Next(lens, dists, s[q..]).0
      case Lit(b) => assert x + f + [b] == x + (f + [b]);
      case Copy(dist, len) => CopyBackOnto(x, f, dist, len);
      case _ =>
    }
  }

  /** Items, and more items after them. */
  lemma {:induction false} StandsChain(lens: Table, dists: Table, s: seq<bit>, c: nat, h: seq<byte>, k: nat, p: nat,
      g: seq<byte>, m: nat, q: nat, f: seq<byte>)
    requires Stands(lens, dists, s, c, h, k, p, g) && p <= |s| && Stands(lens, dists, s, p, g, m, q, f)
    ensures Stands(lens, dists, s, c, h, k + m, q, f)
    decreases m
  {
    hide TableOk, Next, CopyBack;
    if m > 0 {
      var i, e := After(lens, dists, s, p, m - 1), Played(lens, dists, s, p, g, m - 1);
      StandsChain(lens, dists, s, c, h, k, p, g, m - 1, i, e);
      assert k + (m - 1) == k + m - 1;
    }
  }

  lemma {:induction false} StandsGrows(lens: Table, dists: Table, s: seq<bit>, c: nat, h: seq<byte>, k: nat, p: nat,
      g: seq<byte>)
    requires Stands(lens, dists, s, c, h, k, p, g)
    ensures |g| >= |h| && p <= |s|
  {
    hide TableOk, Next, CopyBack;
    if k > 0 {
      StandsGrows(lens, dists, s, c, h, k - 1, After(lens, dists, s, c, k - 1), Played(lens, dists, s, c, h, k - 1));
    }
  }

  /** The same in the stream cut off at the front. */
  lemma {:induction false} StandsCut(lens: Table, dists: Table, s: seq<bit>, c: nat, h: seq<byte>, k: nat, p: nat,
      g: seq<byte>)
    requires c <= |s| && Stands(lens, dists, s, c, h, k, p, g)
    ensures c <= p <= |s| && Stands(lens, dists, s[c..], 0, h, k, p - c, g)
  {
    hide TableOk, Next, CopyBack;
    if k > 0 {
      var q, f := After(lens, dists, s, c, k - 1), Played(lens, dists, s, c, h, k - 1);
      StandsCut(lens, dists, s, c, h, k - 1, q, f);
      assert s[c..][q - c..] == s[q..];
    }
  }

  // ----- the states -----

  class Stage {
    var mode: Mode
    var length: nat
    var offset: nat
    var extra: nat

    constructor ()
      ensures mode == LEN
    {
      mode, length, offset, extra := LEN, 0, 0, 0;
    }

    ghost function All(): Fields
      reads this
    {
      Fields(mode, length, offset, extra)
    }
  }

  /**
   * After `k` items of the stream `s`, which took it to place `p` and made the history `g0`, the state stands `n` bits
   * into the next one; what is unread follows there.
   */
  ghost predicate Reading(z: Inflater, f: Fields, s: seq<bit>, k: nat, p: nat, n: nat, g0: seq<byte>, g: seq<byte>)
    reads z`inPos, z`hold, z`bits, z`consumed
  {
    && z.Valid() && Stands(z.lens, z.dists, s, 0, [], k, p, g0) && p <= |s|
    && Midway(z.lens, z.dists, s[p..], f, n, g0, g) && z.consumed + z.bits <= |z.Stream()| && s[p..][n..] == z.Unread()
    && Lean(z, f) && (f.mode == MATCH ==> f.offset >= 1)
  }

  lemma ReadingGives(z: Inflater, f: Fields, s: seq<bit>, k: nat, p: nat, n: nat, g0: seq<byte>, g: seq<byte>)
    requires Reading(z, f, s, k, p, n, g0, g)
    ensures z.Valid() && p <= |s| && n <= |s[p..]| && s[p..][n..] == z.Unread() && z.consumed + z.bits <= |z.Stream()|
    ensures TableOk(z.lens, false) && TableOk(z.dists, true) && Stands(z.lens, z.dists, s, 0, [], k, p, g0)
    ensures Midway(z.lens, z.dists, s[p..], f, n, g0, g) && Lean(z, f)
  {
    hide Inflater.Valid, Inflater.Stream, Inflater.Unread, Stands, Lean;
    z.Accounts();
    MidwayWithin(z.lens, z.dists, s[p..], f, n, g0, g);
  }

  lemma MidwayWithin(lens: Table, dists: Table, s: seq<bit>, f: Fields, n: nat, g0: seq<byte>, g: seq<byte>)
    requires TableOk(lens, false) && TableOk(dists, true) && Midway(lens, dists, s, f, n, g0, g)
    ensures n <= |s| && (f.mode == LEN ==> n == 0) && (f.mode != MATCH && f.mode != BAD ==> g == g0)
    ensures f.mode == LENEXT || f.mode == DISTEXT ==> f.extra <= 13
  {
    hide TableOk, Short, PieceOf, Next, Partly, LeafOk;
    if f.mode == LENEXT {
      LeafKinds(Short(lens, s, false).e, 15, false);
    } else if f.mode == DISTEXT {
      LeafKinds(Short(dists, s[PieceOf(lens, s, false).n..], true).e, 15, true);
    }
  }

  /** A step that has taken `m` bits more. */
  lemma ReadingOn(z: Inflater, f: Fields, s: seq<bit>, k: nat, p: nat, n: nat, m: nat, g0: seq<byte>, g: seq<byte>)
    requires z.Valid() && Stands(z.lens, z.dists, s, 0, [], k, p, g0) && p <= |s| && n + m <= |s[p..]|
    requires TableOk(z.lens, false) && TableOk(z.dists, true)
    requires Midway(z.lens, z.dists, s[p..], f, n + m, g0, g) && s[p..][n..][m..] == z.Unread()
    requires z.bits < 8 && (f.mode == MATCH ==> f.offset >= 1)
    ensures Reading(z, f, s, k, p, n + m, g0, g)
  {
    hide Inflater.Valid, Inflater.Stream, Inflater.Unread, Stands, Midway;
    z.BufferIs();
    assert s[p..][n..][m..] == s[p..][n + m..];
  }

  /** A state at which input has run out. */
  ghost predicate Starved(z: Inflater, f: Fields, s: seq<bit>, p: nat)
    requires TableOk(z.lens, false) && TableOk(z.dists, true) && p <= |s|
    reads z`inPos
  {
    z.inPos == |z.input| && Next(z.lens, z.dists, s[p..]).0.TooFewBits?
  }

  /** Nothing was taken, for want of input. */
  lemma StaysReading(z: Inflater, f: Fields, s: seq<bit>, k: nat, p: nat, n: nat, g0: seq<byte>, g: seq<byte>)
    requires z.Valid() && Stands(z.lens, z.dists, s, 0, [], k, p, g0) && p <= |s|
    requires TableOk(z.lens, false) && TableOk(z.dists, true)
    requires Midway(z.lens, z.dists, s[p..], f, n, g0, g) && n <= |s[p..]| && s[p..][n..] == z.Unread()
    requires Lacks(z.lens, z.dists, f, z.Unread()) && z.inPos == |z.input|
    ensures Reading(z, f, s, k, p, n, g0, g) && Starved(z, f, s, p)
  {
    hide Inflater.Valid, Inflater.Stream, Inflater.Unread, Inflater.Buffer, Stands, Midway, Lacks, Next, TableOk;
    z.BufferIs();
    LacksItem(z.lens, z.dists, s[p..], f, n, g0, g);
    LacksNoMatch(z.lens, z.dists, f, z.Unread());
  }

  lemma LacksNoMatch(lens: Table, dists: Table, f: Fields, s: seq<bit>)
    requires TableOk(lens, false) && TableOk(dists, true) && Lacks(lens, dists, f, s)
    ensures f.mode != MATCH
  {
    hide TableOk, Short;
  }

  /** What is lacked at the start of a step on a code. */
  lemma LeanCode(z: Inflater, f: Fields)
    requires TableOk(z.lens, false) && TableOk(z.dists, true) && z.consumed + z.bits <= |z.Stream()| && Lean(z, f)
    ensures f.mode == LEN ==> z.bits < 8 || Short(z.lens, z.Buffer(), false).Missing?
    ensures f.mode == DIST ==> z.bits < 8 || Short(z.dists, z.Buffer(), true).Missing?
    ensures f.mode == LENEXT || f.mode == DISTEXT ==> z.bits < 8 || z.bits < f.extra
  {
    hide TableOk, Short, Inflater.Stream;
  }

  lemma LacksIs(lens: Table, dists: Table, f: Fields, s: seq<bit>)
    requires TableOk(lens, false) && TableOk(dists, true)
    ensures f.mode == LEN && Short(lens, s, false).Missing? ==> Lacks(lens, dists, f, s)
    ensures f.mode == DIST && Short(dists, s, true).Missing? ==> Lacks(lens, dists, f, s)
    ensures (f.mode == LENEXT || f.mode == DISTEXT) && |s| < f.extra ==> Lacks(lens, dists, f, s)
  {
    hide TableOk, Short;
  }

  /** The code for a literal, a length, or the end of the block. */
  method StepLen(z: Inflater, st: Stage, ghost s: seq<bit>, ghost k: nat, ghost p: nat, ghost g: seq<byte>)
      returns (ok: bool, ghost n: nat)
    requires Reading(z, st.All(), s, k, p, 0, g, g) && st.mode == LEN
    modifies z`inPos, z`hold, z`bits, z`consumed, st
    ensures Reading(z, st.All(), s, k, p, n, g, g) && p <= |s| && TableOk(z.lens, false) && TableOk(z.dists, true)
    ensures ok ==> st.mode == LIT || st.mode == TYPE || st.mode == BAD || st.mode == LENEXT
    ensures st.mode == BAD ==> Next(z.lens, z.dists, s[p..]).0 == BadCode
    ensures !ok ==> st.mode == LEN && Starved(z, st.All(), s, p)
  {
    hide *;
    ghost var f := st.All();
    ReadingGives(z, f, s, k, p, 0, g, g);
    LeanCode(z, f);
    AllIs(st);
    assert s[p..][0..] == s[p..];
    var here;
    ok, here, n := PullCode(z, z.lens, false);
    if !ok {
      n := 0;
      LacksIs(z.lens, z.dists, f, z.Unread());
      StaysReading(z, f, s, k, p, 0, g, g);
      return;
    }
    LenRead(z.lens, z.dists, s[p..], f, here, n, g);
    AfterLenIs(f, here);
    st.length := here.val;
    if here.op == 0 {
      st.mode := LIT;
    } else if Has(here.op, 32) {
      st.mode := TYPE;
    } else if Has(here.op, 64) {
      st.mode := BAD;
    } else {
      st.mode := LENEXT;
      st.extra := ExtraBits(here.op);
    }
    AllIs(st);
    MidwayWithin(z.lens, z.dists, s[p..], st.All(), n, g, g);
    assert s[p..][0..][n..] == s[p..][n..];
    ReadingOn(z, st.All(), s, k, p, 0, n, g, g);
  }

  lemma AllIs(st: Stage)
    ensures st.All() == Fields(st.mode, st.length, st.offset, st.extra)
  {
  }

  lemma AfterLenIs(f: Fields, here: Code)
    ensures AfterLen(f, here) ==
      if here.op == 0 then Fields(LIT, here.val, f.offset, f.extra)
      else if Has(here.op, 32) then Fields(TYPE, here.val, f.offset, f.extra)
      else if Has(here.op, 64) then Fields(BAD, here.val, f.offset, f.extra)
      else Fields(LENEXT, here.val, f.offset, ExtraBits(here.op))
  {
    hide Has;
  }

  lemma AfterDistIs(f: Fields, here: Code)
    ensures AfterDist(f, here) ==
      if Has(here.op, 64) then Fields(BAD, f.length, f.offset, f.extra)
      else Fields(DISTEXT, f.length, here.val, ExtraBits(here.op))
  {
    hide Has;
  }

  /** `NEEDBITS`. */
  method NeedBits(z: Inflater, n: nat) returns (ok: bool)
    requires z.Valid() && n <= 13 && (z.bits < 8 || z.bits < n)
    modifies z`inPos, z`hold, z`bits
    ensures z.Valid() && z.consumed == old(z.consumed) && z.Unread() == old(z.Unread())
    ensures ok ==> n <= z.bits < n + 8 && n <= |z.Unread()|
    ensures !ok ==> z.inPos == |z.input| && |z.Unread()| < n
  {
    hide Inflater.Valid, Inflater.Stream, Inflater.Unread, Inflater.Buffer;
    z.BufferIs();
    while z.bits < n
      invariant z.Valid() && z.Unread() == old(z.Unread()) && z.inPos <= |z.input|
      invariant z.bits < 8 || z.bits < n + 8
      decreases |z.input| - z.inPos
    {
      z.BufferIs();
      if z.inPos == |z.input| { return false; }
      PullByte(z);
      z.BufferIs();
    }
    z.BufferIs();
    ok := true;
  }

  /** The extra bits of a length. */
  method StepLenExt(z: Inflater, st: Stage, ghost s: seq<bit>, ghost k: nat, ghost p: nat, ghost n0: nat,
      ghost g: seq<byte>) returns (ok: bool, ghost n: nat)
    requires Reading(z, st.All(), s, k, p, n0, g, g) && st.mode == LENEXT
    modifies z`inPos, z`hold, z`bits, z`consumed, st
    ensures Reading(z, st.All(), s, k, p, n, g, g) && p <= |s| && TableOk(z.lens, false) && TableOk(z.dists, true)
    ensures ok ==> st.mode == DIST
    ensures !ok ==> st.mode == LENEXT && Starved(z, st.All(), s, p)
  {
    hide *;
    ghost var f := st.All();
    n := n0;
    ReadingGives(z, f, s, k, p, n, g, g);
    LeanCode(z, f);
    AllIs(st);
    MidwayWithin(z.lens, z.dists, s[p..], f, n, g, g);
    ok := NeedBits(z, st.extra);
    if !ok {
      LacksIs(z.lens, z.dists, f, z.Unread());
      StaysReading(z, f, s, k, p, n, g, g);
      return;
    }
    ghost var rest := z.Unread();
    var v := z.Peek(st.extra);
    z.Drop(st.extra);
    LenExtRead(z.lens, z.dists, s[p..], f, n, v, g);
    st.length := st.length + v;
    st.mode := DIST;
    AllIs(st);
    ReadingOn(z, st.All(), s, k, p, n, st.extra, g, g);
    n := n + st.extra;
  }

  /** The code for a distance. */
  method StepDist(z: Inflater, st: Stage, ghost s: seq<bit>, ghost k: nat, ghost p: nat, ghost n0: nat,
      ghost g: seq<byte>) returns (ok: bool, ghost n: nat)
    requires Reading(z, st.All(), s, k, p, n0, g, g) && st.mode == DIST
    modifies z`inPos, z`hold, z`bits, z`consumed, st
    ensures Reading(z, st.All(), s, k, p, n, g, g) && p <= |s| && TableOk(z.lens, false) && TableOk(z.dists, true)
    ensures ok ==> st.mode == DISTEXT || st.mode == BAD
    ensures st.mode == BAD ==> Next(z.lens, z.dists, s[p..]).0 == BadCode
    ensures !ok ==> st.mode == DIST && Starved(z, st.All(), s, p)
  {
    hide *;
    ghost var f := st.All();
    n := n0;
    ReadingGives(z, f, s, k, p, n, g, g);
    LeanCode(z, f);
    AllIs(st);
    var here;
    ghost var m;
    ok, here, m := PullCode(z, z.dists, true);
    if !ok {
      LacksIs(z.lens, z.dists, f, z.Unread());
      StaysReading(z, f, s, k, p, n, g, g);
      return;
    }
    DistRead(z.lens, z.dists, s[p..], f, n, here, m, g);
    AfterDistIs(f, here);
    if Has(here.op, 64) {
      st.mode := BAD;
    } else {
      st.mode := DISTEXT;
      st.offset := here.val;
      st.extra := ExtraBits(here.op);
    }
    AllIs(st);
    MidwayWithin(z.lens, z.dists, s[p..], st.All(), n + m, g, g);
    ReadingOn(z, st.All(), s, k, p, n, m, g, g);
    n := n + m;
  }

  /** The extra bits of a distance. */
  method StepDistExt(z: Inflater, st: Stage, ghost s: seq<bit>, ghost k: nat, ghost p: nat, ghost n0: nat,
      ghost g: seq<byte>) returns (ok: bool, ghost n: nat)
    requires Reading(z, st.All(), s, k, p, n0, g, g) && st.mode == DISTEXT
    modifies z`inPos, z`hold, z`bits, z`consumed, st
    ensures Reading(z, st.All(), s, k, p, n, g, g) && p <= |s| && TableOk(z.lens, false) && TableOk(z.dists, true)
    ensures ok ==> st.mode == MATCH
    ensures !ok ==> st.mode == DISTEXT && Starved(z, st.All(), s, p)
  {
    hide *;
    ghost var f := st.All();
    n := n0;
    ReadingGives(z, f, s, k, p, n, g, g);
    LeanCode(z, f);
    AllIs(st);
    MidwayWithin(z.lens, z.dists, s[p..], f, n, g, g);
    ok := NeedBits(z, st.extra);
    if !ok {
      LacksIs(z.lens, z.dists, f, z.Unread());
      StaysReading(z, f, s, k, p, n, g, g);
      return;
    }
    ghost var rest := z.Unread();
    var v := z.Peek(st.extra);
    z.Drop(st.extra);
    DistExtRead(z.lens, z.dists, s[p..], f, n, v, g);
    st.offset := st.offset + v;
    st.mode := MATCH;
    AllIs(st);
    ReadingOn(z, st.All(), s, k, p, n, st.extra, g, g);
    n := n + st.extra;
  }

  // ----- output -----

  /** An item is complete: the next one begins. */
  lemma ItemDone(z: Inflater, f: Fields, s: seq<bit>, k: nat, p: nat, n: nat, g0: seq<byte>, g: seq<byte>,
      g': seq<byte>, i: Item)
    requires Reading(z, f, s, k, p, n, g0, g) && (f.mode == LIT || f.mode == MATCH)
    requires TableOk(z.lens, false) && TableOk(z.dists, true) && p <= |s|
    requires Next(z.lens, z.dists, s[p..]) == (i, n) && Performs(i, g0, LEN, g')
    ensures Reading(z, f.(mode := LEN), s, k + 1, p + n, 0, g', g')
  {
    hide Inflater.Valid, Inflater.Stream, Inflater.Unread, Inflater.Buffer, Stands, Next, Performs, TableOk, Lacks,
      Partly;
    StandsNext(z.lens, z.dists, s, 0, [], k, p, g0, LEN, g');
    z.BufferIs();
    NoLack(z.lens, z.dists, f, z.Buffer());
    assert s[p..][n..] == s[p + n..] && s[p + n..][0..] == s[p + n..];
  }

  lemma NoLack(lens: Table, dists: Table, f: Fields, s: seq<bit>)
    requires TableOk(lens, false) && TableOk(dists, true) && (f.mode == LIT || f.mode == MATCH)
    ensures !Lacks(lens, dists, f, s)
  {
    hide TableOk, Short;
  }

  lemma LitIs(z: Inflater, f: Fields, s: seq<bit>, k: nat, p: nat, n: nat, g0: seq<byte>, g: seq<byte>)
    requires Reading(z, f, s, k, p, n, g0, g) && f.mode == LIT
    ensures p <= |s| && TableOk(z.lens, false) && TableOk(z.dists, true) && g == g0
    ensures Next(z.lens, z.dists, s[p..]) == (Lit((f.length % 256) as byte), n)
  {
    hide Inflater.Valid, Inflater.Stream, Inflater.Unread, Stands, Next, TableOk, Lacks, Lean;
    z.Accounts();
  }

  /** A literal is written. */
  method StepLit(z: Inflater, o: Output, st: Stage, ghost s: seq<bit>, ghost k: nat, ghost p: nat, ghost n: nat,
      ghost g0: seq<byte>, ghost x: seq<byte>)
    requires o.Valid() && Reading(z, st.All(), s, k, p, n, g0, x + o.History()) && st.mode == LIT
      && o.outPos < o.out.Length
    modifies o`outPos, o.out, st
    ensures o.Valid() && Reading(z, st.All(), s, k + 1, p + n, 0, x + o.History(), x + o.History())
    ensures st.mode == LEN && o.outPos == old(o.outPos) + 1
  {
    hide *;
    ghost var f, g := st.All(), x + o.History();
    AllIs(st);
    LitIs(z, f, s, k, p, n, g0, g);
    o.Append((st.length % 256) as byte);
    LitPerforms((st.length % 256) as byte, g0);
    assert g + [(st.length % 256) as byte] == x + o.History();
    ItemDone(z, f, s, k, p, n, g0, g, x + o.History(), Lit((st.length % 256) as byte));
    st.mode := LEN;
    AllIs(st);
  }

  lemma MatchIs(z: Inflater, f: Fields, s: seq<bit>, k: nat, p: nat, n: nat, g0: seq<byte>, g: seq<byte>)
      returns (len: nat)
    requires Reading(z, f, s, k, p, n, g0, g) && f.mode == MATCH
    ensures p <= |s| && TableOk(z.lens, false) && TableOk(z.dists, true) && 1 <= f.length <= len && f.offset >= 1
    ensures Next(z.lens, z.dists, s[p..]) == (Copy(f.offset, len), n) && Partly(g0, f.offset, len - f.length, g)
  {
    hide Inflater.Valid, Inflater.Stream, Inflater.Unread, Stands, Next, TableOk, Lacks, Lean, Partly;
    z.Accounts();
    len := Next(z.lens, z.dists, s[p..]).0.len;
  }

  /** More of a match is written. */
  lemma PartlyMore(g0: seq<byte>, dist: nat, done: nat, x: seq<byte>, h: seq<byte>, c: nat)
    requires Partly(g0, dist, done, x + h) && 1 <= dist <= |h| && c >= 1
    ensures Partly(g0, dist, done + c, x + CopyBack(h, dist, c)) && dist <= |g0|
  {
    hide CopyBack;
    CopyBackOnto(x, h, dist, c);
    if done > 0 { CopyBackMore(g0, dist, done, c); }
  }

  lemma PartlyPerforms(g0: seq<byte>, dist: nat, len: nat, g: seq<byte>)
    requires Partly(g0, dist, len, g) && len >= 1
    ensures Performs(Copy(dist, len), g0, LEN, g)
  {
    hide CopyBack;
  }

  lemma ReadingMatch(z: Inflater, f: Fields, s: seq<bit>, k: nat, p: nat, n: nat, g0: seq<byte>, g: seq<byte>, len: nat,
      f': Fields, g': seq<byte>)
    requires Reading(z, f, s, k, p, n, g0, g) && f.mode == MATCH && TableOk(z.lens, false) && TableOk(z.dists, true)
    requires p <= |s| && Next(z.lens, z.dists, s[p..]) == (Copy(f.offset, len), n)
    requires f' == f.(length := f'.length) && 1 <= f'.length <= len && Partly(g0, f.offset, len - f'.length, g')
    ensures Reading(z, f', s, k, p, n, g0, g')
  {
    hide Inflater.Valid, Inflater.Stream, Inflater.Unread, Inflater.Buffer, Stands, Next, TableOk, Lacks, Partly;
    z.BufferIs();
    NoLack(z.lens, z.dists, f, z.Buffer());
  }

  lemma ReadingBad(z: Inflater, f: Fields, s: seq<bit>, k: nat, p: nat, n: nat, g0: seq<byte>, g: seq<byte>, len: nat)
    requires Reading(z, f, s, k, p, n, g0, g) && f.mode == MATCH && TableOk(z.lens, false) && TableOk(z.dists, true)
    requires p <= |s| && Next(z.lens, z.dists, s[p..]) == (Copy(f.offset, len), n)
    requires 1 <= f.length <= len && Partly(g0, f.offset, len - f.length, g)
    ensures Reading(z, f.(mode := BAD), s, k, p, n, g0, g)
  {
    hide Inflater.Valid, Inflater.Stream, Inflater.Unread, Inflater.Buffer, Stands, Next, TableOk, Lacks, Partly;
    z.BufferIs();
    NoLack(z.lens, z.dists, f, z.Buffer());
  }

  /** Where the bytes of a match lie: so many of them in one piece, in the window or in the output. */
  method FindPiece(o: Output, dist: nat, length: nat) returns (far: bool, inWindow: bool, from: int, copy: nat)
    requires o.Valid() && dist >= 1 && length >= 1
    ensures far <==> dist > |o.History()|
    ensures !far ==> 1 <= copy <= length && o.Pointing(inWindow, from, dist, copy)
  {
    hide Output.History, Output.WindowHistory, Output.Pointing, InOrder;
    o.Accounts();
    far, inWindow, from := false, false, 0;
    copy := o.outPos - o.beg;
    if dist > copy {
      copy := dist - copy;
      if copy > o.whave { return true, inWindow, from, copy; }
      ghost var op := copy;
      inWindow := true;
      if copy > o.wnext {
        copy := copy - o.wnext;
        from := o.window.Length - copy;
      } else {
        from := o.wnext - copy;
      }
      o.PointsToWindow(dist, op, from, copy);
      if copy > length {
        o.PointingFewer(from, dist, copy, length);
        copy := length;
      }
    } else {
      from := o.outPos - dist;
      copy := length;
      o.PointsToOutput(dist, copy);
    }
  }

  /** A piece of a match is written, as much as there is room for. */
  method StepMatch(z: Inflater, o: Output, st: Stage, ghost s: seq<bit>, ghost k0: nat, ghost p0: nat, ghost n0: nat,
      ghost g00: seq<byte>, ghost x: seq<byte>) returns (ghost k: nat, ghost p: nat, ghost n: nat, ghost g0: seq<byte>)
    requires o.Valid() && Reading(z, st.All(), s, k0, p0, n0, g00, x + o.History()) && st.mode == MATCH
      && o.outPos < o.out.Length
    modifies o`outPos, o.out, st
    ensures o.Valid() && Reading(z, st.All(), s, k, p, n, g0, x + o.History())
    ensures TableOk(z.lens, false) && TableOk(z.dists, true) && p <= |s|
    ensures st.mode == LEN || st.mode == MATCH || st.mode == BAD
    ensures st.mode == BAD ==> Far(z.lens, z.dists, s, p, |o.History()|) && o.outPos == old(o.outPos)
    ensures st.mode != BAD ==> o.outPos > old(o.outPos)
  {
    hide *;
    ghost var f, h := st.All(), o.History();
    k, p, n, g0 := k0, p0, n0, g00;
    AllIs(st);
    ghost var len := MatchIs(z, f, s, k, p, n, g0, x + h);
    var far, inWindow, from, copy := FindPiece(o, st.offset, st.length);
    if far {
      ReadingBad(z, f, s, k, p, n, g0, x + h, len);
      FarIs(z.lens, z.dists, s, p, |h|);
      st.mode := BAD;
      AllIs(st);
      return;
    }
    var left := o.out.Length - o.outPos;
    ghost var m := copy;
    if copy > left { copy := left; }
    o.PointingBack(inWindow, from, st.offset, m);
    var _ := o.Copy(inWindow, from, st.offset, copy, m);
    PartlyMore(g0, st.offset, len - st.length, x, h, copy);
    st.length := st.length - copy;
    if st.length == 0 {
      PartlyPerforms(g0, st.offset, len, x + o.History());
      ItemDone(z, f, s, k, p, n, g0, x + h, x + o.History(), Copy(st.offset, len));
      st.mode := LEN;
      k, p, n, g0 := k + 1, p + n, 0, x + o.History();
      AllIs(st);
      LenAnyLength(z, f.(mode := LEN), st.All(), s, k, p, g0);
      ReadingGives(z, st.All(), s, k, p, n, g0, g0);
    } else {
      AllIs(st);
      ReadingMatch(z, f, s, k, p, n, g0, x + h, len, st.All(), x + o.History());
    }
  }

  /** Between items the other fields do not matter. */
  lemma LenAnyLength(z: Inflater, f: Fields, f': Fields, s: seq<bit>, k: nat, p: nat, g: seq<byte>)
    requires Reading(z, f, s, k, p, 0, g, g) && f.mode == f'.mode == LEN
    ensures Reading(z, f', s, k, p, 0, g, g)
  {
    hide Inflater.Valid, Inflater.Stream, Inflater.Unread, Inflater.Buffer, Stands, Next, TableOk, Partly;
  }

  /** A match reaches back further than the history of the call. */
  ghost predicate Far(lens: Table, dists: Table, s: seq<bit>, p: nat, reach: nat)
    requires TableOk(lens, false) && TableOk(dists, true) && p <= |s|
  {
    var i := Next(lens, dists, s[p..]).0;
    i.Copy? ==> i.dist > reach
  }

  lemma FarIs(lens: Table, dists: Table, s: seq<bit>, p: nat, reach: nat)
    requires TableOk(lens, false) && TableOk(dists, true) && p <= |s|
    requires Next(lens, dists, s[p..]).0.Copy? ==> Next(lens, dists, s[p..]).0.dist > reach
    ensures Far(lens, dists, s, p, reach)
  {
    hide Next, TableOk;
  }

  // ----- a call -----

  /** What inflate_fast has done, in terms of the whole stream and the whole output. */
  lemma FastDone(lens: Table, dists: Table, s: seq<bit>, k: nat, p: nat, x: seq<byte>, h: seq<byte>, stream: seq<bit>,
      c: nat, m: nat, mode: Mode, q: nat, g: seq<byte>, f: Fields) returns (p': nat, n: nat)
    requires Stands(lens, dists, s, 0, [], k, p, x + h) && p <= |s| && c <= |stream| && stream[c..] == s[p..]
    requires Ends(lens, dists, stream, c, h, m, mode, q, g) && f.mode == mode
    ensures TableOk(lens, false) && TableOk(dists, true) && p' <= |s| && q <= |stream| && mode != MATCH && mode != LIT
    ensures Stands(lens, dists, s, 0, [], k + m, p', x + g) && Midway(lens, dists, s[p'..], f, n, x + g, x + g)
    ensures s[p'..][n..] == stream[q..] && (mode == BAD ==> Far(lens, dists, s, p', |g|))
    ensures mode == LEN || mode == TYPE || mode == BAD
  {
    hide TableOk, Next, Played, Playable, CopyBack;
    var i := After(lens, dists, stream, c, m);
    assert Stands(lens, dists, stream, c, h, m, i, g);
    StandsCut(lens, dists, stream, c, h, m, i, g);
    StandsShifted(lens, dists, s, p, h, m, i - c, g);
    StandsOnto(lens, dists, s, p, x, h, m, p + (i - c), g);
    StandsChain(lens, dists, s, 0, [], k, p, x + h, m, p + (i - c), x + g);
    p' := p + (i - c);
    assert s[p..][i - c..] == s[p'..] && stream[c..][i - c..] == stream[i..];
    n := q - i;
    assert stream[i..][n..] == stream[q..];
    if mode == BAD { BadMidway(lens, dists, s[p'..], x + g); }
  }

  lemma BadMidway(lens: Table, dists: Table, s: seq<bit>, g: seq<byte>)
    requires TableOk(lens, false) && TableOk(dists, true)
    requires Next(lens, dists, s).0 == BadCode || Next(lens, dists, s).0.Copy?
    ensures Stuck(Next(lens, dists, s).0, g, g)
  {
    hide TableOk;
    var i := Next(lens, dists, s).0;
    if i.Copy? { assert Partly(g, i.dist, 0, g); }
  }

  lemma ReadingLean(z: Inflater, f: Fields, s: seq<bit>, k: nat, p: nat, n: nat, g0: seq<byte>, g: seq<byte>)
    requires z.Valid() && Stands(z.lens, z.dists, s, 0, [], k, p, g0) && p <= |s|
    requires TableOk(z.lens, false) && TableOk(z.dists, true)
    requires Midway(z.lens, z.dists, s[p..], f, n, g0, g) && n <= |s[p..]| && s[p..][n..] == z.Unread() && z.bits < 8
    requires f.mode != MATCH
    ensures Reading(z, f, s, k, p, n, g0, g)
  {
    hide Inflater.Valid, Inflater.Stream, Inflater.Unread, Inflater.Buffer, Stands, Midway;
    z.BufferIs();
  }

  /** Fast as long as there is plenty of input and room. */
  method StepFast(z: Inflater, o: Output, st: Stage, ghost s: seq<bit>, ghost k0: nat, ghost p0: nat,
      ghost x: seq<byte>) returns (ghost k: nat, ghost p: nat, ghost n: nat)
    requires o.Valid() && Reading(z, st.All(), s, k0, p0, 0, x + o.History(), x + o.History()) && st.mode == LEN
    requires z.inPos + 6 <= |z.input| && o.outPos + MAX_MATCH <= o.out.Length
    modifies z`inPos, z`hold, z`bits, z`consumed, o`outPos, o.out, st
    ensures o.Valid() && Reading(z, st.All(), s, k, p, n, x + o.History(), x + o.History())
    ensures TableOk(z.lens, false) && TableOk(z.dists, true) && p <= |s|
    ensures st.mode == LEN || st.mode == TYPE || st.mode == BAD
    ensures o.outPos >= old(o.outPos) && (st.mode == LEN ==> n == 0 && o.outPos > old(o.outPos))
    ensures st.mode == BAD ==> Far(z.lens, z.dists, s, p, |o.History()|)
  {
    hide *;
    ghost var c, h := z.consumed, o.History();
    ReadingGives(z, st.All(), s, k0, p0, 0, x + h, x + h);
    AllIs(st);
    LeanCode(z, st.All());
    MissingIsShort(z, z.lens, false);
    z.BufferIs();
    UnreadIs(z);
    assert s[p0..][0..] == s[p0..];
    ghost var m;
    var mode;
    mode, m := InflateFast.InflateFast(z, o);
    st.mode := mode;
    AllIs(st);
    UnreadIs(z);
    p, n := FastDone(z.lens, z.dists, s, k0, p0, x, h, z.Stream(), c, m, mode, z.consumed, o.History(), st.All());
    k := k0 + m;
    MidwayWithin(z.lens, z.dists, s[p..], st.All(), n, x + o.History(), x + o.History());
    ReadingLean(z, st.All(), s, k, p, n, x + o.History(), x + o.History());
  }

  function Rank(m: Mode): nat {
    match m
    case LEN => 5
    case LENEXT => 4
    case DIST => 3
    case DISTEXT => 2
    case MATCH => 1
    case LIT => 1
    case _ => 0
  }

  lemma RankIs(m: Mode)
    ensures m == LEN ==> Rank(m) == 5
    ensures m == LENEXT ==> Rank(m) == 4
    ensures m == DIST ==> Rank(m) == 3
    ensures m == DISTEXT ==> Rank(m) == 2
    ensures m == MATCH || m == LIT ==> Rank(m) == 1
    ensures m == TYPE || m == BAD ==> Rank(m) == 0
  {
  }

  /** Why a call has ended. */
  ghost predicate Pauses(z: Inflater, o: Output, mode: Mode, s: seq<bit>, p: nat)
    requires TableOk(z.lens, false) && TableOk(z.dists, true) && p <= |s| && o.Valid()
    reads z`inPos, o`outPos, o.out, o.window
  {
    match mode
    case TYPE => true
    case BAD => Far(z.lens, z.dists, s, p, |o.History()|)
    case MATCH => o.outPos == o.out.Length
    case LIT => o.outPos == o.out.Length
    case _ => z.inPos == |z.input| && Next(z.lens, z.dists, s[p..]).0.TooFewBits?
  }

  lemma StarvedPauses(z: Inflater, o: Output, f: Fields, s: seq<bit>, p: nat)
    requires TableOk(z.lens, false) && TableOk(z.dists, true) && p <= |s| && o.Valid() && Starved(z, f, s, p)
    requires f.mode == LEN || f.mode == LENEXT || f.mode == DIST || f.mode == DISTEXT
    ensures Pauses(z, o, f.mode, s, p)
  {
    hide TableOk, Next, Output.History;
  }

  lemma FullPauses(z: Inflater, o: Output, mode: Mode, s: seq<bit>, p: nat)
    requires TableOk(z.lens, false) && TableOk(z.dists, true) && p <= |s| && o.Valid()
    requires mode == TYPE || (mode == BAD && Far(z.lens, z.dists, s, p, |o.History()|))
      || ((mode == MATCH || mode == LIT) && o.outPos == o.out.Length)
    ensures Pauses(z, o, mode, s, p)
  {
    hide TableOk, Next, Output.History;
  }

  /** Whatever is in the buffer when a codeword is missing is less than fifteen bits. */
  lemma MissingIsShort(z: Inflater, t: Table, dist: bool)
    requires TableOk(t, dist) && z.Valid() && z.consumed + z.bits <= |z.Stream()|
    requires z.bits < 8 || Short(t, z.Buffer(), dist).Missing?
    ensures z.bits < 15
  {
    hide Inflater.Valid, Inflater.Stream, Inflater.Buffer, TableOk, Short;
    if z.bits >= 15 { ShortIs(t, z.Buffer(), dist); }
  }

  /**
   * What a call of `inflate` does with the items of a block, `s` being the stream from the beginning of the block and
   * `x` the output that lies further back than the window: state by state, and by inflate_fast where there is plenty of
   * input and room. It pauses only where the input has been used up and does not suffice for the next item, or where
   * something is to be written and the room has been used up.
   */
  method Continue(z: Inflater, o: Output, st: Stage, ghost s: seq<bit>, ghost k0: nat, ghost p0: nat, ghost n0: nat,
      ghost g00: seq<byte>, ghost x: seq<byte>) returns (ghost k: nat, ghost p: nat, ghost n: nat, ghost g0: seq<byte>)
    requires o.Valid() && Reading(z, st.All(), s, k0, p0, n0, g00, x + o.History()) && st.mode != TYPE && st.mode != BAD
    modifies z`inPos, z`hold, z`bits, z`consumed, o`outPos, o.out, st
    ensures o.Valid() && Reading(z, st.All(), s, k, p, n, g0, x + o.History())
    ensures TableOk(z.lens, false) && TableOk(z.dists, true) && p <= |s| && Pauses(z, o, st.mode, s, p)
  {
    hide *;
    k, p, n, g0 := k0, p0, n0, g00;
    ReadingGives(z, st.All(), s, k, p, n, g0, x + o.History());
    o.Accounts();
    AllIs(st);
    while true
      invariant o.Valid() && Reading(z, st.All(), s, k, p, n, g0, x + o.History()) && o.outPos <= o.out.Length
      invariant TableOk(z.lens, false) && TableOk(z.dists, true) && p <= |s|
      invariant st.mode == BAD ==> Far(z.lens, z.dists, s, p, |o.History()|)
      decreases o.out.Length - o.outPos, Rank(st.mode)
    {
      ReadingGives(z, st.All(), s, k, p, n, g0, x + o.History());
      z.Accounts();
      AllIs(st);
      MidwayWithin(z.lens, z.dists, s[p..], st.All(), n, g0, x + o.History());
      RankIs(st.mode);
      var ok := true;
      match st.mode {
        case LEN =>
          if |z.input| - z.inPos >= 6 && o.out.Length - o.outPos >= MAX_MATCH {
            k, p, n := StepFast(z, o, st, s, k, p, x);
            g0 := x + o.History();
          } else {
            ok, n := StepLen(z, st, s, k, p, g0);
            if st.mode == BAD { FarIs(z.lens, z.dists, s, p, |o.History()|); }
          }
        case LENEXT => ok, n := StepLenExt(z, st, s, k, p, n, g0);
        case DIST =>
          ok, n := StepDist(z, st, s, k, p, n, g0);
          if st.mode == BAD { FarIs(z.lens, z.dists, s, p, |o.History()|); }
        case DISTEXT => ok, n := StepDistExt(z, st, s, k, p, n, g0);
        case MATCH =>
          if o.outPos == o.out.Length {
            FullPauses(z, o, st.mode, s, p);
            return;
          }
          k, p, n, g0 := StepMatch(z, o, st, s, k, p, n, g0, x);
        case LIT =>
          if o.outPos == o.out.Length {
            FullPauses(z, o, st.mode, s, p);
            return;
          }
          StepLit(z, o, st, s, k, p, n, g0, x);
          k, p, n, g0 := k + 1, p + n, 0, x + o.History();
          ReadingGives(z, st.All(), s, k, p, n, g0, x + o.History());
        case _ =>
          FullPauses(z, o, st.mode, s, p);
          return;
      }
      o.Accounts();
      AllIs(st);
      RankIs(st.mode);
      if !ok {
        StarvedPauses(z, o, st.All(), s, p);
        return;
      }
    }
  }
}
