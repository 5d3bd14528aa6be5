/**
 * Calls of inflate one after another on the items of a block: each takes up the state, the bit buffer, the input and
 * the window that the one before left.
 */
module InflateCalls {
  import opened Arithmetic
  import opened Bytes
  import opened CanonicalCode
  import opened Lz77Symbols
  import opened LowBits
  import opened InflateWindow
  import opened InflateFast
  import opened InflateSteps

  // ----- the window between calls -----

  /** The last `n` bytes, or all if there are fewer. */
  function Tail(h: seq<byte>, n: nat): seq<byte> {
    if |h| <= n then h else h[|h| - n..]
  }

  ghost predicate WindowShape(size: nat, have: nat, next: nat) {
    0 < size && (have == size || have == next) && next <= have && next < size && have <= size
  }

  /** A window not yet full holds its first bytes; a full one goes round. */
  lemma InOrderIs(w: seq<byte>, have: nat, next: nat)
    requires WindowShape(|w|, have, next)
    ensures InOrder(w, have, next) == if have == |w| then w[next..] + w[..next] else w[..next]
  {
  }

  /** More bytes than the window holds: the last of them fill it. */
  lemma Refilled(w: seq<byte>, have: nat, next: nat, data: seq<byte>)
    requires WindowShape(|w|, have, next) && |data| >= |w|
    ensures InOrder(data[|data| - |w|..], |w|, 0) == Tail(InOrder(w, have, next) + data, |w|)
  {
    hide InOrder;
    var d := data[|data| - |w|..];
    InOrderIs(d, |w|, 0);
    assert d[0..] + d[..0] == d;
    var h := InOrder(w, have, next) + data;
    assert h[|h| - |w|..] == d;
  }

  lemma TailDrops(b: seq<byte>, rest: seq<byte>)
    ensures Tail(b + rest, |rest|) == rest
  {
  }

  lemma Assoc(a: seq<byte>, b: seq<byte>, c: seq<byte>)
    ensures a + b + c == a + (b + c)
  {
  }

  lemma Pieces(a: seq<byte>, b: seq<byte>, c: seq<byte>)
    ensures (a + b + c)[..|a|] == a && (a + b + c)[|a|..] == b + c
    ensures (a + b + c)[..|a| + |b|] == a + b && (a + b + c)[|a| + |b|..] == c
  {
  }

  /** Bytes `d` in the place of `b`, behind the last ones, `a`, of a window that is not yet full. */
  lemma ContinuedPart(a: seq<byte>, b: seq<byte>, c: seq<byte>, d: seq<byte>)
    requires |d| == |b| && b + c != []
    ensures var w, w', n := a + b + c, a + d + c, |a| + |d|;
            && InOrder(w, |a|, |a|) == a && |w'| == |w| && Tail(a + d, |w|) == a + d
            && InOrder(w', n, if c == [] then 0 else n) == a + d
  {
    hide InOrder;
    InOrderIs(a + b + c, |a|, |a|);
    InOrderIs(a + d + c, |a| + |d|, if c == [] then 0 else |a| + |d|);
    Pieces(a, b, c);
    Pieces(a, d, c);
    if c == [] { assert a + d + c == a + d; }
  }

  /** The same in a full one, of which `b` is the oldest part. */
  lemma ContinuedFull(a: seq<byte>, b: seq<byte>, c: seq<byte>, d: seq<byte>)
    requires |d| == |b| && b + c != []
    ensures var w, w', n := a + b + c, a + d + c, |a| + |d|;
            && InOrder(w, |w|, |a|) == b + c + a && |w'| == |w| && Tail(b + c + a + d, |w|) == c + a + d
            && InOrder(w', |w|, if c == [] then 0 else n) == c + a + d
  {
    hide InOrder, Tail;
    InOrderIs(a + b + c, |a + b + c|, |a|);
    InOrderIs(a + d + c, |a + d + c|, if c == [] then 0 else |a| + |d|);
    Pieces(a, b, c);
    Pieces(a, d, c);
    TailDrops(b, c + a + d);
    Assoc(b, c, a);
    Assoc(b, c + a, d);
    Assoc(c, a, d);
    if c == [] {
      assert (a + d + c)[0..] + (a + d + c)[..0] == a + d && c + a == a;
    }
  }

  /** Bytes that fit behind the last ones. */
  lemma Continued(w: seq<byte>, w': seq<byte>, have: nat, next: nat, data: seq<byte>)
    requires WindowShape(|w|, have, next) && |data| < |w| && next + |data| <= |w|
    requires w' == w[..next] + data + w[next + |data|..]
    ensures var n := next + |data|;
            InOrder(w', if have < |w| then have + |data| else have, if n == |w| then 0 else n) ==
              Tail(InOrder(w, have, next) + data, |w|)
  {
    hide InOrder, Tail;
    var a, b, c := w[..next], w[next..next + |data|], w[next + |data|..];
    assert w == a + b + c;
    if have == |w| {
      ContinuedFull(a, b, c, data);
    } else {
      ContinuedPart(a, b, c, data);
    }
  }

  /** Bytes `d` and `e` that go round the end of the window, in the place of `c` and `a`. */
  lemma WrappedParts(a: seq<byte>, b: seq<byte>, c: seq<byte>, d: seq<byte>, e: seq<byte>)
    requires |d| == |c| > 0 && |e| == |a|
    ensures var w, w' := a + b + c, e + b + d;
            && InOrder(w, |w|, |a| + |b|) == c + (a + b) && InOrder(w, |a| + |b|, |a| + |b|) == a + b
            && Tail(c + (a + b) + (d + e), |w|) == b + d + e && Tail(a + b + (d + e), |w|) == b + d + e
            && |w'| == |w| && InOrder(w', |w|, |e|) == b + d + e
  {
    hide InOrder, Tail;
    var w, w' := a + b + c, e + b + d;
    InOrderIs(w, |w|, |a| + |b|);
    InOrderIs(w, |a| + |b|, |a| + |b|);
    InOrderIs(w', |w|, |e|);
    Pieces(a, b, c);
    Pieces(e, b, d);
    TailDrops(c + a, b + d + e);
    TailDrops(a, b + d + e);
    Assoc(c, a, b);
    Assoc(c + a, b, d + e);
    Assoc(b, d, e);
    Assoc(a, b, d + e);
  }

  /** Bytes that go round the end of the window. */
  lemma Wrapped(w: seq<byte>, w': seq<byte>, have: nat, next: nat, data: seq<byte>)
    requires WindowShape(|w|, have, next) && |data| < |w| < next + |data|
    requires w' == data[|w| - next..] + w[next + |data| - |w|..next] + data[..|w| - next]
    ensures InOrder(w', |w|, next + |data| - |w|) == Tail(InOrder(w, have, next) + data, |w|)
  {
    hide InOrder, Tail;
    var m := next + |data| - |w|;
    var a, b, c := w[..m], w[m..next], w[next..];
    var d, e := data[..|w| - next], data[|w| - next..];
    assert w == a + b + c && data == d + e;
    WrappedParts(a, b, c, d, e);
  }

  method CopyInto(window: array<byte>, at: nat, data: seq<byte>)
    requires at + |data| <= window.Length
    modifies window
    ensures window[..] == old(window[..at]) + data + old(window[at + |data|..])
  {
    ghost var w := window[..];
    for i := 0 to |data|
      invariant window[..] == w[..at] + data[..i] + w[at + i..]
    {
      window[at + i] := data[i];
      assert window[..] == (w[..at] + data[..i] + w[at + i..])[at + i := data[i]];
      assert data[..i + 1] == data[..i] + [data[i]];
    }
    assert data[..|data|] == data;
  }

  /** What is written over the whole of a sequence, and over its end and then its start. */
  lemma Overwritten(w: seq<byte>, x: seq<byte>)
    requires |x| == |w|
    ensures w[..0] + x + w[0 + |x|..] == x
  {
  }

  lemma OverwrittenTwice(w: seq<byte>, w1: seq<byte>, next: nat, d: seq<byte>, e: seq<byte>)
    requires next + |d| == |w| && |e| <= next && w1 == w[..next] + d + w[next + |d|..]
    ensures w1[..0] + e + w1[0 + |e|..] == e + w[|e|..next] + d
  {
  }

  /** As many bytes as the window holds, or more. */
  method FillAll(window: array<byte>, ghost have: nat, ghost next: nat, data: seq<byte>)
    requires WindowShape(window.Length, have, next) && |data| >= window.Length
    modifies window
    ensures InOrder(window[..], window.Length, 0) == Tail(old(InOrder(window[..], have, next)) + data, window.Length)
  {
    hide InOrder, Tail;
    var last := data[|data| - window.Length..];
    Refilled(window[..], have, next, data);
    Overwritten(window[..], last);
    CopyInto(window, 0, last);
  }

  /** Bytes that fit behind those written last. */
  method FillBehind(window: array<byte>, ghost have: nat, next: nat, data: seq<byte>)
    requires WindowShape(window.Length, have, next) && |data| < window.Length && next + |data| <= window.Length
    modifies window
    ensures var n := next + |data|;
            InOrder(window[..], if have < window.Length then have + |data| else have,
              if n == window.Length then 0 else n)
            == Tail(old(InOrder(window[..], have, next)) + data, window.Length)
  {
    hide InOrder, Tail;
    ghost var w := window[..];
    CopyInto(window, next, data);
    Continued(w, window[..], have, next, data);
  }

  /** Bytes that do not: the first go behind, the others to the start. */
  method FillRound(window: array<byte>, ghost have: nat, next: nat, data: seq<byte>)
    requires WindowShape(window.Length, have, next) && |data| < window.Length < next + |data|
    modifies window
    ensures InOrder(window[..], window.Length, next + |data| - window.Length)
            == Tail(old(InOrder(window[..], have, next)) + data, window.Length)
  {
    hide InOrder, Tail;
    ghost var w := window[..];
    var dist := window.Length - next;
    CopyInto(window, next, data[..dist]);
    ghost var w1 := window[..];
    CopyInto(window, 0, data[dist..]);
    OverwrittenTwice(w, w1, next, data[..dist], data[dist..]);
    Wrapped(w, window[..], have, next, data);
  }

  /** `updatewindow`: the window holds the last bytes of the history. */
  method UpdateWindow(window: array<byte>, have0: nat, next0: nat, data: seq<byte>) returns (have: nat, next: nat)
    requires WindowShape(window.Length, have0, next0)
    modifies window
    ensures WindowShape(window.Length, have, next)
    ensures InOrder(window[..], have, next) == Tail(old(InOrder(window[..], have0, next0)) + data, window.Length)
  {
    hide InOrder, Tail;
    var size, copy := window.Length, |data|;
    have, next := have0, next0;
    if copy >= size {
      FillAll(window, have, next, data);
      next := 0;
      have := size;
    } else {
      var dist := size - next;
      if dist > copy { dist := copy; }
      if copy - dist > 0 {
        FillRound(window, have, next, data);
        next := copy - dist;
        have := size;
      } else {
        FillBehind(window, have, next, data);
        next := next + dist;
        if next == size { next := 0; }
        if have < size { have := have + dist; }
      }
    }
  }

  // ----- between calls -----

  lemma BytesLowFirst(b: seq<byte>)
    requires b != []
    ensures BytesLow(b) == LowBitsOf(b[0], 8) + BytesLow(b[1..])
  {
  }

  lemma Grouped<T>(a: seq<T>, b: seq<T>, c: seq<T>)
    ensures a + (b + c) == a + b + c
  {
  }

  lemma {:induction false} BytesLowConcat(a: seq<byte>, b: seq<byte>)
    ensures BytesLow(a + b) == BytesLow(a) + BytesLow(b)
  {
    hide LowBitsOf, BytesLow;
    if a == [] {
      assert a + b == b && BytesLow(a) == [];
    } else {
      BytesLowConcat(a[1..], b);
      BytesLowFirst(a);
      BytesLowFirst(a + b);
      assert (a + b)[0] == a[0] && (a + b)[1..] == a[1..] + b;
      Grouped(LowBitsOf(a[0], 8), BytesLow(a[1..]), BytesLow(b));
    }
  }

  /**
   * Between calls: `fed` is the input so far and `out` the output; the state is `n` bits into the item after `k`
   * others. The bit buffer and the input `left` hold what is not consumed.
   */
  ghost predicate Between(lens: Table, dists: Table, fed: seq<byte>, k: nat, p: nat, n: nat, g0: seq<byte>,
      out: seq<byte>, f: Fields, hold: nat, bits: nat, left: seq<byte>) {
    && TableOk(lens, false) && TableOk(dists, true) && Stands(lens, dists, BytesLow(fed), 0, [], k, p, g0)
    && p <= |BytesLow(fed)| && Midway(lens, dists, BytesLow(fed)[p..], f, n, g0, out)
    && bits <= 30 && hold < Pow2(bits) && BytesLow(fed)[p..][n..] == LowBitsOf(hold, bits) + BytesLow(left)
    && (bits < 8 || Lacks(lens, dists, f, LowBitsOf(hold, bits))) && (f.mode == MATCH ==> f.offset >= 1)
  }

  lemma BetweenStart(lens: Table, dists: Table, f: Fields)
    requires TableOk(lens, false) && TableOk(dists, true) && f.mode == LEN
    ensures Between(lens, dists, [], 0, 0, 0, [], [], f, 0, 0, [])
  {
    hide TableOk, Next;
    assert Pow2(0) == 1;
    assert LowBitsOf(0, 0) + BytesLow([]) == [];
  }

  /** More input arrives. */
  lemma BetweenFed(lens: Table, dists: Table, fed: seq<byte>, k: nat, p: nat, n: nat, g0: seq<byte>, out: seq<byte>,
      f: Fields, hold: nat, bits: nat, left: seq<byte>, chunk: seq<byte>)
    requires Between(lens, dists, fed, k, p, n, g0, out, f, hold, bits, left)
    ensures Between(lens, dists, fed + chunk, k, p, n, g0, out, f, hold, bits, left + chunk)
  {
    hide Stands, BytesLow, LowBitsOf, Pow2, TableOk, Midway, Lacks;
    BytesLowConcat(fed, chunk);
    BytesLowConcat(left, chunk);
    var s, u := BytesLow(fed), BytesLow(chunk);
    StandsLonger(lens, dists, s, u, 0, [], k, p, g0);
    MidwayMore(lens, dists, s[p..], u, f, n, g0, out);
    MidwayWithin(lens, dists, s[p..], f, n, g0, out);
    assert (s + u)[p..] == s[p..] + u && (s[p..] + u)[n..] == s[p..][n..] + u;
    assert LowBitsOf(hold, bits) + BytesLow(left) + u == LowBitsOf(hold, bits) + (BytesLow(left) + u);
  }

  /** The last bytes of the output, and those before them. */
  lemma TailSplit(out: seq<byte>, size: nat) returns (x: seq<byte>)
    ensures out == x + Tail(out, size)
  {
    x := out[..|out| - |Tail(out, size)|];
  }

  lemma TailTwice(x: seq<byte>, h: seq<byte>, d: seq<byte>, size: nat)
    requires h == Tail(x + h, size)
    ensures Tail(h + d, size) == Tail(x + (h + d), size)
  {
    var all := x + (h + d);
    if |h + d| > size {
      assert (h + d)[|h + d| - size..] == all[|all| - size..];
    } else {
      assert |x| == 0 || |h| == size;
      assert |x| == 0 || d == [];
      if |x| == 0 { assert all == h + d; } else { assert all == x + h && h + d == h; }
    }
  }

  /** What a call starts from, and the history it has at its end. */
  lemma HistoryFrom(o: Output)
    requires o.Valid() && o.beg == 0
    ensures o.History() == InOrder(o.window[..], o.whave, o.wnext) + o.out[..o.outPos]
  {
  }

  lemma TailReach(x: seq<byte>, h: seq<byte>, g: seq<byte>, size: nat)
    requires h == Tail(x + h, size) && |g| >= |h|
    ensures |Tail(x + g, size)| <= |g|
  {
  }

  /** A call begins where the last one paused. */
  lemma CallStarts(z: Inflater, fed: seq<byte>, k: nat, p: nat, n: nat, g0: seq<byte>, out: seq<byte>, f: Fields,
      hold: nat, bits: nat)
    requires Between(z.lens, z.dists, fed, k, p, n, g0, out, f, hold, bits, z.input)
    requires z.Valid() && z.before == LowBitsOf(hold, bits) && z.consumed == 0 && z.inPos == 0 && z.bits == bits
    ensures Reading(z, f, BytesLow(fed), k, p, n, g0, out)
  {
    hide Stands, BytesLow, LowBitsOf, Pow2, TableOk, Midway, Lacks, Inflater.Valid;
    z.BufferIs();
    assert z.Unread() == z.Stream() && z.Buffer() == z.before;
  }

  /** And leaves the state, the bit buffer and the rest of its input. */
  lemma CallLeaves(z: Inflater, fed: seq<byte>, k: nat, p: nat, n: nat, g0: seq<byte>, out: seq<byte>, f: Fields)
    requires Reading(z, f, BytesLow(fed), k, p, n, g0, out)
    ensures z.inPos <= |z.input|
      && Between(z.lens, z.dists, fed, k, p, n, g0, out, f, z.hold, z.bits, z.input[z.inPos..])
  {
    hide Stands, BytesLow, LowBitsOf, Pow2, TableOk, Midway, Lacks, Inflater.Valid, Inflater.Stream, Inflater.Buffer,
      Inflater.Unread;
    z.UnreadParts();
    z.BufferIs();
    HoldBound(z);
    z.Accounts();
    BufferHolds(z);
  }

  lemma BufferHolds(z: Inflater)
    requires z.Valid()
    ensures z.consumed + z.bits <= |z.Stream()| && z.Buffer() == LowBitsOf(z.hold, z.bits)
  {
    hide TableOk, LowVal, Inflater.Stream, Pow2, LowBitsOf;
    z.BufferIs();
    LowBitsAgain(z.Stream()[z.consumed..z.consumed + z.bits]);
  }

  lemma HoldBound(z: Inflater)
    requires z.Valid()
    ensures z.hold < Pow2(z.bits)
  {
    hide TableOk, LowVal, Inflater.Stream, Pow2;
    LowValBound(z.Stream()[z.consumed..z.consumed + z.bits]);
  }

  /**
   * Why the calls have paused: nothing is left of the input and it does not suffice for the next item, or the last call
   * has no room; or they have ended, at the end of the block, at no code, or at a match that reaches back too far.
   */
  ghost predicate Paused(lens: Table, dists: Table, s: seq<bit>, p: nat, mode: Mode, out: seq<byte>, size: nat,
      left: seq<byte>, full: bool)
    requires TableOk(lens, false) && TableOk(dists, true) && p <= |s|
  {
    match mode
    case TYPE => true
    case BAD => Far(lens, dists, s, p, |Tail(out, size)|)
    case MATCH => full
    case LIT => full
    case _ => left == [] && Next(lens, dists, s[p..]).0.TooFewBits?
  }

  lemma CallPauses(z: Inflater, o: Output, mode: Mode, s: seq<bit>, p: nat, x: seq<byte>, h: seq<byte>, size: nat)
    requires TableOk(z.lens, false) && TableOk(z.dists, true) && p <= |s| && o.Valid() && Pauses(z, o, mode, s, p)
    requires h == Tail(x + h, size) && |o.History()| >= |h| && z.inPos <= |z.input|
    ensures Paused(z.lens, z.dists, s, p, mode, x + o.History(), size, z.input[z.inPos..], o.outPos == o.out.Length)
  {
    hide TableOk, Next, Output.History, Tail;
    TailReach(x, h, o.History(), size);
  }

  lemma BetweenGives(lens: Table, dists: Table, fed: seq<byte>, k: nat, p: nat, n: nat, g0: seq<byte>, out: seq<byte>,
      f: Fields, hold: nat, bits: nat, left: seq<byte>)
    requires Between(lens, dists, fed, k, p, n, g0, out, f, hold, bits, left)
    ensures TableOk(lens, false) && TableOk(dists, true) && Stands(lens, dists, BytesLow(fed), 0, [], k, p, g0)
    ensures p <= |BytesLow(fed)| && Midway(lens, dists, BytesLow(fed)[p..], f, n, g0, out)
    ensures bits <= 30 && hold < Pow2(bits)
  {
    hide TableOk, Stands, BytesLow, LowBitsOf, Pow2, Midway, Lacks;
  }

  /** One call on the input at hand, with fresh room for its output; then the window is brought up to date. */
  method OneCall(lens: Table, dists: Table, st: Stage, hold0: nat, bits0: nat, left0: seq<byte>, room: nat,
      window: array<byte>, have0: nat, next0: nat, ghost fed: seq<byte>, ghost k0: nat, ghost p0: nat, ghost n0: nat,
      ghost g00: seq<byte>, ghost out0: seq<byte>) returns (more: seq<byte>, hold: nat, bits: nat, left: seq<byte>,
      have: nat, next: nat, ghost k: nat, ghost p: nat, ghost n: nat, ghost g0: seq<byte>)
    requires Between(lens, dists, fed, k0, p0, n0, g00, out0, st.All(), hold0, bits0, left0)
    requires st.mode != TYPE && st.mode != BAD
    requires WindowShape(window.Length, have0, next0) && InOrder(window[..], have0, next0) == Tail(out0, window.Length)
    modifies window, st
    ensures Between(lens, dists, fed, k, p, n, g0, out0 + more, st.All(), hold, bits, left) && |more| <= room
    ensures TableOk(lens, false) && TableOk(dists, true) && p <= |BytesLow(fed)|
    ensures Paused(lens, dists, BytesLow(fed), p, st.mode, out0 + more, window.Length, left, |more| == room)
    ensures WindowShape(window.Length, have, next)
    ensures InOrder(window[..], have, next) == Tail(out0 + more, window.Length)
  {
    hide *;
    ghost var size := window.Length;
    ghost var x := TailSplit(out0, size);
    ghost var h, s := Tail(out0, size), BytesLow(fed);
    BetweenGives(lens, dists, fed, k0, p0, n0, g00, out0, st.All(), hold0, bits0, left0);
    ShapeIs(window.Length, have0, next0);
    var z := new Inflater(left0, lens, dists, hold0, bits0);
    var buf := new byte[room];
    var o := new Output(buf, 0, 0, window, have0, next0);
    HistoryFrom(o);
    assert h + buf[..0] == h;
    CallStarts(z, fed, k0, p0, n0, g00, out0, st.All(), hold0, bits0);
    k, p, n, g0 := Continue(z, o, st, s, k0, p0, n0, g00, x);
    o.Accounts();
    HistoryFrom(o);
    more := buf[..o.outPos];
    CallLeaves(z, fed, k, p, n, g0, x + o.History(), st.All());
    CallPauses(z, o, st.mode, s, p, x, h, size);
    TailTwice(x, h, more, size);
    assert x + (h + more) == out0 + more;
    hold, bits, left := z.hold, z.bits, z.input[z.inPos..];
    have, next := UpdateWindow(window, have0, next0, more);
  }

  lemma ShapeIs(size: nat, have: nat, next: nat)
    requires WindowShape(size, have, next)
    ensures 0 < size && (have == size || have == next) && next <= have && next < size && have <= size
  {
  }

  function AllOf(chunks: seq<seq<byte>>): seq<byte> {
    if chunks == [] then [] else AllOf(chunks[..|chunks| - 1]) + chunks[|chunks| - 1]
  }

  lemma AllOfNone(chunks: seq<seq<byte>>)
    ensures AllOf(chunks[..0]) == []
  {
  }

  lemma {:induction false} AllOfNext(chunks: seq<seq<byte>>, i: nat)
    requires i < |chunks|
    ensures AllOf(chunks[..i + 1]) == AllOf(chunks[..i]) + chunks[i] && AllOf(chunks[..i + 1]) <= AllOf(chunks)
    decreases |chunks|
  {
    assert chunks[..i + 1][..i] == chunks[..i];
    if i + 1 < |chunks| {
      var fewer := chunks[..|chunks| - 1];
      AllOfNext(fewer, i);
      assert fewer[..i + 1] == chunks[..i + 1];
    } else {
      assert chunks[..i + 1] == chunks;
    }
  }

  /** What a number of calls has come to, that began with no history at the start of the block. */
  ghost predicate Reached(lens: Table, dists: Table, s: seq<bit>, k: nat, f: Fields, out: seq<byte>) {
    && TableOk(lens, false) && TableOk(dists, true)
    && var p, g0 := After(lens, dists, s, 0, k), Played(lens, dists, s, 0, [], k);
       Playable(lens, dists, s, 0, [], k) && exists n :: 0 <= n <= |s| && Midway(lens, dists, s[p..], f, n, g0, out)
  }

  lemma ReachedIs(lens: Table, dists: Table, fed: seq<byte>, k: nat, p: nat, n: nat, g0: seq<byte>, out: seq<byte>,
      f: Fields, hold: nat, bits: nat, left: seq<byte>)
    requires Between(lens, dists, fed, k, p, n, g0, out, f, hold, bits, left)
    ensures Reached(lens, dists, BytesLow(fed), k, f, out)
    ensures p == After(lens, dists, BytesLow(fed), 0, k)
  {
    hide TableOk, BytesLow, LowBitsOf, Pow2, Midway, Lacks, Played, Playable, After;
    MidwayWithin(lens, dists, BytesLow(fed)[p..], f, n, g0, out);
  }

  lemma EmptyWindow(window: seq<byte>)
    requires window != []
    ensures WindowShape(|window|, 0, 0) && InOrder(window, 0, 0) == Tail([], |window|)
  {
  }

  /**
   * Calls of inflate on the items of a block, whichever chunks the input comes in and whatever room each call finds,
   * none included. What they put out together is what the items stand for, up to part of a match; matches reach back
   * through the window into the output of earlier calls. They pause only where all the input is consumed and does not
   * suffice for the next item, or where there is something to put out and the last call has used up its room.
   */
  method InflateCalls(lens: Table, dists: Table, inputs: seq<seq<byte>>, rooms: seq<nat>, window: array<byte>)
    returns (st: Stage, out: seq<byte>, left: seq<byte>, ghost fed: seq<byte>, ghost k: nat, ghost last: nat)
    requires TableOk(lens, false) && TableOk(dists, true) && |rooms| == |inputs| && window.Length > 0
    modifies window
    ensures fresh(st) && Reached(lens, dists, BytesLow(fed), k, st.All(), out) && fed <= AllOf(inputs)
    ensures st.mode != TYPE && st.mode != BAD ==> fed == AllOf(inputs)
    ensures inputs != [] ==> Paused(lens, dists, BytesLow(fed), After(lens, dists, BytesLow(fed), 0, k), st.mode, out,
      window.Length, left, |rooms| > 0 && last == rooms[|rooms| - 1])
  {
    hide TableOk, BytesLow, Between, Reached, InOrder, Tail, Midway, After, Paused, LowBitsOf;
    var hold, bits, have, next := 0, 0, 0, 0;
    st := new Stage();
    ghost var p, n, g0: seq<byte> := 0, 0, [];
    out, left, fed, k, last := [], [], [], 0, 0;
    BetweenStart(lens, dists, st.All());
    ReachedIs(lens, dists, fed, k, p, n, g0, out, st.All(), hold, bits, left);
    EmptyWindow(window[..]);
    AllOfNone(inputs);
    for i := 0 to |inputs|
      modifies window, st
      invariant fed == AllOf(inputs[..i]) && st.mode != TYPE && st.mode != BAD
      invariant Between(lens, dists, fed, k, p, n, g0, out, st.All(), hold, bits, left)
      invariant Reached(lens, dists, BytesLow(fed), k, st.All(), out) && fed <= AllOf(inputs)
      invariant WindowShape(window.Length, have, next) && InOrder(window[..], have, next) == Tail(out, window.Length)
      invariant i > 0 ==> Paused(lens, dists, BytesLow(fed), After(lens, dists, BytesLow(fed), 0, k), st.mode, out,
        window.Length, left, last == rooms[i - 1])
    {
      AllOfNext(inputs, i);
      BetweenFed(lens, dists, fed, k, p, n, g0, out, st.All(), hold, bits, left, inputs[i]);
      left := left + inputs[i];
      fed := fed + inputs[i];
      var more;
      more, hold, bits, left, have, next, k, p, n, g0 :=
        OneCall(lens, dists, st, hold, bits, left, rooms[i], window, have, next, fed, k, p, n, g0, out);
      out := out + more;
      last := |more|;
      ReachedIs(lens, dists, fed, k, p, n, g0, out, st.All(), hold, bits, left);
      if st.mode == TYPE || st.mode == BAD {
        PausedAnyway(lens, dists, BytesLow(fed), p, st.mode, out, window.Length, left, last == rooms[i],
          last == rooms[|rooms| - 1]);
        return;
      }
    }
    assert inputs[..|inputs|] == inputs;
  }

  /** At the end it does not matter whether the room was used up. */
  lemma PausedAnyway(lens: Table, dists: Table, s: seq<bit>, p: nat, mode: Mode, out: seq<byte>, size: nat,
      left: seq<byte>, full: bool, full': bool)
    requires TableOk(lens, false) && TableOk(dists, true) && p <= |s| && (mode == TYPE || mode == BAD)
    requires Paused(lens, dists, s, p, mode, out, size, left, full)
    ensures Paused(lens, dists, s, p, mode, out, size, left, full')
  {
    hide TableOk;
  }

  // ----- joined to the compressor, symbol by symbol -----

  /** The stream carries these symbols and then the end of the block. */
  ghost predicate CarriesAll(lens: Table, dists: Table, s: seq<bit>, syms: seq<Symbol>)
    requires TableOk(lens, false) && TableOk(dists, true)
  {
    Carries(lens, dists, s, 0, syms) && Next(lens, dists, s[After(lens, dists, s, 0, |syms|)..]).0 == EndOfBlock
  }

  /** No more items are taken than there are symbols. */
  lemma {:induction false} TakenWithin(lens: Table, dists: Table, s: seq<bit>, syms: seq<Symbol>, k: nat)
    requires TableOk(lens, false) && TableOk(dists, true) && CarriesAll(lens, dists, s, syms)
      && Playable(lens, dists, s, 0, [], k)
    ensures k <= |syms|
  {
    hide TableOk, Next, CopyBack;
    if k > |syms| + 1 {
      TakenWithin(lens, dists, s, syms, k - 1);
    }
  }

  lemma CarriesFront(lens: Table, dists: Table, s: seq<bit>, syms: seq<Symbol>, k: nat)
    requires TableOk(lens, false) && TableOk(dists, true) && Carries(lens, dists, s, 0, syms) && k <= |syms|
    ensures Carries(lens, dists, s, 0, syms[..k])
    ensures k < |syms| ==> Same(Next(lens, dists, s[After(lens, dists, s, 0, k)..]).0, syms[k])
  {
    hide TableOk, Next;
  }

  lemma {:induction false} ExpandGrows(syms: seq<Symbol>, k: nat)
    requires WellFormed(syms) && k <= |syms|
    ensures WellFormed(syms[..k]) && Expand(syms[..k]) <= Expand(syms)
    decreases |syms|
  {
    if k < |syms| {
      var n := |syms| - 1;
      ExpandGrows(syms[..n], k);
      assert syms[..n][..k] == syms[..k];
      if syms[n].Match? { CopyExtends(Expand(syms[..n]), syms[n].dist, syms[n].len); }
    } else {
      assert syms[..k] == syms;
    }
  }

  /** A match of the compressor reaches back no further than the bytes before it, nor than its window. */
  lemma {:induction false} NextFits(syms: seq<Symbol>, k: nat, size: nat)
    requires WellFormed(syms) && Legal(syms, size) && k < |syms|
    ensures WellFormed(syms[..k]) && (syms[k].Match? ==> syms[k].dist <= |Tail(Expand(syms[..k]), size)|)
    decreases |syms|
  {
    hide Expand;
    if k < |syms| - 1 {
      var n := |syms| - 1;
      NextFits(syms[..n], k, size);
      assert syms[..n][..k] == syms[..k];
    }
  }

  /** A part of a match is a prefix of what the match makes. */
  lemma PartlyPrefix(g0: seq<byte>, dist: nat, len: nat, done: nat, g: seq<byte>)
    requires Partly(g0, dist, done, g) && done < len && 1 <= dist <= |g0|
    ensures g < CopyBack(g0, dist, len) && |g| >= |g0|
  {
    hide CopyBack;
    CopyBackOne(g0, dist);
    CopyBackMore(g0, dist, done, len - done);
    CopyExtends(g, dist, len - done);
    CopyExtends(g0, dist, done);
  }

  lemma TailGrows(g: seq<byte>, h: seq<byte>, size: nat)
    requires |g| <= |h|
    ensures |Tail(g, size)| <= |Tail(h, size)|
  {
  }

  /** At symbol `k`: what is out lies between the expansion up to it and the one with it, and nothing is wrong. */
  lemma AtSymbol(lens: Table, dists: Table, s: seq<bit>, syms: seq<Symbol>, k: nat, f: Fields, n: nat, g0: seq<byte>,
      out: seq<byte>, size: nat)
    requires TableOk(lens, false) && TableOk(dists, true) && k < |syms| && WellFormed(syms) && Legal(syms, size)
    requires Same(Next(lens, dists, s).0, syms[k]) && WellFormed(syms[..k]) && g0 == Expand(syms[..k])
    requires Midway(lens, dists, s, f, n, g0, out)
    ensures f.mode != TYPE && (f.mode == BAD ==> !Far(lens, dists, s, 0, |Tail(out, size)|))
    ensures out <= Expand(syms) && |out| < |Expand(syms)|
  {
    hide TableOk, Next, Expand, WellFormed, Legal, Short, PieceOf, Partly, CopyBack, Tail;
    NextFits(syms, k, size);
    ExpandGrows(syms, k);
    ExpandMore(syms, k);
    assert s[0..] == s;
    var i := Next(lens, dists, s).0;
    if f.mode == BAD {
      var done :| 0 <= done < i.len && Partly(g0, i.dist, done, out);
      ReachTail(g0, size);
      PartlyPrefix(g0, i.dist, i.len, done, out);
      TailGrows(g0, out, size);
    } else if f.mode == MATCH {
      ReachTail(g0, size);
      PartlyPrefix(g0, i.dist, i.len, i.len - f.length, out);
    } else {
      MidwayWithin(lens, dists, s, f, n, g0, out);
    }
  }

  lemma ReachTail(g: seq<byte>, size: nat)
    ensures |Tail(g, size)| <= |g|
  {
  }

  /** One symbol more is at least a byte more. */
  lemma ExpandMore(syms: seq<Symbol>, k: nat)
    requires WellFormed(syms) && k < |syms| && WellFormed(syms[..k]) && (syms[k].Match? ==> syms[k].len >= 1)
    ensures WellFormed(syms[..k + 1]) && |Expand(syms[..k])| < |Expand(syms[..k + 1])| <= |Expand(syms)|
    ensures Expand(syms[..k + 1]) <= Expand(syms)
    ensures syms[k].Match? ==> 1 <= syms[k].dist <= |Expand(syms[..k])|
    ensures syms[k].Match? ==> Expand(syms[..k + 1]) == CopyBack(Expand(syms[..k]), syms[k].dist, syms[k].len)
  {
    hide CopyBack;
    ExpandGrows(syms, k + 1);
    assert syms[..k + 1][..k] == syms[..k] && syms[..k + 1][k] == syms[k];
  }

  /**
   * What the compressor tallied for an input comes out of the calls again. As long as what was fed is the beginning of
   * a stream that carries the symbols, no call fails and what they put out is a prefix of the input; once the end of
   * the block is reported it is all of it. When the whole stream has been fed, nothing but want of room can keep the
   * calls from getting there. The window must be as large as the distances.
   */
  lemma CallsRestore(lens: Table, dists: Table, s: seq<bit>, rest: seq<bit>, k: nat, f: Fields, out: seq<byte>,
                     size: nat, left: seq<byte>, full: bool, syms: seq<Symbol>, input: seq<byte>, pos: nat)
    requires Reached(lens, dists, s, k, f, out)
    requires Paused(lens, dists, s, After(lens, dists, s, 0, k), f.mode, out, size, left, full)
    requires CarriesAll(lens, dists, s + rest, syms) && Spells(syms, input, pos, size)
    ensures f.mode != BAD && pos <= |input| && out <= input[..pos] && (f.mode == TYPE ==> out == input[..pos])
    ensures rest == [] ==> f.mode == TYPE || (full && |out| < pos)
  {
    hide TableOk, Next, Expand, Played, Playable, After, WellFormed, Legal, Midway, Tail, Partly;
    var t, p, g0 := s + rest, After(lens, dists, s, 0, k), Played(lens, dists, s, 0, [], k);
    var n :| 0 <= n <= |s| && Midway(lens, dists, s[p..], f, n, g0, out);
    StandsLonger(lens, dists, s, rest, 0, [], k, p, g0);
    MidwayMore(lens, dists, s[p..], rest, f, n, g0, out);
    assert t[p..] == s[p..] + rest;
    TakenWithin(lens, dists, t, syms, k);
    CarriesFront(lens, dists, t, syms, k);
    ExpandGrows(syms, k);
    PlayedIsExpanded(lens, dists, t, 0, syms[..k]);
    if rest == [] { assert t == s; }
    if k < |syms| {
      AtSymbol(lens, dists, t[p..], syms, k, f, n, g0, out, size);
      if f.mode == BAD { FarMore(lens, dists, s, rest, p, f, n, g0, out, |Tail(out, size)|); }
    } else {
      assert syms[..k] == syms;
      AtEnd(lens, dists, t[p..], f, n, g0, out);
    }
  }

  lemma FarMore(lens: Table, dists: Table, s: seq<bit>, u: seq<bit>, p: nat, f: Fields, n: nat, g0: seq<byte>,
      g: seq<byte>, reach: nat)
    requires TableOk(lens, false) && TableOk(dists, true) && p <= |s| && f.mode == BAD
    requires Midway(lens, dists, s[p..], f, n, g0, g) && Far(lens, dists, s, p, reach)
    ensures Far(lens, dists, (s + u)[p..], 0, reach)
  {
    hide TableOk, Next, Partly;
    assert (s + u)[p..] == s[p..] + u && (s + u)[p..][0..] == (s + u)[p..];
    NextMore(lens, dists, s[p..], u);
  }

  /** At the end of the block nothing but that can be reported. */
  lemma AtEnd(lens: Table, dists: Table, s: seq<bit>, f: Fields, n: nat, g0: seq<byte>, g: seq<byte>)
    requires TableOk(lens, false) && TableOk(dists, true) && Next(lens, dists, s).0 == EndOfBlock
    requires Midway(lens, dists, s, f, n, g0, g)
    ensures g == g0 && f.mode != BAD && f.mode != MATCH && f.mode != LIT
  {
    hide TableOk, Next, Partly, Short, PieceOf;
  }
}
