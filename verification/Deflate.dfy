/** The LZ77 layer of the compressor: sliding window, hash chains, match search, the parsers, and calls of `deflate`. */
module Deflate {
  import opened Bytes
  import opened Arithmetic
  import opened RollingHash
  import opened HashChains
  import opened Lz77Symbols
  import opened ParseRules

  const TOO_FAR := 4096
  const MAX_STORED := 65535

  /** The code of the last flush, or -1 or -2 if there is none that counts. */
  type FlushCode = f: int | -2 <= f <= 5

  /** `RANK`: a block flush ranks between none and a partial one. */
  function Rank(f: int): int {
    2 * f - if f > 4 then 9 else 0
  }

  /** What a call of `deflate` returns. */
  datatype Outcome = Fine | StreamEnd | StreamError | BufError
  datatype Strategy = DefaultStrategy | Filtered | HuffmanOnly | Rle | Fixed
  /** The room for output that a call finds: none, some, or more than it will use. */
  datatype Space = NoRoom | SomeRoom | AmpleRoom
  datatype BlockState = NeedMore | BlockDone | FinishStarted | FinishDone

  /** What a parser reports that is not held up by want of room. */
  function Quiet(flush: Flush): BlockState {
    if flush.NoFlush? then NeedMore else if flush.Finish? then FinishDone else BlockDone
  }

  /** The first `n` bytes of the window are the input from absolute position `base` on. */
  ghost predicate Holds(win: seq<byte>, input: seq<byte>, base: nat, n: nat) {
    n <= |win| && |input| == base + n && forall k | 0 <= k < n :: win[k] == input[base + k]
  }

  /** One line of the configuration table. */
  datatype Config = Config(good: nat, lazy: nat, nice: nat, chain: nat, slow: bool)

  function Configuration(level: nat): Config
    requires 0 <= level <= 9
  {
    match level
    case 0 => Config(0, 0, 0, 0, false)
    case 1 => Config(4, 4, 8, 4, false)
    case 2 => Config(4, 5, 16, 8, false)
    case 3 => Config(4, 6, 32, 32, false)
    case 4 => Config(4, 4, 16, 16, true)
    case 5 => Config(8, 16, 32, 32, true)
    case 6 => Config(8, 16, 128, 128, true)
    case 7 => Config(8, 32, 128, 256, true)
    case 8 => Config(32, 128, 258, 1024, true)
    case _ => Config(32, 258, 258, 4096, true)
  }

  lemma LimitsOk(level: nat)
    requires 0 <= level <= 9
    ensures Configuration(level).chain < 0x1_0000_0000
  {
  }

  /** The parser that a level and a strategy select. */
  function ParserOf(level: nat, strategy: Strategy): Parser
    requires 0 <= level <= 9
  {
    if level == 0 then Stored
    else if strategy.HuffmanOnly? then Literals
    else if strategy.Rle? then Runs
    else if Configuration(level).slow then Slow
    else Fast
  }

  lemma PowRange(bits: nat)
    requires 9 <= bits <= 15
    ensures 512 <= Pow2(bits) <= 32768
  {
    assert Pow2(9) == 512;
    assert Pow2(11) == 2048;
    assert Pow2(13) == 8192;
    assert Pow2(15) == 32768;
  }

  lemma {:induction false} BufferSize(memLevel: nat)
    requires memLevel >= 1
    ensures 4 * Pow2(memLevel + 6) >= 512
  {
    if memLevel > 1 {
      BufferSize(memLevel - 1);
    } else {
      assert Pow2(5) == 32;
    }
  }

  // ----- stored blocks -----

  function AsLiterals(bytes: seq<byte>): (r: seq<Symbol>)
    ensures |r| == |bytes|
  {
    seq(|bytes|, k requires 0 <= k < |bytes| => Literal(bytes[k]))
  }

  lemma {:induction false} TellsLiterals(syms: seq<Symbol>, points: seq<Point>, input: seq<byte>, pos: nat,
      maxDist: int, n: nat)
    requires Tells(syms, points, input, pos, maxDist) && pos + n <= |input|
    ensures Tells(syms + AsLiterals(input[pos..pos + n]), points, input, pos + n, maxDist)
  {
    hide Tells;
    if n == 0 {
      assert syms + AsLiterals(input[pos..pos]) == syms;
    } else {
      TellsLiterals(syms, points, input, pos, maxDist, n - 1);
      TellsLiteral(syms + AsLiterals(input[pos..pos + n - 1]), points, input, pos + n - 1, maxDist);
      assert syms + AsLiterals(input[pos..pos + n - 1]) + [Literal(input[pos + n - 1])] ==
        syms + AsLiterals(input[pos..pos + n]);
    }
  }

  function TotalLen(lens: seq<nat>): nat {
    if lens == [] then 0 else TotalLen(lens[..|lens| - 1]) + lens[|lens| - 1]
  }

  /** No stored block is longer than its 16 bits of length can say, and together they hold so many bytes. */
  ghost predicate StoredLens(lens: seq<nat>, n: nat) {
    (forall k | 0 <= k < |lens| :: lens[k] <= 65535) && TotalLen(lens) == n
  }

  lemma StoredMore(lens: seq<nat>, n: nat, len: nat)
    requires StoredLens(lens, n) && len <= 65535
    ensures StoredLens(lens + [len], n + len)
  {
    assert (lens + [len])[..|lens|] == lens;
  }

  /** The least size of a stored block that is worth it: the pending buffer without a header, or the window. */
  function WorthyLength(wSize: nat, bufSize: nat): int {
    if bufSize - 7 < wSize then bufSize - 7 else wSize
  }

  /**
   * A stored block is made only if it is worth it, or if it ends with all of the input and all of it is to be flushed.
   */
  ghost predicate Worthy(lens: seq<nat>, k: nat, least: int, flush: Flush, all: nat) {
    k < |lens| && (lens[k] >= least || (!flush.NoFlush? && TotalLen(lens[..k + 1]) == all))
  }

  /**
   * The blocks stored in one call, with `all` bytes of input until its end: no needlessly small ones, and of the
   * greatest length all but the last two, one made directly in the output and one in the pending buffer.
   */
  ghost predicate StoredWell(before: seq<nat>, lens: seq<nat>, least: int, flush: Flush, all: nat) {
    && before <= lens && (forall k | |before| <= k < |lens| :: Worthy(lens, k, least, flush, all))
    && forall k | |before| <= k < |lens| - 2 :: lens[k] == 65535
  }

  /** The same while blocks are made directly in the output: `more` says that there may be more of them. */
  ghost predicate StoredSoFar(before: seq<nat>, lens: seq<nat>, least: int, flush: Flush, all: nat, more: bool) {
    && before <= lens && (forall k | |before| <= k < |lens| :: Worthy(lens, k, least, flush, all))
    && forall k | |before| <= k < |lens| - if more then 0 else 1 :: lens[k] == 65535
  }

  lemma NoneStored(lens: seq<nat>, least: int, flush: Flush, all: nat, more: bool)
    ensures StoredWell(lens, lens, least, flush, all) && StoredSoFar(lens, lens, least, flush, all, more)
  {
  }

  lemma OneMore(before: seq<nat>, lens: seq<nat>, least: int, flush: Flush, all: nat, len: nat, more: bool)
    requires StoredSoFar(before, lens, least, flush, all, true)
    requires len >= least || (!flush.NoFlush? && TotalLen(lens) + len == all)
    requires more ==> len == 65535
    ensures StoredSoFar(before, lens + [len], least, flush, all, more)
  {
    var lens' := lens + [len];
    assert lens'[..|lens|] == lens;
    forall k | |before| <= k < |lens'| ensures Worthy(lens', k, least, flush, all) {
      if k < |lens| {
        assert Worthy(lens, k, least, flush, all) && lens'[..k + 1] == lens[..k + 1];
      } else {
        assert lens'[..k + 1] == lens';
      }
    }
  }

  lemma SoFarEnds(before: seq<nat>, lens: seq<nat>, least: int, flush: Flush, all: nat, more: bool)
    requires StoredSoFar(before, lens, least, flush, all, more)
    ensures StoredSoFar(before, lens, least, flush, all, false)
  {
    hide TotalLen;
  }

  lemma LastStored(before: seq<nat>, lens: seq<nat>, least: int, flush: Flush, all: nat, more: bool)
    requires StoredSoFar(before, lens, least, flush, all, more)
    ensures StoredWell(before, lens, least, flush, all)
  {
    hide TotalLen;
  }

  lemma PendingStored(before: seq<nat>, lens: seq<nat>, least: int, flush: Flush, all: nat, len: nat)
    requires StoredSoFar(before, lens, least, flush, all, false)
    requires len >= least || (!flush.NoFlush? && TotalLen(lens) + len == all)
    ensures StoredWell(before, lens + [len], least, flush, all)
  {
    var lens' := lens + [len];
    assert lens'[..|lens|] == lens;
    forall k | |before| <= k < |lens'| ensures Worthy(lens', k, least, flush, all) {
      if k < |lens| {
        assert Worthy(lens, k, least, flush, all) && lens'[..k + 1] == lens[..k + 1];
      } else {
        assert lens'[..k + 1] == lens';
      }
    }
  }

  lemma HoldsSlice(win: seq<byte>, input: seq<byte>, base: nat, n: nat, lo: nat, hi: nat)
    requires Holds(win, input, base, n) && lo <= hi <= n
    ensures hi <= |win| && base + hi <= |input| && win[lo..hi] == input[base + lo..base + hi]
  {
    forall k | 0 <= k < hi - lo ensures win[lo..hi][k] == input[base + lo..base + hi][k] {
      assert win[lo + k] == input[base + (lo + k)];
    }
  }

  ghost predicate AllAre(win: seq<byte>, lo: nat, hi: nat, b: byte) {
    hi <= |win| && forall k | lo <= k < hi :: win[k] == b
  }

  /** The two strings, at window indices `x` and `y`, have the same byte at offset `t`. */
  ghost predicate SameAt(win: seq<byte>, x: int, y: int, t: int) {
    0 <= x + t < |win| && 0 <= y + t < |win| && win[x + t] == win[y + t]
  }

  /** Bytes of the window agree where the input does. */
  lemma RepeatsInWindow(win: seq<byte>, input: seq<byte>, base: nat, n: nat, str: nat, cur: nat, len: nat)
    requires Holds(win, input, base, n) && cur < str && str + len <= n
    requires forall t | 0 <= t < len :: SameAt(win, cur, str, t)
    ensures Repeats(input, base + str, str - cur, len)
  {
    forall a | base + str <= a < base + str + len ensures input[a] == input[a - (str - cur)] {
      var t := a - base - str;
      assert SameAt(win, cur, str, t);
      assert win[str + t] == input[base + (str + t)] && win[cur + t] == input[base + (cur + t)];
    }
  }

  lemma ThirdByte(bits: nat, win: seq<byte>, input: seq<byte>, base: nat, n: nat, str: nat, cur: nat)
    requires bits >= 8 && Holds(win, input, base, n) && cur < str && str + 2 < n
    requires HashAt(bits, input, base + cur) == HashAt(bits, input, base + str)
    requires win[cur] == win[str] && win[cur + 1] == win[str + 1]
    ensures win[cur + 2] == win[str + 2]
  {
    hide UpdateHash, Hash3, Pow2;
    assert win[cur] == input[base + cur] && win[str] == input[base + str];
    assert win[cur + 1] == input[base + (cur + 1)] && win[str + 1] == input[base + (str + 1)];
    assert win[cur + 2] == input[base + (cur + 2)] && win[str + 2] == input[base + (str + 2)];
    ThirdByteForced(bits, win[str], win[str + 1], win[cur + 2], win[str + 2]);
  }

  lemma HoldsPrefix(win: seq<byte>, win': seq<byte>, input: seq<byte>, base: nat, n: nat)
    requires Holds(win, input, base, n) && |win'| == |win| && forall k | 0 <= k < n :: win'[k] == win[k]
    ensures Holds(win', input, base, n)
  {
  }

  lemma HoldsNone(win: seq<byte>, input: seq<byte>)
    ensures Holds(win, input, |input|, 0)
  {
  }

  lemma HoldsLength(win: seq<byte>, input: seq<byte>, base: nat, n: nat)
    requires Holds(win, input, base, n)
    ensures |input| == base + n && n <= |win|
  {
  }

  lemma HoldsAt(win: seq<byte>, input: seq<byte>, base: nat, n: nat, k: nat)
    requires Holds(win, input, base, n) && k < n
    ensures |input| == base + n <= base + |win| && win[k] == input[base + k]
  {
  }

  lemma ReadyGives(bits: nat, insH: nat, input: seq<byte>, a: nat, win: seq<byte>, base: nat, n: nat)
    requires Ready(bits, insH, input, a) && Holds(win, input, base, n) && base <= a && a + 2 < base + n
    ensures UpdateHash(bits, insH, win[a - base + 2]) == HashAt(bits, input, a)
  {
    hide UpdateHash, Hash3;
    assert win[a - base + 2] == input[base + (a - base + 2)];
  }

  lemma HoldsMore(win: seq<byte>, win': seq<byte>, input: seq<byte>, more: seq<byte>, base: nat, n: nat)
    requires Holds(win, input, base, n) && |win'| == |win| && n + |more| <= |win|
    requires (forall i | 0 <= i < n :: win'[i] == win[i]) && forall i | 0 <= i < |more| :: win'[n + i] == more[i]
    ensures Holds(win', input + more, base, n + |more|)
  {
    forall k | 0 <= k < n + |more| ensures win'[k] == (input + more)[base + k] {
      if k >= n {
        assert win'[n + (k - n)] == more[k - n];
      }
    }
  }

  lemma HoldsSlid(win: seq<byte>, win': seq<byte>, input: seq<byte>, base: nat, w: nat, n: nat)
    requires Holds(win, input, base, w + n) && |win'| == |win| && forall k | 0 <= k < n :: win'[k] == win[w + k]
    ensures Holds(win', input, base + w, n)
  {
    forall k | 0 <= k < n ensures win'[k] == input[base + w + k] {
      assert win[w + k] == input[base + (w + k)];
    }
  }

  class State {
    const wSize: nat
    const hashBits: nat
    const maxChain: nat
    const goodMatch: nat
    const niceMatch: nat
    const maxLazy: nat
    const strategy: Strategy
    const parser: Parser
    const pendingBufSize: nat
    const window: array<byte>
    const head: array<nat>
    const prev: array<nat>

    var insH: nat
    var strstart: nat
    var lookahead: nat
    var insert: nat
    var matchStart: int // an unsigned index in the source, where -1 wraps around without harm
    var matchLength: nat
    var prevLength: nat
    var prevMatch: int
    var matchAvailable: bool
    var highWater: nat
    var blockStart: nat // where the part of the window begins that deflate_stored has not put out
    var wrap: int // 1 while a header and a trailer are to be written, -1 once they are
    var inInit: bool // INIT_STATE
    var finished: bool // FINISH_STATE
    var lastFlush: FlushCode
    var pending: bool // bytes wait in the pending buffer
    var ample: bool // there is more room for output than this call will use
    var nextIn: seq<byte> // the caller's input not yet read
    var syms: seq<Symbol> // everything tallied so far, or stored
    var storedLens: seq<nat> // the lengths of the stored blocks

    ghost var input: seq<byte> // everything read so far
    ghost var base: nat        // position in `input` of window index 0
    ghost var ins: set<nat>    // positions in `input` of the strings inserted in the tables
    ghost var points: seq<Point> // the beginning, and where history was forgotten

    function MaxDist(): int {
      wSize - MIN_LOOKAHEAD
    }

    function Tune(): Tuning {
      Tuning(parser, wSize, hashBits, goodMatch, maxLazy, niceMatch, maxChain, strategy.Filtered?)
    }

    /** What is held back between the rounds of deflate_slow. */
    ghost function HeldBack(): Held
      reads `base, `matchStart, `matchLength, `matchAvailable
    {
      if !matchAvailable then Nothing
      else if matchLength < MIN_MATCH || base + matchStart < 0 then Byte
      else Found(base + matchStart, matchLength)
    }

    /** The moment of the run this state is. */
    ghost function Now(): Moment
      reads `input, `nextIn, `base, `strstart, `insert, `ins, `syms, `matchStart, `matchLength, `matchAvailable
    {
      Moment(|input|, |nextIn|, base, Pos(), insert, ins, syms, HeldBack())
    }

    lemma NowParts()
      ensures var m := Now();
        && m.seen == |input| && m.waiting == |nextIn| && m.base == base && m.at == Pos() && m.left == insert
        && m.ins == ins && m.syms == syms && m.held == HeldBack() && (!matchAvailable ==> m.held.Nothing?)
    {
    }

    ghost predicate Shape() {
      && 512 <= wSize <= 32768 && 8 <= hashBits <= 16 && maxChain < 0x1_0000_0000
      && window.Length == 2 * wSize && head.Length == Pow2(hashBits) && prev.Length == wSize
      && head != prev && window as object != head as object && window as object != prev as object
    }

    ghost function Pos(): nat
      reads `base, `strstart
    {
      base + strstart
    }

    ghost predicate Data()
      reads `input, `base, `strstart, `lookahead, `insert, `points, window
    {
      && Holds(window[..], input, base, strstart + lookahead)
      && strstart + lookahead <= 2 * wSize && insert <= strstart
      && wSize > 0 && Before(points, base)
    }

    ghost predicate Linked(lim: nat)
      reads `input, `ins, `base, `strstart, head, prev
    {
      Chains(hashBits, wSize, input, ins, base, head[..], prev[..], lim, Pos())
    }

    /** With data up to window index `n`: every string before the current one is inserted, but for the last `insert`. */
    ghost predicate TablesTo(n: nat)
      reads `input, `ins, `base, `strstart, `insert, `insH, head, prev
    {
      && insert <= strstart
      && Linked(Pos() - insert)
      && (strstart + MIN_MATCH <= n ==> insert == 0 && Ready(hashBits, insH, input, Pos()))
    }

    ghost predicate Tables()
      reads `input, `ins, `base, `strstart, `lookahead, `insert, `insH, head, prev
    {
      TablesTo(strstart + lookahead)
    }

    /** The same once the current string has been inserted too, if it is complete. */
    ghost predicate CurrentTo(n: nat)
      reads `input, `ins, `base, `strstart, `insert, `insH, head, prev
    {
      && insert <= strstart
      && Linked(Pos() + 1 - insert)
      && (strstart + MIN_MATCH <= n ==> insert == 0 && Ready(hashBits, insH, input, Pos() + 1))
    }

    ghost predicate Valid()
      reads `input, `ins, `base, `strstart, `lookahead, `insert, `insH, `points, window, head, prev
    {
      Shape() && Data() && Tables()
    }

    /** The same without a running hash, which not all parsers maintain. */
    ghost predicate Loose()
      reads `input, `ins, `base, `strstart, `lookahead, `insert, `points, window, head, prev
    {
      Shape() && Data() && Linked(Pos() - insert)
    }

    lemma Loosen()
      requires Valid()
      ensures Loose()
    {
      hide Chains, Ready, Holds;
    }

    /** The symbols tallied so far stand for the first `n` bytes of the input. */
    ghost predicate Told(n: int)
      reads `input, `syms, `points
    {
      n >= 0 && Tells(syms, points, input, n, MaxDist())
    }

    /** What deflate_fast keeps between its rounds. */
    ghost predicate FastOk()
      reads `input, `ins, `base, `strstart, `lookahead, `insert, `insH, `matchLength, `prevLength, `syms, `points,
        window, head, prev
    {
      Valid() && Told(Pos()) && prevLength == 2 && matchLength < MIN_MATCH
    }

    /** A match of `len` bytes at window index `m` found for the string before the current one, and not yet emitted. */
    ghost predicate Pending(m: int, len: nat)
      reads `input, `base, `strstart, `points
    {
      && Before(points, base + m)
      && 1 <= strstart && 0 < strstart - 1 - m <= MaxDist() && MIN_MATCH <= len <= MAX_MATCH
      && Repeats(input, Pos() - 1, strstart - 1 - m, len)
    }

    /** The position up to which the symbols speak: the byte before the current string may be held back. */
    ghost function Told1(): int
      reads `base, `strstart, `matchAvailable
    {
      if matchAvailable then Pos() - 1 else Pos()
    }

    /** What deflate_slow keeps between its rounds. */
    ghost predicate SlowOk()
      reads `input, `ins, `base, `strstart, `lookahead, `insert, `insH, `matchLength, `matchStart, `matchAvailable,
        `syms, `points, window, head, prev
    {
      && Valid() && Told(Told1()) && (matchAvailable ==> 1 <= strstart)
      && 2 <= matchLength && (matchLength >= MIN_MATCH ==> matchAvailable && Pending(matchStart, matchLength))
    }

    /** What the parsers without a hash table keep between their rounds. */
    ghost predicate Untabled()
      reads `input, `ins, `base, `strstart, `lookahead, `insert, `syms, `points, window, head, prev
    {
      Loose() && Told(Pos())
    }

    /** What deflate_stored keeps: the hash table is not used. */
    ghost predicate StoredOk()
      reads `input, `base, `strstart, `lookahead, `insert, `blockStart, `syms, `storedLens, `points, window, head
    {
      && Shape() && Data() && lookahead == 0 && blockStart <= strstart && insert <= wSize
      && (forall h | 0 <= h < head.Length :: head[h] == 0)
      && Told(base + blockStart) && StoredLens(storedLens, |syms|) && pendingBufSize >= 512
      && |syms| == base + blockStart
    }

    /** Whichever parser the level selects, this holds between calls. */
    ghost predicate Ok()
      reads `input, `ins, `base, `strstart, `lookahead, `insert, `insH, `matchLength, `matchStart, `matchAvailable,
        `prevLength, `blockStart, `syms, `storedLens, `points, window, head, prev
    {
      match parser
      case Slow => SlowOk()
      case Fast => FastOk() && !matchAvailable
      case Stored => StoredOk() && !matchAvailable
      case _ => Untabled() && !matchAvailable
    }

    /** The position up to which the symbols speak, whichever parser it is. */
    ghost function ToldTo(): int
      reads `base, `strstart, `matchAvailable, `blockStart
    {
      if parser.Stored? then base + blockStart else Told1()
    }

    /** With nothing read and no heads, the tables say nothing. */
    lemma FreshOk()
      requires Shape() && input == [] && base == 0 && ins == {} && strstart == 0 && lookahead == 0 && insert == 0
      requires (forall h | 0 <= h < head.Length :: head[h] == 0) && syms == [] && points == [Point(0, 0)]
      requires matchLength == 2 && prevLength == 2 && !matchAvailable && blockStart == 0 && storedLens == []
        && pendingBufSize >= 512
      ensures Ok()
    {
      hide Pow2, Chains, Tells;
      TellsNothing(input, MaxDist());
      ChainsForgotten(hashBits, wSize, input, base, head[..], prev[..], 0, 0);
    }

    /** `deflateInit2_` and `lm_init`: empty tables, nothing read. */
    constructor (level: nat, windowBits: nat, memLevel: nat, strat: Strategy, wrapped: bool)
      requires 0 <= level <= 9 && 9 <= windowBits <= 15 && 1 <= memLevel <= 9
      ensures Ok() && input == [] && syms == [] && storedLens == [] && !finished && !pending && ToldTo() == 0
      ensures pendingBufSize == 4 * Pow2(memLevel + 6)
      ensures Now() == BEGINNING && Tune() == TuningOf(level, windowBits, memLevel, strat)
      ensures wSize == Pow2(windowBits) && fresh(window) && fresh(head) && fresh(prev)
    {
      hide Ok, Pow2, TuningOf, Configuration, ParserOf;
      wSize := Pow2(windowBits);
      hashBits := memLevel + 7;
      window := new byte[2 * Pow2(windowBits)];
      head := new nat[Pow2(memLevel + 7)](_ => 0);
      prev := new nat[Pow2(windowBits)];
      pendingBufSize := 4 * Pow2(memLevel + 6);
      var c := Configuration(level);
      goodMatch, maxLazy, niceMatch, maxChain := c.good, c.lazy, c.nice, c.chain;
      strategy := strat;
      parser := ParserOf(level, strat);
      insH, strstart, lookahead, insert, highWater, blockStart := 0, 0, 0, 0, 0, 0;
      matchStart, matchLength, prevLength, prevMatch, matchAvailable := 0, MIN_MATCH - 1, MIN_MATCH - 1, 0, false;
      wrap, inInit, finished, lastFlush, pending := if wrapped then 1 else 0, true, false, -2, false;
      nextIn, syms, storedLens := [], [], [];
      input, base, ins, points := [], 0, {}, [Point(0, 0)];
      new;
      PowRange(windowBits);
      BufferSize(memLevel);
      TuningIs(level, windowBits, memLevel, strat);
      LimitsOk(level);
      FreshOk();
    }

    /** Move every head and link down by the window size; those that fall out become nil. */
    method SlideHash()
      requires Shape()
      modifies head, prev
      ensures forall h | 0 <= h < head.Length :: head[h] == Slid(old(head[h]), wSize)
      ensures forall k | 0 <= k < prev.Length :: prev[k] == Slid(old(prev[k]), wSize)
    {
      var n := head.Length;
      while n > 0
        invariant 0 <= n <= head.Length
        invariant forall h | 0 <= h < head.Length :: head[h] == if h < n then old(head[h])
          else Slid(old(head[h]), wSize)
        invariant forall k | 0 <= k < prev.Length :: prev[k] == old(prev[k])
      {
        n := n - 1;
        var m := head[n];
        head[n] := if m >= wSize then m - wSize else 0;
      }
      n := wSize;
      while n > 0
        invariant 0 <= n <= prev.Length
        invariant forall h | 0 <= h < head.Length :: head[h] == Slid(old(head[h]), wSize)
        invariant forall k | 0 <= k < prev.Length :: prev[k] == if k < n then old(prev[k])
          else Slid(old(prev[k]), wSize)
      {
        n := n - 1;
        var m := prev[n];
        prev[n] := if m >= wSize then m - wSize else 0;
      }
    }

    /** Move `count` bytes of the upper half of the window to the lower half. */
    method MoveDown(count: nat)
      requires Shape() && count <= wSize
      modifies window
      ensures forall k | 0 <= k < count :: window[k] == old(window[wSize + k])
    {
      var k := 0;
      while k < count
        invariant 0 <= k <= count
        invariant forall i | 0 <= i < k :: window[i] == old(window[wSize + i])
        invariant forall i | wSize <= i < 2 * wSize :: window[i] == old(window[i])
      {
        window[k] := window[wSize + k];
        k := k + 1;
      }
    }

    /** Slide the window down by its size; positions in the input stay what they were. */
    method SlideWindow(more: nat)
      requires Loose() && strstart >= wSize + MaxDist() && more == 2 * wSize - lookahead - strstart && more <= wSize
      modifies window, head, prev, `strstart, `matchStart, `insert, `base
      ensures Loose() && (old(Tables()) ==> Tables())
      ensures base == old(base) + wSize && strstart == old(strstart) - wSize && matchStart == old(matchStart) - wSize
      ensures Now() == SlideNext(Tune(), old(Now()))
    {
      hide Loose, Tables, Now, SlideNext;
      ghost var m := Now();
      NowParts();
      SlideAll(more);
      SlideIs(m);
    }

    /** The window, its indices and the tables, moved down. */
    method SlideAll(more: nat)
      requires Loose() && strstart >= wSize + MaxDist() && more == 2 * wSize - lookahead - strstart && more <= wSize
      modifies window, head, prev, `strstart, `matchStart, `insert, `base
      ensures Loose() && (old(Tables()) ==> Tables())
      ensures base == old(base) + wSize && strstart == old(strstart) - wSize && matchStart == old(matchStart) - wSize
      ensures insert == Least(old(insert), strstart)
    {
      hide Chains, Ready, Pow2, Holds;
      ghost var win0, head0, prev0, base0 := window[..], head[..], prev[..], base;
      ghost var lim, pos := Pos() - insert, Pos();
      MoveDown(wSize - more);
      matchStart := matchStart - wSize;
      strstart := strstart - wSize;
      insert := if insert > strstart then strstart else insert;
      SlideHash();
      base := base + wSize;
      ChainsSlide(hashBits, wSize, input, ins, base0, head0, prev0, head[..], prev[..], lim, pos);
      ChainsLater(hashBits, wSize, input, [], ins, base, head[..], prev[..], lim, Pos() - insert, pos, pos);
      assert input + [] == input;
      HoldsSlid(win0, window[..], input, base0, wSize, strstart + lookahead);
    }

    /** Where the input has been read to does not change, nor what is held back. */
    lemma SlideIs(m: Moment)
      requires m.seen == |input| && m.waiting == |nextIn| && m.at == Pos() && m.ins == ins && m.syms == syms
      requires m.held == HeldBack() && base == m.base + wSize && insert == Least(m.left, strstart)
      requires strstart + wSize >= 2 * wSize - MIN_LOOKAHEAD
      ensures Now() == SlideNext(Tune(), m)
    {
      hide HeldBack;
    }

    /** Read at most `size` bytes of the caller's input to the end of the valid data. */
    method ReadBuf(size: nat) returns (n: nat)
      requires Shape() && Data() && strstart + lookahead + size <= 2 * wSize
      modifies window, `nextIn, `input
      ensures n == if |old(nextIn)| > size then size else |old(nextIn)|
      ensures nextIn == old(nextIn)[n..] && input == old(input) + old(nextIn)[..n]
      ensures Holds(window[..], input, base, strstart + lookahead + n)
    {
      n := |nextIn|;
      if n > size { n := size; }
      ghost var win0, at := window[..], strstart + lookahead;
      var k := 0;
      while k < n
        modifies window
        invariant 0 <= k <= n
        invariant forall i | 0 <= i < at :: window[i] == win0[i]
        invariant forall i | 0 <= i < k :: window[at + i] == nextIn[i]
      {
        window[strstart + lookahead + k] := nextIn[k];
        k := k + 1;
      }
      HoldsMore(win0, window[..], input, nextIn[..n], base, at);
      input := input + nextIn[..n];
      nextIn := nextIn[n..];
    }

    /** `INSERT_STRING`: put the string at window index `str` at the head of its chain. */
    method InsertString(str: nat, ghost n: nat) returns (matchHead: nat)
      requires Shape() && Holds(window[..], input, base, n)
      requires str <= strstart && str + 2 < n
      requires Linked(base + str) && Ready(hashBits, insH, input, base + str)
      modifies head, prev, `insH, `ins
      ensures insH == HashAt(hashBits, input, base + str) && ins == old(ins) + {base + str}
      ensures Linked(base + str + 1) && Ready(hashBits, insH, input, base + str + 1)
      ensures Nearest(hashBits, input, old(ins), base, matchHead, base + str, insH)
    {
      hide Chains, Ready, Nearest, UpdateHash, Hash3, Pow2;
      ghost var head0, prev0, a := head[..], prev[..], base + str;
      ReadyGives(hashBits, insH, input, a, window[..], base, n);
      ChainsInsert(hashBits, wSize, input, ins, base, head0, prev0, a, Pos(), a);
      insH := UpdateHash(hashBits, insH, window[str + (MIN_MATCH - 1)]);
      ChainsHead(hashBits, wSize, input, ins, base, head0, prev0, a, Pos(), insH);
      assert Slot(a, base, wSize) == str % wSize;
      matchHead := head[insH];
      prev[str % wSize] := matchHead;
      head[insH] := str;
      assert head[..] == head0[insH := str] && prev[..] == prev0[Slot(a, base, wSize) := matchHead];
      ins := ins + {a};
      ReadyNext(hashBits, input, a);
    }

    /** The rolling hash of the first two bytes of the string at window index `str`. */
    method StartHash(str: nat, ghost n: nat)
      requires Shape() && Holds(window[..], input, base, n) && str + MIN_MATCH <= n
      modifies `insH
      ensures str + 1 < window.Length && Ready(hashBits, insH, input, base + str)
    {
      hide Ready, UpdateHash, Pow2, Holds;
      HoldsAt(window[..], input, base, n, str);
      HoldsAt(window[..], input, base, n, str + 1);
      insH := window[str];
      insH := UpdateHash(hashBits, insH, window[str + 1]);
      ReadyFresh(hashBits, input, base + str);
    }

    /** Start the rolling hash again and insert the strings that the last flush left out. */
    method InitHash()
      requires Shape() && Data() && Linked(Pos() - insert)
      modifies head, prev, `insH, `insert, `ins
      ensures Valid() && Loose() && insert <= old(insert)
      ensures ins == old(ins) + Upto(old(Pos() - insert), Pos() - insert)
      ensures if insert == 0 then old(insert) == 0 || lookahead >= 2
        else insert == old(insert) || lookahead + insert == 2
      ensures insert > 0 ==> lookahead + insert <= 2
    {
      hide Chains, Ready, Nearest, UpdateHash, Hash3, Pow2, Holds, Upto;
      NoneUpto(ins, Pos() - insert);
      if lookahead + insert >= MIN_MATCH {
        var str := strstart - insert;
        StartHash(str, strstart + lookahead);
        while insert > 0
          modifies head, prev, `insH, `insert, `ins
          invariant insert <= old(insert) && str == strstart - insert && insert <= strstart
          invariant Linked(base + str) && Ready(hashBits, insH, input, base + str)
          invariant lookahead + insert >= MIN_MATCH
          invariant ins == old(ins) + Upto(old(Pos() - insert), base + str)
          decreases insert
        {
          HoldsLength(window[..], input, base, strstart + lookahead);
          OneMoreUpto(old(Pos() - insert), base + str);
          var _ := InsertString(str, strstart + lookahead);
          str := str + 1;
          insert := insert - 1;
          if lookahead + insert < MIN_MATCH { break; }
        }
      }
    }

    lemma NoneUpto(s: set<nat>, at: nat)
      ensures s + Upto(at, at) == s
    {
    }

    lemma OneMoreUpto(lo: nat, hi: nat)
      requires lo <= hi
      ensures Upto(lo, hi + 1) == Upto(lo, hi) + {hi}
    {
    }

    method Zero(at: nat, n: nat)
      requires at + n <= window.Length
      modifies window
      ensures forall k | 0 <= k < window.Length :: window[k] == if at <= k < at + n then 0 else old(window[k])
    {
      var k := 0;
      while k < n
        invariant 0 <= k <= n
        invariant forall i | 0 <= i < window.Length :: window[i] == if at <= i < at + k then 0 else old(window[i])
      {
        window[at + k] := 0;
        k := k + 1;
      }
    }

    /** Zero the bytes past the data that the match search may look at; the data is untouched. */
    method ZeroAhead()
      requires Shape() && Data()
      modifies window, `highWater
      ensures forall k | 0 <= k < strstart + lookahead :: window[k] == old(window[k])
    {
      var windowSize := 2 * wSize;
      if highWater < windowSize {
        var curr := strstart + lookahead;
        if highWater < curr {
          var init := windowSize - curr;
          if init > MAX_MATCH { init := MAX_MATCH; }
          Zero(curr, init);
          highWater := curr + init;
        } else if highWater < curr + MAX_MATCH {
          var init := curr + MAX_MATCH - highWater;
          if init > windowSize - highWater { init := windowSize - highWater; }
          Zero(highWater, init);
          highWater := highWater + init;
        }
      }
    }

    /** Read what fits and bring the hash up to date. */
    method Read(more: nat)
      requires Loose() && strstart + lookahead + more == 2 * wSize && more > 0 && nextIn != []
      modifies window, head, prev, `insert, `lookahead, `insH, `ins, `nextIn, `input
      ensures Valid() && Loose() && old(input) <= input && input + nextIn == old(input + nextIn)
        && |nextIn| < |old(nextIn)|
      ensures Now() == ReadNext(Tune(), old(Now()))
    {
      hide Chains, Ready, Holds, Pow2, Upto, Now, HeldBack, ReadNext;
      ghost var input0, next0, lim, ins0, m := input, nextIn, Pos() - insert, ins, Now();
      InputLength();
      NowParts();
      var n := ReadBuf(more);
      lookahead := lookahead + n;
      ChainsLater(hashBits, wSize, input0, next0[..n], ins, base, head[..], prev[..], lim, lim, Pos(), Pos());
      assert input0 + next0 == input0 + next0[..n] + next0[n..];
      ghost var left0 := insert;
      InitHash();
      ReadInserts(m, n, ins0, left0);
    }

    /** The strings inserted after reading are those that have become complete. */
    lemma ReadInserts(m: Moment, n: nat, ins0: set<nat>, left0: nat)
      requires m.waiting > 0 && n == Least(m.waiting, Room(Tune(), m)) && insert <= left0 <= Pos()
      requires |input| == m.seen + n && |nextIn| == m.waiting - n && base == m.base && syms == m.syms
      requires HeldBack() == m.held && m.left == left0 && m.ins == ins0 && m.at == Pos()
      requires m.seen + n == Pos() + lookahead
      requires ins == ins0 + Upto(Pos() - left0, Pos() - insert)
      requires if insert == 0 then left0 == 0 || lookahead >= 2 else insert == left0 || lookahead + insert == 2
      requires insert > 0 ==> lookahead + insert <= 2
      ensures Now() == ReadNext(Tune(), m)
    {
      var lo := Back(m.at, m.left);
      var hi := if m.at + 2 <= m.seen + n then m.at else if lo + 2 <= m.seen + n then m.seen + n - 2 else lo;
      if lo == m.at { assert Upto(lo, hi) == {} == Upto(Pos() - left0, Pos() - insert); }
      assert m.at - hi == insert;
    }

    /** One round of refilling: slide if there is too little room, then read. */
    method FillOnce()
      requires Loose() && lookahead < MIN_LOOKAHEAD
      modifies window, head, prev, `strstart, `matchStart, `insert, `base, `lookahead, `insH, `ins, `nextIn, `input
      ensures Loose() && (old(Tables()) ==> Tables()) && Pos() == old(Pos())
        && strstart - matchStart == old(strstart - matchStart)
      ensures old(input) <= input && input + nextIn == old(input + nextIn)
      ensures nextIn == [] || |nextIn| < |old(nextIn)|
      ensures strstart <= 2 * wSize - MIN_LOOKAHEAD && (old(strstart) > 0 ==> strstart > 0)
      ensures Refills(Tune(), old(Now()), Now())
    {
      hide Chains, Ready, Holds, Pow2, Tables, ReadNext;
      InputLength();
      var more := 2 * wSize - lookahead - strstart;
      if strstart >= wSize + MaxDist() {
        SlideWindow(more);
        more := more + wSize;
      }
      if |nextIn| != 0 {
        assert more >= 2;
        Read(more);
      } else {
        NothingWaits();
      }
    }

    lemma NothingWaits()
      requires nextIn == []
      ensures ReadNext(Tune(), Now()) == Now()
    {
    }

    /** The moments of a call so far, of which this is the last. */
    ghost predicate Trail(flush: Flush, from: Moment, trail: seq<Moment>)
      reads `input, `nextIn, `base, `strstart, `insert, `ins, `syms, `matchStart, `matchLength, `matchAvailable
    {
      Leg(Tune(), flush, input, trail) && trail[0] == from && trail[|trail| - 1] == Now()
    }

    /** `trail` leads from `from` to moment `m` of what had been read then. */
    ghost predicate TrailTo(flush: Flush, from: Moment, trail: seq<Moment>, input0: seq<byte>, m: Moment) {
      Leg(Tune(), flush, input0, trail) && trail[0] == from && trail[|trail| - 1] == m
    }

    lemma TrailMore(flush: Flush, from: Moment, trail: seq<Moment>, input0: seq<byte>, m: Moment)
      requires TrailTo(flush, from, trail, input0, m) && input0 <= input && Moves(Tune(), flush, input, m, Now())
      ensures Trail(flush, from, trail + [Now()])
    {
      hide Moves;
      LegLater(Tune(), flush, input0, input, trail);
      LegStep(Tune(), flush, input, trail, Now());
    }

    lemma TrailHere(flush: Flush, from: Moment, trail: seq<Moment>)
      requires Trail(flush, from, trail)
      ensures TrailTo(flush, from, trail, input, Now())
    {
      hide Leg, Now;
    }

    lemma TrailStarts(flush: Flush)
      ensures Trail(flush, Now(), [Now()])
    {
      LegStarts(Tune(), flush, input, Now());
    }

    /** What is left to do at the end of a flush, for each parser. */
    lemma TailMoves(flush: Flush, from: Moment, trail: seq<Moment>, m: Moment)
      requires TrailTo(flush, from, trail, input, m) && m.seen == |input| && m.at == |input| && m.waiting == 0
      requires !flush.NoFlush? && !m.held.Found? && nextIn == [] && base == m.base && Pos() == m.at && ins == m.ins
      requires !matchAvailable && if m.held.Byte? then syms == m.syms + Byte1(input, m.at - 1) else syms == m.syms
      requires insert == if parser.Runs? || parser.Literals? then 0 else Least(2, strstart)
      ensures Trail(flush, from, trail + [Now()])
    {
      hide Leg;
      assert m.syms + [] == m.syms;
      TrailEnds(flush, from, trail, m);
    }

    /** Refill the window; what has been read and what is still to be read together stay the same. */
    method FillWindow(ghost flush: Flush, ghost from: Moment, ghost before: seq<Moment>)
      returns (ghost trail: seq<Moment>)
      requires Loose() && lookahead < MIN_LOOKAHEAD && Trail(flush, from, before)
      modifies window, head, prev, `strstart, `matchStart, `insert, `base, `lookahead, `insH, `ins, `nextIn, `input,
        `highWater
      ensures Loose() && (old(Tables()) ==> Tables()) && Pos() == old(Pos())
        && strstart - matchStart == old(strstart - matchStart)
      ensures old(input) <= input && input + nextIn == old(input + nextIn)
      ensures lookahead >= MIN_LOOKAHEAD || nextIn == []
      ensures strstart <= 2 * wSize - MIN_LOOKAHEAD && (old(strstart) > 0 ==> strstart > 0)
      ensures Trail(flush, from, trail)
    {
      hide Loose, Holds, Pow2, Tables, Leg, Refills, SlideNext, ReadNext;
      ghost var input0, m := input, Now();
      FillOnce();
      TrailRefill(flush, from, before, input0, m);
      trail := before + [Now()];
      while lookahead < MIN_LOOKAHEAD && nextIn != []
        invariant Loose() && (old(Tables()) ==> Tables()) && Pos() == old(Pos())
          && strstart - matchStart == old(strstart - matchStart)
        invariant old(input) <= input && input + nextIn == old(input + nextIn)
        invariant strstart <= 2 * wSize - MIN_LOOKAHEAD && (old(strstart) > 0 ==> strstart > 0)
        invariant Trail(flush, from, trail)
        decreases |nextIn|
      {
        input0, m := input, Now();
        FillOnce();
        TrailRefill(flush, from, trail, input0, m);
        trail := trail + [Now()];
      }
      ZeroKept();
    }

    lemma TrailRefill(flush: Flush, from: Moment, trail: seq<Moment>, input0: seq<byte>, m: Moment)
      requires TrailTo(flush, from, trail, input0, m) && input0 <= input && Refills(Tune(), m, Now())
      ensures Trail(flush, from, trail + [Now()])
    {
      hide Refills, Decides, ParseRules.Ends, Forgets;
      assert m.seen <= |input0|;
      TrailMore(flush, from, trail, input0, m);
    }

    /** One more decision; nothing has been read since. */
    lemma TrailDecides(flush: Flush, from: Moment, trail: seq<Moment>, m: Moment)
      requires TrailTo(flush, from, trail, input, m) && m.seen == |input| && Decides(Tune(), flush, input, m, Now())
      ensures Trail(flush, from, trail + [Now()])
    {
      hide Refills, Decides, ParseRules.Ends, Forgets;
      assert input[..m.seen] == input;
      TrailMore(flush, from, trail, input, m);
    }

    lemma TrailEnds(flush: Flush, from: Moment, trail: seq<Moment>, m: Moment)
      requires TrailTo(flush, from, trail, input, m) && m.seen == |input|
      requires ParseRules.Ends(Tune(), flush, input, m, Now()) || Forgets(flush, m, Now())
      ensures Trail(flush, from, trail + [Now()])
    {
      hide Refills, Decides, ParseRules.Ends, Forgets;
      assert input[..m.seen] == input;
      TrailMore(flush, from, trail, input, m);
    }

    /** Zeroing ahead of the data leaves the data. */
    method ZeroKept()
      requires Loose()
      modifies window, `highWater
      ensures Loose()
    {
      hide Chains, Ready, Holds, Pow2;
      ghost var win0 := window[..];
      ZeroAhead();
      HoldsPrefix(win0, window[..], input, base, strstart + lookahead);
    }

    // ----- match search -----

    /** A candidate on the chain of the current string, near enough to be used. */
    ghost predicate Candidate(cur: nat)
      reads `input, `ins, `base, `strstart
    {
      && base + cur in ins && 0 < cur < strstart && strstart - cur <= MaxDist()
      && Pos() + 2 < |input| && HashAt(hashBits, input, base + cur) == HashAt(hashBits, input, Pos())
    }

    /** Compare the next eight bytes, stopping at the first difference. */
    method CompareEight(cur: nat, i: nat) returns (j: nat, same: bool)
      requires cur < strstart && strstart + i + 8 < window.Length
      ensures i < j <= i + 8 && (same ==> j == i + 8)
      ensures forall t | i < t < j :: SameAt(window[..], cur, strstart, t)
      ensures same <==> SameAt(window[..], cur, strstart, j)
    {
      j, same := i, true;
      while j < i + 8 && same
        invariant i <= j <= i + 8 && (!same ==> i < j)
        invariant forall t | i < t < j :: SameAt(window[..], cur, strstart, t)
        invariant i < j ==> (same <==> SameAt(window[..], cur, strstart, j))
        decreases i + 8 - j, same
      {
        j := j + 1;
        same := window[strstart + j] == window[cur + j];
      }
    }

    /** Length of the common string, from the fourth byte on; the bound is checked once in eight bytes. */
    method Compare(cur: nat) returns (len: nat)
      requires cur < strstart && strstart + MAX_MATCH < window.Length
      ensures MIN_MATCH <= len <= MAX_MATCH
      ensures forall t | MIN_MATCH <= t < len :: SameAt(window[..], cur, strstart, t)
      ensures len < MAX_MATCH ==> !SameAt(window[..], cur, strstart, len)
    {
      hide SameAt;
      len := 2;
      var same := true;
      while same && len < MAX_MATCH
        invariant 2 <= len <= MAX_MATCH && (same ==> len % 8 == 2) && (!same ==> 2 < len)
        invariant forall t | MIN_MATCH <= t < len :: SameAt(window[..], cur, strstart, t)
        invariant 2 < len ==> (same <==> SameAt(window[..], cur, strstart, len))
        decreases MAX_MATCH - len, same
      {
        len, same := CompareEight(cur, len);
      }
    }

    /** The string at window index `m` agrees with the current one on `len` bytes of the window. */
    ghost predicate WindowMatch(m: int, len: nat)
      reads `input, `ins, `base, `strstart, window
    {
      0 <= m && Candidate(m) && len <= MAX_MATCH && forall t | 0 <= t < len :: SameAt(window[..], m, strstart, t)
    }

    /** All but the third byte are compared; the third is equal because the hashes are. */
    method TryMatch(cur: nat, bestLen: nat) returns (len: nat)
      requires Shape() && Holds(window[..], input, base, strstart + lookahead) && strstart <= 2 * wSize - MIN_LOOKAHEAD
      requires Candidate(cur) && lookahead >= MIN_MATCH && 1 <= bestLen <= MAX_MATCH
      ensures len <= MAX_MATCH && (len > bestLen ==> WindowMatch(cur, len))
      ensures forall l | bestLen < l <= MAX_MATCH && WindowMatch(cur, l) :: l <= len
    {
      hide HashAt, Pow2, Holds;
      var scanEnd1, scanEnd := window[strstart + bestLen - 1], window[strstart + bestLen];
      if window[cur + bestLen] != scanEnd || window[cur + bestLen - 1] != scanEnd1 ||
         window[cur] != window[strstart] || window[cur + 1] != window[strstart + 1] {
        ghost var t := if window[cur + bestLen] != scanEnd then bestLen
                       else if window[cur + bestLen - 1] != scanEnd1 then bestLen - 1
                       else if window[cur] != window[strstart] then 0 else 1;
        assert !SameAt(window[..], cur, strstart, t);
        return 0;
      }
      ThirdByte(hashBits, window[..], input, base, strstart + lookahead, strstart, cur);
      assert window[cur + 2] == window[strstart + 2];
      len := Compare(cur);
      forall t | 0 <= t < len ensures SameAt(window[..], cur, strstart, t) {
        assert t == 0 || t == 1 || t == 2 || t >= MIN_MATCH;
      }
    }

    /** What the search promises about a result that improves on the previous match. */
    ghost predicate Improves(len: nat)
      reads `input, `base, `strstart, `matchStart
    {
      && 0 <= matchStart < strstart && strstart - matchStart <= MaxDist() && len <= MAX_MATCH
      && Repeats(input, Pos(), strstart - matchStart, len)
    }

    /** The link of a candidate, unless it leads too far back, is a candidate again and lies before it. */
    lemma NextCandidate(cur: nat, limit: nat)
      requires Shape() && Data() && Linked(Pos() + 1) && Candidate(cur)
      requires limit >= strstart - MaxDist()
      ensures cur % wSize < prev.Length
      ensures var next := prev[cur % wSize]; next > limit ==> Candidate(next) && next < cur
    {
      hide HashAt, Pow2, Chains, Holds;
      ChainsLink(hashBits, wSize, input, ins, base, head[..], prev[..], Pos() + 1, Pos(), cur,
        HashAt(hashBits, input, Pos()));
    }

    lemma MatchImproves(bestLen: nat, len: nat)
      requires Shape() && Data() && WindowMatch(matchStart, bestLen) && len <= bestLen && len <= lookahead
      ensures Improves(len)
    {
      hide HashAt, Pow2, Holds, Repeats, SameAt;
      RepeatsInWindow(window[..], input, base, strstart + lookahead, strstart, matchStart, len);
    }

    /** The next string on the chain. */
    ghost function Link(cur: nat): nat
      reads prev
    {
      if wSize > 0 && cur % wSize < prev.Length then prev[cur % wSize] else 0
    }

    /** The strings tried: those on the chain from `first`, one link after another. */
    ghost predicate Followed(first: nat, tried: seq<nat>)
      reads `input, `ins, `base, `strstart, prev
    {
      && tried != [] && tried[0] == first && (forall i | 0 <= i < |tried| :: Candidate(tried[i]))
      && (forall i | 0 <= i < |tried| - 1 :: tried[i + 1] == Link(tried[i]))
      && forall i | 0 < i < |tried| :: strstart - tried[i] < MaxDist()
    }

    /** How many strings are tried at most. */
    ghost function Patience(): nat
      reads `prevLength
    {
      var chain := if prevLength >= goodMatch then maxChain / 4 else maxChain;
      if chain == 0 then 0x1_0000_0000 else chain
    }

    /**
     * The search ends at a match that is long enough, when patience is at its end, or at the end of the chain. Where no
     * longer match can be had than the one before, it may end anywhere.
     */
    ghost predicate Enough(tried: seq<nat>, len: nat, nice: nat)
      requires tried != []
      reads `strstart, `lookahead, `prevLength, prev
    {
      || (prevLength < len && nice <= len) || lookahead <= prevLength || |tried| == Patience()
      || Link(tried[|tried| - 1]) == 0 || Link(tried[|tried| - 1]) <= strstart - MaxDist()
    }

    /** No string tried has a longer match in the window than `best`, and those before `start` have a shorter one. */
    ghost predicate BestInWindow(tried: seq<nat>, best: nat, start: int)
      reads `input, `ins, `base, `strstart, `prevLength, window
    {
      && (forall i, l: nat | 0 <= i < |tried| && prevLength < l && WindowMatch(tried[i], l) :: l <= best)
      && (best > prevLength ==> exists i :: 0 <= i < |tried| && tried[i] == start && ShorterBefore(tried, i, best))
    }

    ghost predicate ShorterBefore(tried: seq<nat>, i: nat, best: nat)
      requires i <= |tried|
      reads `input, `ins, `base, `strstart, `prevLength, window
    {
      forall k, l: nat | 0 <= k < i && prevLength < l && WindowMatch(tried[k], l) :: l < best
    }

    /**
     * No string tried repeats more of what lies ahead than `len` bytes, unless it repeats no more than the match before
     * was long; and where `len` exceeds that, `matchStart` is the nearest of the strings that repeat so much.
     */
    ghost predicate Longest(tried: seq<nat>, len: nat)
      reads `input, `base, `strstart, `lookahead, `prevLength, `matchStart
    {
      && (forall i, l: nat | 0 <= i < |tried| && prevLength < l && Ahead(tried[i], l) :: l <= len)
      && (len > prevLength ==> exists i :: 0 <= i < |tried| && tried[i] == matchStart && FirstAhead(tried, i, len))
    }

    ghost predicate FirstAhead(tried: seq<nat>, i: nat, len: nat)
      requires i <= |tried|
      reads `input, `base, `strstart, `lookahead, `prevLength
    {
      forall k, l: nat | 0 <= k < i && prevLength < l && Ahead(tried[k], l) :: l < len
    }

    /** No string tried but the last is so long a match that the search should have ended there. */
    ghost predicate Patiently(tried: seq<nat>, nice: nat)
      reads `input, `base, `strstart, `lookahead, `prevLength
    {
      forall i, l: nat | 0 <= i < |tried| - 1 && prevLength < l && Ahead(tried[i], l) :: l < nice
    }

    /** The string at window index `m` agrees with the current one on `len` bytes of the input. */
    ghost predicate Ahead(m: int, len: nat)
      reads `input, `base, `strstart, `lookahead
    {
      len <= lookahead && len <= MAX_MATCH && Repeats(input, Pos(), strstart - m, len)
    }

    lemma AheadInWindow(m: nat, len: nat)
      requires Shape() && Data() && Candidate(m) && Ahead(m, len)
      ensures WindowMatch(m, len)
    {
      hide HashAt, Pow2;
      forall t | 0 <= t < len ensures SameAt(window[..], m, strstart, t) {
        HoldsAt(window[..], input, base, strstart + lookahead, strstart + t);
        HoldsAt(window[..], input, base, strstart + lookahead, m + t);
        assert input[Pos() + t] == input[Pos() + t - (strstart - m)];
      }
    }

    lemma FirstTried(first: nat)
      requires Candidate(first)
      ensures Followed(first, [first]) && BestInWindow([first][..0], prevLength, matchStart)
    {
      hide Candidate, WindowMatch;
    }

    /** One more string has been tried. */
    lemma TriedMore(tried: seq<nat>, cur: nat, best: nat, start: int, len: nat)
      requires BestInWindow(tried, best, start) && best >= prevLength
      requires forall l | best < l <= MAX_MATCH && WindowMatch(cur, l) :: l <= len
      ensures BestInWindow(tried + [cur], if len > best then len else best, if len > best then cur else start)
    {
      hide Candidate, SameAt;
      var more := tried + [cur];
      var best' := if len > best then len else best;
      forall i, l: nat | 0 <= i < |more| && prevLength < l && WindowMatch(more[i], l) ensures l <= best' {
        if i < |tried| { assert WindowMatch(tried[i], l); }
      }
      if len > best {
        var n := |tried|;
        assert more[n] == cur;
        forall k, l: nat | 0 <= k < n && prevLength < l && WindowMatch(more[k], l) ensures l < best' {
          assert WindowMatch(tried[k], l);
        }
        assert ShorterBefore(more, n, best');
      } else if best > prevLength {
        var i :| 0 <= i < |tried| && tried[i] == start && ShorterBefore(tried, i, best);
        assert more[i] == start;
        forall k, l: nat | 0 <= k < i && prevLength < l && WindowMatch(more[k], l) ensures l < best' {
          assert WindowMatch(tried[k], l);
        }
        assert ShorterBefore(more, i, best');
      }
    }

    lemma FollowedMore(first: nat, tried: seq<nat>, next: nat)
      requires Followed(first, tried) && Candidate(next)
      requires tried != [] && next == Link(tried[|tried| - 1]) && strstart - next < MaxDist()
      ensures Followed(first, tried + [next])
    {
      hide Candidate, Link;
      var more := tried + [next];
      forall i | 0 <= i < |more| - 1 ensures more[i + 1] == Link(more[i]) {
        assert more[i] == tried[i];
        if i < |tried| - 1 { assert tried[i + 1] == Link(tried[i]); }
      }
    }

    /**
     * What is longest in the window is longest in the input, cut off at the lookahead: `before` is how long the best
     * was before the last string was tried, and only the last may have been longer than the lookahead.
     */
    lemma LongestAhead(first: nat, tried: seq<nat>, before: nat, start0: int, best: nat, len: nat)
      requires Shape() && Data() && Followed(first, tried) && BestInWindow(tried, best, matchStart)
      requires BestInWindow(tried[..|tried| - 1], before, start0) && best >= prevLength
      requires before < lookahead || before == prevLength
      requires best == before || matchStart == tried[|tried| - 1]
      requires len == if best <= lookahead then best else lookahead
      ensures Longest(tried, len)
    {
      hide Candidate, SameAt, WindowMatch, Ahead, Holds, Pow2;
      forall i, l: nat | 0 <= i < |tried| && prevLength < l && Ahead(tried[i], l)
        ensures WindowMatch(tried[i], l) && l <= len {
        AheadInWindow(tried[i], l);
        AheadWithin(tried[i], l);
      }
      if len > prevLength {
        var i: nat;
        if best > lookahead {
          i := |tried| - 1;
          forall k, l: nat | 0 <= k < i && prevLength < l && Ahead(tried[k], l) ensures l < len {
            assert WindowMatch(tried[..i][k], l);
          }
        } else {
          i :| 0 <= i < |tried| && tried[i] == matchStart && ShorterBefore(tried, i, best);
          forall k, l: nat | 0 <= k < i && prevLength < l && Ahead(tried[k], l) ensures l < len {
            assert WindowMatch(tried[k], l);
          }
        }
        assert FirstAhead(tried, i, len);
      }
    }

    lemma AheadWithin(m: int, len: nat)
      requires Ahead(m, len)
      ensures len <= lookahead
    {
    }

    /** Try the last string of the chain so far. */
    method TryLast(cur: nat, bestLen: nat, ghost tried: seq<nat>) returns (best: nat)
      requires Shape() && Holds(window[..], input, base, strstart + lookahead) && strstart <= 2 * wSize - MIN_LOOKAHEAD
      requires Candidate(cur) && lookahead >= MIN_MATCH && 1 <= prevLength <= bestLen <= MAX_MATCH
      requires tried != [] && tried[|tried| - 1] == cur && BestInWindow(tried[..|tried| - 1], bestLen, matchStart)
      requires bestLen > prevLength ==> WindowMatch(matchStart, bestLen)
      modifies `matchStart
      ensures bestLen <= best <= MAX_MATCH && BestInWindow(tried, best, matchStart)
      ensures matchStart == if best > bestLen then cur else old(matchStart)
      ensures best > prevLength ==> WindowMatch(matchStart, best)
    {
      hide Shape, Holds, Candidate, WindowMatch, BestInWindow;
      best := bestLen;
      var len := TryMatch(cur, bestLen);
      TriedMore(tried[..|tried| - 1], cur, bestLen, matchStart, len);
      assert tried[..|tried| - 1] + [cur] == tried;
      if len > bestLen {
        matchStart := cur;
        best := len;
      }
    }

    lemma LinkIs(cur: nat)
      requires Shape()
      ensures wSize > 0 && cur % wSize < prev.Length && prev[cur % wSize] == Link(cur)
    {
      hide Pow2;
    }

    /** `chain_length`, which wraps around below zero, before string number `tried` is tried. */
    ghost predicate Counting(chainLength: nat, tried: nat)
      reads `prevLength
    {
      if chainLength == 0 then tried == 1 && Patience() == 0x1_0000_0000
      else chainLength < 0x1_0000_0000 && chainLength + tried == Patience() + 1
    }

    lemma CountStarts()
      requires Shape()
      ensures Counting(if prevLength >= goodMatch then maxChain / 4 else maxChain, 1)
    {
      hide Pow2;
    }

    lemma CountDown(chainLength: nat, tried: nat)
      requires Counting(chainLength, tried) && tried >= 1
      ensures var next := (chainLength + 0xFFFF_FFFF) % 0x1_0000_0000;
        if next == 0 then tried == Patience() else Counting(next, tried + 1)
      ensures tried <= Patience()
    {
    }

    lemma EndedInTime(first: nat, tried: seq<nat>, before: nat, start0: int, nice: nat)
      requires Shape() && Data() && Followed(first, tried) && BestInWindow(tried[..|tried| - 1], before, start0)
      requires before == prevLength || before < nice
      ensures Patiently(tried, nice)
    {
      hide Candidate, SameAt, WindowMatch, Ahead, Holds, Pow2;
      forall i, l: nat | 0 <= i < |tried| - 1 && prevLength < l && Ahead(tried[i], l) ensures l < nice {
        AheadInWindow(tried[i], l);
        assert WindowMatch(tried[..|tried| - 1][i], l);
      }
    }

    /** Where the search stops it has the longest match. */
    lemma SearchEnds(first: nat, tried: seq<nat>, before: nat, start0: int, best: nat, nice: nat, len: nat)
      requires Shape() && Data() && lookahead >= MIN_MATCH && Followed(first, tried) && prevLength <= best <= MAX_MATCH
      requires BestInWindow(tried, best, matchStart) && BestInWindow(tried[..|tried| - 1], before, start0)
      requires before == prevLength || before < nice <= lookahead
      requires best == before || matchStart == tried[|tried| - 1]
      requires best > prevLength ==> WindowMatch(matchStart, best)
      requires len == if best <= lookahead then best else lookahead
      ensures Longest(tried, len) && (len > prevLength ==> Improves(len)) && Patiently(tried, nice)
    {
      hide Shape, Data, Followed, BestInWindow, WindowMatch, Longest, Improves, Patiently;
      LongestAhead(first, tried, before, start0, best, len);
      EndedInTime(first, tried, before, start0, nice);
      if len > prevLength { MatchImproves(best, len); }
    }

    /**
     * Walk the chain from `curMatch` for a match longer than the previous one. What is found is the longest match among
     * the strings tried, and of these the nearest; they are as many as patience, the chain and a nice match allow.
     */
    method LongestMatch(curMatch: nat) returns (len: nat, ghost tried: seq<nat>)
      requires Shape() && Data() && Linked(Pos() + 1) && strstart <= 2 * wSize - MIN_LOOKAHEAD
      requires Candidate(curMatch) && lookahead >= MIN_MATCH && 1 <= prevLength <= MAX_MATCH
      modifies `matchStart
      ensures len <= lookahead && (len < prevLength ==> len == lookahead)
      ensures len > prevLength ==> Improves(len)
      ensures Followed(curMatch, tried) && |tried| <= Patience() && Longest(tried, len)
      ensures tried != [] && Enough(tried, len, if niceMatch > lookahead then lookahead else niceMatch)
      ensures Patiently(tried, if niceMatch > lookahead then lookahead else niceMatch)
    {
      hide Shape, Data, Linked, Holds, Candidate, WindowMatch, Improves, BestInWindow, Followed, Longest, Link,
        Counting, Patience, Patiently;
      var chainLength := maxChain;
      var bestLen := prevLength;
      var nice := niceMatch;
      var limit := if strstart > MaxDist() then strstart - MaxDist() else 0;
      if prevLength >= goodMatch { chainLength := chainLength / 4; }
      if nice > lookahead { nice := lookahead; }
      var cur: nat := curMatch;
      FirstTried(curMatch);
      tried := [curMatch];
      LinkIs(cur);
      CountStarts();
      DataHolds();
      ghost var before, start0 := prevLength, matchStart;
      while true
        invariant Candidate(cur) && tried != [] && Followed(curMatch, tried) && tried[|tried| - 1] == cur
        invariant prevLength <= bestLen <= MAX_MATCH && (bestLen > prevLength ==> WindowMatch(matchStart, bestLen))
        invariant BestInWindow(tried[..|tried| - 1], bestLen, matchStart)
        invariant bestLen == prevLength || bestLen < nice
        invariant Counting(chainLength, |tried|)
        decreases cur
      {
        before, start0 := bestLen, matchStart;
        var best := TryLast(cur, bestLen, tried);
        var better := best > bestLen;
        bestLen := best;
        CountDown(chainLength, |tried|);
        if better && best >= nice { break; }
        LinkIs(cur);
        NextCandidate(cur, limit);
        var next := prev[cur % wSize];
        chainLength := (chainLength + 0xFFFF_FFFF) % 0x1_0000_0000;
        if next <= limit || chainLength == 0 { break; }
        CandidateIn(next);
        FollowedMore(curMatch, tried, next);
        assert (tried + [next])[..|tried|] == tried;
        tried := tried + [next];
        cur := next;
      }
      len := if bestLen <= lookahead then bestLen else lookahead;
      SearchEnds(curMatch, tried, before, start0, bestLen, nice, len);
    }

    /** The search in terms of the input: the strings tried, and what was found. */
    ghost function FoundHere(len: nat): Held
      reads `base, `prevLength, `matchStart
    {
      if len > prevLength && base + matchStart >= 0 then Found(base + matchStart, len) else Nothing
    }

    ghost function Places(tried: seq<nat>): (r: seq<nat>)
      reads `base
      ensures |r| == |tried| && forall i | 0 <= i < |tried| :: r[i] == base + tried[i]
    {
      var b := base;
      seq(|tried|, i requires 0 <= i < |tried| => b + tried[i])
    }

    /** Moment `m` is this one, before the current string was inserted. */
    ghost predicate Here0(m: Moment)
      reads `input, `base, `strstart, `ins
    {
      m.base == base && m.at == Pos() && ins == m.ins + {Pos()} && Pos() + 2 < |input|
    }

    /** The nearest string of a hash is the next rival, or there is none left in the window. */
    lemma NearestIsNext(m: Moment, q: nat, hi: nat)
      requires Here0(m) && hi <= Pos()
      requires Nearest(hashBits, input, ins, base, q, hi, HashAt(hashBits, input, Pos()))
      ensures q > 0 ==> Next(Tune(), input, m, base + q, hi)
      ensures forall b: nat | Rival(Tune(), input, m, b) && b < hi :: b <= base + q && q > 0
    {
      hide HashAt;
    }

    lemma LinkIsNext(m: Moment, cur: nat)
      requires Shape() && Data() && Linked(Pos() + 1) && Candidate(cur) && Here0(m)
      ensures var q := Link(cur);
        && (q > 0 ==> Next(Tune(), input, m, base + q, base + cur))
        && forall b: nat | Rival(Tune(), input, m, b) && b < base + cur :: b <= base + q && q > 0
    {
      hide HashAt, Pow2, Chains, Holds, Nearest, Rival, Next;
      ChainsLink(hashBits, wSize, input, ins, base, head[..], prev[..], Pos() + 1, Pos(), cur,
        HashAt(hashBits, input, Pos()));
      NearestIsNext(m, prev[cur % wSize], base + cur);
    }

    lemma LongerIs(prev0: nat, x: int, l: nat)
      requires |input| == Pos() + lookahead && 0 <= base + x
      ensures Longer(input, Pos(), prev0, base + x, l) <==> prev0 < l && Ahead(x, l)
    {
    }

    lemma TriedIs(m: Moment, first: nat, tried: seq<nat>)
      requires Shape() && Data() && Linked(Pos() + 1) && Here0(m) && Followed(first, tried)
      requires Next(Tune(), input, m, base + first, Pos()) && strstart - first <= MaxDist()
      ensures Tried(Tune(), input, m, Places(tried))
    {
      hide Shape, Data, Linked, Candidate, Link, Rival, Next;
      var p := Places(tried);
      forall i | 0 < i < |p| ensures Next(Tune(), input, m, p[i], p[i - 1]) && m.at - p[i] < wSize - 262 {
        assert Candidate(tried[i - 1]) && tried[i] == Link(tried[i - 1]) && Candidate(tried[i]);
        LinkIsNext(m, tried[i - 1]);
        CandidateIn(tried[i]);
      }
    }

    lemma CandidateIn(cur: nat)
      requires Candidate(cur)
      ensures 0 < cur < strstart
    {
      hide HashAt;
    }

    lemma BestIs(m: Moment, tried: seq<nat>, len: nat)
      requires |input| == Pos() + lookahead && m.at == Pos() && Longest(tried, len)
      requires len > prevLength ==> Improves(len)
      ensures Best(input, m, prevLength, Places(tried), FoundHere(len))
    {
      hide Ahead, Longer;
      var p := Places(tried);
      forall i, l: nat | 0 <= i < |p| ensures Longer(input, m.at, prevLength, p[i], l) <==>
        prevLength < l && Ahead(tried[i], l) {
        LongerIs(prevLength, tried[i], l);
      }
      if len > prevLength {
        var i :| 0 <= i < |tried| && tried[i] == matchStart && FirstAhead(tried, i, len);
        ImprovesAhead(len);
        assert p[i] == base + matchStart && Longer(input, m.at, prevLength, p[i], len);
      }
    }

    lemma ImprovesAhead(len: nat)
      requires Improves(len) && |input| == Pos() + lookahead
      ensures Ahead(matchStart, len)
    {
    }

    lemma EnoughIs(m: Moment, first: nat, tried: seq<nat>, len: nat)
      requires Shape() && Data() && Linked(Pos() + 1) && Here0(m) && Followed(first, tried)
      requires |input| == Pos() + lookahead && (len > prevLength ==> Improves(len))
      requires tried != [] && Enough(tried, len, if niceMatch > lookahead then lookahead else niceMatch)
      ensures var t, r := Tune(), FoundHere(len);
        || NoneLeft(t, input, m, Places(tried)) || |tried| == ParseRules.Patience(t, prevLength)
        || (r.Found? && r.len >= NiceLength(t, input, m.at)) || m.at + prevLength >= |input|
    {
      hide Shape, Data, Linked, Candidate, Link, Rival, Next, Repeats;
      var last := tried[|tried| - 1];
      assert Candidate(last);
      LinkIsNext(m, last);
    }

    lemma PatientIs(m: Moment, tried: seq<nat>)
      requires |input| == Pos() + lookahead && m.at == Pos() && |tried| <= Patience()
      requires Patiently(tried, if niceMatch > lookahead then lookahead else niceMatch)
      ensures Patient(Tune(), input, m, prevLength, Places(tried))
    {
      hide Ahead, Longer;
      var p := Places(tried);
      forall i, l: nat | 0 <= i < |p| - 1 && Longer(input, m.at, prevLength, p[i], l)
        ensures l < NiceLength(Tune(), input, m.at) {
        LongerIs(prevLength, tried[i], l);
      }
    }

    /** The search is the one the rules describe. */
    lemma SearchIs(m: Moment, first: nat, tried: seq<nat>, len: nat)
      requires Shape() && Data() && Linked(Pos() + 1) && Here0(m) && Followed(first, tried)
      requires Next(Tune(), input, m, base + first, Pos()) && strstart - first <= MaxDist()
      requires |tried| <= Patience() && Longest(tried, len) && (len > prevLength ==> Improves(len))
      requires tried != [] && Enough(tried, len, if niceMatch > lookahead then lookahead else niceMatch)
      requires Patiently(tried, if niceMatch > lookahead then lookahead else niceMatch)
      ensures Searched(Tune(), input, m, prevLength, Places(tried), FoundHere(len))
    {
      hide Shape, Data, Linked, Followed, Next, Longest, Improves, Enough, Patiently, Tried, Patient, Best, NoneLeft;
      InputLength();
      TriedIs(m, first, tried);
      PatientIs(m, tried);
      BestIs(m, tried, len);
      EnoughIs(m, first, tried, len);
    }

    /** No rival is near enough to begin with. */
    lemma NoSearch(m: Moment, hashHead: nat, prev0: nat)
      requires m.base == base && m.at == Pos() && |input| == Pos() + lookahead
      requires lookahead >= MIN_MATCH ==>
        Nearest(hashBits, input, m.ins, base, hashHead, Pos(), HashAt(hashBits, input, Pos()))
      requires lookahead < MIN_MATCH || hashHead == 0 || strstart - hashHead > MaxDist()
      ensures Searched(Tune(), input, m, prev0, [], Nothing)
    {
      hide HashAt, NiceLength;
    }

    lemma DataHolds()
      requires Data()
      ensures Holds(window[..], input, base, strstart + lookahead)
    {
      hide Holds;
    }

    // ----- the parsers -----

    /** `strstart++`: what was inserted as the current string now lies before it. */
    method MoveOn(ghost n: nat)
      requires CurrentTo(n)
      modifies `strstart
      ensures strstart == old(strstart) + 1 && TablesTo(n)
    {
      hide Chains, Ready;
      ghost var lim, pos := Pos() + 1 - insert, Pos();
      strstart := strstart + 1;
      ChainsLater(hashBits, wSize, input, [], ins, base, head[..], prev[..], lim, lim, pos, Pos());
      assert input + [] == input;
    }

    /** Insert the current string if three bytes of it are there. */
    method InsertCurrent(complete: bool, ghost n: nat) returns (hashHead: nat)
      requires Shape() && Holds(window[..], input, base, n) && strstart <= n
      requires TablesTo(n) && complete == (strstart + MIN_MATCH <= n)
      modifies head, prev, `insH, `ins
      ensures CurrentTo(n)
      ensures hashHead != 0 && strstart - hashHead <= MaxDist() ==> complete && Candidate(hashHead)
      ensures ins == old(ins) + if complete then {Pos()} else {}
      ensures complete ==> Pos() + 2 < |input|
      ensures complete ==>
        Nearest(hashBits, input, old(ins), base, hashHead, Pos(), HashAt(hashBits, input, Pos()))
      ensures !complete ==> hashHead == 0
    {
      hide Chains, Ready, HashAt, Pow2, Holds;
      hashHead := 0;
      if complete {
        hashHead := InsertString(strstart, n);
        HoldsLength(window[..], input, base, n);
      } else {
        ChainsLater(hashBits, wSize, input, [], ins, base, head[..], prev[..], Pos() - insert, Pos() + 1 - insert,
          Pos(), Pos());
        assert input + [] == input;
      }
    }

    /** Insert the strings of a match after its first and move past it. */
    method InsertMatch(ghost n: nat)
      requires Shape() && Holds(window[..], input, base, n)
      requires CurrentTo(n) && matchLength >= MIN_MATCH && strstart + matchLength + MIN_MATCH <= n
      modifies head, prev, `insH, `ins, `strstart, `matchLength
      ensures strstart == old(strstart + matchLength) && matchLength == 0 && TablesTo(n)
      ensures ins == old(ins) + Upto(old(Pos()) + 1, Pos())
    {
      hide Holds, Pow2, TablesTo, CurrentTo, Candidate, Nearest;
      matchLength := matchLength - 1;
      while matchLength != 0
        modifies head, prev, `insH, `ins, `strstart, `matchLength
        invariant strstart + matchLength + 1 == old(strstart + matchLength) && CurrentTo(n)
        invariant ins == old(ins) + Upto(old(Pos()) + 1, Pos() + 1)
      {
        MoveOn(n);
        var _ := InsertCurrent(true, n);
        matchLength := matchLength - 1;
      }
      MoveOn(n);
    }

    /** Jump past a match without inserting its strings; the hash starts afresh. */
    method SkipMatch(ghost n: nat)
      requires Shape() && Holds(window[..], input, base, n)
      requires CurrentTo(n) && 1 <= matchLength && strstart + matchLength <= n && strstart + matchLength + 1 < 2 * wSize
      requires strstart + MIN_MATCH <= n
      modifies `insH, `strstart, `matchLength
      ensures strstart == old(strstart + matchLength) && matchLength == 0 && TablesTo(n)
    {
      hide Chains, Ready, UpdateHash, Pow2, Holds;
      ghost var lim, pos := Pos() + 1 - insert, Pos();
      strstart := strstart + matchLength;
      matchLength := 0;
      insH := window[strstart];
      insH := UpdateHash(hashBits, insH, window[strstart + 1]);
      ChainsLater(hashBits, wSize, input, [], ins, base, head[..], prev[..], lim, Pos(), pos, Pos());
      assert input + [] == input;
      if strstart + MIN_MATCH <= n {
        HoldsAt(window[..], input, base, n, strstart);
        HoldsAt(window[..], input, base, n, strstart + 1);
        ReadyFresh(hashBits, input, Pos());
      }
    }

    method TallyDist(dist: nat, len: nat)
      modifies `syms
      ensures syms == old(syms) + [Match(dist, len)]
    {
      syms := syms + [Match(dist, len)];
    }

    method TallyLit(c: byte)
      modifies `syms
      ensures syms == old(syms) + [Literal(c)]
    {
      syms := syms + [Literal(c)];
    }

    lemma ImprovesSpells()
      requires Data() && Told(Pos()) && Improves(matchLength) && matchLength >= MIN_MATCH
      ensures 0 <= matchStart < strstart && matchLength <= MAX_MATCH
      ensures Tells(syms + [Match(strstart - matchStart, matchLength)], points, input, Pos() + matchLength, MaxDist())
    {
      hide Tells, Repeats;
      TellsMatch(syms, points, input, Pos(), strstart - matchStart, matchLength, MaxDist());
    }

    /** Emit the match found at the current string and move past it, inserting its strings if it is short. */
    method FastMatch(ghost n: nat)
      requires Shape() && Data() && n == strstart + lookahead && CurrentTo(n) && Told(Pos())
      requires Improves(matchLength) && MIN_MATCH <= matchLength <= lookahead && strstart <= 2 * wSize - MIN_LOOKAHEAD
      modifies head, prev, `insH, `ins, `strstart, `lookahead, `matchLength, `syms
      ensures TablesTo(n) && Told(Pos()) && strstart + lookahead == n && lookahead < old(lookahead) && matchLength == 0
      ensures strstart == old(strstart + matchLength)
        && syms == old(syms) + [Match(Back(old(Pos()), base + matchStart), old(matchLength))]
      ensures ins == old(ins) + if old(matchLength) <= maxLazy && strstart + MIN_MATCH <= n
        then Upto(old(Pos()) + 1, Pos()) else {}
    {
      hide Holds, TablesTo, CurrentTo, Improves, Tells, Pow2, Upto;
      ImprovesSpells();
      TallyDist(strstart - matchStart, matchLength);
      lookahead := lookahead - matchLength;
      if matchLength <= maxLazy && lookahead >= MIN_MATCH {
        InsertMatch(n);
      } else {
        SkipMatch(n);
      }
    }

    /** `hashHead` is the nearest string of its hash at moment `m`, before the current one was inserted. */
    ghost predicate HeadOf(m: Moment, hashHead: nat)
      reads `input, `base, `strstart, `lookahead, `ins
    {
      && m.base == base && m.at == Pos() && |input| == Pos() + lookahead
      && ins == m.ins + (if lookahead >= MIN_MATCH then {Pos()} else {})
      && (lookahead >= MIN_MATCH ==>
        Nearest(hashBits, input, m.ins, base, hashHead, Pos(), HashAt(hashBits, input, Pos())))
      && (lookahead < MIN_MATCH ==> hashHead == 0)
    }

    /** Insert the current string, and see which is the nearest before it that has its hash. */
    method Look(ghost n: nat) returns (hashHead: nat)
      requires Shape() && Data() && n == strstart + lookahead && TablesTo(n)
      modifies head, prev, `insH, `ins
      ensures CurrentTo(n) && HeadOf(old(Now()), hashHead) && ins == old(ins) + Here(input, old(Now()))
      ensures hashHead != 0 && strstart - hashHead <= MaxDist() ==> lookahead >= MIN_MATCH && Candidate(hashHead)
    {
      hide Holds, TablesTo, CurrentTo, Candidate, Pow2, Nearest, HashAt, HeldBack;
      InputLength();
      hashHead := InsertCurrent(lookahead >= MIN_MATCH, n);
    }

    /** The search from the head of the chain on, in the terms of the rules. */
    method Search(hashHead: nat, ghost n: nat, ghost m: Moment) returns (len: nat, ghost tried: seq<nat>, ghost r: Held)
      requires Shape() && Data() && CurrentTo(n) && n == strstart + lookahead && strstart <= 2 * wSize - MIN_LOOKAHEAD
      requires hashHead != 0 && strstart - hashHead <= MaxDist() && lookahead >= MIN_MATCH && Candidate(hashHead)
      requires 2 <= prevLength <= MAX_MATCH && HeadOf(m, hashHead)
      modifies `matchStart
      ensures len <= lookahead && (len < prevLength ==> len == lookahead)
      ensures len > prevLength ==> Improves(len) && 0 <= base + matchStart
      ensures Searched(Tune(), input, m, prevLength, tried, r) && r == FoundHere(len)
    {
      hide Shape, Data, CurrentTo, Candidate, Improves, Linked, Longest, Followed, Enough, Patiently, Searched, HeadOf,
        FoundHere, Next, Patience;
      HeadIsNext(m, hashHead);
      CurrentLinked(n);
      ghost var places;
      len, places := LongestMatch(hashHead);
      SearchIs(m, hashHead, places, len);
      if len > prevLength { ImprovesBack(len); }
      tried, r := Places(places), FoundHere(len);
    }

    /** Find the longest match for the current string, if its chain has one near enough. */
    method FastSearch(hashHead: nat, ghost n: nat, ghost m: Moment) returns (ghost tried: seq<nat>, ghost r: Held)
      requires Shape() && Data() && CurrentTo(n) && n == strstart + lookahead && strstart <= 2 * wSize - MIN_LOOKAHEAD
      requires hashHead != 0 && strstart - hashHead <= MaxDist() ==> lookahead >= MIN_MATCH && Candidate(hashHead)
      requires prevLength == 2 && matchLength < MIN_MATCH && HeadOf(m, hashHead)
      modifies `matchLength, `matchStart
      ensures matchLength >= MIN_MATCH ==> matchLength <= lookahead && Improves(matchLength)
      ensures Searched(Tune(), input, m, 2, tried, r)
      ensures if matchLength < MIN_MATCH then r.Nothing?
        else 0 <= base + matchStart && r == Found(base + matchStart, matchLength)
    {
      hide Shape, Data, CurrentTo, Candidate, Improves, Searched, HeadOf;
      tried, r := [], Nothing;
      if hashHead != 0 && strstart - hashHead <= MaxDist() {
        matchLength, tried, r := Search(hashHead, n, m);
      } else {
        HeadTooFar(m, hashHead, 2);
      }
    }

    lemma HeadIsNext(m: Moment, hashHead: nat)
      requires HeadOf(m, hashHead) && hashHead != 0
      ensures Here0(m) && Next(Tune(), input, m, base + hashHead, Pos())
    {
      hide HashAt;
    }

    lemma HeadTooFar(m: Moment, hashHead: nat, prev0: nat)
      requires HeadOf(m, hashHead) && (hashHead == 0 || strstart - hashHead > MaxDist())
      ensures Searched(Tune(), input, m, prev0, [], Nothing)
    {
      hide HashAt, NiceLength;
      NoSearch(m, hashHead, prev0);
    }

    lemma ImprovesBack(len: nat)
      requires Improves(len)
      ensures 0 <= base + matchStart
    {
    }

    lemma LiteralSpells(str: nat)
      requires Data() && str < strstart + lookahead && Told(base + str)
      ensures str < window.Length && Tells(syms + [Literal(window[str])], points, input, base + str + 1, MaxDist())
    {
      hide Tells;
      TellsLiteral(syms, points, input, base + str, MaxDist());
    }

    lemma LiteralIs(str: nat)
      requires Data() && str < strstart + lookahead
      ensures str < window.Length && Byte1(input, base + str) == [Literal(window[str])]
    {
    }

    /** No match: emit the current byte. */
    method FastLiteral(ghost n: nat)
      requires Shape() && Data() && n == strstart + lookahead && CurrentTo(n) && Told(Pos()) && lookahead > 0
      modifies `strstart, `lookahead, `syms
      ensures TablesTo(n) && Told(Pos()) && strstart + lookahead == n && lookahead < old(lookahead)
      ensures strstart == old(strstart) + 1 && syms == old(syms) + Byte1(input, old(Pos()))
    {
      hide Holds, TablesTo, CurrentTo, Tells, Pow2;
      LiteralSpells(strstart);
      LiteralIs(strstart);
      TallyLit(window[strstart]);
      lookahead := lookahead - 1;
      MoveOn(n);
    }

    /** One round of deflate_fast: look for a match and emit it, or a literal. */
    method FastStep()
      requires FastOk() && lookahead > 0 && strstart <= 2 * wSize - MIN_LOOKAHEAD && !matchAvailable
      modifies head, prev, `insH, `ins, `strstart, `lookahead, `matchLength, `matchStart, `syms
      ensures FastOk() && lookahead < old(lookahead)
      ensures FastRule(Tune(), input, old(Now()), Now())
    {
      hide FastOk, Shape, Data, TablesTo, CurrentTo, Candidate, Improves, Told, Pow2, Searched, FastNext, HeadOf, Now,
        Here, Upto;
      ghost var n, m := strstart + lookahead, Now();
      NowParts();
      FastParts();
      var hashHead := Look(n);
      ghost var tried, r := FastSearch(hashHead, n, m);
      if matchLength >= MIN_MATCH {
        FastMatch(n);
      } else {
        FastLiteral(n);
      }
      FastMade(n);
      FastIs(m, r);
    }

    lemma FastParts()
      requires FastOk()
      ensures Shape() && Data() && TablesTo(strstart + lookahead) && Told(Pos())
      ensures prevLength == 2 && matchLength < MIN_MATCH && |input| == Pos() + lookahead
      ensures Holds(window[..], input, base, strstart + lookahead) && strstart + lookahead <= 2 * wSize
        && Before(points, base)
    {
      hide Holds, Linked, Told, Tells, TablesTo, Pow2;
      InputLength();
    }

    lemma FastMade(n: nat)
      requires Shape() && Holds(window[..], input, base, n) && n == strstart + lookahead <= 2 * wSize
        && Before(points, base)
      requires TablesTo(n) && Told(Pos()) && prevLength == 2 && matchLength < MIN_MATCH
      ensures FastOk()
    {
      hide Holds, Linked, Told, Tells, Pow2, Ready;
    }

    lemma FastIs(m: Moment, r: Held)
      requires m.seen == |input| && m.waiting == |nextIn| && m.base == base && m.left == insert && !matchAvailable
      requires m.held.Nothing?
      requires r.Found? ==>
        && Pos() == m.at + r.len && syms == m.syms + [Match(Back(m.at, r.start), r.len)]
        && ins == m.ins + Here(input, m)
          + if r.len <= maxLazy && Pos() + MIN_MATCH <= |input| then Upto(m.at + 1, Pos()) else {}
      requires !r.Found? ==>
        && Pos() == m.at + 1 && syms == m.syms + Byte1(input, m.at) && ins == m.ins + Here(input, m)
      ensures Now() == FastNext(Tune(), input, m, r)
    {
      hide Upto, Here;
    }

    /** Reading more input leaves what has been told. */
    lemma ToldMore(old0: seq<byte>, n: int)
      requires old0 <= input && n >= 0 && Tells(syms, points, old0, n, MaxDist())
      ensures Told(n)
    {
      TellsMore(syms, points, old0, input[|old0|..], n, MaxDist());
      assert old0 + input[|old0|..] == input;
    }

    /** The strings of the last two bytes are left for the next call, which may read the bytes they lack. */
    method LeaveTail()
      requires Shape() && Data() && Tables() && lookahead == 0
      modifies `insert
      ensures Valid() && insert == Least(2, strstart)
    {
      hide Ready, Pow2, Holds;
      HoldsLength(window[..], input, base, strstart);
      ghost var lim := Pos() - insert;
      insert := if strstart < MIN_MATCH - 1 then strstart else MIN_MATCH - 1;
      ChainsLater(hashBits, wSize, input, [], ins, base, head[..], prev[..], lim, Pos() - insert, Pos(), Pos());
      assert input + [] == input;
    }

    /** If the output does not fill up, all input is read, and the state says no more than what was asked for. */
    ghost predicate Unhindered(flush: Flush, state: BlockState)
      reads `ample, `nextIn
    {
      !ample || (nextIn == [] && state == Quiet(flush))
    }

    /** The state reported once all input has been parsed and the block is flushed, as far as output space allows. */
    method Finished(flush: Flush) returns (state: BlockState)
      ensures state.FinishDone? || state.FinishStarted? ==> flush.Finish?
      ensures state.BlockDone? ==> !flush.Finish?
      ensures ample ==> state == if flush.Finish? then FinishDone else BlockDone
    {
      var outputFull := *;
      outputFull := outputFull && !ample;
      if flush.Finish? {
        return if outputFull then FinishStarted else FinishDone;
      }
      return if outputFull then NeedMore else BlockDone;
    }

    lemma InputLength()
      requires Data()
      ensures |input| == Pos() + lookahead
      ensures lookahead >= MIN_LOOKAHEAD ==> strstart <= 2 * wSize - MIN_LOOKAHEAD
    {
      hide Holds;
      HoldsLength(window[..], input, base, strstart + lookahead);
    }

    lemma FastLength()
      requires FastOk()
      ensures |input| == Pos() + lookahead
      ensures lookahead >= MIN_LOOKAHEAD ==> strstart <= 2 * wSize - MIN_LOOKAHEAD
    {
      hide Data, Tables, Told, Pow2;
      InputLength();
    }

    method FastFill(ghost flush: Flush, ghost from: Moment, ghost before: seq<Moment>)
      returns (ghost trail: seq<Moment>)
      requires FastOk() && lookahead < MIN_LOOKAHEAD && Trail(flush, from, before)
      modifies window, head, prev, `strstart, `matchStart, `insert, `base, `lookahead, `insH, `ins, `nextIn, `input,
        `highWater
      ensures FastOk() && Pos() == old(Pos())
      ensures old(input) <= input && input + nextIn == old(input + nextIn)
      ensures (lookahead >= MIN_LOOKAHEAD || nextIn == []) && strstart <= 2 * wSize - MIN_LOOKAHEAD
      ensures Trail(flush, from, trail)
    {
      hide Trail, Tables, Data, Tells, Pow2;
      ghost var input0 := input;
      Loosen();
      trail := FillWindow(flush, from, before);
      ToldMore(input0, Pos());
    }

    method FastEnd()
      requires FastOk() && lookahead == 0
      modifies `insert
      ensures FastOk() && insert == Least(2, strstart)
    {
      hide Tables, Data, Tells, Pow2;
      LeaveTail();
    }

    /**
     * `deflate_fast`: whenever it returns, the symbols stand for exactly the input before the current position; when
     * it reports a finished block, they stand for everything the caller has given.
     */
    method DeflateFast(flush: Flush) returns (state: BlockState, ghost trail: seq<Moment>)
      requires FastOk() && !matchAvailable && parser.Fast?
      modifies window, head, prev, `insH, `ins, `strstart, `lookahead, `matchLength, `matchStart, `syms, `insert,
        `base, `nextIn, `input, `highWater
      ensures FastOk() && old(input) <= input && input + nextIn == old(input + nextIn)
      ensures !state.NeedMore? ==> nextIn == [] && Pos() == |input|
      ensures flush.NoFlush? ==> state.NeedMore?
      ensures (state.BlockDone? ==> !flush.Finish?) && (state.FinishDone? || state.FinishStarted? ==> flush.Finish?)
      ensures Unhindered(flush, state)
      ensures Trail(flush, old(Now()), trail)
    {
      hide FastOk, Trail, TrailTo, Leg, Now, HeldBack, FastRule;
      trail := [Now()];
      TrailStarts(flush);
      while true
        invariant FastOk() && !matchAvailable && old(input) <= input && input + nextIn == old(input + nextIn)
        invariant Trail(flush, old(Now()), trail)
        decreases |nextIn| + lookahead
      {
        FastLength();
        if lookahead < MIN_LOOKAHEAD {
          trail := FastFill(flush, old(Now()), trail);
          FastLength();
          if lookahead < MIN_LOOKAHEAD && flush.NoFlush? { return NeedMore, trail; }
          if lookahead == 0 { break; }
        }
        ghost var m := Now();
        NowParts();
        TrailHere(flush, old(Now()), trail);
        FastStep();
        TrailDecides(flush, old(Now()), trail, m);
        trail := trail + [Now()];
        var blockFull, outputFull := *, *;
        if blockFull && outputFull && !ample { return NeedMore, trail; }
      }
      FastLength();
      ghost var m := Now();
      NowParts();
      TrailHere(flush, old(Now()), trail);
      FastEnd();
      TailMoves(flush, old(Now()), trail, m);
      trail := trail + [Now()];
      state := Finished(flush);
    }

    // ----- deflate_slow: a match is emitted only if the next string has no longer one -----

    /** What the search came to, as deflate_slow keeps it: `w` is what was found, if that is longer and worth it. */
    ghost predicate Kept(w: Held)
      reads `base, `prevLength, `matchLength, `matchStart
    {
      && (matchLength > prevLength <==> w.Found?)
      && (w.Found? ==> 0 <= base + matchStart && w == Found(base + matchStart, matchLength))
      && (!w.Found? && prevLength == 2 ==> matchLength == 2)
    }

    /** Remember the last match and look for a longer one at the current string. */
    method SlowSearch(hashHead: nat, ghost n: nat, ghost m: Moment) returns (ghost tried: seq<nat>, ghost r: Held)
      requires Shape() && Data() && CurrentTo(n) && n == strstart + lookahead && strstart <= 2 * wSize - MIN_LOOKAHEAD
      requires hashHead != 0 && strstart - hashHead <= MaxDist() ==> lookahead >= MIN_MATCH && Candidate(hashHead)
      requires 2 <= matchLength <= MAX_MATCH && HeadOf(m, hashHead)
      modifies `matchLength, `matchStart, `prevLength, `prevMatch
      ensures prevLength == old(matchLength) && prevMatch == old(matchStart)
      ensures 2 <= matchLength && (matchLength > prevLength ==> matchLength <= lookahead && Improves(matchLength))
      ensures m.held.Len() == prevLength ==> Compared(Tune(), input, m, tried, r)
      ensures Kept(Worthwhile(Tune(), m, r))
    {
      hide Shape, Data, CurrentTo, Candidate, Improves, Searched, HeadOf, FoundHere, Worthwhile, Kept;
      prevLength, prevMatch := matchLength, matchStart;
      matchLength := MIN_MATCH - 1;
      tried, r := [], Nothing;
      HeadPos(m, hashHead);
      if hashHead != 0 && prevLength < maxLazy && strstart - hashHead <= MaxDist() {
        matchLength, tried, r := Search(hashHead, n, m);
        ghost var len := matchLength;
        if matchLength <= 5 && (strategy.Filtered? || (matchLength == MIN_MATCH && strstart - matchStart > TOO_FAR)) {
          matchLength := MIN_MATCH - 1;
        }
        FoundIsKept(m, len);
      } else {
        if prevLength < maxLazy { HeadTooFar(m, hashHead, prevLength); }
        NothingIsKept(m);
      }
    }

    lemma FoundIsKept(m: Moment, len: nat)
      requires m.base == base && m.at == Pos() && 2 <= prevLength && (len < prevLength ==> len >= MIN_MATCH)
      requires len > prevLength ==> 0 <= base + matchStart
      requires matchLength ==
        if len <= 5 && (strategy.Filtered? || (len == MIN_MATCH && strstart - matchStart > TOO_FAR)) then 2 else len
      ensures Kept(Worthwhile(Tune(), m, FoundHere(len)))
    {
    }

    lemma NothingIsKept(m: Moment)
      requires matchLength == 2 <= prevLength
      ensures Kept(Worthwhile(Tune(), m, Nothing))
    {
    }

    lemma CurrentLinked(n: nat)
      requires CurrentTo(n)
      ensures insert <= strstart && Linked(Pos() + 1 - insert) && (strstart + MIN_MATCH <= n ==> insert == 0)
    {
      hide Linked, Ready;
    }

    lemma HeadPos(m: Moment, hashHead: nat)
      requires HeadOf(m, hashHead)
      ensures m.base == base && m.at == Pos()
    {
      hide HashAt;
    }

    /** Insert the strings up to the end of the match, as far as they are complete. */
    method InsertRest(maxInsert: int, ghost n: nat)
      requires Shape() && Holds(window[..], input, base, n) && maxInsert == n - MIN_MATCH
      requires CurrentTo(n) && strstart + prevLength < n
      modifies head, prev, `insH, `ins, `strstart, `prevLength
      ensures CurrentTo(n) && strstart == old(strstart + prevLength) && prevLength == 0
      ensures ins == old(ins) + Upto(old(Pos()) + 1, Least(Pos() + 1, Back(base + n, 2)))
    {
      hide Holds, TablesTo, CurrentTo, Candidate, Pow2, Nearest, HashAt;
      while prevLength != 0
        modifies head, prev, `insH, `ins, `strstart, `prevLength
        invariant CurrentTo(n) && strstart + prevLength == old(strstart + prevLength)
        invariant ins == old(ins) + Upto(old(Pos()) + 1, Least(Pos() + 1, Back(base + n, 2)))
      {
        MoveOn(n);
        var _ := InsertCurrent(strstart <= maxInsert, n);
        prevLength := prevLength - 1;
      }
    }

    lemma PendingFits()
      requires Shape() && Data() && Pending(prevMatch, prevLength)
      ensures prevLength - 1 <= lookahead
      ensures Holds(window[..], input, base, strstart + lookahead) && |input| == Pos() + lookahead
    {
    }

    /** Emit the previous match, insert its remaining strings and move past it. */
    method EmitPrevious(ghost n: nat)
      requires Shape() && Data() && n == strstart + lookahead && CurrentTo(n)
      requires matchAvailable && Told(Pos() - 1) && Pending(prevMatch, prevLength)
      modifies head, prev, `insH, `ins, `strstart, `lookahead, `matchLength, `matchAvailable, `prevLength, `syms
      ensures TablesTo(n) && Told(Pos()) && strstart + lookahead == n && strstart > old(strstart)
      ensures matchLength == 2 && !matchAvailable && strstart == old(strstart + prevLength) - 1
      ensures syms == old(syms) + [Match(old(strstart - 1 - prevMatch), old(prevLength))]
      ensures ins == old(ins) + Upto(old(Pos()) + 1, Least(Pos(), Back(base + n, 2)))
    {
      hide Upto, Holds, TablesTo, CurrentTo, Tells, Pow2, Repeats;
      PendingFits();
      var maxInsert := strstart + lookahead - MIN_MATCH;
      TellsMatch(syms, points, input, Pos() - 1, strstart - 1 - prevMatch, prevLength, MaxDist());
      TallyDist(strstart - 1 - prevMatch, prevLength);
      lookahead := lookahead - (prevLength - 1);
      prevLength := prevLength - 2;
      InsertRest(maxInsert, n);
      matchAvailable := false;
      matchLength := MIN_MATCH - 1;
      MoveOn(n);
    }

    /** A match found at the current string is pending once the parser has moved on by one. */
    lemma ImprovesPends()
      requires Data() && Improves(matchLength) && MIN_MATCH <= matchLength
      ensures Before(points, base + matchStart) && 0 < strstart - matchStart <= MaxDist() && matchLength <= MAX_MATCH
      ensures Repeats(input, Pos(), strstart - matchStart, matchLength)
    {
    }

    /** Emit the byte held back, if there is one, and hold back the current one. */
    method HoldBack(ghost n: nat)
      requires Shape() && Data() && n == strstart + lookahead && CurrentTo(n) && lookahead > 0
      requires Told(Told1()) && (matchAvailable ==> 1 <= strstart)
      requires matchLength >= MIN_MATCH ==> Improves(matchLength)
      modifies `strstart, `lookahead, `syms, `matchAvailable
      ensures TablesTo(n) && Told(Pos() - 1) && strstart == old(strstart) + 1 && strstart + lookahead == n
      ensures matchAvailable && (matchLength >= MIN_MATCH ==> Pending(matchStart, matchLength))
      ensures syms == old(syms) + if old(matchAvailable) then Byte1(input, old(Pos()) - 1) else []
    {
      hide Holds, TablesTo, CurrentTo, Tells, Pow2, Repeats, Improves;
      if matchLength >= MIN_MATCH { ImprovesPends(); }
      if matchAvailable {
        LiteralSpells(strstart - 1);
        LiteralIs(strstart - 1);
        TallyLit(window[strstart - 1]);
        MoveOn(n);
        lookahead := lookahead - 1;
      } else {
        matchAvailable := true;
        MoveOn(n);
        lookahead := lookahead - 1;
      }
    }

    lemma PendingShort()
      requires matchLength >= MIN_MATCH ==> Pending(matchStart, matchLength)
      ensures matchLength <= MAX_MATCH
    {
    }

    lemma SlowParts()
      requires SlowOk()
      ensures Shape() && Data() && TablesTo(strstart + lookahead) && Told(Told1())
        && (matchAvailable ==> 1 <= strstart)
      ensures Holds(window[..], input, base, strstart + lookahead) && strstart + lookahead <= 2 * wSize
        && Before(points, base)
      ensures 2 <= matchLength <= MAX_MATCH
        && (matchLength >= MIN_MATCH ==> matchAvailable && Pending(matchStart, matchLength))
    {
      hide Holds, Linked, Told, Tells, TablesTo, Pending, Pow2;
      PendingShort();
    }

    lemma SlowMade(n: nat)
      requires Shape() && Holds(window[..], input, base, n) && n == strstart + lookahead <= 2 * wSize
        && Before(points, base)
      requires TablesTo(n) && Told(Told1()) && (matchAvailable ==> 1 <= strstart)
      requires 2 <= matchLength && (matchLength >= MIN_MATCH ==> matchAvailable && Pending(matchStart, matchLength))
      ensures SlowOk()
    {
      hide Holds, Linked, Told, Tells, Pending, Pow2, Ready;
    }

    /** One round of deflate_slow, up to the check for a full block. */
    method SlowStep()
      requires SlowOk() && lookahead > 0 && strstart <= 2 * wSize - MIN_LOOKAHEAD
      modifies head, prev, `insH, `ins, `strstart, `lookahead, `matchLength, `matchStart, `matchAvailable, `prevLength,
        `prevMatch, `syms
      ensures SlowOk() && lookahead < old(lookahead)
      ensures SlowRule(Tune(), input, old(Now()), Now())
    {
      hide SlowOk, Shape, Data, Holds, TablesTo, CurrentTo, Improves, Pending, Told, Pow2, Compared, SlowNext,
        Worthwhile, Upto, Here, Now, HeldBack, Kept;
      ghost var n, m := strstart + lookahead, Now();
      NowParts();
      SlowLength();
      SlowParts();
      PendingBack();
      ghost var tried, r := SlowLook(n);
      ghost var w := Worthwhile(Tune(), m, r);
      KeptParts(w);
      if prevLength >= MIN_MATCH && matchLength <= prevLength {
        EmitPrevious(n);
        EmittedIs(m, w);
      } else {
        HoldBack(n);
        HeldIs(m, w);
      }
      SlowMade(n);
    }

    /** Insert the current string and search for a match longer than the one held back. */
    method SlowLook(ghost n: nat) returns (ghost tried: seq<nat>, ghost r: Held)
      requires Shape() && Data() && TablesTo(n) && n == strstart + lookahead && strstart <= 2 * wSize - MIN_LOOKAHEAD
      requires 2 <= matchLength <= MAX_MATCH && HeldBack().Len() == matchLength
      modifies head, prev, `insH, `ins, `matchLength, `matchStart, `prevLength, `prevMatch
      ensures CurrentTo(n) && prevLength == old(matchLength) && prevMatch == old(matchStart)
      ensures 2 <= matchLength && (matchLength > prevLength ==> matchLength <= lookahead && Improves(matchLength))
      ensures ins == old(ins) + Here(input, old(Now()))
      ensures Compared(Tune(), input, old(Now()), tried, r) && Kept(Worthwhile(Tune(), old(Now()), r))
    {
      hide Shape, Data, TablesTo, CurrentTo, Candidate, Improves, Pow2, Compared, Worthwhile, Kept, HeadOf, Here, Now,
        HeldBack;
      ghost var m := Now();
      NowParts();
      var hashHead := Look(n);
      tried, r := SlowSearch(hashHead, n, m);
    }

    lemma KeptParts(w: Held)
      requires Kept(w)
      ensures matchLength > prevLength <==> w.Found?
      ensures w.Found? ==> 0 <= base + matchStart && w == Found(base + matchStart, matchLength)
      ensures !w.Found? && prevLength == 2 ==> matchLength == 2
    {
    }

    /** What is pending is held back. */
    lemma PendingBack()
      requires 2 <= matchLength && (matchLength >= MIN_MATCH ==> matchAvailable && Pending(matchStart, matchLength))
      ensures HeldBack().Len() == matchLength && (HeldBack().Nothing? <==> !matchAvailable)
      ensures matchLength >= MIN_MATCH ==> 0 <= base + matchStart && matchStart < strstart - 1
      ensures matchLength >= MIN_MATCH ==> HeldBack() == Found(base + matchStart, matchLength)
      ensures HeldBack().Found? <==> matchLength >= MIN_MATCH
    {
    }

    lemma EmittedIs(m: Moment, w: Held)
      requires m.seen == |input| && m.waiting == |nextIn| && m.base == base && m.left == insert && !matchAvailable
      requires m.held.Found? && !w.Found? && Pos() == m.at + m.held.len - 1 && m.at > m.held.start
      requires syms == m.syms + [Match(m.at - 1 - m.held.start, m.held.len)]
      requires ins == m.ins + Here(input, m)
        + Upto(m.at + 1, Least(Pos(), Back(|input|, 2)))
      ensures Now() == SlowNext(Tune(), input, m, w)
    {
      hide Upto, Here;
    }

    lemma HeldIs(m: Moment, w: Held)
      requires m.seen == |input| && m.waiting == |nextIn| && m.base == base && m.left == insert && matchAvailable
      requires (m.held.Found? ==> w.Found?) && Pos() == m.at + 1
      requires syms == m.syms + if m.held.Nothing? then [] else Byte1(input, m.at - 1)
      requires ins == m.ins + Here(input, m)
      requires if w.Found? then 0 <= base + matchStart && w == Found(base + matchStart, matchLength) && matchLength >= 3
        else matchLength == 2
      ensures Now() == SlowNext(Tune(), input, m, w)
    {
      hide Here;
    }

    /** Reading more input, sliding or not, keeps a pending match. */
    lemma PendingMore(input0: seq<byte>, pos0: int, dist: int, len: nat)
      requires input0 <= input && pos0 == Pos() && 1 <= strstart && strstart - matchStart == dist
      requires Before(points, pos0 - dist) && pos0 > 0 && 0 < dist - 1 <= MaxDist() && MIN_MATCH <= len <= MAX_MATCH
        && Repeats(input0, pos0 - 1, dist - 1, len)
      ensures Pending(matchStart, len)
    {
    }

    method SlowFill(ghost flush: Flush, ghost from: Moment, ghost before: seq<Moment>)
      returns (ghost trail: seq<Moment>)
      requires SlowOk() && lookahead < MIN_LOOKAHEAD && Trail(flush, from, before)
      modifies window, head, prev, `strstart, `matchStart, `insert, `base, `lookahead, `insH, `ins, `nextIn, `input,
        `highWater
      ensures SlowOk() && Pos() == old(Pos())
      ensures old(input) <= input && input + nextIn == old(input + nextIn)
      ensures lookahead >= MIN_LOOKAHEAD || nextIn == []
      ensures strstart <= 2 * wSize - MIN_LOOKAHEAD
      ensures Trail(flush, from, trail)
    {
      hide Trail, Tables, Data, Tells, Pow2, Repeats;
      ghost var input0, pos0, dist := input, Pos(), strstart - matchStart;
      Loosen();
      trail := FillWindow(flush, from, before);
      ToldMore(input0, Told1());
      if matchLength >= MIN_MATCH {
        PendingMore(input0, pos0, dist, matchLength);
      }
    }

    /** Emit the byte still held back when the input has ended. */
    method LastLiteral()
      requires SlowOk() && lookahead == 0
      modifies `syms, `matchAvailable
      ensures Valid() && Told(Pos()) && !matchAvailable
      ensures syms == old(syms) + if old(matchAvailable) then Byte1(input, Pos() - 1) else []
    {
      hide Tables, Tells, Pow2, Holds;
      if matchAvailable {
        LiteralSpells(strstart - 1);
        LiteralIs(strstart - 1);
        TallyLit(window[strstart - 1]);
        matchAvailable := false;
      }
    }

    /** With no input left, no match can be pending. */
    lemma NothingPending()
      requires SlowOk() && lookahead == 0
      ensures matchLength < MIN_MATCH
    {
      hide Holds, Tables, Told;
      if matchLength >= MIN_MATCH { HoldsLength(window[..], input, base, strstart); }
    }

    lemma SlowLength()
      requires SlowOk()
      ensures |input| == Pos() + lookahead
      ensures lookahead >= MIN_LOOKAHEAD ==> strstart <= 2 * wSize - MIN_LOOKAHEAD
    {
      hide Data, Tables, Told, Pow2;
      InputLength();
    }

    /** The end of a flush: the byte held back is emitted, and the last two strings are left. */
    method SlowEnd()
      requires SlowOk() && lookahead == 0
      modifies `syms, `matchAvailable, `insert
      ensures SlowOk() && !matchAvailable && insert == Least(2, strstart)
      ensures !old(HeldBack()).Found?
      ensures if old(HeldBack()).Byte? then syms == old(syms) + Byte1(input, Pos() - 1) else syms == old(syms)
    {
      hide Data, Told, Pending, Pow2, Ready, Linked;
      NothingPending();
      LastLiteral();
      LeaveTail();
    }

    /** `deflate_slow`: the same promise as deflate_fast, but for one byte that may be held back between calls. */
    method DeflateSlow(flush: Flush) returns (state: BlockState, ghost trail: seq<Moment>)
      requires SlowOk() && parser.Slow?
      modifies window, head, prev, `insH, `ins, `strstart, `lookahead, `matchLength, `matchStart, `matchAvailable,
        `prevLength, `prevMatch, `syms, `insert, `base, `nextIn, `input, `highWater
      ensures SlowOk() && old(input) <= input && input + nextIn == old(input + nextIn)
      ensures !state.NeedMore? ==> nextIn == [] && Pos() == |input| && !matchAvailable
      ensures flush.NoFlush? ==> state.NeedMore?
      ensures (state.BlockDone? ==> !flush.Finish?) && (state.FinishDone? || state.FinishStarted? ==> flush.Finish?)
      ensures Unhindered(flush, state)
      ensures Trail(flush, old(Now()), trail)
    {
      hide SlowOk, Trail, TrailTo, Leg, Now, HeldBack, SlowRule;
      trail := [Now()];
      TrailStarts(flush);
      while true
        invariant SlowOk() && old(input) <= input && input + nextIn == old(input + nextIn)
        invariant Trail(flush, old(Now()), trail)
        decreases |nextIn| + lookahead
      {
        SlowLength();
        if lookahead < MIN_LOOKAHEAD {
          trail := SlowFill(flush, old(Now()), trail);
          SlowLength();
          if lookahead < MIN_LOOKAHEAD && flush.NoFlush? { return NeedMore, trail; }
          if lookahead == 0 { break; }
        }
        ghost var m := Now();
        NowParts();
        TrailHere(flush, old(Now()), trail);
        SlowStep();
        TrailDecides(flush, old(Now()), trail, m);
        trail := trail + [Now()];
        var blockFull, outputFull := *, *;
        if blockFull && outputFull && !ample { return NeedMore, trail; }
      }
      SlowLength();
      ghost var m := Now();
      NowParts();
      TrailHere(flush, old(Now()), trail);
      SlowEnd();
      TailMoves(flush, old(Now()), trail, m);
      trail := trail + [Now()];
      state := Finished(flush);
    }

    // ----- deflate_rle and deflate_huff: no match search -----

    /** Move past `n` bytes that have been told. */
    method PassOver(n: nat)
      requires Loose() && n <= lookahead
      modifies `strstart, `lookahead
      ensures Loose() && strstart == old(strstart) + n && lookahead == old(lookahead) - n
    {
      hide Chains, Holds;
      ghost var lim, pos := Pos() - insert, Pos();
      strstart := strstart + n;
      lookahead := lookahead - n;
      ChainsLater(hashBits, wSize, input, [], ins, base, head[..], prev[..], lim, Pos() - insert, pos, Pos());
      assert input + [] == input;
    }

    method RunEight(prv: byte, i: nat) returns (j: nat, same: bool)
      requires strstart + i + 8 < window.Length && AllAre(window[..], strstart, strstart + i, prv)
        && window[strstart + i] == prv
      ensures i < j <= i + 8 && (same ==> j == i + 8) && (same <==> window[strstart + j] == prv)
      ensures AllAre(window[..], strstart, strstart + j, prv)
    {
      j, same := i, true;
      while j < i + 8 && same
        invariant i <= j <= i + 8 && (!same ==> i < j) && (same <==> window[strstart + j] == prv)
        invariant AllAre(window[..], strstart, strstart + j, prv)
        decreases i + 8 - j, same
      {
        j := j + 1;
        same := window[strstart + j] == prv;
      }
    }

    /** How often the previous byte is repeated, from the current one on; the bound is checked once in eight bytes. */
    method RunHere() returns (len: nat)
      requires Shape() && Data() && lookahead >= MIN_MATCH && strstart > 0 && strstart + MAX_MATCH < 2 * wSize
      ensures len <= lookahead && len <= MAX_MATCH && (len > 0 ==> len >= MIN_MATCH)
      ensures strstart + len <= window.Length && AllAre(window[..], strstart, strstart + len, window[strstart - 1])
      ensures len == 0 ==> exists k :: strstart <= k < strstart + MIN_MATCH && window[k] != window[strstart - 1]
      ensures 0 < len < MAX_MATCH && len < lookahead ==> window[strstart + len] != window[strstart - 1]
    {
      hide Holds;
      var prv := window[strstart - 1];
      if window[strstart] != prv || window[strstart + 1] != prv || window[strstart + 2] != prv { return 0; }
      len := 2;
      var same := true;
      while same && len < MAX_MATCH
        invariant 2 <= len <= MAX_MATCH && (same ==> len % 8 == 2 && window[strstart + len] == prv)
          && (!same ==> 2 < len && window[strstart + len] != prv)
        invariant AllAre(window[..], strstart, strstart + len, prv)
        decreases MAX_MATCH - len, same
      {
        len, same := RunEight(prv, len);
      }
      if len > lookahead { len := lookahead; }
    }

    /** A run of the previous byte is a match at distance one. */
    lemma RunSpells(len: nat)
      requires Shape() && Data() && Told(Pos()) && MIN_MATCH <= len <= lookahead && len <= MAX_MATCH && strstart > 0
      requires AllAre(window[..], strstart, strstart + len, window[strstart - 1])
      ensures Tells(syms + [Match(1, len)], points, input, Pos() + len, MaxDist())
    {
      hide Holds, Spells;
      var cur := strstart - 1;
      forall t | 0 <= t < len ensures SameAt(window[..], cur, strstart, t) {
        assert window[..][strstart + t] == window[cur];
        if t > 0 { assert window[..][strstart + t - 1] == window[cur]; }
      }
      RepeatsInWindow(window[..], input, base, strstart + lookahead, strstart, cur, len);
      TellsMatch(syms, points, input, Pos(), 1, len, MaxDist());
    }

    method LiteralStep()
      requires Untabled() && lookahead > 0 && !matchAvailable
      modifies `strstart, `lookahead, `syms
      ensures Untabled() && lookahead == old(lookahead) - 1
      ensures LiteralRule(input, old(Now()), Now())
    {
      hide Holds, Tells, Chains;
      LiteralSpells(strstart);
      LiteralIs(strstart);
      TallyLit(window[strstart]);
      PassOver(1);
    }

    /** One round of deflate_rle: a run, or a literal. */
    method RleStep()
      requires Untabled() && lookahead > 0 && strstart + MAX_MATCH < 2 * wSize && !matchAvailable
      modifies `strstart, `lookahead, `matchLength, `syms
      ensures Untabled() && lookahead < old(lookahead)
      ensures RunsRule(input, old(Now()), Now())
    {
      hide Untabled, AllAre, IsRun, LiteralRule;
      ghost var m := Now();
      UntabledLength();
      matchLength := 0;
      if lookahead >= MIN_MATCH && strstart > 0 {
        matchLength := FindRun();
      } else {
        ShortRun();
      }
      if matchLength >= MIN_MATCH {
        RunMatch();
      } else {
        LiteralStep();
      }
    }

    /** The run that begins here, if it is long enough. */
    method FindRun() returns (len: nat)
      requires Untabled() && lookahead >= MIN_MATCH && strstart > 0 && strstart + MAX_MATCH < 2 * wSize
      ensures len <= lookahead && len <= MAX_MATCH && strstart + len <= window.Length
        && AllAre(window[..], strstart, strstart + len, window[strstart - 1])
      ensures if len >= MIN_MATCH then IsRun(input, Pos(), len) else !exists n :: n >= 3 && IsRun(input, Pos(), n)
    {
      hide Holds, Tells, Chains, AllAre, IsRun;
      len := RunHere();
      if len > 0 { RunIs(len); } else { NoRun(); }
    }

    /** Emit the run. */
    method RunMatch()
      requires Untabled() && MIN_MATCH <= matchLength <= lookahead && matchLength <= MAX_MATCH && strstart > 0
      requires strstart + matchLength <= window.Length
        && AllAre(window[..], strstart, strstart + matchLength, window[strstart - 1])
      requires !matchAvailable
      modifies `strstart, `lookahead, `matchLength, `syms
      ensures Untabled() && lookahead < old(lookahead)
      ensures var m := old(Now());
        Now() == m.(at := m.at + old(matchLength), syms := m.syms + [Match(1, old(matchLength))])
    {
      hide Holds, Tells, Chains, AllAre;
      RunSpells(matchLength);
      TallyDist(1, matchLength);
      PassOver(matchLength);
      matchLength := 0;
    }

    lemma RunIs(len: nat)
      requires Data() && 0 < strstart && len <= lookahead && len <= MAX_MATCH && strstart + len <= window.Length
      requires AllAre(window[..], strstart, strstart + len, window[strstart - 1])
      requires len < MAX_MATCH && len < lookahead ==>
        strstart + len < window.Length && window[strstart + len] != window[strstart - 1]
      ensures IsRun(input, Pos(), len)
    {
      HoldsAt(window[..], input, base, strstart + lookahead, strstart - 1);
      forall k | Pos() <= k < Pos() + len ensures input[k] == input[Pos() - 1] {
        HoldsAt(window[..], input, base, strstart + lookahead, k - base);
      }
    }

    lemma NoRun()
      requires Data() && 0 < strstart && lookahead >= MIN_MATCH
      requires strstart + MIN_MATCH <= window.Length &&
        exists k :: strstart <= k < strstart + MIN_MATCH && window[k] != window[strstart - 1]
      ensures !exists n :: n >= 3 && IsRun(input, Pos(), n)
    {
      var k :| strstart <= k < strstart + MIN_MATCH && window[k] != window[strstart - 1];
      HoldsAt(window[..], input, base, strstart + lookahead, strstart - 1);
      HoldsAt(window[..], input, base, strstart + lookahead, k);
      assert input[base + k] != input[Pos() - 1];
    }

    lemma ShortRun()
      requires |input| == Pos() + lookahead && (lookahead < MIN_MATCH || strstart == 0)
      ensures !(Pos() > base && exists n :: n >= 3 && IsRun(input, Pos(), n))
    {
    }

    /** Nothing is left for the tables. */
    method NoTail()
      requires Loose()
      modifies `insert
      ensures Loose() && insert == 0
    {
      hide Chains, Holds;
      ghost var lim := Pos() - insert;
      insert := 0;
      ChainsLater(hashBits, wSize, input, [], ins, base, head[..], prev[..], lim, Pos(), Pos(), Pos());
      assert input + [] == input;
    }

    /** Where the input stands that has been read. */
    lemma UntabledLength()
      requires Untabled()
      ensures |input| == Pos() + lookahead && strstart + lookahead <= 2 * wSize
    {
      hide Holds, Tells, Chains, Pow2;
      InputLength();
    }

    /** More input, slid or not. */
    method UntabledFill(ghost flush: Flush, ghost from: Moment, ghost before: seq<Moment>)
      returns (ghost trail: seq<Moment>)
      requires Untabled() && lookahead < MIN_LOOKAHEAD && Trail(flush, from, before)
      modifies window, head, prev, `strstart, `matchStart, `insert, `base, `lookahead, `insH, `ins, `nextIn, `input,
        `highWater
      ensures Untabled() && Pos() == old(Pos())
      ensures old(input) <= input && input + nextIn == old(input + nextIn)
      ensures (lookahead >= MIN_LOOKAHEAD || nextIn == []) && strstart <= 2 * wSize - MIN_LOOKAHEAD
      ensures Trail(flush, from, trail)
    {
      hide Trail, Loose, Tables, Tells, Pow2;
      ghost var input0 := input;
      trail := FillWindow(flush, from, before);
      ToldMore(input0, Pos());
    }

    method UntabledEnd()
      requires Untabled()
      modifies `insert
      ensures Untabled() && insert == 0
    {
      hide Loose, Tells;
      NoTail();
    }

    /** `deflate_rle`. */
    method DeflateRle(flush: Flush) returns (state: BlockState, ghost trail: seq<Moment>)
      requires Untabled() && !matchAvailable && parser.Runs?
      modifies window, head, prev, `insH, `ins, `strstart, `lookahead, `matchLength, `matchStart, `syms, `insert,
        `base, `nextIn, `input, `highWater
      ensures Untabled() && old(input) <= input && input + nextIn == old(input + nextIn)
      ensures !state.NeedMore? ==> nextIn == [] && Pos() == |input|
      ensures flush.NoFlush? ==> state.NeedMore?
      ensures (state.BlockDone? ==> !flush.Finish?) && (state.FinishDone? || state.FinishStarted? ==> flush.Finish?)
      ensures Unhindered(flush, state)
      ensures Trail(flush, old(Now()), trail)
    {
      hide Untabled, Trail, TrailTo, Leg, Now, HeldBack, RunsRule, LiteralRule;
      trail := [Now()];
      TrailStarts(flush);
      while true
        invariant Untabled() && old(input) <= input && input + nextIn == old(input + nextIn)
        invariant !matchAvailable && Trail(flush, old(Now()), trail)
        decreases |nextIn| + lookahead
      {
        UntabledLength();
        if lookahead <= MAX_MATCH {
          trail := UntabledFill(flush, old(Now()), trail);
          UntabledLength();
          if lookahead <= MAX_MATCH && flush.NoFlush? { return NeedMore, trail; }
          if lookahead == 0 { break; }
        }
        ghost var m := Now();
        NowParts();
        TrailHere(flush, old(Now()), trail);
        RleStep();
        TrailDecides(flush, old(Now()), trail, m);
        trail := trail + [Now()];
        var blockFull, outputFull := *, *;
        if blockFull && outputFull && !ample { return NeedMore, trail; }
      }
      UntabledLength();
      ghost var m := Now();
      NowParts();
      TrailHere(flush, old(Now()), trail);
      UntabledEnd();
      TailMoves(flush, old(Now()), trail, m);
      trail := trail + [Now()];
      state := Finished(flush);
    }

    /** One round of deflate_huff. */
    method HuffStep()
      requires Untabled() && lookahead > 0 && !matchAvailable
      modifies `strstart, `lookahead, `matchLength, `syms
      ensures Untabled() && lookahead == old(lookahead) - 1
      ensures LiteralRule(input, old(Now()), Now())
    {
      hide Untabled, LiteralRule;
      matchLength := 0;
      LiteralStep();
    }

    /** `deflate_huff`. */
    method DeflateHuff(flush: Flush) returns (state: BlockState, ghost trail: seq<Moment>)
      requires Untabled() && !matchAvailable && parser.Literals?
      modifies window, head, prev, `insH, `ins, `strstart, `lookahead, `matchLength, `matchStart, `syms, `insert,
        `base, `nextIn, `input, `highWater
      ensures Untabled() && old(input) <= input && input + nextIn == old(input + nextIn)
      ensures !state.NeedMore? ==> nextIn == [] && Pos() == |input|
      ensures flush.NoFlush? ==> state.NeedMore?
      ensures (state.BlockDone? ==> !flush.Finish?) && (state.FinishDone? || state.FinishStarted? ==> flush.Finish?)
      ensures Unhindered(flush, state)
      ensures Trail(flush, old(Now()), trail)
    {
      hide Untabled, Trail, TrailTo, Leg, Now, HeldBack, RunsRule, LiteralRule;
      trail := [Now()];
      TrailStarts(flush);
      while true
        invariant Untabled() && old(input) <= input && input + nextIn == old(input + nextIn)
        invariant !matchAvailable && Trail(flush, old(Now()), trail)
        decreases |nextIn| + lookahead
      {
        UntabledLength();
        if lookahead == 0 {
          trail := UntabledFill(flush, old(Now()), trail);
          UntabledLength();
          if lookahead == 0 {
            if flush.NoFlush? { return NeedMore, trail; }
            break;
          }
        }
        ghost var m := Now();
        NowParts();
        TrailHere(flush, old(Now()), trail);
        HuffStep();
        TrailDecides(flush, old(Now()), trail, m);
        trail := trail + [Now()];
        var blockFull, outputFull := *, *;
        if blockFull && outputFull && !ample { return NeedMore, trail; }
      }
      UntabledLength();
      ghost var m := Now();
      NowParts();
      TrailHere(flush, old(Now()), trail);
      UntabledEnd();
      TailMoves(flush, old(Now()), trail, m);
      trail := trail + [Now()];
      state := Finished(flush);
    }

    // ----- deflate_stored -----

    /**
     * While input is copied: `used` bytes have gone straight from the caller to the output, past the window, which then
     * has nothing left to put out.
     */
    ghost predicate Copying(used: nat)
      reads `input, `base, `strstart, `lookahead, `insert, `blockStart, `syms, `points, window, head
    {
      && Shape() && used <= |input| && Holds(window[..], input[..|input| - used], base, strstart)
      && strstart <= 2 * wSize && insert <= strstart && insert <= wSize && Before(points, base)
      && lookahead == 0 && blockStart <= strstart && (forall h | 0 <= h < head.Length :: head[h] == 0)
      && (used > 0 ==> blockStart == strstart) && Told(base + blockStart + used) && pendingBufSize >= 512
      && |syms| == base + blockStart + used
    }

    lemma CopyingStarts()
      requires StoredOk()
      ensures Copying(0) && StoredLens(storedLens, |syms|)
    {
      hide Tells, Holds, Pow2, StoredLens;
      assert input[..|input|] == input;
    }

    lemma CopyingEnds()
      requires Copying(0) && StoredLens(storedLens, |syms|)
      ensures StoredOk()
    {
      hide Tells, Holds, Pow2, StoredLens;
      assert input[..|input|] == input;
    }

    /** Store `len` bytes of the window. */
    method StoreWindow(len: nat)
      requires Copying(0) && blockStart + len <= strstart
      modifies `syms, `blockStart
      ensures blockStart == old(blockStart) + len && |syms| == |old(syms)| + len && Copying(0)
    {
      hide Tells, Holds, Pow2;
      assert input[..|input|] == input;
      HoldsSlice(window[..], input, base, strstart, blockStart, blockStart + len);
      TellsLiterals(syms, points, input, base + blockStart, MaxDist(), len);
      syms := syms + AsLiterals(window[blockStart..blockStart + len]);
      assert window[..][old(blockStart)..old(blockStart) + len] == window[old(blockStart)..old(blockStart) + len];
      blockStart := blockStart + len;
    }

    /** Store `len` bytes of the caller's input, past the window. */
    method StoreInput(len: nat, ghost used: nat)
      requires Copying(used) && blockStart == strstart && len <= |nextIn|
      modifies `syms, `input, `nextIn
      ensures input == old(input) + old(nextIn)[..len] && nextIn == old(nextIn)[len..] && |syms| == |old(syms)| + len
      ensures Copying(used + len)
    {
      hide Tells, Pow2, Holds;
      CopiedAll(used);
      ghost var input0, next, keep := input, nextIn[..len], input[..|input| - used];
      TellsMore(syms, points, input0, next, |input0|, MaxDist());
      assert (input0 + next)[|input0|..|input0| + len] == next;
      TellsLiterals(syms, points, input0 + next, |input0|, MaxDist(), len);
      syms := syms + AsLiterals(nextIn[..len]);
      input := input + nextIn[..len];
      nextIn := nextIn[len..];
      assert input[..|input| - (used + len)] == keep;
    }

    /** Put out a stored block: first what is left in the window, then input of the caller. */
    method StoreBlock(len: nat, ghost used: nat) returns (ghost used': nat)
      requires Copying(used) && len <= strstart - blockStart + |nextIn|
      modifies `syms, `blockStart, `input, `nextIn, `storedLens
      ensures used <= used' <= used + |old(nextIn)| && Copying(used')
      ensures input == old(input) + old(nextIn)[..used' - used] && nextIn == old(nextIn)[used' - used..]
      ensures strstart - blockStart + |nextIn| == old(strstart - blockStart + |nextIn|) - len && blockStart <= strstart
      ensures storedLens == old(storedLens) + [len] && |syms| == |old(syms)| + len
    {
      hide Copying;
      used' := used;
      CopiedAll(used);
      var left := strstart - blockStart;
      var rest := len;
      if left > 0 {
        if left > len { left := len; }
        StoreWindow(left);
        rest := len - left;
      }
      if rest > 0 {
        StoreInput(rest, used);
        used' := used + rest;
      }
      storedLens := storedLens + [len];
    }

    /** What the window holds and what went past it is all the input. */
    lemma CopiedAll(used: nat)
      requires Copying(used)
      ensures |syms| == base + blockStart + used
      ensures |input| == base + strstart + used && blockStart <= strstart && (used > 0 ==> blockStart == strstart)
    {
      hide Tells, Pow2;
    }

    /** So many bytes of the caller's input have been read. */
    ghost predicate HasRead(input0: seq<byte>, from: seq<byte>, used: nat)
      reads `input, `nextIn
    {
      used <= |from| && nextIn == from[used..] && input == input0 + from[..used]
    }

    lemma ReadNone()
      ensures HasRead(input, nextIn, 0)
    {
    }

    lemma ReadIs(input0: seq<byte>, from: seq<byte>, used: nat)
      requires HasRead(input0, from, used)
      ensures used <= |from| && |nextIn| == |from| - used
    {
    }

    lemma ReadMore(input0: seq<byte>, from: seq<byte>, used: nat, input1: seq<byte>, next1: seq<byte>, more: nat)
      requires used <= |from| && next1 == from[used..] && input1 == input0 + from[..used] && more <= |next1|
      requires input == input1 + next1[..more] && nextIn == next1[more..]
      ensures HasRead(input0, from, used + more)
    {
      assert input0 + from[..used] + from[used..][..more] == input0 + from[..used + more];
    }

    /**
     * Length of the next stored block made directly in the output: limited by the format, the input and the room.
     * There is none if it is not worth it or not all of the input can be flushed.
     */
    method DirectLength(flush: Flush, availOut: nat, left: nat, minBlock: nat)
        returns (ok: bool, len: nat, have: nat)
      ensures ok ==> len <= 65535 && len <= left + |nextIn| && len <= have <= availOut
      ensures ok ==> (len == 65535 || len == left + |nextIn| || len == have) && have >= availOut - 7
      ensures !ok && availOut >= left + |nextIn| + 7 && minBlock <= 65535 ==>
        left + |nextIn| < minBlock && (flush.NoFlush? || (left + |nextIn| == 0 && !flush.Finish?))
      ensures ok ==> len >= minBlock || (!flush.NoFlush? && len == left + |nextIn|)
      ensures ok && minBlock > 0 && len == 0 ==> flush.Finish? && left + |nextIn| == 0
      ensures ok ==> availOut >= 5
    {
      len := MAX_STORED;
      ok := false;
      have :| 5 <= have <= 7; // bytes of a header, which depend on the bits that wait
      if availOut < have { return; }
      have := availOut - have;
      if len > left + |nextIn| { len := left + |nextIn|; }
      if len > have { len := have; }
      if len < minBlock && ((len == 0 && !flush.Finish?) || flush.NoFlush? || len != left + |nextIn|) { return; }
      ok := true;
    }

    /** One stored block more, and how much of the input is used then. */
    method StoreMore(len: nat, from: seq<byte>, used: nat, ghost input0: seq<byte>) returns (used': nat)
      requires Copying(used) && HasRead(input0, from, used) && StoredLens(storedLens, |syms|)
      requires len <= strstart - blockStart + |nextIn| && len <= 65535
      modifies `syms, `blockStart, `input, `nextIn, `storedLens
      ensures Copying(used') && HasRead(input0, from, used') && StoredLens(storedLens, |syms|)
      ensures storedLens == old(storedLens) + [len] && |input| + |nextIn| == old(|input| + |nextIn|)
      ensures strstart - blockStart + |nextIn| == old(strstart - blockStart + |nextIn|) - len && blockStart <= strstart
    {
      hide Copying, StoredLens;
      ghost var input1, next1 := input, nextIn;
      StoredMore(storedLens, |syms|, len);
      ghost var used1 := StoreBlock(len, used);
      ReadMore(input0, from, used, input1, next1, used1 - used);
      used' := |from| - |nextIn|;
    }

    function Worth(): int {
      WorthyLength(wSize, pendingBufSize)
    }

    lemma WorthIs()
      ensures Worth() <= wSize && Worth() <= pendingBufSize - 7
    {
    }

    /** A block made directly in the output is worth it, and if another one may follow it has the greatest length. */
    lemma Directly(used: nat, before: seq<nat>, flush: Flush, len: nat, more: bool)
      requires Copying(used) && StoredLens(storedLens, |syms|)
      requires StoredSoFar(before, storedLens, Worth(), flush, |input| + |nextIn|, true)
      requires len >= Worth() || (!flush.NoFlush? && len == strstart - blockStart + |nextIn|)
      requires more ==> len == 65535
      ensures StoredSoFar(before, storedLens + [len], Worth(), flush, |input| + |nextIn|, more)
    {
      hide Copying, StoredSoFar, WorthyLength;
      CopiedAll(used);
      OneMore(before, storedLens, Worth(), flush, |input| + |nextIn|, len, more);
    }

    /** The room there is, which is more than enough for these bytes and a header if it is ample. */
    method RoomFor(n: nat, availOut: nat) returns (room: nat)
      ensures if ample then room >= n + 7 else room == availOut
    {
      room := availOut;
      if ample { room :| room >= n + 7; }
    }

    /** Stored blocks made directly in the output, as large and as long as there is input and room. */
    method StoreDirectly(flush: Flush) returns (last: bool, used: nat)
      requires StoredOk()
      modifies `syms, `blockStart, `input, `nextIn, `storedLens
      ensures HasRead(old(input), old(nextIn), used) && Copying(used) && StoredLens(storedLens, |syms|)
      ensures last ==> flush.Finish? && nextIn == [] && blockStart == strstart
      ensures |input| + |nextIn| == old(|input| + |nextIn|)
      ensures StoredSoFar(old(storedLens), storedLens, Worth(), flush, |input| + |nextIn|, false)
      ensures blockStart <= strstart && (ample && !last ==> strstart - blockStart + |nextIn| < wSize)
      ensures ample && !last ==> flush.NoFlush? || (strstart == blockStart && nextIn == [] && !flush.Finish?)
    {
      hide *;
      CopyingStarts();
      ghost var all := |input| + |nextIn|;
      NoneStored(storedLens, Worth(), flush, all, true);
      var from := nextIn;
      var availOut: nat := *;
      last, used := false, 0;
      CopyingSmall(0);
      ReadNone();
      var minBlock := if pendingBufSize - 5 > wSize then wSize else pendingBufSize - 5;
      WorthIs();
      ghost var more := true;
      while !last
        invariant |input| + |nextIn| == all && StoredSoFar(old(storedLens), storedLens, Worth(), flush, all, more)
        invariant more || last || (availOut == 0 && !ample)
          || (strstart - blockStart + |nextIn| == 0 && !flush.Finish?)
        invariant HasRead(old(input), from, used)
        invariant Copying(used) && blockStart <= strstart && StoredLens(storedLens, |syms|)
        invariant last ==> flush.Finish? && nextIn == [] && blockStart == strstart
        decreases strstart - blockStart + |nextIn|, !last
      {
        var left := strstart - blockStart;
        availOut := RoomFor(left + |nextIn|, availOut);
        var ok, len, have := DirectLength(flush, availOut, left, minBlock);
        if !ok { break; }
        last := flush.Finish? && len == left + |nextIn|;
        availOut := have - len;
        more := len == 65535;
        Directly(used, old(storedLens), flush, len, more);
        used := StoreMore(len, from, used, old(input));
      }
      SoFarEnds(old(storedLens), storedLens, Worth(), flush, |input| + |nextIn|, more);
    }

    lemma CopyingSmall(used: nat)
      requires Copying(used)
      ensures blockStart <= strstart && pendingBufSize >= 512 && 512 <= wSize <= 32768
    {
      hide Tells, Holds, Pow2;
    }

    /** Copy bytes into the window. */
    method Fill(at: nat, bytes: seq<byte>)
      requires at + |bytes| <= window.Length
      modifies window
      ensures forall k | 0 <= k < at :: window[k] == old(window[k])
      ensures forall k | 0 <= k < |bytes| :: window[at + k] == bytes[k]
    {
      for k := 0 to |bytes|
        modifies window
        invariant forall i | 0 <= i < at :: window[i] == old(window[i])
        invariant forall i | 0 <= i < k :: window[at + i] == bytes[i]
      {
        window[at + k] := bytes[k];
      }
    }

    /** The window holds the end of `text`. */
    ghost predicate Ends(text: seq<byte>)
      reads `base, `strstart, `insert, window
    {
      Holds(window[..], text, base, strstart) && strstart <= 2 * wSize && insert <= strstart && insert <= wSize
    }

    /** Slide the window of deflate_stored down by its size. */
    method SlideStored(ghost text: seq<byte>)
      requires Shape() && wSize <= strstart && Ends(text)
      modifies window, `strstart, `insert, `base
      ensures strstart == old(strstart) - wSize && base == old(base) + wSize && Ends(text)
    {
      hide Holds, Pow2;
      ghost var win0, base0 := window[..], base;
      strstart := strstart - wSize;
      MoveDown(strstart);
      base := base + wSize;
      if insert > strstart { insert := strstart; }
      HoldsSlid(win0, window[..], text, base0, wSize, strstart);
    }

    lemma SupplantedIs(from: seq<byte>, used: nat)
      requires Shape() && wSize <= used <= |from| && used <= |input| && from[..used] == input[|input| - used..]
      requires forall k | 0 <= k < wSize :: window[k] == from[used - wSize..used][k]
      ensures Holds(window[..], input, |input| - wSize, wSize)
    {
      hide Pow2;
      forall k | 0 <= k < wSize ensures window[..][k] == input[|input| - wSize + k] {
        assert from[..used][used - wSize + k] == input[|input| - used..][used - wSize + k];
      }
    }

    /** More was copied than the window holds: its last bytes replace all there is. */
    method Supplant(from: seq<byte>, used: nat)
      requires Shape() && wSize <= used <= |from| && used <= |input| && from[..used] == input[|input| - used..]
      modifies window, `strstart, `insert, `base
      ensures Ends(input) && base == |input| - wSize
    {
      hide Holds, Pow2;
      Fill(0, from[used - wSize..used]);
      SupplantedIs(from, used);
      base := |input| - wSize;
      strstart := wSize;
      insert := strstart;
    }

    /** Less was copied: it goes behind what the window holds, which is moved down if there is too little room. */
    method Append(bytes: seq<byte>, ghost text: seq<byte>)
      requires Shape() && |bytes| < wSize && Ends(text)
      modifies window, `strstart, `insert, `base
      ensures Ends(text + bytes) && old(base) <= base
    {
      hide Holds, Pow2;
      var used := |bytes|;
      if 2 * wSize - strstart <= used {
        SlideStored(text);
      }
      ghost var win0 := window[..];
      Fill(strstart, bytes);
      HoldsMore(win0, window[..], text, bytes, base, strstart);
      strstart := strstart + used;
      insert := insert + if used > wSize - insert then wSize - insert else used;
    }

    lemma CopyingGives(used: nat)
      requires Copying(used)
      ensures Shape() && used <= |input| && Ends(input[..|input| - used]) && base + wSize <= |input| - used + wSize
      ensures used > 0 ==> Told(|input|)
    {
      hide Tells, Pow2;
    }

    lemma KeptIs(used: nat, base0: nat)
      requires |syms| == |input|
      requires Shape() && Ends(input) && Before(points, base0) && base0 <= base && blockStart == strstart
      requires lookahead == 0 && (forall h | 0 <= h < head.Length :: head[h] == 0) && Told(|input|)
      requires StoredLens(storedLens, |syms|) && pendingBufSize >= 512
      ensures StoredOk() && ToldAll()
    {
      hide Tells, Pow2, StoredLens;
    }

    /** The last bytes that went past the window are copied into it. */
    method KeepCopied(from: seq<byte>, used: nat)
      requires Copying(used) && 0 < used <= |from| && from[..used] == input[|input| - used..]
      requires StoredLens(storedLens, |syms|)
      modifies window, `strstart, `insert, `base, `blockStart
      ensures StoredOk() && blockStart == strstart && ToldAll()
    {
      hide Tells, Pow2, StoredLens, Holds, Ends, Told, StoredOk, ToldAll;
      CopyingGives(used);
      CopiedAll(used);
      ghost var base0 := base;
      if used >= wSize {
        Supplant(from, used);
      } else {
        ghost var text := input[..|input| - used];
        Append(from[..used], text);
        assert text + from[..used] == input;
      }
      blockStart := strstart;
      KeptIs(used, base0);
    }

    ghost predicate ToldAll()
      reads `input, `base, `blockStart
    {
      base + blockStart == |input|
    }

    /** Read `have` bytes behind what the window holds. */
    method ReadStored(have: nat)
      requires StoredOk() && have <= |nextIn| && strstart + have <= 2 * wSize
      modifies window, `strstart, `insert, `input, `nextIn
      ensures StoredOk() && input == old(input) + old(nextIn)[..have] && nextIn == old(nextIn)[have..]
    {
      hide Tells, Pow2, StoredLens, Holds;
      ghost var input0, next0 := input, nextIn;
      var n := ReadBuf(have);
      strstart := strstart + have;
      insert := insert + if have > wSize - insert then wSize - insert else have;
      TellsMore(syms, points, input0, next0[..have], base + blockStart, MaxDist());
    }

    /** Slide the window of deflate_stored if it is full and all of its lower half is stored. */
    method MakeRoom()
      requires StoredOk() && blockStart >= wSize
      modifies window, `strstart, `insert, `base, `blockStart
      ensures StoredOk() && strstart == old(strstart) - wSize
    {
      hide Tells, Pow2, StoredLens, Holds;
      blockStart := blockStart - wSize;
      SlideStored(input);
    }

    /** The rest of the input goes into the window, as far as there is room. */
    method FillStored()
      requires StoredOk()
      modifies window, `strstart, `insert, `base, `blockStart, `input, `nextIn
      ensures StoredOk() && old(input) <= input && input + nextIn == old(input + nextIn)
      ensures old(|nextIn| + (strstart - blockStart)) < wSize ==> nextIn == []
    {
      hide StoredOk;
      StoredLength();
      var have := 2 * wSize - strstart;
      if |nextIn| > have && blockStart >= wSize {
        MakeRoom();
        have := have + wSize;
      }
      if have > |nextIn| { have := |nextIn|; }
      if have > 0 {
        ghost var input0, next0 := input, nextIn;
        ReadStored(have);
        assert input0 + next0[..have] + next0[have..] == input0 + next0;
      }
    }

    /** So is the block made in the pending buffer. */
    lemma InPending(flush: Flush, before: seq<nat>, len: nat)
      requires StoredOk() && StoredSoFar(before, storedLens, Worth(), flush, |input| + |nextIn|, false)
      requires len >= Worth() || (!flush.NoFlush? && nextIn == [] && len == strstart - blockStart)
      ensures StoredWell(before, storedLens + [len], Worth(), flush, |input| + |nextIn|)
    {
      hide StoredSoFar, StoredWell, WorthyLength, Copying;
      CopyingStarts();
      CopiedAll(0);
      PendingStored(before, storedLens, Worth(), flush, |input| + |nextIn|, len);
    }

    /** A stored block made in the pending buffer, if it is worth it or everything is to be flushed. */
    method StorePending(flush: Flush, ghost before: seq<nat>) returns (last: bool)
      requires StoredOk() && StoredSoFar(before, storedLens, Worth(), flush, |input| + |nextIn|, false)
      modifies `syms, `blockStart, `storedLens
      ensures StoredOk() && (last ==> flush.Finish? && nextIn == [] && blockStart == strstart)
      ensures StoredWell(before, storedLens, Worth(), flush, |input| + |nextIn|)
    {
      hide Copying, StoredOk, StoredLens, StoredSoFar, StoredWell, WorthyLength;
      CopyingStarts();
      CopyingSmall(0);
      LastStored(before, storedLens, Worth(), flush, |input| + |nextIn|, false);
      last := false;
      var have: nat :| 5 <= have <= 7; // bytes of a header
      have := if pendingBufSize - have > MAX_STORED then MAX_STORED else pendingBufSize - have;
      var minBlock := if have > wSize then wSize else have;
      var left := strstart - blockStart;
      if left >= minBlock || ((left > 0 || flush.Finish?) && !flush.NoFlush? && nextIn == [] && left <= have) {
        var len := if left > have then have else left;
        last := flush.Finish? && nextIn == [] && len == left;
        StoredMore(storedLens, |syms|, len);
        WorthIs();
        InPending(flush, before, len);
        StoreWindow(len);
        storedLens := storedLens + [len];
        CopyingEnds();
      }
    }

    /** The first part of deflate_stored: blocks made directly in the output, of which the window keeps the end. */
    method StoreAndKeep(flush: Flush) returns (last: bool)
      requires StoredOk()
      modifies window, `strstart, `insert, `base, `blockStart, `input, `nextIn, `syms, `storedLens
      ensures StoredOk() && old(input) <= input && input + nextIn == old(input + nextIn)
      ensures StoredSoFar(old(storedLens), storedLens, Worth(), flush, |input| + |nextIn|, false)
      ensures last ==> flush.Finish? && nextIn == [] && blockStart == strstart
      ensures blockStart <= strstart && (ample && !last ==> strstart - blockStart + |nextIn| < wSize)
      ensures ample && !last ==> flush.NoFlush? || (strstart == blockStart && nextIn == [] && !flush.Finish?)
    {
      hide StoredOk, Copying, StoredSoFar;
      var from := nextIn;
      var used;
      last, used := StoreDirectly(flush);
      assert input + nextIn == old(input) + (from[..used] + from[used..]);
      if used > 0 {
        assert input[|input| - used..] == from[..used];
        KeepCopied(from, used);
      } else {
        CopyingEnds();
      }
    }

    /**
     * `deflate_stored`: the blocks stored are the input, in order; what has not been stored is in the window. It
     * reports a block or the stream finished only when all has been stored.
     */
    method DeflateStored(flush: Flush) returns (state: BlockState)
      requires StoredOk()
      modifies window, `strstart, `insert, `base, `blockStart, `input, `nextIn, `syms, `storedLens, `highWater
      ensures StoredOk() && old(input) <= input && input + nextIn == old(input + nextIn)
      ensures !state.NeedMore? ==> nextIn == [] && ToldAll()
      ensures flush.NoFlush? ==> state.NeedMore?
      ensures (state.BlockDone? ==> !flush.Finish?) && (state.FinishDone? || state.FinishStarted? ==> flush.Finish?)
      ensures Unhindered(flush, state)
      ensures StoredWell(old(storedLens), storedLens, Worth(), flush, |input| + |nextIn|)
    {
      hide StoredOk, Copying, StoredWell, StoredSoFar;
      var last := StoreAndKeep(flush);
      LastStored(old(storedLens), storedLens, Worth(), flush, |input| + |nextIn|, false);
      StoredLength();
      if highWater < strstart { highWater := strstart; }
      if last { return FinishDone; }
      if !flush.NoFlush? && !flush.Finish? && nextIn == [] && strstart == blockStart { return BlockDone; }
      FillStored();
      if highWater < strstart { highWater := strstart; }
      last := StorePending(flush, old(storedLens));
      StoredLength();
      state := if last then FinishStarted else NeedMore;
    }

    lemma StoredLength()
      requires StoredOk()
      ensures |input| == base + strstart && blockStart <= strstart <= 2 * wSize
    {
      hide Tells, Pow2, StoredLens;
    }

    // ----- whole runs -----

    /** What the parsers keep apart from the window and the tables, when nothing is held back. */
    ghost predicate Idle()
      reads `matchLength, `prevLength, `matchAvailable, `syms, `storedLens
    {
      && !matchAvailable && (parser.Fast? ==> prevLength == 2 && matchLength < MIN_MATCH)
      && (parser.Slow? ==> matchLength == 2)
      && (parser.Stored? ==> StoredLens(storedLens, |syms|) && pendingBufSize >= 512)
    }

    lemma NothingAhead()
      requires Ok() && ToldTo() == |input|
      ensures Shape() && Pos() == |input| && Told(Pos()) && lookahead == 0 && Idle() && Before(points, Pos())
      ensures parser.Stored? ==> |syms| == |input|
    {
      hide Chains, Tells, Tables, Linked, StoredLens, Pow2;
      HoldsLength(window[..], input, base, strstart + lookahead);
    }

    method ClearHash()
      requires Shape()
      modifies head
      ensures forall h | 0 <= h < head.Length :: head[h] == 0
    {
      for h := 0 to head.Length
        modifies head
        invariant forall k | 0 <= k < h :: head[k] == 0
      {
        head[h] := 0;
      }
    }

    lemma ForgottenOk()
      requires Shape() && base == |input| && strstart == lookahead == insert == blockStart == 0 && ins == {}
      requires (forall h | 0 <= h < head.Length :: head[h] == 0) && Told(|input|) && Idle() && Before(points, |input|)
      requires parser.Stored? ==> |syms| == |input|
      ensures Ok()
    {
      hide Chains, Tells, Pow2, Holds, StoredLens;
      HoldsNone(window[..], input);
      ChainsForgotten(hashBits, wSize, input, base, head[..], prev[..], base, base);
    }

    /** A full flush: CLEAR_HASH, and the window is filled from its start again. */
    method ForgetHistory()
      requires Ok() && ToldTo() == |input|
      modifies head, `ins, `strstart, `insert, `base, `blockStart, `points
      ensures Ok() && ToldTo() == |input| && points == old(points) + [Point(|syms|, |input|)]
      ensures Now() == old(Now()).(base := old(Now()).at, ins := {}, left := 0)
      ensures var m := old(Now()); m.at == m.seen == |input| && m.held.Nothing? && m.waiting == |nextIn|
    {
      hide Ok, Tells, Pow2, Idle;
      NothingAhead();
      IdleHere();
      ClearHash();
      TellsPoint(syms, points, input, Pos(), MaxDist());
      points := points + [Point(|syms|, Pos())];
      ins := {};
      if lookahead == 0 {
        base := base + strstart;
        strstart := 0;
        blockStart := 0;
        insert := 0;
      }
      ForgottenOk();
    }

    lemma IdleHere()
      requires Idle()
      ensures !matchAvailable
    {
      hide StoredLens;
    }

    lemma AllTold()
      requires Ok()
      ensures ToldTo() <= |input|
      ensures parser.Stored? ==> (ToldTo() == |input| <==> ToldAll())
      ensures !parser.Stored? ==> (ToldTo() == |input| <==> Pos() == |input| && !matchAvailable)
    {
      hide Tells, Chains, Linked, StoredLens, Holds, Pow2, Tables;
      TellsPos();
    }

    lemma TellsPos()
      requires Ok()
      ensures 0 <= ToldTo() <= |input| && Pos() <= |input|
    {
      hide Tells, Chains, Linked, StoredLens, Pow2, Tables;
    }

    /** The parser that the level and the strategy select. */
    method Parse(flush: Flush) returns (state: BlockState, ghost trail: seq<Moment>)
      requires Ok()
      modifies window, head, prev, `insH, `ins, `strstart, `lookahead, `matchLength, `matchStart, `matchAvailable,
        `prevLength, `prevMatch, `syms, `insert, `base, `nextIn, `input, `highWater, `blockStart, `storedLens
      ensures Ok() && old(input) <= input && input + nextIn == old(input + nextIn)
      ensures !state.NeedMore? ==> nextIn == [] && ToldTo() == |input|
      ensures flush.NoFlush? ==> state.NeedMore?
      ensures (state.BlockDone? ==> !flush.Finish?) && (state.FinishDone? || state.FinishStarted? ==> flush.Finish?)
      ensures Unhindered(flush, state)
      ensures !parser.Stored? ==> Trail(flush, old(Now()), trail)
      ensures parser.Stored? ==> StoredWell(old(storedLens), storedLens, Worth(), flush, |input| + |nextIn|)
    {
      hide FastOk, SlowOk, Untabled, StoredOk, Trail, StoredWell;
      trail := [];
      match parser {
        case Slow => state, trail := DeflateSlow(flush);
        case Fast => state, trail := DeflateFast(flush);
        case Runs => state, trail := DeflateRle(flush);
        case Literals => state, trail := DeflateHuff(flush);
        case Stored => state := DeflateStored(flush);
      }
      AllTold();
    }

    /** `flush_pending`: what does not fit the output goes on waiting, and then the output is full. */
    method FlushPending() returns (full: bool)
      modifies `pending
      ensures (pending ==> full && old(pending)) && (ample ==> !full)
    {
      full := *;
      full := full && !ample;
      var fits := *;
      pending := pending && full && !fits;
    }

    /** A call without input that asks for no more than the last one did: a block flush comes before a partial one. */
    predicate Useless(avail: seq<byte>, flush: Flush)
      reads `lastFlush
    {
      && avail == [] && lastFlush >= 0 && !flush.Finish?
      && [0, 2, 3, 4, 5, 1][flush.Code()] <= [0, 2, 3, 4, 5, 1][lastFlush]
    }

    /** What holds between calls of `deflate`. */
    ghost predicate Between()
      reads `input, `ins, `base, `strstart, `lookahead, `insert, `insH, `matchLength, `matchStart, `matchAvailable,
        `prevLength, `blockStart, `syms, `storedLens, `points, `finished, `inInit, window, head, prev
    {
      Ok() && (finished ==> ToldTo() == |input| && !inInit)
    }

    /** What comes of the output for which there is no room: it waits, and then the output is full. */
    method OutputOf(state: BlockState) returns (full: bool)
      modifies `pending
      ensures (pending ==> full) && (ample || state.FinishDone? ==> !full)
    {
      full, pending := *, *;
      if ample || state.FinishDone? { full, pending := false, false; }
      full := full || pending;
    }

    /** Run the parser, and end the block it reports finished. Whether the output is full is `full`. */
    method Continue(flush: Flush) returns (state: BlockState, full: bool, ghost trail: seq<Moment>)
      requires Between() && !inInit && !finished
      modifies window, head, prev, `insH, `ins, `strstart, `lookahead, `matchLength, `matchStart, `matchAvailable,
        `prevLength, `prevMatch, `syms, `insert, `base, `nextIn, `input, `highWater, `blockStart, `storedLens,
        `finished, `pending, `points
      ensures Between() && old(input) <= input && input + nextIn == old(input + nextIn)
      ensures finished == (state.FinishStarted? || state.FinishDone?)
      ensures !state.NeedMore? ==> nextIn == [] && ToldTo() == |input|
      ensures inInit == old(inInit) && wrap == old(wrap) && lastFlush == old(lastFlush)
      ensures points == old(points) + if state.BlockDone? && flush.FullFlush? then [Point(|syms|, |input|)] else []
      ensures flush.NoFlush? ==> state.NeedMore?
      ensures (state.BlockDone? ==> !flush.Finish?) && (state.FinishDone? || state.FinishStarted? ==> flush.Finish?)
      ensures (state.FinishDone? ==> !pending && !full) && (pending ==> full)
      ensures Unhindered(flush, state) && (ample ==> !full)
      ensures !parser.Stored? ==> Trail(flush, old(Now()), trail)
      ensures parser.Stored? ==> StoredWell(old(storedLens), storedLens, Worth(), flush, |input| + |nextIn|)
    {
      hide Ok, ToldTo, Told1, Trail, TrailTo, Leg, Forgets, Now, StoredWell;
      state, trail := Parse(flush);
      full := OutputOf(state);
      if state.FinishStarted? || state.FinishDone? { finished := true; }
      if state.BlockDone? && flush.FullFlush? {
        trail := ForgetFlushed(flush, old(Now()), trail);
      }
    }

    /** The history is forgotten: one move more. */
    method ForgetFlushed(flush: Flush, ghost from: Moment, ghost before: seq<Moment>) returns (ghost trail: seq<Moment>)
      requires Ok() && ToldTo() == |input| && nextIn == [] && flush.FullFlush?
      requires !parser.Stored? ==> Trail(flush, from, before)
      modifies head, `ins, `strstart, `insert, `base, `blockStart, `points
      ensures Ok() && ToldTo() == |input| && points == old(points) + [Point(|syms|, |input|)]
      ensures !parser.Stored? ==> Trail(flush, from, trail)
    {
      hide Ok, ToldTo, Told1, Trail, TrailTo, Leg, Forgets, Now;
      trail := before;
      ghost var m := Now();
      if !parser.Stored? { TrailHere(flush, from, trail); }
      ForgetHistory();
      if !parser.Stored? {
        ForgetMoves(flush, from, trail, m);
        trail := trail + [Now()];
      }
    }

    lemma ForgetMoves(flush: Flush, from: Moment, trail: seq<Moment>, m: Moment)
      requires TrailTo(flush, from, trail, input, m) && m.seen == |input| && flush.FullFlush?
      requires m.at == m.seen && m.waiting == 0 && m.held.Nothing? && Now() == m.(base := m.at, ins := {}, left := 0)
      ensures Trail(flush, from, trail + [Now()])
    {
      hide ParseRules.Ends;
      TrailEnds(flush, from, trail, m);
    }

    /** The header, before anything else: what does not fit the output waits, and nothing else is done in this call. */
    method WriteHeader() returns (stalled: bool)
      modifies `inInit, `pending, `lastFlush
      ensures !inInit && (stalled ==> pending && lastFlush == -1)
      ensures !stalled ==> lastFlush == old(lastFlush) && (!old(pending) ==> !pending)
      ensures !old(inInit) ==> !stalled
      ensures ample ==> !stalled
    {
      stalled := false;
      if inInit {
        inInit := false;
        if wrap != 0 {
          pending := true;
          var _ := FlushPending();
          if pending {
            lastFlush := -1;
            stalled := true;
          }
        }
      }
    }

    /**
     * What comes first in a call: it is refused if it comes after the end without asking for it, without room for
     * output, or with nothing to do; it ends here if the output is full before anything is read.
     */
    method Admit(avail: seq<byte>, flush: Flush, room: bool) returns (refused: bool, stalled: bool, error: Outcome)
      requires finished ==> !inInit
      modifies `lastFlush, `pending, `inInit
      ensures refused ==> error.StreamError? || error.BufError?
      ensures refused && error.StreamError? <==> finished && !flush.Finish?
      ensures !(finished && !flush.Finish?) && (!room || (!old(pending) && old(Useless(avail, flush)))) ==> refused
      ensures refused && error.BufError? ==>
        !room || (!old(pending) && old(Useless(avail, flush))) || (finished && avail != [])
      ensures refused && flush.Finish? ==> !room || (finished && avail != [])
      ensures stalled ==> !refused && (old(pending) || old(inInit))
      ensures finished && avail != [] && !refused ==> stalled
      ensures !refused && !stalled ==> !pending && !inInit && (finished ==> avail == [] && flush.Finish?)
      ensures finished ==> !inInit
      ensures !refused ==> lastFlush == if stalled then -1 else flush.Code()
      ensures ample ==> !stalled
    {
      refused, stalled, error := true, false, StreamError;
      if finished && !flush.Finish? { return; }
      error := BufError;
      if !room { return; }
      var oldFlush := lastFlush;
      lastFlush := flush.Code();
      if pending {
        var full := FlushPending();
        if full {
          lastFlush := -1;
          return false, true, Fine;
        }
      } else if avail == [] && Rank(flush.Code()) <= Rank(oldFlush) && !flush.Finish? {
        return;
      }
      if finished && avail != [] { return; }
      refused := false;
      stalled := WriteHeader();
    }

    /** The trailer, once; what does not fit the output waits. */
    method WriteTrailer() returns (outcome: Outcome)
      requires !pending
      modifies `wrap, `pending
      ensures outcome == (if pending then Fine else StreamEnd) && wrap <= 0 && (old(wrap) <= 0 ==> outcome.StreamEnd?)
      ensures ample ==> outcome.StreamEnd?
    {
      if wrap <= 0 { return StreamEnd; }
      pending := true;
      var _ := FlushPending();
      wrap := -wrap;
      outcome := if pending then Fine else StreamEnd;
    }

    /** What was read is the beginning of what was offered. */
    lemma TakenIs(input0: seq<byte>, avail: seq<byte>)
      requires input0 <= input && input + nextIn == input0 + avail
      ensures |nextIn| <= |avail| && input == input0 + avail[..|avail| - |nextIn|]
    {
      var n := |input| - |input0|;
      assert (input + nextIn)[..|input|] == input && (input0 + avail)[..|input0| + n] == input0 + avail[..n];
    }

    /** Nothing has changed but for what remembers the last call and what waits. */
    twostate predicate Untouched()
      reads this, window, head, prev
    {
      && unchanged(window, head, prev)
      && unchanged(`insH, `ins, `strstart, `lookahead, `matchLength, `matchStart, `matchAvailable, `prevLength)
      && unchanged(`prevMatch, `syms, `insert, `base, `input, `highWater, `blockStart, `storedLens, `finished, `points)
      && unchanged(`wrap)
    }

    /** The moments of a call that was offered `n` bytes and read `taken`. */
    ghost predicate CallTrail(flush: Flush, from: Moment, n: nat, taken: nat, trail: seq<Moment>)
      requires taken <= n
      reads `input, `nextIn, `base, `strstart, `insert, `ins, `syms, `matchStart, `matchLength, `matchAvailable
    {
      && Leg(Tune(), flush, input, trail) && trail[0] == from.(waiting := n)
      && trail[|trail| - 1] == Now().(waiting := n - taken)
    }

    lemma NoMoves(flush: Flush, n: nat)
      ensures CallTrail(flush, Now(), n, 0, [Now().(waiting := n)])
    {
      LegStarts(Tune(), flush, input, Now().(waiting := n));
    }

    /** Let the parser run on the input offered. */
    method Offer(avail: seq<byte>, flush: Flush)
      returns (state: BlockState, full: bool, taken: nat, ghost trail: seq<Moment>)
      requires Between() && !inInit && !finished
      modifies window, head, prev, `insH, `ins, `strstart, `lookahead, `matchLength, `matchStart, `matchAvailable,
        `prevLength, `prevMatch, `syms, `insert, `base, `nextIn, `input, `highWater, `blockStart, `storedLens,
        `finished, `pending, `points
      ensures Between() && taken <= |avail| && input == old(input) + avail[..taken]
      ensures finished == (state.FinishStarted? || state.FinishDone?)
      ensures !state.NeedMore? ==> taken == |avail| && ToldTo() == |input|
      ensures inInit == old(inInit) && wrap == old(wrap) && lastFlush == old(lastFlush)
      ensures points == old(points) + if state.BlockDone? && flush.FullFlush? then [Point(|syms|, |input|)] else []
      ensures flush.NoFlush? ==> state.NeedMore?
      ensures (state.BlockDone? ==> !flush.Finish?) && (state.FinishDone? || state.FinishStarted? ==> flush.Finish?)
      ensures (state.FinishDone? ==> !pending && !full) && (pending ==> full)
      ensures ample ==> taken == |avail| && !full && state == Quiet(flush)
      ensures !parser.Stored? ==> CallTrail(flush, old(Now()), |avail|, taken, trail)
      ensures parser.Stored? ==> StoredWell(old(storedLens), storedLens, Worth(), flush, |old(input)| + |avail|)
    {
      hide Ok, ToldTo, Trail, CallTrail, Now, HeldBack, StoredWell;
      ghost var m := Now();
      NowParts();
      nextIn := avail;
      NowIs(m, |avail|);
      state, full, trail := Continue(flush);
      taken := |avail| - |nextIn|;
      TakenIs(old(input), avail);
      if !parser.Stored? { TrailOfCall(flush, m, |avail|, taken, trail); }
    }

    /** A call that has been admitted: the parser runs if there is anything to do, and the trailer ends the stream. */
    method Carry(avail: seq<byte>, flush: Flush)
      returns (outcome: Outcome, taken: nat, done: bool, ghost trail: seq<Moment>)
      requires Between() && !pending && !inInit && (finished ==> avail == [] && flush.Finish?)
      modifies this, window, head, prev
      ensures Between() && taken <= |avail| && input == old(input) + avail[..taken]
      ensures outcome.Fine? || outcome.StreamEnd?
      ensures old(finished) ==> finished && syms == old(syms) && taken == 0
      ensures done ==> taken == |avail| && ToldTo() == |input|
      ensures outcome.StreamEnd? ==> finished && done && !pending && flush.Finish?
      ensures old(finished && wrap <= 0) ==> outcome.StreamEnd?
      ensures points == old(points) + if done && flush.FullFlush? then [Point(|syms|, |input|)] else []
      ensures !parser.Stored? ==> CallTrail(flush, old(Now()), |avail|, taken, trail)
      ensures parser.Stored? ==> StoredWell(old(storedLens), storedLens, Worth(), flush, |old(input)| + |avail|)
      ensures finished ==> old(finished) || flush.Finish?
      ensures old(ample) ==> taken == |avail| && (done <==> !flush.NoFlush?) && !pending
      ensures old(ample) ==> outcome == if flush.Finish? then StreamEnd else Fine
    {
      hide Ok, Trail, CallTrail, Now, HeldBack, StoredWell;
      assert avail[..0] == [] && input + [] == input;
      trail := [Now().(waiting := |avail|)];
      NoMoves(flush, |avail|);
      NoneStored(storedLens, Worth(), flush, |input| + |avail|, false);
      if finished { NothingAhead(); }
      taken, done := 0, finished;
      if avail != [] || lookahead != 0 || (!flush.NoFlush? && !finished) {
        var full, state;
        state, full, taken, trail := Offer(avail, flush);
        done := !state.NeedMore?;
        if state.NeedMore? || state.FinishStarted? || (state.BlockDone? && full) {
          if full { lastFlush := -1; }
          return Fine, taken, done, trail;
        }
      }
      if !flush.Finish? { return Fine, taken, done, trail; }
      outcome := WriteTrailer();
    }

    /** The caller's input is offered: nothing else is different. */
    lemma NowIs(m: Moment, n: nat)
      requires |nextIn| == n && |input| == m.seen && base == m.base && Pos() == m.at && insert == m.left && ins == m.ins
        && syms == m.syms && HeldBack() == m.held
      ensures Now() == m.(waiting := n)
    {
      hide HeldBack;
    }

    lemma TrailOfCall(flush: Flush, from: Moment, n: nat, taken: nat, trail: seq<Moment>)
      requires Trail(flush, from.(waiting := n), trail) && taken <= n && |nextIn| == n - taken
      ensures CallTrail(flush, from, n, taken, trail)
    {
      hide Leg;
    }

    /**
     * `deflate`: the caller offers `avail` and has room for output or not; `taken` bytes are read. A call is refused
     * exactly when it comes after the end without asking for it, when there is no room, or when it has nothing to do;
     * then nothing changes. `done` says that its flush is complete: the symbols stand for all that was ever read.
     */
    method Call(avail: seq<byte>, flush: Flush, room: Space)
      returns (outcome: Outcome, taken: nat, done: bool, ghost trail: seq<Moment>)
      requires Between()
      modifies this, window, head, prev
      ensures Between() && taken <= |avail| && input == old(input) + avail[..taken]
      ensures outcome.StreamError? <==> old(finished) && !flush.Finish?
      ensures !outcome.StreamError? && (room.NoRoom? || (!old(pending) && old(Useless(avail, flush)))) ==>
        outcome.BufError?
      ensures outcome.BufError? ==>
        room.NoRoom? || (!old(pending) && old(Useless(avail, flush))) || (old(finished) && avail != [])
      ensures old(finished) ==> finished && syms == old(syms) && taken == 0
      ensures old(finished) && avail != [] ==> !outcome.StreamEnd?
      ensures outcome.StreamError? || outcome.BufError? ==> taken == 0 && !done && Untouched()
      ensures done ==> taken == |avail| && ToldTo() == |input|
      ensures outcome.StreamEnd? ==> finished && done && !pending && flush.Finish?
      ensures old(finished && !pending && wrap <= 0) && avail == [] && flush.Finish? && !room.NoRoom? ==>
        outcome.StreamEnd?
      ensures points == old(points) + if done && flush.FullFlush? then [Point(|syms|, |input|)] else []
      ensures finished ==> old(finished) || flush.Finish?
      ensures room.AmpleRoom? && !outcome.StreamError? && !outcome.BufError? ==>
        taken == |avail| && (done <==> !flush.NoFlush?) && outcome == if flush.Finish? then StreamEnd else Fine
      ensures !parser.Stored? ==> CallTrail(flush, old(Now()), |avail|, taken, trail)
      ensures parser.Stored? ==> StoredWell(old(storedLens), storedLens, Worth(), flush, |old(input)| + |avail|)
    {
      hide Ok, Useless, CallTrail, Now, StoredWell;
      assert avail[..0] == [] && input + [] == input;
      trail := [Now().(waiting := |avail|)];
      NoMoves(flush, |avail|);
      NoneStored(storedLens, Worth(), flush, |input| + |avail|, false);
      ample := room.AmpleRoom?;
      var refused, stalled, error := Admit(avail, flush, !room.NoRoom?);
      if refused { return error, 0, false, trail; }
      if stalled { return Fine, 0, false, trail; }
      outcome, taken, done, trail := Carry(avail, flush);
    }

    lemma OkStored()
      requires Ok() && parser.Stored?
      ensures StoredLens(storedLens, |syms|)
    {
      hide Tells, Holds, StoredLens, Pow2;
    }

    lemma Begins()
      requires Ok() && !finished
      ensures Between()
    {
      hide Ok;
    }

    lemma Level(level: nat, windowBits: nat, memLevel: nat, strat: Strategy)
      requires 0 <= level <= 9 && Tune() == TuningOf(level, windowBits, memLevel, strat)
      ensures parser.Stored? <==> level == 0
    {
      hide Pow2;
    }

    lemma Reach()
      ensures MaxDist() == wSize - MIN_LOOKAHEAD
    {
    }

    /** The symbols so far are legal and stand for all input but the part not yet parsed. */
    lemma OkSpells()
      requires Ok()
      ensures 0 <= ToldTo() && Tells(syms, points, input, ToldTo(), MaxDist())
    {
      hide Valid, Tells, Pending, Linked, StoredLens;
    }
  }

  /** A call: the input offered, the flush asked for, and the room there is for output. */
  datatype Request = Request(avail: seq<byte>, flush: Flush, room: Space)

  /** What a call came to: how much input was read, and whether the flush was completed. */
  datatype Reply = Reply(outcome: Outcome, taken: nat, done: bool)

  ghost predicate Answers(calls: seq<Request>, replies: seq<Reply>) {
    |replies| <= |calls| && forall i | 0 <= i < |replies| :: replies[i].taken <= |calls[i].avail|
  }

  /** All the input read in a run. */
  ghost function Taken(calls: seq<Request>, replies: seq<Reply>): seq<byte>
    requires Answers(calls, replies)
  {
    if replies == [] then []
    else
      var n := |replies| - 1;
      Taken(calls, replies[..n]) + calls[n].avail[..replies[n].taken]
  }

  lemma AnswersNext(calls: seq<Request>, replies: seq<Reply>, r: Reply)
    requires Answers(calls, replies) && |replies| < |calls| && r.taken <= |calls[|replies|].avail|
    ensures Answers(calls, replies + [r])
  {
  }

  lemma TakenNext(calls: seq<Request>, replies: seq<Reply>, r: Reply)
    requires Answers(calls, replies) && Answers(calls, replies + [r])
    ensures Taken(calls, replies + [r]) == Taken(calls, replies) + calls[|replies|].avail[..r.taken]
  {
    assert (replies + [r])[..|replies|] == replies;
  }

  lemma NothingTaken(calls: seq<Request>)
    ensures Answers(calls, []) && Taken(calls, []) == []
  {
  }

  ghost predicate PointAt(points: seq<Point>, n: nat) {
    exists k :: 0 <= k < |points| && points[k].origin == n
  }

  /** Points stay, and another may be added. */
  lemma PointKept(points: seq<Point>, more: seq<Point>, n: nat)
    requires PointAt(points, n)
    ensures PointAt(points + more, n)
  {
    var k :| 0 <= k < |points| && points[k].origin == n;
    assert (points + more)[k].origin == n;
  }

  lemma PointAdded(points: seq<Point>, p: Point)
    ensures PointAt(points + [p], p.origin)
  {
    assert (points + [p])[|points|] == p;
  }

  /** Expanded by themselves, the symbols from the point on give the input from there, as far as it has been parsed. */
  ghost predicate Restarts(syms: seq<Symbol>, p: Point, all: seq<byte>, done: bool) {
    && p.mark <= |syms| && p.origin <= |all| && WellFormed(syms[p.mark..])
    && (if done then Expand(syms[p.mark..]) == all[p.origin..] else Expand(syms[p.mark..]) <= all[p.origin..])
  }

  lemma SinceRestarts(syms: seq<Symbol>, p: Point, input: seq<byte>, rest: seq<byte>, pos: nat, maxDist: int,
      done: bool)
    requires Since(syms, p, input, pos, maxDist) && (done ==> rest == [] && pos == |input|)
    ensures Restarts(syms, p, input + rest, done)
  {
    hide Expand, WellFormed;
    assert (input + rest)[p.origin..] == input[p.origin..] + rest;
    assert input[p.origin..][..pos - p.origin] <= input[p.origin..] + rest;
    if done { assert input[p.origin..][..pos - p.origin] == input[p.origin..] + rest; }
  }

  lemma RestartsAnyway(syms: seq<Symbol>, p: Point, all: seq<byte>, done: bool)
    requires Restarts(syms, p, all, done)
    ensures Restarts(syms, p, all, false)
  {
    hide Expand, WellFormed;
  }

  lemma RunTells(syms: seq<Symbol>, points: seq<Point>, input: seq<byte>, rest: seq<byte>, pos: nat, maxDist: int,
      done: bool)
    requires Tells(syms, points, input, pos, maxDist) && (done ==> rest == [] && pos == |input|)
    ensures WellFormed(syms) && Legal(syms, maxDist) && Expand(syms) <= input + rest
      && (done ==> Expand(syms) == input + rest)
    ensures forall k | 0 <= k < |points| :: Restarts(syms, points[k], input + rest, done)
  {
    hide Expand, WellFormed, Legal, Restarts;
    TellsSpells(syms, points, input, pos, maxDist);
    assert input[..pos] <= input + rest;
    forall k | 0 <= k < |points| ensures Restarts(syms, points[k], input + rest, done) {
      SinceRestarts(syms, points[k], input, rest, pos, maxDist, done);
    }
  }

  /** Where a full flush was completed there is a point to start afresh. */
  ghost predicate Flushed(calls: seq<Request>, replies: seq<Reply>, points: seq<Point>, j: nat)
    requires Answers(calls, replies) && j < |replies|
  {
    replies[j].done && calls[j].flush.FullFlush? ==> PointAt(points, |Taken(calls, replies[..j + 1])|)
  }

  lemma FlushedKept(calls: seq<Request>, replies: seq<Reply>, points: seq<Point>, r: Reply, more: seq<Point>, j: nat)
    requires Answers(calls, replies) && Answers(calls, replies + [r]) && j < |replies|
    requires Flushed(calls, replies, points, j)
    ensures Flushed(calls, replies + [r], points + more, j)
  {
    hide Taken, PointAt;
    assert (replies + [r])[..j + 1] == replies[..j + 1];
    if replies[j].done && calls[j].flush.FullFlush? {
      PointKept(points, more, |Taken(calls, replies[..j + 1])|);
    }
  }

  /** The flush of the last call was completed. */
  ghost predicate LastDone(replies: seq<Reply>) {
    replies != [] && replies[|replies| - 1].done
  }

  ghost predicate HasEnded(replies: seq<Reply>) {
    exists i :: 0 <= i < |replies| && replies[i].outcome.StreamEnd?
  }

  /** A completed flush has read all its call offered. */
  ghost predicate AllRead(calls: seq<Request>, replies: seq<Reply>)
    requires Answers(calls, replies)
  {
    forall i | 0 <= i < |replies| && replies[i].done :: replies[i].taken == |calls[i].avail|
  }

  ghost predicate AllFlushed(calls: seq<Request>, replies: seq<Reply>, points: seq<Point>)
    requires Answers(calls, replies)
  {
    forall j | 0 <= j < |replies| :: Flushed(calls, replies, points, j)
  }

  ghost predicate FinishBefore(calls: seq<Request>, i: nat) {
    exists j :: 0 <= j < |calls| && j < i && calls[j].flush.Finish?
  }

  /**
   * A call is refused only for want of room, or if it has nothing to do, or if the end was asked for before. With more
   * room than it uses, a call that is not refused reads all its input, completes its flush, and ends the stream if that
   * was asked for.
   */
  ghost predicate Answered(c: Request, r: Reply, late: bool) {
    if r.outcome.StreamError? || r.outcome.BufError? then
      c.room.NoRoom? || (c.avail == [] && !c.flush.Finish?) || late
    else
      c.room.AmpleRoom? ==>
        r.taken == |c.avail| && (r.done <==> !c.flush.NoFlush?)
        && r.outcome == if c.flush.Finish? then StreamEnd else Fine
  }

  ghost predicate AllAnswered(calls: seq<Request>, replies: seq<Reply>)
    requires Answers(calls, replies)
  {
    forall i | 0 <= i < |replies| :: Answered(calls[i], replies[i], FinishBefore(calls, i))
  }

  lemma AnsweredNext(calls: seq<Request>, replies: seq<Reply>, r: Reply, late: bool)
    requires Answers(calls, replies) && Answers(calls, replies + [r]) && AllAnswered(calls, replies)
    requires Answered(calls[|replies|], r, late) && (late ==> FinishBefore(calls, |replies|))
    ensures AllAnswered(calls, replies + [r])
  {
  }

  /** What the rules depend on, for a level and the other parameters of `deflateInit2`. */
  function TuningOf(level: nat, windowBits: nat, memLevel: nat, strategy: Strategy): Tuning
    requires 0 <= level <= 9
  {
    Tuning(
      if level == 0 then Stored
      else if strategy.HuffmanOnly? then Literals
      else if strategy.Rle? then Runs
      else if level <= 3 then Fast
      else Slow,
      Pow2(windowBits), memLevel + 7,
      [0, 4, 4, 4, 4, 8, 8, 8, 32, 32][level],
      [0, 4, 5, 6, 4, 16, 16, 32, 128, 258][level],
      [0, 8, 16, 32, 16, 32, 128, 128, 258, 258][level],
      [0, 4, 8, 32, 16, 32, 128, 256, 1024, 4096][level],
      strategy.Filtered?)
  }

  /** The table of the program, with the parser it selects, says the same. */
  lemma TuningIs(level: nat, windowBits: nat, memLevel: nat, strategy: Strategy)
    requires 0 <= level <= 9
    ensures var c := Configuration(level);
      TuningOf(level, windowBits, memLevel, strategy) == Tuning(ParserOf(level, strategy), Pow2(windowBits),
        memLevel + 7, c.good, c.lazy, c.nice, c.chain, strategy.Filtered?)
  {
    hide Pow2;
  }

  /** The moment before anything has been read. */
  const BEGINNING := Moment(0, 0, 0, 0, 0, {}, [], Nothing)

  /** Where the calls so far have led. */
  ghost function Reached(legs: seq<seq<Moment>>): Moment {
    if legs == [] || legs[|legs| - 1] == [] then BEGINNING
    else
      var last := legs[|legs| - 1];
      last[|last| - 1]
  }

  /**
   * In every call the parser goes from moment to moment by the rules, beginning where the call before has ended, with
   * the input this one offers. A flush that is completed leaves nothing unparsed.
   */
  ghost predicate Parsed(t: Tuning, text: seq<byte>, calls: seq<Request>, replies: seq<Reply>,
      legs: seq<seq<Moment>>)
  {
    && |legs| == |replies| <= |calls|
    && forall i | 0 <= i < |legs| :: ParsedCall(t, text, calls[i], replies[i], legs[..i], legs[i])
  }

  ghost predicate ParsedCall(t: Tuning, text: seq<byte>, c: Request, r: Reply, before: seq<seq<Moment>>,
      leg: seq<Moment>)
  {
    && Leg(t, c.flush, text, leg) && leg[0] == Reached(before).(waiting := |c.avail|)
    && var m := leg[|leg| - 1];
       && m.waiting == |c.avail| - r.taken
       && (r.done ==> m.at == m.seen && m.held.Nothing?)
  }

  lemma ParsedMore(t: Tuning, text: seq<byte>, text': seq<byte>, calls: seq<Request>, replies: seq<Reply>,
      legs: seq<seq<Moment>>, r: Reply, leg: seq<Moment>)
    requires Answers(calls, replies) && Answers(calls, replies + [r]) && Parsed(t, text, calls, replies, legs)
    requires text <= text' && ParsedCall(t, text', calls[|replies|], r, legs, leg)
    ensures Parsed(t, text', calls, replies + [r], legs + [leg])
  {
    hide Leg, Reached;
    var all := legs + [leg];
    forall i | 0 <= i < |all| ensures ParsedCall(t, text', calls[i], (replies + [r])[i], all[..i], all[i]) {
      if i < |legs| {
        assert ParsedCall(t, text, calls[i], replies[i], legs[..i], legs[i]);
        LegLater(t, calls[i].flush, text, text', legs[i]);
        assert all[..i] == legs[..i];
      } else {
        assert all[..i] == legs;
      }
    }
  }

  /** What holds of the parser between the calls of a run. */
  ghost predicate Parsing(s: State, calls: seq<Request>, replies: seq<Reply>, legs: seq<seq<Moment>>)
    reads s
  {
    && Parsed(s.Tune(), s.input, calls, replies, legs)
    && s.Now() == Reached(legs).(waiting := s.Now().waiting)
  }

  /** One call more: if its flush was completed, nothing is left unparsed. */
  lemma ParsingMore(s: State, t: Tuning, text: seq<byte>, from: Moment, calls: seq<Request>, replies: seq<Reply>,
      legs: seq<seq<Moment>>, r: Reply, leg: seq<Moment>)
    requires Answers(calls, replies) && Answers(calls, replies + [r]) && t == s.Tune() && text <= s.input
    requires Parsed(t, text, calls, replies, legs) && from == Reached(legs).(waiting := from.waiting)
    requires s.CallTrail(calls[|replies|].flush, from, |calls[|replies|].avail|, r.taken, leg)
    requires r.done ==> s.Now().at == s.Now().seen && s.Now().held.Nothing?
    ensures Parsing(s, calls, replies + [r], legs + [leg])
  {
    hide Leg, State.Now, Parsed;
    ParsedMore(t, text, s.input, calls, replies, legs, r, leg);
    assert leg != [] by { LegSome(t, calls[|replies|].flush, s.input, leg); }
  }

  // ----- stored blocks through all calls -----

  /** Of the lengths stored by the end of each call, those stored so far. */
  ghost function StoredBy(stores: seq<seq<nat>>): seq<nat> {
    if stores == [] then [] else stores[|stores| - 1]
  }

  ghost predicate StoredInCall(least: int, calls: seq<Request>, replies: seq<Reply>, stores: seq<seq<nat>>, i: nat)
    requires Answers(calls, replies) && i < |stores| && i < |replies|
  {
    StoredWell(StoredBy(stores[..i]), stores[i], least, calls[i].flush,
      |Taken(calls, replies[..i])| + |calls[i].avail|)
  }

  /** In every call blocks are stored that are worth it, or with which its flush ends. */
  ghost predicate StoredInCalls(least: int, calls: seq<Request>, replies: seq<Reply>, stores: seq<seq<nat>>)
    requires Answers(calls, replies)
  {
    |stores| == |replies| && forall i | 0 <= i < |stores| :: StoredInCall(least, calls, replies, stores, i)
  }

  lemma {:induction false} StoredMoreCalls(least: int, calls: seq<Request>, replies: seq<Reply>,
      stores: seq<seq<nat>>, r: Reply, lens: seq<nat>)
    requires Answers(calls, replies) && Answers(calls, replies + [r]) && StoredInCalls(least, calls, replies, stores)
    requires StoredWell(StoredBy(stores), lens, least, calls[|replies|].flush,
      |Taken(calls, replies)| + |calls[|replies|].avail|)
    ensures StoredInCalls(least, calls, replies + [r], stores + [lens]) && StoredBy(stores + [lens]) == lens
  {
    hide StoredWell, Taken;
    var all, ss := replies + [r], stores + [lens];
    assert all[..|replies|] == replies && ss[..|stores|] == stores;
    forall i | 0 <= i < |ss| ensures StoredInCall(least, calls, all, ss, i) {
      if i < |stores| {
        assert StoredInCall(least, calls, replies, stores, i);
        assert all[..i] == replies[..i] && ss[..i] == stores[..i];
      }
    }
  }

  ghost predicate Storing(s: State, calls: seq<Request>, replies: seq<Reply>, stores: seq<seq<nat>>)
    requires Answers(calls, replies)
    reads s
  {
    StoredInCalls(s.Worth(), calls, replies, stores) && s.storedLens == StoredBy(stores)
  }

  lemma LegSome(t: Tuning, flush: Flush, text: seq<byte>, ms: seq<Moment>)
    requires Leg(t, flush, text, ms)
    ensures ms != []
  {
  }

  /** What holds between the calls of a run. */
  ghost predicate Going(s: State, calls: seq<Request>, replies: seq<Reply>)
    reads s, s.window, s.head, s.prev
  {
    && Answers(calls, replies) && s.Between() && s.input == Taken(calls, replies)
    && (LastDone(replies) ==> s.ToldTo() == |s.input|) && (HasEnded(replies) ==> s.finished)
    && AllAnswered(calls, replies) && (s.finished ==> FinishBefore(calls, |replies|))
    && AllRead(calls, replies) && AllFlushed(calls, replies, s.points)
  }

  lemma RepliesMore(calls: seq<Request>, replies: seq<Reply>, points: seq<Point>, r: Reply, more: seq<Point>)
    requires Answers(calls, replies) && AllRead(calls, replies) && AllFlushed(calls, replies, points)
    requires Answers(calls, replies + [r]) && (r.done ==> r.taken == |calls[|replies|].avail|)
    requires Flushed(calls, replies + [r], points + more, |replies|)
    ensures AllRead(calls, replies + [r]) && AllFlushed(calls, replies + [r], points + more)
    ensures LastDone(replies + [r]) <==> r.done
    ensures HasEnded(replies + [r]) <==> HasEnded(replies) || r.outcome.StreamEnd?
  {
    hide Taken, Flushed;
    var all := replies + [r];
    assert all[|replies|] == r;
    forall j | 0 <= j < |all| ensures Flushed(calls, all, points + more, j) {
      if j < |replies| { FlushedKept(calls, replies, points, r, more, j); }
    }
    if HasEnded(replies) {
      var i :| 0 <= i < |replies| && replies[i].outcome.StreamEnd?;
      assert all[i].outcome.StreamEnd?;
    }
  }

  lemma FlushedNow(calls: seq<Request>, replies: seq<Reply>, points: seq<Point>, r: Reply, mark: nat)
    requires Answers(calls, replies + [r])
    ensures Flushed(calls, replies + [r],
      points + if r.done && calls[|replies|].flush.FullFlush? then [Point(mark, |Taken(calls, replies + [r])|)] else [],
      |replies|)
  {
    hide Taken, PointAt;
    assert (replies + [r])[..|replies| + 1] == replies + [r];
    PointAdded(points, Point(mark, |Taken(calls, replies + [r])|));
  }

  /** One call of a run. */
  method RunCall(s: State, calls: seq<Request>, replies: seq<Reply>, ghost legs: seq<seq<Moment>>,
      ghost stores: seq<seq<nat>>)
    returns (r: Reply, ghost leg: seq<Moment>)
    requires Going(s, calls, replies) && |replies| < |calls|
    requires if s.parser.Stored? then Storing(s, calls, replies, stores) else Parsing(s, calls, replies, legs)
    modifies s, s.window, s.head, s.prev
    ensures Answers(calls, replies + [r]) && Going(s, calls, replies + [r])
    ensures if s.parser.Stored? then Storing(s, calls, replies + [r], stores + [s.storedLens])
      else Parsing(s, calls, replies + [r], legs + [leg])
  {
    hide State.Between, State.Now, State.CallTrail, PointAt, Taken, Flushed, AllRead, AllFlushed, LastDone, HasEnded,
      AllAnswered, Parsed, StoredWell, StoredInCalls, StoredBy, State.Worth;
    ghost var points0, from, text, late := s.points, s.Now(), s.input, s.finished;
    var c := calls[|replies|];
    var outcome, taken, done;
    outcome, taken, done, leg := s.Call(c.avail, c.flush, c.room);
    r := Reply(outcome, taken, done);
    AnswersNext(calls, replies, r);
    AnsweredNext(calls, replies, r, late);
    TakenNext(calls, replies, r);
    FlushedNow(calls, replies, points0, r, |s.syms|);
    RepliesMore(calls, replies, points0, r,
      if done && c.flush.FullFlush? then [Point(|s.syms|, |s.input|)] else []);
    if !s.parser.Stored? {
      if done { NothingUnparsed(s); }
      ParsingMore(s, s.Tune(), text, from, calls, replies, legs, r, leg);
    } else {
      StoredMoreCalls(s.Worth(), calls, replies, stores, r, s.storedLens);
    }
  }

  lemma NothingUnparsed(s: State)
    requires s.Between() && s.ToldTo() == |s.input| && !s.parser.Stored?
    ensures s.Now().at == s.Now().seen && s.Now().held.Nothing?
  {
    hide State.Ok;
    s.AllTold();
  }

  lemma GoingStarts(s: State, calls: seq<Request>)
    requires s.Between() && s.input == [] && s.Now() == BEGINNING && s.storedLens == [] && !s.finished
    ensures Answers(calls, []) && Going(s, calls, []) && Parsing(s, calls, [], []) && Storing(s, calls, [], [])
  {
    hide State.Between, State.Now;
    NothingTaken(calls);
  }

  /** What the symbols of a run are worth, so far. */
  lemma GoingTells(s: State, calls: seq<Request>, replies: seq<Reply>)
    requires Going(s, calls, replies)
    ensures Answers(calls, replies) && AllRead(calls, replies) && AllFlushed(calls, replies, s.points)
    ensures AllAnswered(calls, replies)
    ensures WellFormed(s.syms) && Legal(s.syms, s.MaxDist()) && Expand(s.syms) <= Taken(calls, replies)
    ensures LastDone(replies) || HasEnded(replies) ==> Expand(s.syms) == Taken(calls, replies)
    ensures forall k | 0 <= k < |s.points| :: Restarts(s.syms, s.points[k], Taken(calls, replies), false)
  {
    hide Expand, WellFormed, Legal, Taken, AllFlushed, AllRead, Restarts, Tells, State.Ok, LastDone, HasEnded;
    s.OkSpells();
    var all := s.ToldTo() == |s.input|;
    RunTells(s.syms, s.points, s.input, [], s.ToldTo(), s.MaxDist(), all);
    assert s.input + [] == s.input;
    forall k | 0 <= k < |s.points| ensures Restarts(s.syms, s.points[k], s.input, false) {
      RestartsAnyway(s.syms, s.points[k], s.input, all);
    }
  }

  /**
   * The compressor over any calls, whatever input they offer, whatever flush they ask for and whatever room they find.
   * All symbols so far stand for a prefix of the input read, and for all of it if the last call completed its flush, or
   * if the stream has ended. At every completed full flush expansion can start afresh: the symbols after it stand by
   * themselves for the input read after it. At level 0 the symbols are the bytes of stored blocks of these lengths.
   */
  method Run(level: nat, windowBits: nat, memLevel: nat, strategy: Strategy, wrapped: bool, calls: seq<Request>)
    returns (syms: seq<Symbol>, replies: seq<Reply>, stored: seq<nat>, ghost points: seq<Point>,
      ghost legs: seq<seq<Moment>>, ghost stores: seq<seq<nat>>)
    requires 0 <= level <= 9 && 9 <= windowBits <= 15 && 1 <= memLevel <= 9
    ensures |replies| == |calls| && Answers(calls, replies) && AllRead(calls, replies) && AllAnswered(calls, replies)
    ensures WellFormed(syms) && Legal(syms, Pow2(windowBits) - MIN_LOOKAHEAD)
    ensures Expand(syms) <= Taken(calls, replies)
    ensures LastDone(replies) || HasEnded(replies) ==> Expand(syms) == Taken(calls, replies)
    ensures AllFlushed(calls, replies, points)
    ensures forall k | 0 <= k < |points| :: Restarts(syms, points[k], Taken(calls, replies), false)
    ensures level == 0 ==> StoredLens(stored, |syms|) && stored == StoredBy(stores)
    ensures level == 0 ==>
      StoredInCalls(WorthyLength(Pow2(windowBits), 4 * Pow2(memLevel + 6)), calls, replies, stores)
    ensures level > 0 ==> syms == Reached(legs).syms
    ensures level > 0 ==>
      Parsed(TuningOf(level, windowBits, memLevel, strategy), Taken(calls, replies), calls, replies, legs)
  {
    hide *;
    var s := new State(level, windowBits, memLevel, strategy, wrapped);
    replies, legs, stores := [], [], [];
    s.Begins();
    GoingStarts(s, calls);
    while |replies| < |calls|
      invariant |replies| <= |calls| && Answers(calls, replies) && Going(s, calls, replies)
      invariant fresh(s) && fresh(s.window) && fresh(s.head) && fresh(s.prev) && s.wSize == Pow2(windowBits)
      invariant s.Tune() == TuningOf(level, windowBits, memLevel, strategy)
      invariant s.pendingBufSize == 4 * Pow2(memLevel + 6)
      invariant if s.parser.Stored? then Storing(s, calls, replies, stores) else Parsing(s, calls, replies, legs)
      decreases |calls| - |replies|
    {
      ghost var leg;
      var r;
      r, leg := RunCall(s, calls, replies, legs, stores);
      replies, legs, stores := replies + [r], legs + [leg], stores + [s.storedLens];
    }
    GoingTells(s, calls, replies);
    s.Level(level, windowBits, memLevel, strategy);
    if level > 0 { ParsingIs(s, calls, replies, legs); }
    syms, points, stored := s.syms, s.points, s.storedLens;
    s.Reach();
    if level == 0 { GoingStored(s, calls, replies, stores); }
  }

  lemma ParsingIs(s: State, calls: seq<Request>, replies: seq<Reply>, legs: seq<seq<Moment>>)
    requires Going(s, calls, replies) && Parsing(s, calls, replies, legs)
    ensures Parsed(s.Tune(), Taken(calls, replies), calls, replies, legs) && s.syms == Reached(legs).syms
  {
    hide Parsed, State.Between, Taken, AllRead, AllFlushed, LastDone, HasEnded, Reached;
  }

  lemma GoingStored(s: State, calls: seq<Request>, replies: seq<Reply>, stores: seq<seq<nat>>)
    requires Going(s, calls, replies) && s.parser.Stored? && Storing(s, calls, replies, stores)
    ensures StoredLens(s.storedLens, |s.syms|) && s.storedLens == StoredBy(stores)
    ensures StoredInCalls(WorthyLength(s.wSize, s.pendingBufSize), calls, replies, stores)
  {
    hide State.Ok, StoredLens, StoredInCalls, WorthyLength, Taken, AllFlushed, AllRead, LastDone, HasEnded;
    s.OkStored();
  }
}
