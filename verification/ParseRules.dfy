/**
 * What the parsers decide, without their tables: the next symbol follows from what has been read and from which strings
 * have been inserted.
 */
module ParseRules {
  import opened Bytes
  import opened HashChains
  import opened Lz77Symbols

  datatype Flush = NoFlush | PartialFlush | SyncFlush | FullFlush | Finish | BlockFlush {
    function Code(): (c: nat)
      ensures c <= 5
    {
      match this
      case NoFlush => 0
      case PartialFlush => 1
      case SyncFlush => 2
      case FullFlush => 3
      case Finish => 4
      case BlockFlush => 5
    }
  }

  datatype Parser = Fast | Slow | Runs | Literals | Stored

  /** What the rules depend on: the parser and its limits, the window size, and the width of the hash. */
  datatype Tuning = Tuning(parser: Parser, wSize: nat, bits: nat, good: nat, lazy: nat, nice: nat, chain: nat,
    filtered: bool)

  /** What deflate_slow holds back: nothing, the byte before the current one, or a match found there. */
  datatype Held = Nothing | Byte | Found(start: nat, len: nat) {
    function Len(): nat {
      if Found? then len else 2
    }
  }

  /**
   * A moment of a run: `seen` bytes have been read and `waiting` bytes of the caller's have not, the window begins at
   * position `base`, the parser stands at position `at`, the last `left` strings before it are left to be inserted, and
   * `ins` are the strings inserted.
   */
  datatype Moment = Moment(seen: nat, waiting: nat, base: nat, at: nat, left: nat, ins: set<nat>, syms: seq<Symbol>,
    held: Held)

  /** The positions from `lo` to before `hi`. */
  function Upto(lo: nat, hi: nat): set<nat> {
    if lo < hi then Upto(lo, hi - 1) + {hi - 1} else {}
  }

  function Back(a: nat, b: nat): nat {
    if a >= b then a - b else 0
  }

  function Least(a: nat, b: nat): nat {
    if a <= b then a else b
  }

  // ----- the search -----

  /** A string inserted before the current one that has its hash; the one the window begins with is never used. */
  ghost predicate Rival(t: Tuning, v: seq<byte>, m: Moment, b: nat) {
    && b in m.ins && m.base < b < m.at && m.at + 2 < |v|
    && HashAt(t.bits, v, b) == HashAt(t.bits, v, m.at)
  }

  /** Rival `a` is the nearest before position `hi`. */
  ghost predicate Next(t: Tuning, v: seq<byte>, m: Moment, a: nat, hi: nat) {
    Rival(t, v, m, a) && a < hi && forall b: nat | Rival(t, v, m, b) && b < hi :: b <= a
  }

  /** The strings tried: the rivals from the nearest on, none left out, as far back as a match may reach. */
  ghost predicate Tried(t: Tuning, v: seq<byte>, m: Moment, tried: seq<nat>) {
    && (tried != [] ==> Next(t, v, m, tried[0], m.at) && m.at - tried[0] <= t.wSize - 262)
    && forall i | 0 < i < |tried| :: Next(t, v, m, tried[i], tried[i - 1]) && m.at - tried[i] < t.wSize - 262
  }

  /** No rival is left to be tried: the chain goes on one byte less far than it may start. */
  ghost predicate NoneLeft(t: Tuning, v: seq<byte>, m: Moment, tried: seq<nat>) {
    if tried == [] then forall b: nat | Rival(t, v, m, b) :: m.at - b > t.wSize - 262
    else forall b: nat | Rival(t, v, m, b) && b < tried[|tried| - 1] :: m.at - b >= t.wSize - 262
  }

  /** String `b` repeats `len` bytes from the current position on, and these are more than `prev`. */
  ghost predicate Longer(v: seq<byte>, at: nat, prev: nat, b: nat, len: nat) {
    prev < len <= 258 && Repeats(v, at, at - b, len)
  }

  /** How many strings are tried: a quarter if there is a good match already. */
  function Patience(t: Tuning, prev: nat): nat {
    var chain := if prev >= t.good then t.chain / 4 else t.chain;
    if chain == 0 then 0x1_0000_0000 else chain
  }

  /** A match so long ends the search. */
  function NiceLength(t: Tuning, v: seq<byte>, at: nat): nat {
    Least(t.nice, Back(|v|, at))
  }

  /** No string tried but the last is so long a match that the search should have ended there. */
  ghost predicate Patient(t: Tuning, v: seq<byte>, m: Moment, prev: nat, tried: seq<nat>) {
    && |tried| <= Patience(t, prev)
    && forall i, len: nat | 0 <= i < |tried| - 1 && Longer(v, m.at, prev, tried[i], len) :: len < NiceLength(t, v, m.at)
  }

  /** The longest match that any string tried gives, and the nearest of those. */
  ghost predicate Best(v: seq<byte>, m: Moment, prev: nat, tried: seq<nat>, r: Held) {
    match r
    case Nothing => forall i, len: nat | 0 <= i < |tried| :: !Longer(v, m.at, prev, tried[i], len)
    case Byte => false
    case Found(start, len) =>
      exists i :: 0 <= i < |tried| && tried[i] == start && Longer(v, m.at, prev, tried[i], len)
        && (forall j, l: nat | 0 <= j < |tried| && Longer(v, m.at, prev, tried[j], l) :: l <= len)
        && (forall j, l: nat | 0 <= j < i && Longer(v, m.at, prev, tried[j], l) :: l < len)
  }

  /**
   * The search for a match longer than `prev`: it ends when no rival is left, or patience, or at a nice match. Where it
   * ends makes no difference if there are not more than `prev` bytes ahead.
   */
  ghost predicate Searched(t: Tuning, v: seq<byte>, m: Moment, prev: nat, tried: seq<nat>, r: Held) {
    && Tried(t, v, m, tried) && Patient(t, v, m, prev, tried) && Best(v, m, prev, tried, r)
    && (NoneLeft(t, v, m, tried) || |tried| == Patience(t, prev) || (r.Found? && r.len >= NiceLength(t, v, m.at))
        || m.at + prev >= |v|)
  }

  // ----- what follows from it -----

  /** The current string is inserted once three bytes of it are there. */
  function Here(v: seq<byte>, m: Moment): set<nat> {
    if m.at + 2 < |v| then {m.at} else {}
  }

  function Byte1(v: seq<byte>, k: int): seq<Symbol> {
    if 0 <= k < |v| then [Literal(v[k])] else []
  }

  /** deflate_fast: a match of at least three bytes is emitted, and if it is short its strings are inserted. */
  function FastNext(t: Tuning, v: seq<byte>, m: Moment, r: Held): Moment {
    match r
    case Found(start, len) =>
      var inner := if len <= t.lazy && m.at + len + 3 <= |v| then Upto(m.at + 1, m.at + len) else {};
      m.(at := m.at + len, ins := m.ins + Here(v, m) + inner,
        syms := m.syms + [Match(Back(m.at, start), len)])
    case _ =>
      m.(at := m.at + 1, ins := m.ins + Here(v, m), syms := m.syms + Byte1(v, m.at))
  }

  ghost predicate FastRule(t: Tuning, v: seq<byte>, m: Moment, m': Moment) {
    exists tried, r :: Searched(t, v, m, 2, tried, r) && m' == FastNext(t, v, m, r)
  }

  /** With filtered data a match of five bytes at most is not taken; nor, ever, are three bytes from far away. */
  function Worthwhile(t: Tuning, m: Moment, r: Held): Held {
    if r.Found? && r.len <= 5 && (t.filtered || (r.len == 3 && m.at - r.start > 4096)) then Nothing else r
  }

  /**
   * deflate_slow: the match held back is emitted if there is no longer one here; otherwise the byte held back is, and
   * the one here is held back with what was found.
   */
  function SlowNext(t: Tuning, v: seq<byte>, m: Moment, r: Held): Moment {
    if m.held.Found? && !r.Found? then
      var at' := Back(m.at + m.held.len, 1);
      m.(at := at', ins := m.ins + Here(v, m) + Upto(m.at + 1, Least(at', Back(|v|, 2))),
        syms := m.syms + [Match(Back(m.at, m.held.start + 1), m.held.len)], held := Nothing)
    else
      m.(at := m.at + 1, ins := m.ins + Here(v, m),
        syms := m.syms + if m.held.Nothing? then [] else Byte1(v, m.at - 1),
        held := if r.Found? then r else Byte)
  }

  /** A match held back that is good enough is not compared with anything. */
  ghost predicate Compared(t: Tuning, v: seq<byte>, m: Moment, tried: seq<nat>, r: Held) {
    if m.held.Len() < t.lazy then Searched(t, v, m, m.held.Len(), tried, r) else tried == [] && r.Nothing?
  }

  ghost predicate SlowRule(t: Tuning, v: seq<byte>, m: Moment, m': Moment) {
    exists tried, r :: Compared(t, v, m, tried, r) && m' == SlowNext(t, v, m, Worthwhile(t, m, r))
  }

  /** The byte before the current one is repeated `n` times, and no more unless 258 times or up to the end. */
  ghost predicate IsRun(v: seq<byte>, at: nat, n: nat) {
    && 0 < at && at + n <= |v| && n <= 258 && (forall k | at <= k < at + n :: v[k] == v[at - 1])
    && (n == 258 || at + n == |v| || v[at + n] != v[at - 1])
  }

  /** deflate_rle: a run of at least three bytes is a match at distance one. */
  ghost predicate RunsRule(v: seq<byte>, m: Moment, m': Moment) {
    if m.at > m.base && exists n :: n >= 3 && IsRun(v, m.at, n) then
      exists n :: n >= 3 && IsRun(v, m.at, n) && m' == m.(at := m.at + n, syms := m.syms + [Match(1, n)])
    else
      LiteralRule(v, m, m')
  }

  /** deflate_huff: every byte is a literal. */
  ghost predicate LiteralRule(v: seq<byte>, m: Moment, m': Moment) {
    m' == m.(at := m.at + 1, syms := m.syms + Byte1(v, m.at))
  }

  /** So much is read ahead of the parser before it goes on, unless the input ends. */
  function Need(parser: Parser): nat {
    match parser
    case Literals => 1
    case Runs => 259
    case _ => 262
  }

  /** One step of the parser: it waits for enough input, unless all of it has been read and is to be flushed. */
  ghost predicate Decides(t: Tuning, flush: Flush, v: seq<byte>, m: Moment, m': Moment) {
    && m.at < m.seen && (m.seen - m.at >= Need(t.parser) || (m.waiting == 0 && !flush.NoFlush?))
    && match t.parser
       case Fast => FastRule(t, v, m, m')
       case Slow => SlowRule(t, v, m, m')
       case Runs => RunsRule(v, m, m')
       case Literals => LiteralRule(v, m, m')
       case Stored => false
  }

  // ----- between the decisions -----

  /** The window slides once the parser has come near its end. */
  function SlideNext(t: Tuning, m: Moment): Moment {
    if m.at - m.base >= 2 * t.wSize - 262 then
      m.(base := m.base + t.wSize, left := Least(m.left, Back(m.at, m.base + t.wSize)))
    else m
  }

  /** How many bytes fit the window. */
  function Room(t: Tuning, m: Moment): nat {
    Back(m.base + 2 * t.wSize, m.seen)
  }

  /** As much as fits is read, and the strings left out before are inserted as far as they are complete now. */
  function ReadNext(t: Tuning, m: Moment): Moment {
    if m.waiting == 0 then m
    else
      var n := Least(m.waiting, Room(t, m));
      var lo := Back(m.at, m.left);
      var hi := if m.at + 2 <= m.seen + n then m.at else if lo + 2 <= m.seen + n then m.seen + n - 2 else lo;
      m.(seen := m.seen + n, waiting := m.waiting - n, ins := m.ins + Upto(lo, hi), left := m.at - hi)
  }

  /** Fewer bytes are ahead than the parsers look at: `fill_window`. */
  ghost predicate Refills(t: Tuning, m: Moment, m': Moment) {
    m.seen - m.at < 262 && m' == ReadNext(t, SlideNext(t, m))
  }

  /** All has been parsed and is flushed: the byte held back is emitted, and two strings are left for later input. */
  ghost predicate Ends(t: Tuning, flush: Flush, v: seq<byte>, m: Moment, m': Moment) {
    && m.at == m.seen && m.waiting == 0 && !flush.NoFlush? && !m.held.Found?
    && m' == m.(syms := m.syms + if m.held.Byte? then Byte1(v, m.at - 1) else [], held := Nothing,
         left := if t.parser.Runs? || t.parser.Literals? then 0 else Least(2, Back(m.at, m.base)))
  }

  /** A full flush forgets all strings. */
  ghost predicate Forgets(flush: Flush, m: Moment, m': Moment) {
    && m.at == m.seen && m.waiting == 0 && flush.FullFlush? && m.held.Nothing?
    && m' == m.(base := m.at, ins := {}, left := 0)
  }

  ghost predicate Moves(t: Tuning, flush: Flush, text: seq<byte>, m: Moment, m': Moment) {
    && m.seen <= |text|
    && (Decides(t, flush, text[..m.seen], m, m') || Refills(t, m, m') || Ends(t, flush, text[..m.seen], m, m')
        || Forgets(flush, m, m'))
  }

  /** The moments of one call, each of which leads to the next. */
  ghost predicate Leg(t: Tuning, flush: Flush, text: seq<byte>, ms: seq<Moment>) {
    && ms != [] && (forall i | 0 <= i < |ms| :: ms[i].seen <= |text|)
    && forall i | 0 <= i < |ms| - 1 :: Moves(t, flush, text, ms[i], ms[i + 1])
  }

  // ----- there is no choice -----

  lemma {:induction false} TriedAgree(t: Tuning, v: seq<byte>, m: Moment, tried: seq<nat>, tried': seq<nat>, i: nat)
    requires Tried(t, v, m, tried) && Tried(t, v, m, tried') && i < |tried| && i < |tried'|
    ensures tried[i] == tried'[i]
  {
    hide Rival;
    if i > 0 { TriedAgree(t, v, m, tried, tried', i - 1); }
  }

  lemma GoesOn(t: Tuning, v: seq<byte>, m: Moment, tried: seq<nat>, n: nat)
    requires Tried(t, v, m, tried) && n < |tried|
    ensures Rival(t, v, m, tried[n]) && tried[n] < (if n == 0 then m.at else tried[n - 1])
    ensures m.at - tried[n] <= t.wSize - 262 && (n > 0 ==> m.at - tried[n] < t.wSize - 262)
  {
    hide Rival;
  }

  /** A search that stops where another goes on has no reason to. */
  lemma StopsAlike(t: Tuning, v: seq<byte>, m: Moment, prev: nat, tried: seq<nat>, r: Held, tried': seq<nat>, r': Held)
    requires Searched(t, v, m, prev, tried, r) && Searched(t, v, m, prev, tried', r') && m.at + prev < |v|
    ensures |tried| >= |tried'|
  {
    hide Rival, Longer, Patience, NiceLength;
    var n := |tried|;
    if n < |tried'| {
      forall i | 0 <= i < n ensures tried[i] == tried'[i] { TriedAgree(t, v, m, tried, tried', i); }
      GoesOn(t, v, m, tried', n);
    }
  }

  /** What a search finds is determined by what has been read and inserted. */
  lemma SearchIsUnique(t: Tuning, v: seq<byte>, m: Moment, prev: nat, tried: seq<nat>, r: Held, tried': seq<nat>,
      r': Held)
    requires Searched(t, v, m, prev, tried, r) && Searched(t, v, m, prev, tried', r')
    ensures r == r'
  {
    hide Rival, Longer, Patience, NiceLength, Tried, NoneLeft, Patient;
    if m.at + prev < |v| {
      StopsAlike(t, v, m, prev, tried, r, tried', r');
      StopsAlike(t, v, m, prev, tried', r', tried, r);
      forall i | 0 <= i < |tried| ensures tried[i] == tried'[i] { TriedAgree(t, v, m, tried, tried', i); }
      BestIsUnique(v, m, prev, tried, r, r');
    } else {
      NothingLonger(v, m, prev, tried, r);
      NothingLonger(v, m, prev, tried', r');
    }
  }

  lemma NothingLonger(v: seq<byte>, m: Moment, prev: nat, tried: seq<nat>, r: Held)
    requires Best(v, m, prev, tried, r) && m.at + prev >= |v|
    ensures r.Nothing?
  {
    if r.Found? { assert !Longer(v, m.at, prev, r.start, r.len); }
  }

  lemma BestIsUnique(v: seq<byte>, m: Moment, prev: nat, tried: seq<nat>, r: Held, r': Held)
    requires Best(v, m, prev, tried, r) && Best(v, m, prev, tried, r')
    ensures r == r'
  {
    hide Longer;
    if r.Found? && r'.Found? {
      var i :| 0 <= i < |tried| && tried[i] == r.start && Longer(v, m.at, prev, tried[i], r.len)
        && (forall j, l: nat | 0 <= j < |tried| && Longer(v, m.at, prev, tried[j], l) :: l <= r.len)
        && (forall j, l: nat | 0 <= j < i && Longer(v, m.at, prev, tried[j], l) :: l < r.len);
      var i' :| 0 <= i' < |tried| && tried[i'] == r'.start && Longer(v, m.at, prev, tried[i'], r'.len)
        && (forall j, l: nat | 0 <= j < |tried| && Longer(v, m.at, prev, tried[j], l) :: l <= r'.len)
        && (forall j, l: nat | 0 <= j < i' && Longer(v, m.at, prev, tried[j], l) :: l < r'.len);
    }
  }

  lemma RunIsUnique(v: seq<byte>, at: nat, n: nat, n': nat)
    requires IsRun(v, at, n) && IsRun(v, at, n')
    ensures n == n'
  {
  }

  /** At every position the parser has one choice only. */
  lemma DecisionIsUnique(t: Tuning, flush: Flush, v: seq<byte>, m: Moment, m': Moment, m'': Moment)
    requires Decides(t, flush, v, m, m') && Decides(t, flush, v, m, m'')
    ensures m' == m''
  {
    hide Searched, FastNext, SlowNext, Worthwhile, IsRun;
    match t.parser
    case Fast =>
      var tried', r' :| Searched(t, v, m, 2, tried', r') && m' == FastNext(t, v, m, r');
      var tried'', r'' :| Searched(t, v, m, 2, tried'', r'') && m'' == FastNext(t, v, m, r'');
      SearchIsUnique(t, v, m, 2, tried', r', tried'', r'');
    case Slow =>
      var tried', r' :| Compared(t, v, m, tried', r') && m' == SlowNext(t, v, m, Worthwhile(t, m, r'));
      var tried'', r'' :| Compared(t, v, m, tried'', r'') && m'' == SlowNext(t, v, m, Worthwhile(t, m, r''));
      if m.held.Len() < t.lazy { SearchIsUnique(t, v, m, m.held.Len(), tried', r', tried'', r''); }
    case Runs =>
      if m.at > m.base && exists n :: n >= 3 && IsRun(v, m.at, n) {
        var n' :| n' >= 3 && IsRun(v, m.at, n') && m' == m.(at := m.at + n', syms := m.syms + [Match(1, n')]);
        var n'' :| n'' >= 3 && IsRun(v, m.at, n'') && m'' == m.(at := m.at + n'', syms := m.syms + [Match(1, n'')]);
        RunIsUnique(v, m.at, n', n'');
      }
    case Literals =>
  }

  // ----- matches are found -----

  /** The nearest string of the same hash is tried first, so what is found is at least as long. */
  lemma NearestTried(t: Tuning, v: seq<byte>, m: Moment, prev: nat, tried: seq<nat>, r: Held, a: nat, len: nat)
    requires Searched(t, v, m, prev, tried, r)
    requires Next(t, v, m, a, m.at) && m.at - a <= t.wSize - 262 && Longer(v, m.at, prev, a, len)
    ensures r.Found? && r.len >= len && r.len <= 258
  {
    hide Rival, Longer, Patience, NiceLength;
    PatienceSome(t, prev);
    LongerBound(v, m.at, prev, a, len);
    GoesOnFirst(t, v, m, tried, a);
    assert Longer(v, m.at, prev, tried[0], len);
    if r.Found? { LongerBound(v, m.at, prev, r.start, r.len); }
  }

  lemma LongerBound(v: seq<byte>, at: nat, prev: nat, b: nat, len: nat)
    requires Longer(v, at, prev, b, len)
    ensures len <= 258 && at + prev < |v|
  {
  }

  lemma PatienceSome(t: Tuning, prev: nat)
    ensures Patience(t, prev) > 0
  {
  }

  lemma GoesOnFirst(t: Tuning, v: seq<byte>, m: Moment, tried: seq<nat>, a: nat)
    requires Tried(t, v, m, tried) && (tried == [] ==> NoneLeft(t, v, m, tried))
    requires Next(t, v, m, a, m.at) && m.at - a <= t.wSize - 262
    ensures tried != [] && tried[0] == a
  {
    hide Rival;
  }

  /** deflate_fast emits a match wherever the nearest string of the same hash repeats three bytes or more. */
  lemma FastMatches(t: Tuning, v: seq<byte>, m: Moment, m': Moment, a: nat, len: nat)
    requires FastRule(t, v, m, m') && m.at + 2 < |v|
    requires Next(t, v, m, a, m.at) && m.at - a <= t.wSize - 262 && Longer(v, m.at, 2, a, len)
    ensures m'.at >= m.at + len && exists dist, l :: l >= len && m'.syms == m.syms + [Match(dist, l)]
  {
    hide Searched, Next, Longer, Here, Upto;
    var tried, r :| Searched(t, v, m, 2, tried, r) && m' == FastNext(t, v, m, r);
    NearestTried(t, v, m, 2, tried, r, a, len);
    assert m'.syms == m.syms + [Match(Back(m.at, r.start), r.len)];
  }

  /**
   * deflate_slow holds back a match wherever the nearest string of the same hash repeats more than what it held back
   * before, unless that is good enough; matches of five bytes at most may not be worth it.
   */
  lemma SlowHolds(t: Tuning, v: seq<byte>, m: Moment, m': Moment, a: nat, len: nat)
    requires SlowRule(t, v, m, m') && m.held.Len() < t.lazy && len > 5
    requires Next(t, v, m, a, m.at) && m.at - a <= t.wSize - 262 && Longer(v, m.at, m.held.Len(), a, len)
    ensures m'.held.Found? && m'.held.len >= len && m'.at == m.at + 1
  {
    hide Searched, Next, Longer, Here, Upto;
    var tried, r :| Compared(t, v, m, tried, r) && m' == SlowNext(t, v, m, Worthwhile(t, m, r));
    NearestTried(t, v, m, m.held.Len(), tried, r, a, len);
  }

  // ----- the moments of a call -----

  lemma MovesLater(t: Tuning, flush: Flush, text: seq<byte>, text': seq<byte>, m: Moment, m': Moment)
    requires Moves(t, flush, text, m, m') && text <= text'
    ensures Moves(t, flush, text', m, m')
  {
    hide Decides, Refills, Ends, Forgets;
    assert text'[..m.seen] == text[..m.seen];
  }

  /** What is read later changes nothing that has been decided. */
  lemma LegLater(t: Tuning, flush: Flush, text: seq<byte>, text': seq<byte>, ms: seq<Moment>)
    requires Leg(t, flush, text, ms) && text <= text'
    ensures Leg(t, flush, text', ms)
  {
    hide Moves;
    forall i | 0 <= i < |ms| - 1 ensures Moves(t, flush, text', ms[i], ms[i + 1]) {
      MovesLater(t, flush, text, text', ms[i], ms[i + 1]);
    }
  }

  lemma LegStarts(t: Tuning, flush: Flush, text: seq<byte>, m: Moment)
    requires m.seen <= |text|
    ensures Leg(t, flush, text, [m])
  {
    hide Moves;
  }

  lemma LegStep(t: Tuning, flush: Flush, text: seq<byte>, ms: seq<Moment>, m: Moment)
    requires Leg(t, flush, text, ms) && m.seen <= |text| && Moves(t, flush, text, ms[|ms| - 1], m)
    ensures Leg(t, flush, text, ms + [m])
  {
    hide Moves;
    var more := ms + [m];
    forall i | 0 <= i < |more| - 1 ensures Moves(t, flush, text, more[i], more[i + 1]) {
      if i < |ms| - 1 { assert Moves(t, flush, text, ms[i], ms[i + 1]); }
    }
  }
}
