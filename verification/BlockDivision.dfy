/**
 * How the compressor divides its input: into runs, and these into blocks, each as full as can be unless a flush ends
 * it.
 */
module BlockDivision {
  import opened Bytes
  import opened ZeroRuns
  import opened RunLength
  import opened StreamFormat

  /** The runs of a finished block, and whether a flush or the end of the input finished it. */
  datatype Piece = Piece(runs: seq<Run>, flushed: bool)

  /** Without its last `n` runs the block has room left. */
  ghost predicate Roomy(rs: seq<Run>, n: nat, max: nat) {
    n <= |rs| ==> Formed(rs[..|rs| - n]) && |Coded(rs[..|rs| - n])| < max
  }

  /** A block that its last run has filled. */
  ghost predicate Filled(rs: seq<Run>, max: nat) {
    rs != [] && Formed(rs) && |Coded(rs)| >= max && Roomy(rs, 1, max)
  }

  /**
   * A block that a flush finishes. It had room before the run still open was added, or was filled by the run before
   * that one.
   */
  ghost predicate Ended(rs: seq<Run>, max: nat) {
    rs != [] && Formed(rs) && (Roomy(rs, 1, max) || Roomy(rs, 2, max))
  }

  ghost predicate Sized(p: Piece, max: nat) {
    if p.flushed then Ended(p.runs, max) else Filled(p.runs, max)
  }

  /** The runs go on without a break: the first ends at another byte, or is as long as can be. */
  ghost predicate Joined(a: seq<Run>, b: seq<Run>) {
    a != [] && b != [] && (a[|a| - 1].ch != b[0].ch || a[|a| - 1].len == 255)
  }

  /** Blocks are made of these pieces; one that is not full ends where a flush was asked for. */
  ghost predicate Divided(blocks: seq<Block>, pieces: seq<Piece>, max: nat, stops: set<nat>) {
    && |pieces| == |blocks|
    && (forall i | 0 <= i < |pieces| :: Sized(pieces[i], max) && blocks[i].bytes == Coded(pieces[i].runs))
    && (forall i | 0 <= i < |pieces| - 1 && !pieces[i].flushed :: Joined(pieces[i].runs, pieces[i + 1].runs))
    && forall i | 0 <= i < |pieces| && pieces[i].flushed :: |Texts(blocks[..i + 1])| in stops
  }

  /** These runs come after the pieces, without a break unless there was a flush. */
  ghost predicate Onward(pieces: seq<Piece>, rs: seq<Run>) {
    pieces == [] || pieces[|pieces| - 1].flushed || Joined(pieces[|pieces| - 1].runs, rs)
  }

  lemma PieceAdded(blocks: seq<Block>, pieces: seq<Piece>, max: nat, stops: set<nat>, b: Block, p: Piece)
    requires Divided(blocks, pieces, max, stops) && Onward(pieces, p.runs) && Sized(p, max) && b.bytes == Coded(p.runs)
    requires p.flushed ==> |Texts(blocks + [b])| in stops
    ensures Divided(blocks + [b], pieces + [p], max, stops)
  {
    hide Texts, Coded, Sized;
    var bs, ps := blocks + [b], pieces + [p];
    assert bs[..|blocks| + 1] == bs;
    forall i | 0 <= i < |ps| && ps[i].flushed ensures |Texts(bs[..i + 1])| in stops {
      if i < |blocks| { assert bs[..i + 1] == blocks[..i + 1]; }
    }
  }

  lemma MoreStops(blocks: seq<Block>, pieces: seq<Piece>, max: nat, stops: set<nat>, more: set<nat>)
    requires Divided(blocks, pieces, max, stops)
    ensures Divided(blocks, pieces, max, stops + more)
  {
    hide Texts, Coded, Sized, Joined;
  }

  lemma OnwardMore(pieces: seq<Piece>, rs: seq<Run>, r: Run)
    requires Onward(pieces, rs)
    ensures Onward(pieces, rs + [r])
  {
  }

  lemma OnwardLonger(pieces: seq<Piece>, rs: seq<Run>, c: byte, n: nat)
    requires Onward(pieces, rs + [Run(c, n)])
    ensures Onward(pieces, rs + [Run(c, n + 1)])
  {
  }

  lemma OnwardFront(pieces: seq<Piece>, rs: seq<Run>, open: seq<Run>)
    requires rs != [] && Onward(pieces, rs + open)
    ensures Onward(pieces, rs)
  {
  }

  /** The run still open goes on from the last piece. */
  lemma OnwardOpen(pieces: seq<Piece>, p: Piece, open: seq<Run>)
    requires p.runs != [] && Formed(p.runs + open) && (p.flushed <==> open == [])
    ensures Onward(pieces + [p], [] + open)
  {
    if open != [] {
      var a := p.runs + open;
      assert a[|p.runs| - 1].ch != a[|p.runs|].ch || a[|p.runs| - 1].len == 255;
    }
  }

  lemma RoomyNext(rs: seq<Run>, r: Run, max: nat)
    requires Formed(rs) && |Coded(rs)| < max
    ensures Roomy(rs + [r], 1, max)
  {
    hide Formed, Coded;
    assert (rs + [r])[..|rs|] == rs;
  }

  /** The run still open added, the block may have been full before it, but not before the last. */
  lemma RoomyLater(rs: seq<Run>, r: Run, max: nat)
    requires Roomy(rs, 1, max)
    ensures Roomy(rs + [r], 2, max)
  {
    hide Formed, Coded;
    if rs != [] { assert (rs + [r])[..|rs| - 1] == rs[..|rs| - 1]; }
  }

  // ----- there is only one such division -----

  lemma FirstRun(rs: seq<Run>, k: nat)
    requires Formed(rs) && k < |rs|
    ensures |PlainFrom(rs, k)| == rs[k].len + |PlainFrom(rs, k + 1)|
    ensures forall i | 0 <= i < rs[k].len :: PlainFrom(rs, k)[i] == rs[k].ch
    ensures PlainFrom(rs, k)[rs[k].len..] == PlainFrom(rs, k + 1)
    ensures k + 1 < |rs| ==> |PlainFrom(rs, k + 1)| > 0 && PlainFrom(rs, k + 1)[0] == rs[k + 1].ch
  {
  }

  /** A run cannot be shorter than the one that starts the same text. */
  lemma NotShorter(a: seq<Run>, b: seq<Run>, k: nat)
    requires Formed(a) && Formed(b) && k < |a| && k < |b| && PlainFrom(a, k) == PlainFrom(b, k)
    ensures a[k].ch == b[k].ch && a[k].len >= b[k].len
  {
    hide Repeated, PlainFrom;
    FirstRun(a, k);
    FirstRun(b, k);
    var s := PlainFrom(a, k);
    assert s[0] == a[k].ch && s[0] == b[k].ch;
    if k + 1 == |a| { NothingLeft(a); }
  }

  lemma NothingLeft(rs: seq<Run>)
    ensures PlainFrom(rs, |rs|) == []
  {
  }

  lemma SomethingLeft(rs: seq<Run>, k: nat)
    requires Formed(rs) && k < |rs|
    ensures PlainFrom(rs, k) != []
  {
    FirstRun(rs, k);
  }

  lemma {:induction false} SameRunsFrom(a: seq<Run>, b: seq<Run>, k: nat)
    requires Formed(a) && Formed(b) && k <= |a| && k <= |b| && PlainFrom(a, k) == PlainFrom(b, k)
    ensures a[k..] == b[k..]
    decreases |a| - k
  {
    hide Repeated, PlainFrom, Formed;
    if k == |a| || k == |b| {
      NothingLeft(a);
      NothingLeft(b);
      if k < |a| { SomethingLeft(a, k); }
      if k < |b| { SomethingLeft(b, k); }
    } else {
      NotShorter(a, b, k);
      NotShorter(b, a, k);
      FirstRun(a, k);
      FirstRun(b, k);
      SameRunsFrom(a, b, k + 1);
      assert a[k..] == [a[k]] + a[k + 1..] && b[k..] == [b[k]] + b[k + 1..];
    }
  }

  /** A text is divided into runs in one way only. */
  lemma RunsAreUnique(a: seq<Run>, b: seq<Run>)
    requires Formed(a) && Formed(b) && Plain(a) == Plain(b)
    ensures a == b
  {
    hide Plain, PlainFrom, Formed;
    PlainAll(a);
    PlainAll(b);
    SameRunsFrom(a, b, 0);
    assert a == a[0..] && b == b[0..];
  }

  lemma PlainAll(rs: seq<Run>)
    ensures Plain(rs) == PlainFrom(rs, 0)
  {
    hide PlainFrom;
    PlainSplit(rs, 0);
    assert rs[..0] == [];
    assert Plain([]) == [];
  }

  /** All runs of the pieces, one after the other. */
  ghost function RunsOf(ps: seq<Piece>): seq<Run> {
    if ps == [] then [] else ps[0].runs + RunsOf(ps[1..])
  }

  /** The pieces between a flush and the next. */
  ghost predicate Stretch(ps: seq<Piece>, max: nat) {
    && ps != [] && (forall i | 0 <= i < |ps| :: Sized(ps[i], max) && (ps[i].flushed <==> i == |ps| - 1))
    && forall i | 0 <= i < |ps| - 1 :: Joined(ps[i].runs, ps[i + 1].runs)
  }

  /** The last piece of a stretch was not full before the run still open was added to it. */
  ghost predicate Prompt(ps: seq<Piece>, max: nat) {
    ps != [] && Roomy(ps[|ps| - 1].runs, 1, max)
  }

  lemma StretchRest(ps: seq<Piece>, max: nat)
    requires Stretch(ps, max) && |ps| > 1
    ensures Stretch(ps[1..], max) && (Prompt(ps, max) ==> Prompt(ps[1..], max)) && Filled(ps[0].runs, max)
    ensures Joined(ps[0].runs, ps[1].runs) && ps[1..][0] == ps[1] && !ps[0].flushed
  {
    hide Roomy, Filled, Ended, Joined;
    var q := ps[1..];
    assert forall i | 0 <= i < |q| :: q[i] == ps[i + 1];
    assert Sized(ps[0], max) && Joined(ps[0].runs, ps[1].runs);
  }

  lemma StretchSome(ps: seq<Piece>, max: nat)
    requires Stretch(ps, max)
    ensures |ps| >= 1
  {
    hide Sized, Joined;
  }

  lemma StretchOne(ps: seq<Piece>, max: nat)
    requires Stretch(ps, max) && |ps| == 1
    ensures Ended(ps[0].runs, max) && ps[0].flushed && RunsOf(ps) == ps[0].runs
  {
    hide Ended, Filled, Roomy;
    assert Sized(ps[0], max);
    assert RunsOf(ps[1..]) == [];
  }

  lemma FormedJoined(a: seq<Run>, b: seq<Run>)
    requires Formed(a) && Formed(b) && Joined(a, b)
    ensures Formed(a + b)
  {
    var c := a + b;
    forall k {:trigger c[k]} | 0 <= k < |c| - 1 ensures c[k].ch != c[k + 1].ch || c[k].len == 255 {
      if k + 1 < |a| { assert a[k].ch != a[k + 1].ch || a[k].len == 255; }
      else if k >= |a| { assert b[k - |a|].ch != b[k - |a| + 1].ch || b[k - |a|].len == 255; }
    }
  }

  lemma {:induction false} StretchFormed(ps: seq<Piece>, max: nat)
    requires Stretch(ps, max)
    ensures Formed(RunsOf(ps)) && ps[0].runs != [] && ps[0].runs <= RunsOf(ps) && Formed(ps[0].runs)
    ensures |ps| > 1 ==> RunsOf(ps[1..]) != []
    decreases |ps|
  {
    hide Formed, Coded, Roomy, Stretch;
    StretchSome(ps, max);
    if |ps| == 1 {
      StretchOne(ps, max);
    } else {
      StretchRest(ps, max);
      StretchFormed(ps[1..], max);
      FormedJoined(ps[0].runs, RunsOf(ps[1..]));
    }
  }

  lemma CodedStep(rs: seq<Run>, n: nat)
    requires Formed(rs) && 0 < n <= |rs|
    ensures Formed(rs[..n]) && Formed(rs[..n - 1]) && |Coded(rs[..n - 1])| <= |Coded(rs[..n])|
  {
    hide Pair;
    FormedPrefix(rs, n);
    FormedPrefix(rs, n - 1);
    assert rs[..n][..n - 1] == rs[..n - 1];
  }

  lemma {:induction false} CodedLonger(rs: seq<Run>, m: nat, n: nat)
    requires Formed(rs) && m <= n <= |rs|
    ensures Formed(rs[..m]) && Formed(rs[..n]) && |Coded(rs[..m])| <= |Coded(rs[..n])|
    decreases n
  {
    hide Formed, Coded;
    FormedPrefix(rs, m);
    if m < n {
      CodedLonger(rs, m, n - 1);
      CodedStep(rs, n);
    }
  }

  /** A full block cannot be cut short, nor one that has room be full. */
  lemma FilledNotShorter(a: seq<Run>, b: seq<Run>, max: nat)
    requires Formed(b) && Filled(a, max) && a <= b && |a| < |b|
    ensures !Roomy(b, 1, max)
  {
    hide Formed, Coded;
    CodedLonger(b, |a|, |b| - 1);
    assert b[..|a|] == a;
  }

  lemma FilledOnce(a: seq<Run>, b: seq<Run>, max: nat)
    requires Filled(a, max) && Filled(b, max) && (a <= b || b <= a)
    ensures a == b
  {
    hide Coded, Roomy, Formed;
    if |a| < |b| { FilledNotShorter(a, b, max); }
    if |b| < |a| { FilledNotShorter(b, a, max); }
  }

  /** If one stretch ends where the other goes on, it was already full before the run still open was added. */
  lemma EndsLate(a: seq<Piece>, b: seq<Piece>, max: nat)
    requires Stretch(a, max) && Stretch(b, max) && |a| == 1 < |b| && RunsOf(a) == RunsOf(b)
    ensures !Prompt(a, max)
  {
    hide Coded, Roomy, Formed, Stretch;
    StretchOne(a, max);
    StretchRest(b, max);
    StretchFormed(b, max);
    FilledNotShorter(b[0].runs, a[0].runs, max);
  }

  lemma {:induction false} SameStretch(a: seq<Piece>, b: seq<Piece>, max: nat)
    requires Stretch(a, max) && Stretch(b, max) && RunsOf(a) == RunsOf(b)
    requires |a| == |b| || (Prompt(a, max) && Prompt(b, max))
    ensures a == b
    decreases |a|
  {
    hide Coded, Roomy, Formed, Stretch, Prompt, Filled;
    StretchSome(a, max);
    StretchSome(b, max);
    if |a| == 1 && |b| == 1 {
      StretchOne(a, max);
      StretchOne(b, max);
    } else if |a| == 1 {
      EndsLate(a, b, max);
    } else if |b| == 1 {
      EndsLate(b, a, max);
    } else {
      StretchRest(a, max);
      StretchRest(b, max);
      StretchFormed(a, max);
      StretchFormed(b, max);
      FilledOnce(a[0].runs, b[0].runs, max);
      assert RunsOf(a[1..]) == RunsOf(a)[|a[0].runs|..];
      SameStretch(a[1..], b[1..], max);
      assert a == [a[0]] + a[1..] && b == [b[0]] + b[1..];
    }
  }

  /**
   * The text between two flushes is divided in one way only, given the number of blocks, or that neither ends with a
   * block which was full already before the run still open was added.
   */
  lemma DivisionIsUnique(a: seq<Piece>, b: seq<Piece>, max: nat)
    requires Stretch(a, max) && Stretch(b, max) && Plain(RunsOf(a)) == Plain(RunsOf(b))
    requires |a| == |b| || (Prompt(a, max) && Prompt(b, max))
    ensures a == b
  {
    hide Coded, Roomy, Formed, Stretch, Prompt, Plain;
    StretchFormed(a, max);
    StretchFormed(b, max);
    RunsAreUnique(RunsOf(a), RunsOf(b));
    SameStretch(a, b, max);
  }
}
