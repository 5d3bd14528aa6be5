/**
 * The compressor: run-length coding into blocks, blocks into bits, and the modes of BZ2_bzCompress, which takes input
 * and hands out bytes.
 */
module RunEncoder {
  import opened Bytes
  import opened ZeroRuns
  import opened RunLength
  import opened BlockCrc
  import opened Arithmetic
  import opened CanonicalCode
  import opened BitStream
  import opened BlockFields
  import opened BlockSize
  import opened BlockWriter
  import opened BlockEncoder
  import opened StreamFormat
  import opened BlockDivision

  datatype Mode = Idle | Running | Flushing | Finishing
  datatype Phase = Input | Output
  datatype Action = RunAction | FlushAction | FinishAction
  datatype Status = RunOk | FlushOk | FinishOk | StreamEnd | SequenceError | ParamError

  /**
   * How far a flush or finish has come: the input left, whether a run is open and a block unfinished, and the bytes
   * pending.
   */
  datatype Place = Place(input: nat, open: bool, taking: bool, pending: int)

  /** Nearer the end: input is taken; or the open run is closed; or a block is finished. */
  ghost predicate Closer(a: Place, b: Place) {
    || a.input < b.input
    || (a.input == b.input && !a.open && b.open)
    || (a.input == b.input && a.open == b.open && !a.taking && b.taking)
  }

  /** Or, at least, there is less to hand out. */
  ghost predicate Nearer(a: Place, b: Place) {
    Closer(a, b) || (a == b.(pending := a.pending) && a.pending < b.pending)
  }

  lemma PlainNone()
    ensures Plain([]) == []
  {
  }

  lemma NoRuns(runs: seq<Run>)
    requires Formed(runs) && Coded(runs) == []
    ensures runs == []
  {
    if runs != [] {
      PairStarts(runs[|runs| - 1]);
    }
  }

  lemma NothingCoded()
    ensures Formed([]) && Coded([]) == []
  {
  }

  lemma OpenAlone(runs: seq<Run>, open: seq<Run>)
    requires Formed(runs + open) && |open| <= 1
    ensures Formed([] + open) && Formed([])
  {
    if open != [] {
      assert (runs + open)[|runs|] == open[0];
    }
  }

  lemma FreshBlock(t: Table, used: seq<bool>)
    requires |used| == 256 && forall k | 0 <= k < 256 :: !used[k]
    ensures Marks(used, []) && Formed([]) && Coded([]) == [] && Fold(t, INITIAL, Plain([])) == INITIAL
  {
  }

  lemma SoundBlock(t: Table, k: nat, b: Block, runs: seq<Run>, crc: bv32)
    requires Formed(runs) && b.bytes == Coded(runs) && Marks(b.used, b.bytes) && 0 < |b.bytes| <= 100000 * k
    requires crc == Fold(t, INITIAL, Plain(runs)) && b.crc == Finalise(crc)
    ensures Sound(t, k, b)
  {
    hide Coded, Plain, Marks, Fold, Text, End;
    BlockRoundTrip(runs);
  }

  /** A closed run may be followed by a run of another byte, or of the same if it is full. */
  lemma OpenNext(runs: seq<Run>, open: seq<Run>, c: byte)
    requires Formed(runs + open) && |open| <= 1 && (open != [] ==> open[0].ch != c || open[0].len == 255)
    requires open == [] ==> runs == [] || runs[|runs| - 1].ch != c || runs[|runs| - 1].len == 255
    ensures Formed(runs + open + [Run(c, 1)]) && (open == [] ==> runs + open == runs)
  {
    var a, b := runs + open, runs + open + [Run(c, 1)];
    assert open != [] ==> a[|a| - 1] == open[0];
    forall k {:trigger b[k]} | 0 <= k < |b| - 1 ensures b[k].ch != b[k + 1].ch || b[k].len == 255 {
      if k + 1 < |a| { assert a[k].ch != a[k + 1].ch || a[k].len == 255; }
    }
  }

  lemma OpenLonger(runs: seq<Run>, c: byte, n: nat)
    requires Formed(runs + [Run(c, n)]) && n < 255
    ensures Formed(runs + [Run(c, n + 1)])
  {
    var a, b := runs + [Run(c, n)], runs + [Run(c, n + 1)];
    assert forall k | 0 <= k < |runs| :: b[k] == a[k];
    assert a[|runs|] == Run(c, n);
    forall k {:trigger b[k]} | 0 <= k < |b| - 1 ensures b[k].ch != b[k + 1].ch || b[k].len == 255 {
      assert a[k].ch != a[k + 1].ch || a[k].len == 255;
    }
  }

  lemma OpenClosed(runs: seq<Run>, open: seq<Run>)
    requires |open| <= 1
    ensures Plain(runs + open) == Plain(runs) + Plain(open)
  {
    if open == [] {
      assert runs + open == runs;
    } else {
      assert (runs + open)[..|runs|] == runs;
      assert open[..0] == [];
    }
  }

  lemma MarksSize(marks: seq<bool>, bytes: seq<byte>)
    requires Marks(marks, bytes)
    ensures |marks| == 256
  {
  }

  lemma Repeats(ch: byte)
    ensures Repeated(ch, 1) == [ch] && Repeated(ch, 2) == [ch, ch] && Repeated(ch, 3) == [ch, ch, ch]
    ensures Repeated(ch, 4) == [ch, ch, ch, ch]
  {
  }

  function MarkPair(marks: seq<bool>, r: Run): seq<bool>
    requires |marks| == 256 && r.len <= 255
  {
    var m := marks[r.ch := true];
    if r.len < 4 then m else m[r.len - 4 := true]
  }

  lemma MarksMore(marks: seq<bool>, bytes: seq<byte>, r: Run)
    requires Marks(marks, bytes) && 1 <= r.len <= 255
    ensures Marks(MarkPair(marks, r), bytes + Pair(r))
  {
    var p := Pair(r);
    assert p[0] == r.ch && forall k | 0 <= k < |p| :: p[k] == r.ch || (r.len >= 4 && p[k] == r.len - 4);
    if r.len >= 4 { assert p[4] == r.len - 4; }
  }

  lemma PendingLength(runs: seq<Run>, ch: byte, len: nat)
    requires Formed(runs + [Run(ch, len)])
    ensures 1 <= len <= 255
  {
    assert (runs + [Run(ch, len)])[|runs|] == Run(ch, len);
  }

  lemma RunAdded(runs: seq<Run>, r: Run)
    requires Formed(runs) && Formed(runs + [r])
    ensures 1 <= r.len <= 255 && Coded(runs + [r]) == Coded(runs) + Pair(r)
    ensures Plain(runs + [r]) == Plain(runs) + Repeated(r.ch, r.len)
  {
    assert (runs + [r])[..|runs|] == runs;
    assert (runs + [r])[|runs|] == r;
  }

  lemma PlainOne(c: byte, n: nat)
    ensures Plain([Run(c, n)]) == Repeated(c, n)
  {
    assert [Run(c, n)][..0] == [];
  }

  /** One more byte starts a new run. */
  lemma TakenNew(d: seq<byte>, runs: seq<Run>, open: seq<Run>, c: byte)
    requires |open| <= 1
    ensures d + Plain(runs) + Plain(open) + [c] == d + Plain(runs + open) + Plain([Run(c, 1)])
  {
    hide Plain, Repeated;
    PlainOne(c, 1);
    Repeats(c);
    OpenClosed(runs, open);
    assert d + (Plain(runs) + Plain(open)) == d + Plain(runs) + Plain(open);
  }

  /** One more byte makes the open run longer. */
  lemma TakenLonger(d: seq<byte>, runs: seq<Run>, c: byte, n: nat)
    ensures d + Plain(runs) + Plain([Run(c, n)]) + [c] == d + Plain(runs) + Plain([Run(c, n + 1)])
  {
    hide Plain, Repeated;
    PlainOne(c, n);
    PlainOne(c, n + 1);
    RepeatMore(c, n);
    assert d + Plain(runs) + Repeated(c, n) + [c] == d + Plain(runs) + (Repeated(c, n) + [c]);
  }

  class EState {
    const table: Table
    const blockSize100k: nat
    const nblockMax: nat
    const workFactor: nat
    const block: array<byte>
    const inUse: array<bool>
    const w: BitWriter // `zbits` with its counts

    var mode: Mode
    var phase: Phase
    var stateInCh: nat // 256 when no run is open
    var stateInLen: nat
    var nblock: nat
    var blockCrc: bv32
    var combinedCrc: bv32
    var nextIn: seq<byte>
    var availInExpect: nat
    var blockNo: nat
    var stateOutPos: nat
    var out: seq<byte> // what the caller has been handed

    ghost var runs: seq<Run>      // in the current block
    ghost var taken: seq<byte>    // all input accepted so far
    ghost var done: seq<Block>    // the blocks finished so far
    ghost var parts: seq<Part>    // and what was written for them
    ghost var pieces: seq<Piece>  // and the runs they are made of
    ghost var stops: set<nat>     // where a flush or the end was asked for, in bytes of input
    ghost var flushed: seq<byte>  // the bytes of `zbits` before it was last emptied
    ghost var headed: bool        // the header is written
    ghost var closed: bool        // the trailer is written

    ghost predicate Shape() {
      && 1 <= blockSize100k <= 9 && nblockMax == 100000 * blockSize100k - 19
      && block.Length == 100000 * blockSize100k && inUse.Length == 256 && block as object != inUse as object
    }

    /** The run still open, if any. */
    ghost function OpenRun(): seq<Run>
      reads `stateInCh, `stateInLen
    {
      if stateInCh < 256 then [Run(stateInCh as byte, stateInLen)] else []
    }

    ghost predicate RunsOk()
      reads `stateInCh, `stateInLen, `runs
    {
      && stateInCh <= 256 && (stateInCh == 256 ==> stateInLen == 0)
      && Formed(runs + OpenRun()) && Formed(runs)
    }

    /** Everything accepted is in finished blocks, in the current one, or in the open run. */
    ghost predicate Conserved()
      reads `taken, `done, `runs, `stateInCh, `stateInLen
    {
      taken == Texts(done) + Plain(runs) + Plain(OpenRun())
    }

    ghost predicate DoneOk()
      reads `done, `combinedCrc
    {
      (forall k | 0 <= k < |done| :: Sound(table, blockSize100k, done[k])) && combinedCrc == CombinedOf(done)
    }

    /** All input given so far, taken or not. */
    ghost function Supplied(): nat
      reads `taken, `nextIn
    {
      |taken| + |nextIn|
    }

    /** Blocks end where they are full, or where a flush or the end was asked for. */
    ghost predicate InPieces()
      reads `done, `pieces, `stops, `runs, `stateInCh, `stateInLen
    {
      Divided(done, pieces, nblockMax, stops) && Onward(pieces, runs + OpenRun())
    }

    /** The block had room before its last run. */
    ghost predicate Lately()
      reads `runs
    {
      Roomy(runs, 1, nblockMax)
    }

    function Pending(): int
      reads w, `stateOutPos
    {
      |w.zbits| - stateOutPos
    }

    /** The caller has been handed what was written, up to `stateOutPos`. */
    ghost predicate HandedOut()
      reads w, `flushed, `stateOutPos, `out
    {
      stateOutPos <= |w.zbits| && out == flushed + w.zbits[..stateOutPos]
    }

    /** The current block holds the runs, its check and marks are theirs. */
    ghost predicate BlockOk()
      reads `runs, `nblock, `blockCrc, block, inUse
    {
      && Formed(runs) && nblock <= block.Length && block[..nblock] == Coded(runs) && Marks(inUse[..], block[..nblock])
      && blockCrc == Fold(table, INITIAL, Plain(runs))
    }

    /** While input is taken, the block has room and nothing waits to be handed out. */
    ghost predicate Taking()
      reads w, `nblock, `blockCrc, `runs, `stateInCh, block, inUse, `stateOutPos, `headed, `closed, `blockNo
    {
      && BlockOk() && nblock < nblockMax && (stateInCh == 256 ==> runs == [])
      && w.zbits == [] && stateOutPos == 0 && !closed && (headed <==> blockNo != 1)
    }

    predicate EmptyRL()
      reads `stateInCh, `stateInLen
    {
      !(stateInCh < 256 && stateInLen > 0)
    }

    /**
     * While output is handed out, the block is finished; only the last one leaves no run open but at the end of a
     * flush.
     */
    ghost predicate Handing()
      reads `runs, `headed, `closed, `mode, `stateInCh, `stateInLen
    {
      && runs == [] && headed && (closed <==> (mode.Finishing? || mode.Idle?) && EmptyRL())
      && (mode.Running? ==> !EmptyRL())
    }

    /** What has been written: the header, the parts of the finished blocks and, at last, the trailer. */
    ghost predicate Written()
      reads w, `flushed, `parts, `done, `combinedCrc, `headed, `closed
    {
      && 1 <= blockSize100k <= 9 && w.Valid() && Stands(parts, done) && PartsOk(parts) && (closed ==> headed)
      && (!headed ==> parts == [] && BytesToBits(flushed) + w.Bits() == [])
      && (headed && !closed ==> BytesToBits(flushed) + w.Bits() == HeaderBits(blockSize100k) + BlocksBits(parts))
      && (closed ==> IsStream(flushed + w.zbits, blockSize100k, parts, combinedCrc))
    }

    /** What holds throughout a call. */
    ghost predicate Steady()
      reads `mode, `phase, `stateInCh, `stateInLen, `nblock, `blockCrc, `combinedCrc, `nextIn, `availInExpect, `done,
        `runs, `taken, `parts, `pieces, `stops, `flushed, `headed, `closed, `stateOutPos, `blockNo, `out, block,
        inUse, w
    {
      && Shape() && RunsOk() && Conserved() && DoneOk() && Written() && HandedOut() && blockNo >= 1 && InPieces()
      && (phase.Input? ==> Lately()) && (mode.Flushing? || mode.Finishing? ==> Supplied() in stops)
      && (if phase.Input? then Taking() else Handing())
      && (mode.Flushing? || mode.Finishing? ==> availInExpect == |nextIn|)
      && (closed ==> nextIn == [])
      && (mode.Idle? ==> closed && Pending() == 0)
    }

    /** What holds between calls: output is left over only for want of room. */
    ghost predicate Valid()
      reads `mode, `phase, `stateInCh, `stateInLen, `nblock, `blockCrc, `combinedCrc, `nextIn, `availInExpect, `done,
        `runs, `taken, `parts, `pieces, `stops, `flushed, `headed, `closed, `stateOutPos, `blockNo, `out, block,
        inUse, w
    {
      Steady() && (phase.Output? && !mode.Idle? ==> Pending() > 0)
    }

    /** No input yet, and no output. */
    ghost predicate Empty()
      reads this, w
    {
      && stateInCh == 256 && stateInLen == 0 && combinedCrc == 0 && stateOutPos == 0 && w.Valid()
      && w.Bits() == [] && w.zbits == [] && nextIn == [] && blockNo == 0
      && out == [] && runs == [] && taken == [] && done == [] && parts == [] && flushed == [] && !headed
      && !closed && pieces == [] && stops == {}
    }

    lemma Blank()
      requires Empty()
      requires 1 <= blockSize100k <= 9 && nblockMax == 100000 * blockSize100k - 19
      requires block.Length == 100000 * blockSize100k && inUse.Length == 256 && block as object != inUse as object
      ensures Shape() && RunsOk() && Conserved() && DoneOk() && Written() && HandedOut() && Pending() == 0
      ensures InPieces() && Lately()
    {
      hide BytesToBits, BitWriter.Valid, BitWriter.Bits;
      assert runs + OpenRun() == [];
      PlainNone();
      NoParts([]);
      NoBytes();
      assert w.zbits[..0] == [];
    }

    /** `zbits` is emptied, once all of it is handed out. */
    method EmptyZbits()
      requires Written() && HandedOut() && Pending() == 0 && !closed
      modifies w, `stateOutPos, `flushed
      ensures Written() && HandedOut() && w.zbits == [] && stateOutPos == 0
    {
      hide BytesToBits, BitWriter.Valid, BitWriter.Bits, Stands, PartsOk, BlocksBits, HeaderBits, IsStream;
      ghost var z, before := w.zbits, BytesToBits(flushed);
      BytesToBitsConcat(flushed, z);
      w.Restart();
      Regrouped(before, BytesToBits(z), w.Bits());
      assert z[..|z|] == z;
      flushed := flushed + z;
      stateOutPos := 0;
      assert flushed + w.zbits[..0] == flushed;
    }

    /** `prepare_new_block`. */
    method PrepareNewBlock()
      requires Shape() && Written() && HandedOut() && Pending() == 0 && !closed && runs == []
      modifies w, inUse, `nblock, `blockCrc, `stateOutPos, `blockNo, `flushed
      ensures BlockOk() && nblock == 0 && blockNo == old(blockNo) + 1
      ensures Written() && HandedOut() && w.zbits == [] && stateOutPos == 0
    {
      hide Written, HandedOut, Pending;
      nblock := 0;
      EmptyZbits();
      blockCrc := INITIAL;
      for i := 0 to 256
        modifies inUse
        invariant forall k | 0 <= k < i :: !inUse[k]
      {
        inUse[i] := false;
      }
      blockNo := blockNo + 1;
      assert block[..0] == [];
      FreshBlock(table, inUse[..]);
    }

    lemma SteadyMade()
      requires Shape() && RunsOk() && Conserved() && DoneOk() && Written() && HandedOut() && blockNo >= 1
      requires phase.Input? ==> BlockOk() && nblock < nblockMax && (stateInCh == 256 ==> runs == [])
      requires phase.Input? ==> w.zbits == [] && stateOutPos == 0 && !closed && (headed <==> blockNo != 1)
      requires phase.Output? ==>
        runs == [] && headed && (closed <==> mode.Finishing? && EmptyRL()) && (mode.Running? ==> !EmptyRL())
      requires InPieces() && (phase.Input? ==> Lately()) && (mode.Flushing? || mode.Finishing? ==> Supplied() in stops)
      requires mode.Flushing? || mode.Finishing? ==> availInExpect == |nextIn|
      requires closed ==> nextIn == []
      requires !mode.Idle?
      ensures Steady() && (phase.Input? ==> Valid())
    {
      hide RunsOk, BlockOk, Conserved, DoneOk, Written, HandedOut, EmptyRL, InPieces, Lately;
    }

    method Start()
      requires 1 <= blockSize100k <= 9 && nblockMax == 100000 * blockSize100k - 19
      requires block.Length == 100000 * blockSize100k && inUse.Length == 256 && block as object != inUse as object
      requires Empty() && mode.Running? && phase.Input?
      modifies w, inUse, `nblock, `blockCrc, `stateOutPos, `blockNo, `flushed
      ensures Valid()
    {
      hide *;
      Blank();
      EmptyIs();
      PrepareNewBlock();
      SteadyMade();
    }

    lemma EmptyIs()
      requires Empty()
      ensures !closed && !headed && runs == [] && blockNo == 0 && nextIn == []
    {
    }

    /** `BZ2_bzCompressInit`. */
    constructor (t: Table, k: nat, factor: nat)
      requires 1 <= k <= 9 && factor <= 250
      ensures Valid() && mode.Running? && taken == [] && nextIn == [] && done == [] && out == [] && stops == {}
      ensures fresh(block) && fresh(inUse) && fresh(w) && table == t && blockSize100k == k
      ensures workFactor == if factor == 0 then 30 else factor
    {
      hide Valid, BitWriter.Valid, BitWriter.Bits;
      table, blockSize100k, nblockMax := t, k, 100000 * k - 19;
      workFactor := if factor == 0 then 30 else factor;
      block := new byte[100000 * k];
      inUse := new bool[256];
      w := new BitWriter();
      mode, phase := Running, Input;
      stateInCh, stateInLen, nblock := 256, 0, 0;
      blockCrc, combinedCrc := INITIAL, 0;
      nextIn, availInExpect, blockNo, stateOutPos, out := [], 0, 0, 0, [];
      runs, taken, done, parts, flushed, headed, closed := [], [], [], [], [], false, false;
      pieces, stops := [], {};
      new;
      Start();
    }

    method Put(x: byte)
      requires nblock < block.Length
      modifies block, `nblock
      ensures nblock == old(nblock) + 1 && block[..nblock] == old(block[..nblock]) + [x]
    {
      block[nblock] := x;
      nblock := nblock + 1;
    }

    /** The bytes of the open run. */
    method PutPair(ch: byte)
      requires 1 <= stateInLen <= 255 && nblock + 5 <= block.Length
      modifies block, `nblock
      ensures old(nblock) <= nblock <= old(nblock) + 5 && block[..nblock] ==
        old(block[..nblock]) + Pair(Run(ch, stateInLen))
    {
      ghost var bytes := block[..nblock];
      Repeats(ch);
      if stateInLen == 1 {
        Put(ch);
      } else if stateInLen == 2 {
        Put(ch);
        Put(ch);
      } else if stateInLen == 3 {
        Put(ch);
        Put(ch);
        Put(ch);
      } else {
        Put(ch);
        Put(ch);
        Put(ch);
        Put(ch);
        Put(stateInLen - 4);
      }
    }

    /** The check takes in every byte of the open run. */
    method UpdateRun(ch: byte, ghost text: seq<byte>)
      requires blockCrc == Fold(table, INITIAL, text)
      modifies `blockCrc
      ensures blockCrc == Fold(table, INITIAL, text + Repeated(ch, stateInLen))
    {
      hide Fold, Update;
      assert text + Repeated(ch, 0) == text;
      for i := 0 to stateInLen
        invariant blockCrc == Fold(table, INITIAL, text + Repeated(ch, i))
      {
        FoldNext(table, INITIAL, text + Repeated(ch, i), ch);
        RepeatMore(ch, i);
        assert text + Repeated(ch, i) + [ch] == text + Repeated(ch, i + 1);
        blockCrc := Update(table, blockCrc, ch);
      }
    }

    /** `add_pair_to_block`. */
    method AddPair()
      requires Shape() && RunsOk() && BlockOk() && stateInCh < 256 && nblock + 5 <= block.Length
      modifies block, inUse, `nblock, `blockCrc, `runs
      ensures runs == old(runs) + [Run(stateInCh as byte, stateInLen)]
      ensures BlockOk() && old(nblock) <= nblock <= old(nblock) + 5
    {
      hide Formed, Marks, Coded, Plain, Fold, Pair, Repeated;
      PendingLength(runs, stateInCh as byte, stateInLen);
      var ch := stateInCh as byte;
      ghost var r := Run(ch, stateInLen);
      ghost var bytes, marks := block[..nblock], inUse[..];
      MarksSize(marks, bytes);
      UpdateRun(ch, Plain(runs));
      inUse[stateInCh] := true;
      if stateInLen >= 4 { inUse[stateInLen - 4] := true; }
      assert inUse[..] == MarkPair(marks, r);
      PutPair(ch);
      MarksMore(marks, bytes, r);
      RunAdded(runs, r);
      runs := runs + [r];
    }

    /** The fast track: a lone byte followed by another. */
    method AddLone()
      requires Shape() && RunsOk() && BlockOk() && stateInCh < 256 && stateInLen == 1 && nblock < block.Length
      modifies block, inUse, `nblock, `blockCrc, `runs
      ensures runs == old(runs) + [Run(stateInCh as byte, 1)]
      ensures BlockOk() && nblock == old(nblock) + 1
    {
      hide Formed, Marks, Coded, Plain, Fold, Update;
      var ch := stateInCh as byte;
      ghost var r := Run(ch, 1);
      ghost var bytes, marks := block[..nblock], inUse[..];
      MarksSize(marks, bytes);
      FoldNext(table, INITIAL, Plain(runs), ch);
      blockCrc := Update(table, blockCrc, ch);
      inUse[stateInCh] := true;
      assert inUse[..] == MarkPair(marks, r);
      Put(ch);
      Repeats(ch);
      MarksMore(marks, bytes, r);
      RunAdded(runs, r);
      runs := runs + [r];
    }

    /** A run added to a block that is not full may fill it. */
    lemma HasRoom(r: Run)
      requires BlockOk() && nblock < nblockMax
      ensures Roomy(runs + [r], 1, nblockMax)
    {
      hide Formed, Coded, Marks, Fold, Roomy;
      RoomyNext(runs, r, nblockMax);
    }

    /** `ADD_CHAR_TO_BLOCK`. */
    method AddChar(c: byte)
      requires Shape() && RunsOk() && BlockOk() && Conserved() && nblock < nblockMax
      requires InPieces() && Lately() && (stateInCh == 256 ==> runs == [])
      modifies block, inUse, `nblock, `blockCrc, `runs, `stateInCh, `stateInLen, `taken
      ensures RunsOk() && BlockOk() && Conserved() && taken == old(taken) + [c] && stateInCh < 256
      ensures InPieces() && Lately()
      ensures old(nblock) <= nblock <= old(nblock) + 5
    {
      hide Formed, BlockOk, Plain, Texts, Divided, Onward, Roomy;
      ghost var runs0, d, open0 := runs, Texts(done), OpenRun();
      if c != stateInCh && stateInLen == 1 {
        HasRoom(Run(stateInCh as byte, 1));
        AddLone();
        OpenNext(runs0, open0, c);
        TakenNew(d, runs0, open0, c);
        OnwardMore(pieces, runs0 + open0, Run(c, 1));
        stateInCh := c;
      } else if c != stateInCh || stateInLen == 255 {
        if stateInCh < 256 {
          HasRoom(Run(stateInCh as byte, stateInLen));
          AddPair();
        }
        OpenNext(runs0, open0, c);
        TakenNew(d, runs0, open0, c);
        OnwardMore(pieces, runs0 + open0, Run(c, 1));
        stateInCh := c;
        stateInLen := 1;
      } else {
        PendingLength(runs, c, stateInLen);
        OpenLonger(runs, c, stateInLen);
        TakenLonger(d, runs, c, stateInLen);
        OnwardLonger(pieces, runs, c, stateInLen);
        stateInLen := stateInLen + 1;
      }
      taken := taken + [c];
    }

    method CopyInputUntilStop()
      requires Shape() && RunsOk() && BlockOk() && Conserved() && nblock <= nblockMax + 4
      requires InPieces() && Lately() && (stateInCh == 256 ==> runs == [])
      requires !mode.Running? ==> availInExpect == |nextIn|
      modifies block, inUse, `nblock, `blockCrc, `runs, `stateInCh, `stateInLen, `taken, `nextIn, `availInExpect
      ensures RunsOk() && BlockOk() && Conserved() && nblock <= nblockMax + 4 && (stateInCh == 256 ==> runs == [])
      ensures InPieces() && Lately() && Supplied() == old(Supplied())
      ensures taken + nextIn == old(taken + nextIn) && old(taken) <= taken
        && (!mode.Running? ==> availInExpect == |nextIn|)
      ensures nblock >= nblockMax || nextIn == []
      ensures |nextIn| < |old(nextIn)| || (|nextIn| == |old(nextIn)| && nblock == old(nblock)
        && stateInCh == old(stateInCh))
      ensures old(nblock) < nblockMax && old(nextIn) != [] ==> |nextIn| < |old(nextIn)|
      ensures |nextIn| < |old(nextIn)| ==> stateInCh < 256
    {
      hide RunsOk, BlockOk, Conserved, InPieces, Lately;
      while nblock < nblockMax && |nextIn| > 0
        invariant RunsOk() && BlockOk() && Conserved() && nblock <= nblockMax + 4 && (stateInCh == 256 ==> runs == [])
        invariant InPieces() && Lately() && Supplied() == old(Supplied())
        invariant taken + nextIn == old(taken + nextIn) && old(taken) <= taken
          && (!mode.Running? ==> availInExpect == |nextIn|)
        invariant |nextIn| < |old(nextIn)| || (|nextIn| == |old(nextIn)| && nblock == old(nblock)
          && stateInCh == old(stateInCh))
        invariant |nextIn| < |old(nextIn)| ==> stateInCh < 256
        decreases |nextIn|
      {
        if !mode.Running? {
          if availInExpect == 0 { break; }
          availInExpect := availInExpect - 1;
        }
        var c := nextIn[0];
        assert taken + nextIn == taken + [c] + nextIn[1..];
        AddChar(c);
        nextIn := nextIn[1..];
      }
    }

    /** `flush_RL`. */
    method FlushRL()
      requires Shape() && RunsOk() && BlockOk() && Conserved() && nblock <= nblockMax + 4 && InPieces() && Lately()
      modifies block, inUse, `nblock, `blockCrc, `runs, `stateInCh, `stateInLen
      ensures RunsOk() && BlockOk() && Conserved() && nblock <= nblockMax + 9 && stateInCh == 256 && EmptyRL()
      ensures InPieces() && (Roomy(runs, 1, nblockMax) || Roomy(runs, 2, nblockMax))
    {
      hide Formed, BlockOk, Plain, Texts, Divided, Onward, Roomy;
      ghost var runs0, d, open0 := runs, Texts(done), OpenRun();
      OpenClosed(runs0, open0);
      if stateInCh < 256 {
        RoomyLater(runs, Run(stateInCh as byte, stateInLen), nblockMax);
        AddPair();
      }
      stateInCh := 256;
      stateInLen := 0;
      assert runs + OpenRun() == runs;
      PlainNone();
      assert d + (Plain(runs0) + Plain(open0)) == d + Plain(runs0) + Plain(open0);
      assert d + Plain(runs0 + open0) + Plain([]) == d + Plain(runs0 + open0);
    }

    /** The stream header. */
    method WriteHeader()
      requires Written() && !headed
      modifies w, `headed
      ensures Written() && headed && |w.Bits()| == old(|w.Bits()|) + 32
    {
      hide BytesToBits, BitsOf, BitWriter.Valid, BitWriter.Bits, Stands, PartsOk, IsStream, Pow2;
      PowEight();
      BitsOfLength(HDR_0 + blockSize100k, 8);
      ghost var start, before := w.Bits(), BytesToBits(flushed);
      PutBytes(w, STREAM_MAGIC);
      w.BsW(8, HDR_0 + blockSize100k);
      Regrouped(start, BytesToBits(STREAM_MAGIC), BitsOf(HDR_0 + blockSize100k, 8));
      assert start == [] && before == [];
      assert [] + (start + HeaderBits(blockSize100k)) == HeaderBits(blockSize100k) + [];
      headed := true;
    }

    /** The stream trailer. */
    method WriteTrailer()
      requires Written() && headed && !closed
      modifies w, `closed
      ensures Written() && closed && 0 < 8 * |w.zbits| <= old(|w.Bits()|) + 87
    {
      hide BytesToBits, BitsOf, BitWriter.Valid, BitWriter.Bits, Stands, PartsOk, BlocksBits, HeaderBits, Stored;
      ghost var start, before := w.Bits(), BytesToBits(flushed);
      PutBytes(w, END_MAGIC);
      PutUInt32(w, Stored(combinedCrc));
      Regrouped(start, BytesToBits(END_MAGIC), BitsOf(Stored(combinedCrc), 32));
      BitsOfLength(Stored(combinedCrc), 32);
      w.FinishWrite();
      ghost var trailer := TrailerBits(combinedCrc);
      ghost var pad: seq<bit> :| |pad| < 8 && BytesToBits(w.zbits) == start + trailer + pad;
      BytesToBitsConcat(flushed, w.zbits);
      StreamWhole(before, start, HeaderBits(blockSize100k), BlocksBits(parts), trailer, pad);
      assert IsStream(flushed + w.zbits, blockSize100k, parts, combinedCrc) by {
        assert BytesToBits(flushed + w.zbits) == StreamBits(blockSize100k, parts, combinedCrc) + pad;
      }
      closed := true;
    }

    lemma LiveFew()
      requires Written() && w.zbits == []
      ensures |w.Bits()| <= 32
    {
    }

    lemma WholeBytes()
      ensures 8 * |w.zbits| <= |w.Bits()|
    {
    }

    /** What is known of the block about to be finished. */
    lemma OpenBlock()
      requires RunsOk() && BlockOk()
      ensures nblock <= block.Length && Formed(runs + OpenRun())
      ensures nblock == 0 ==> Plain(runs) == []
    {
      hide Formed, Marks, Plain, Fold, Coded;
      if nblock == 0 {
        NoRuns(runs);
        PlainNone();
      }
    }

    lemma BlockDone(b: Block)
      requires Shape() && BlockOk() && DoneOk() && 0 < nblock <= nblockMax + 9
      requires b == Block(block[..nblock], inUse[..], Finalise(blockCrc))
      ensures Sound(table, blockSize100k, b) && TextOf(b.bytes) == Plain(runs)
      ensures Texts(done + [b]) == Texts(done) + Plain(runs) && CombinedOf(done + [b]) == Combine(combinedCrc, b.crc)
    {
      hide Formed, Marks, Plain, Fold, Coded, Text, End, Texts, Sound, CombinedOf, Combine;
      SoundBlock(table, blockSize100k, b, runs, blockCrc);
      BlockRoundTrip(runs);
      DoneNext(done, b);
    }

    /** A block with its magic number. */
    method WriteBlock(b: Block) returns (ghost size: nat)
      requires Written() && headed && !closed && DoneOk() && Sound(table, blockSize100k, b)
        && |b.bytes| <= 100000 * blockSize100k - 10
      modifies w, `done, `parts, `combinedCrc
      ensures Written() && DoneOk() && done == old(done) + [b] && combinedCrc == Combine(old(combinedCrc), b.crc)
      ensures |w.Bits()| == old(|w.Bits()|) + size && size + 151 <= 8 * RoomBehind(blockSize100k, |b.bytes|)
    {
      hide BytesToBits, BitsOf, BitWriter.Valid, BitWriter.Bits, Sound, StandsFor, PartsOk, PartBits, BlocksBits,
        Stands, BlockBits, HeaderBits, IsStream, Stored, CombinedOf, Combine;
      SoundParts(table, blockSize100k, b);
      DoneNext(done, b);
      ghost var start, before := w.Bits(), BytesToBits(flushed);
      combinedCrc := Combine(combinedCrc, b.crc);
      ghost var h, syms := BlockEncoder.CompressBlock(w, b.bytes, b.used, Stored(b.crc), workFactor);
      ghost var p := Part(h, syms);
      StandsNext(parts, done, p, b);
      StandsData(h, syms, b.bytes, Stored(b.crc));
      BlocksMore(parts, p);
      PartIs(start, p);
      BlockFits(h, syms, blockSize100k, |b.bytes|);
      PartSize(p);
      size := |PartBits(p)|;
      Regrouped(before, start, PartBits(p));
      Regrouped(HeaderBits(blockSize100k), BlocksBits(parts), PartBits(p));
      parts, done := parts + [p], done + [b];
    }

    /**
     * What BZ2_compressBlock writes: the header before the first block, the block unless it is empty, the trailer after
     * the last.
     */
    method WriteAll(isLastBlock: bool, b: Block)
      requires |b.bytes| <= 100000 * blockSize100k - 10 && (b.bytes != [] ==> Sound(table, blockSize100k, b))
      requires DoneOk() && Written() && w.zbits == [] && !closed && (headed <==> blockNo != 1)
      modifies w, `done, `parts, `combinedCrc, `headed, `closed
      ensures DoneOk() && Written() && headed && closed == isLastBlock && (isLastBlock ==> w.zbits != [])
      ensures done == old(done) + if b.bytes == [] then [] else [b]
      ensures |w.zbits| <= RoomBehind(blockSize100k, |b.bytes|)
    {
      hide Sound, CombinedOf, Combine, Written, BitWriter.Bits, DoneOk;
      LiveFew();
      if blockNo == 1 { WriteHeader(); }
      if |b.bytes| > 0 { ghost var size := WriteBlock(b); }
      WholeBytes();
      if isLastBlock { WriteTrailer(); }
    }

    /** The block is as the division demands: full, or at an end that was asked for. */
    ghost predicate Due(all: bool)
      reads `runs, `stateInCh, `stateInLen, `taken, `stops
    {
      if all then OpenRun() == [] && (Roomy(runs, 1, nblockMax) || Roomy(runs, 2, nblockMax)) && |taken| in stops
      else OpenRun() != [] && Filled(runs, nblockMax)
    }

    lemma PieceDone(b: Block, all: bool)
      requires InPieces() && Due(all) && RunsOk() && Conserved() && runs != [] && b.bytes == Coded(runs)
        && Texts(done + [b]) == Texts(done) + Plain(runs)
      ensures Divided(done + [b], pieces + [Piece(runs, all)], nblockMax, stops)
      ensures Onward(pieces + [Piece(runs, all)], [] + OpenRun())
    {
      hide Texts, Formed, Coded, Plain, Roomy, Divided, Onward;
      var p, open := Piece(runs, all), OpenRun();
      PlainNone();
      OnwardFront(pieces, runs, open);
      if all { assert Texts(done) + Plain(runs) + [] == Texts(done) + Plain(runs); }
      PieceAdded(done, pieces, nblockMax, stops, b, p);
      if all { assert runs + open == runs; }
      OnwardOpen(pieces, p, open);
    }

    lemma HasRuns()
      requires BlockOk() && nblock > 0
      ensures runs != [] && block[..nblock] == Coded(runs)
    {
      hide Formed, Marks, Plain, Fold;
      if runs == [] { NothingCoded(); }
    }

    lemma NotFilled(all: bool)
      requires BlockOk() && Due(all) && nblock == 0
      ensures all && runs == []
    {
      hide Formed, Marks, Plain, Fold, Roomy;
      NoRuns(runs);
    }

    /** A full block, or one that a flush is to end, is due. */
    lemma IsDue(all: bool)
      requires BlockOk() && RunsOk() && nblockMax > 0
      requires if all then stateInCh == 256 && (Roomy(runs, 1, nblockMax) || Roomy(runs, 2, nblockMax))
          && |taken| in stops
        else !EmptyRL() && nblock >= nblockMax && Lately()
      ensures Due(all)
    {
      hide Formed, Marks, Plain, Fold, Roomy;
      if !all && runs == [] {
        NothingCoded();
      }
    }

    /**
     * `BZ2_compressBlock`: the block is finished, if it is not empty. What is written for it fits the room behind it.
     */
    method CompressBlock(isLastBlock: bool, ghost all: bool)
      requires Shape() && RunsOk() && BlockOk() && Conserved() && DoneOk() && nblock <= nblockMax + 9
      requires Written() && HandedOut() && w.zbits == [] && stateOutPos == 0 && !closed && (headed <==> blockNo != 1)
      requires InPieces() && Due(all)
      modifies w, `done, `parts, `pieces, `runs, `combinedCrc, `headed, `closed
      ensures InPieces()
      ensures RunsOk() && Conserved() && DoneOk() && runs == [] && |done| >= |old(done)|
        && done[..|old(done)|] == old(done)
      ensures Written() && HandedOut() && headed && closed == isLastBlock && (isLastBlock ==> Pending() > 0)
      ensures |w.zbits| <= RoomBehind(blockSize100k, nblock)
    {
      hide Formed, BlockOk, Plain, Texts, Coded, Marks, Fold, Text, End, Sound, CombinedOf, Combine, Finalise, Written,
        BitWriter.Bits, DoneOk, Due, Divided, Onward;
      OpenBlock();
      PlainNone();
      var b := Block(block[..nblock], inUse[..], Finalise(blockCrc));
      if nblock > 0 {
        BlockDone(b);
        HasRuns();
        PieceDone(b, all);
        pieces := pieces + [Piece(runs, all)];
      } else {
        NotFilled(all);
      }
      ghost var texts := Texts(done) + Plain(runs);
      assert done + [] == done && Texts(done) + [] == Texts(done) && texts + [] == texts;
      WriteAll(isLastBlock, b);
      assert flushed + w.zbits[..0] == flushed;
      OpenAlone(runs, OpenRun());
      runs := [];
    }

    // ----- the state machine -----

    /** Blocks already finished stay as they are, no input is lost, and what was handed out is out. */
    twostate predicate Extends()
      reads `done, `taken, `nextIn, `out
    {
      && |old(done)| <= |done| && done[..|old(done)|] == old(done)
      && old(taken) <= taken && taken + nextIn == old(taken + nextIn) && old(out) <= out
    }

    /** The block is finished: at the end of a flush or finish with all that is left, else because it is full. */
    method EndBlock(all: bool)
      requires Shape() && RunsOk() && BlockOk() && Conserved() && DoneOk() && Written() && HandedOut()
        && nblock <= nblockMax + 4
      requires w.zbits == [] && stateOutPos == 0 && !closed && (headed <==> blockNo != 1) && blockNo >= 1
        && phase.Input? && !mode.Idle?
      requires if all then !mode.Running? && nextIn == [] else !EmptyRL() && nblock >= nblockMax
      requires !mode.Running? ==> availInExpect == |nextIn| && Supplied() in stops
      requires InPieces() && Lately()
      modifies w, block, inUse, `phase, `nblock, `blockCrc, `combinedCrc, `runs, `stateInCh, `stateInLen, `done,
        `parts, `pieces, `headed, `closed
      ensures Steady() && phase.Output? && |old(done)| <= |done| && done[..|old(done)|] == old(done)
      ensures if all then EmptyRL() && (mode.Finishing? ==> Pending() > 0) else !EmptyRL()
    {
      hide RunsOk, BlockOk, Conserved, DoneOk, Written, HandedOut, Steady, EmptyRL, Pending, InPieces, Lately, Due,
        Roomy;
      if all { FlushRL(); }
      IsDue(all);
      CompressBlock(all && mode.Finishing?, all);
      phase := Output;
      SteadyMade();
    }

    lemma TakingParts()
      requires Steady() && phase.Input?
      ensures w.zbits == [] && stateOutPos == 0 && !closed && (headed <==> blockNo != 1) && blockNo >= 1
      ensures Shape() && RunsOk() && BlockOk() && Conserved() && DoneOk() && Written() && HandedOut()
        && nblock < nblockMax
      ensures (stateInCh == 256 ==> runs == [])
      ensures !mode.Running? && !mode.Idle? ==> availInExpect == |nextIn| && Supplied() in stops
      ensures InPieces() && Lately()
    {
      hide RunsOk, BlockOk, Conserved, DoneOk, Written, HandedOut, InPieces, Lately;
    }

    /** An open run has a byte. */
    lemma OpenNonEmpty()
      requires RunsOk() && stateInCh < 256
      ensures !EmptyRL()
    {
      assert (runs + OpenRun())[|runs|] == Run(stateInCh as byte, stateInLen);
    }

    /** The part of handle_compress for state BZ_S_INPUT: take input and, if the block is complete, compress it. */
    method InputStep() returns (progress: bool, stop: bool)
      requires Steady() && phase.Input? && !mode.Idle?
      modifies w, block, inUse, `phase, `nblock, `blockCrc, `combinedCrc, `runs, `stateInCh, `stateInLen, `taken,
        `nextIn, `availInExpect, `done, `parts, `pieces, `headed, `closed
      ensures Steady() && Extends() && progress == (|nextIn| < |old(nextIn)|)
      ensures if stop then phase.Input? && nextIn == [] && mode.Running? else phase.Output?
      ensures !progress ==> nextIn == old(nextIn)
      ensures !stop && !progress ==> nextIn == [] && EmptyRL() && (mode.Finishing? ==> Pending() > 0)
    {
      hide RunsOk, BlockOk, Conserved, DoneOk, Written, HandedOut, Steady, EmptyRL, Pending, InPieces, Lately;
      TakingParts();
      var avail := |nextIn|;
      CopyInputUntilStop();
      progress := |nextIn| < avail;
      stop := false;
      if !mode.Running? && availInExpect == 0 {
        EndBlock(true);
      } else if nblock >= nblockMax {
        OpenNonEmpty();
        EndBlock(false);
      } else {
        stop := true;
        SteadyMade();
      }
    }

    /** `copy_output_until_stop`. */
    method CopyOutputUntilStop(availOut0: nat) returns (availOut: nat)
      requires HandedOut()
      modifies `stateOutPos, `out
      ensures HandedOut() && old(out) <= out && |out| - |old(out)| == availOut0 - availOut ==
        stateOutPos - old(stateOutPos) >= 0
      ensures availOut == 0 || Pending() == 0
    {
      availOut := availOut0;
      while availOut > 0 && stateOutPos < |w.zbits|
        invariant HandedOut() && old(out) <= out && |out| - |old(out)| == availOut0 - availOut ==
          stateOutPos - old(stateOutPos) >= 0
        decreases availOut
      {
        out := out + [w.zbits[stateOutPos]];
        stateOutPos := stateOutPos + 1;
        availOut := availOut - 1;
      }
    }

    lemma HandingParts()
      requires Steady() && phase.Output?
      ensures Shape() && RunsOk() && Conserved() && DoneOk() && Written() && HandedOut() && runs == [] && headed
        && blockNo >= 1
      ensures !mode.Running? && !mode.Idle? ==> availInExpect == |nextIn| && Supplied() in stops
      ensures InPieces()
      ensures (closed ==> nextIn == []) && (closed <==> (mode.Finishing? || mode.Idle?) && EmptyRL())
        && (mode.Running? ==> !EmptyRL())
    {
      hide RunsOk, Conserved, DoneOk, Written, HandedOut, EmptyRL, InPieces;
    }

    lemma AllHanded()
      requires HandedOut() && stateOutPos >= |w.zbits|
      ensures Pending() == 0
    {
    }

    /** Nothing is left to take or to hand out. */
    ghost predicate AllOut()
      reads w, `stateOutPos, `nextIn, `stateInCh, `stateInLen
    {
      nextIn == [] && EmptyRL() && Pending() == 0
    }

    /** The part for state BZ_S_OUTPUT: hand out compressed bytes and, once they are all out, start a new block. */
    method OutputStep(availOut0: nat) returns (availOut: nat, stop: bool)
      requires Steady() && phase.Output? && !mode.Idle?
      modifies w, inUse, `phase, `nblock, `blockCrc, `stateOutPos, `blockNo, `out, `flushed
      ensures Steady() && old(out) <= out && availOut <= availOut0
      ensures if stop then AllOut() || (phase.Output? && Pending() > 0) else phase.Input?
      ensures stop && phase.Output? && Pending() > 0 ==> availOut == 0 && Pending() == old(Pending()) - availOut0
      ensures stop && AllOut() ==>
        if mode.Finishing? then phase.Output? else phase.Input? && mode.Flushing? && runs == []
      ensures !stop && !mode.Running? ==> nextIn != [] || !EmptyRL()
      ensures availOut == availOut0 ==> availOut0 == 0 || old(Pending()) == 0
      ensures stop && AllOut() ==> old(Pending()) == availOut0 - availOut
    {
      hide RunsOk, BlockOk, Conserved, DoneOk, Written, HandedOut, Steady, InPieces;
      HandingParts();
      availOut := CopyOutputUntilStop(availOut0);
      SteadyMade();
      if stateOutPos < |w.zbits| { return availOut, true; }
      AllHanded();
      if mode.Finishing? && availInExpect == 0 && EmptyRL() { return availOut, true; }
      PrepareNewBlock();
      phase := Input;
      SteadyMade();
      stop := mode.Flushing? && availInExpect == 0 && EmptyRL();
    }

    /** How far the compressor has come. */
    ghost function Where(): Place
      reads w, `stateOutPos, `nextIn, `stateInCh, `stateInLen, `phase
    {
      Place(|nextIn|, !EmptyRL(), phase.Input?, Pending())
    }

    lemma ModesOk()
      requires Steady()
      ensures mode.Flushing? || mode.Finishing? ==> availInExpect == |nextIn|
      ensures phase.Output? ==> runs == [] && (mode.Running? ==> !EmptyRL())
    {
    }

    /** Once round the loop of handle_compress. */
    method Round(availOut0: nat) returns (availOut: nat, progress: bool, stop: bool)
      requires Steady() && !mode.Idle?
      modifies w, block, inUse, `phase, `nblock, `blockCrc, `combinedCrc, `runs, `stateInCh, `stateInLen, `taken,
        `nextIn, `availInExpect, `done, `parts, `pieces, `headed, `closed, `stateOutPos, `blockNo, `out, `flushed
      ensures Steady() && Extends() && availOut <= availOut0
      ensures !stop ==>
        phase.Output? && Closer(Where(), old(Where()))
        && (mode.Finishing? ==> progress || (availOut == availOut0 && Pending() > 0))
      ensures stop ==> Valid() || AllOut()
      ensures stop && mode.Running? ==> Valid()
      ensures stop && !mode.Running? && !AllOut() ==>
        old(phase.Output?) && availOut == 0 && Where() == old(Where()).(pending := old(Pending()) - availOut0)
      ensures stop && mode.Finishing? ==> progress == (availOut0 > 0 && old(Pending()) > 0)
      ensures stop && AllOut() && mode.Finishing? ==> phase.Output? && old(phase.Output?) && old(Pending()) <= availOut0
      ensures stop && AllOut() && mode.Flushing? ==> phase.Input? && runs == []
    {
      hide Steady, RunsOk, HandedOut, EmptyRL, Pending;
      ModesOk();
      availOut, progress := availOut0, false;
      if phase.Output? {
        availOut, stop := OutputStep(availOut0);
        progress := availOut < availOut0;
        ModesOk();
        if stop { return; }
      }
      var p;
      p, stop := InputStep();
      progress := progress || p;
    }

    lemma ValidParts()
      requires Valid()
      ensures Steady() && (phase.Output? && !mode.Idle? ==> Pending() > 0)
    {
    }

    /** `handle_compress`; whether a call made progress is what its callers see of it. */
    method HandleCompress(availOut0: nat) returns (progress: bool)
      requires Valid() && !mode.Idle?
      modifies w, block, inUse, `phase, `nblock, `blockCrc, `combinedCrc, `runs, `stateInCh, `stateInLen, `taken,
        `nextIn, `availInExpect, `done, `parts, `pieces, `headed, `closed, `stateOutPos, `blockNo, `out, `flushed
      ensures Steady() && Extends() && (AllOut() || Valid())
      ensures mode.Running? ==> Valid()
      ensures AllOut() && mode.Finishing? ==> phase.Output? && progress
      ensures AllOut() && mode.Flushing? ==> phase.Input? && runs == []
      ensures !mode.Running? && availOut0 > 0 ==> AllOut() || Nearer(Where(), old(Where()))
      ensures mode.Finishing? && availOut0 > 0 ==> progress
    {
      hide Steady, RunsOk, HandedOut, EmptyRL, Pending, AllOut, Valid;
      ValidParts();
      progress := false;
      var availOut: nat, stop := availOut0, false;
      ghost var at := Where();
      while !stop
        invariant Steady() && Extends() && availOut <= availOut0
        invariant stop ==> (mode.Running? && Valid()) || (!mode.Running? && (AllOut() || Valid()))
        invariant !stop ==> (Where() == at && availOut == availOut0) || (phase.Output? && Closer(Where(), at))
        invariant !stop && mode.Finishing? ==> progress || (availOut == availOut0 && (phase.Output? ==> Pending() > 0))
        invariant stop && !mode.Running? && availOut0 > 0 ==> AllOut() || Nearer(Where(), at)
        invariant stop && mode.Finishing? && availOut0 > 0 ==> progress
        invariant stop && AllOut() ==>
          (mode.Finishing? ==> phase.Output? && progress) && (mode.Flushing? ==> phase.Input? && runs == [])
        decreases !stop, Where().input, Where().open, Where().taking
      {
        var p;
        availOut, p, stop := Round(availOut);
        progress := progress || p;
      }
    }

    lemma PendingNone()
      requires Steady() && stateOutPos >= |w.zbits|
      ensures Pending() == 0
    {
      hide RunsOk, Conserved, DoneOk, Written, Taking, Handing;
    }

    lemma TakingOpen()
      requires Steady() && phase.Input?
      ensures !closed
    {
      hide RunsOk, Conserved, DoneOk, Written, HandedOut, BlockOk;
    }

    method AddInput(chunk: seq<byte>)
      requires Valid() && mode.Running?
      modifies `nextIn
      ensures Valid() && nextIn == old(nextIn) + chunk
    {
      hide RunsOk, BlockOk, DoneOk, Conserved, Written, HandedOut, Taking, InPieces, Lately;
      if phase.Input? { TakingOpen(); }
      nextIn := nextIn + chunk;
    }

    /** A flush or finish begins. */
    method Ask(action: Action)
      requires Valid() && mode.Running? && !action.RunAction?
      modifies `mode, `availInExpect, `stops
      ensures Valid() && stops == old(stops) + {Supplied()}
      ensures mode == if action.FlushAction? then Flushing else Finishing
    {
      hide RunsOk, BlockOk, DoneOk, Conserved, Written, HandedOut, Taking, Divided, Onward, Lately;
      if phase.Input? { TakingOpen(); }
      availInExpect := |nextIn|;
      MoreStops(done, pieces, nblockMax, stops, {Supplied()});
      stops := stops + {Supplied()};
      mode := if action.FlushAction? then Flushing else Finishing;
    }

    lemma AskedBefore()
      requires Valid() && (mode.Flushing? || mode.Finishing?)
      ensures Supplied() in stops
    {
      hide RunsOk, BlockOk, DoneOk, Conserved, Written, HandedOut, Taking, Handing, InPieces, Lately;
    }

    /** Take note of new input and of a flush or finish that begins with this call. */
    method Begin(action: Action, chunk: seq<byte>)
      requires Valid() && (mode.Running? || chunk == []) && (mode.Flushing? ==> action.FlushAction?)
        && (mode.Finishing? ==> action.FinishAction?)
      requires !mode.Idle?
      modifies `nextIn, `mode, `availInExpect, `stops
      ensures stops == old(stops) + if action.RunAction? then {} else {Supplied()}
      ensures Valid() && taken + nextIn == old(taken + nextIn) + chunk
        && (!old(mode.Running?) ==> nextIn == old(nextIn))
      ensures mode == if action.RunAction? then Running else if action.FlushAction? then Flushing else Finishing
    {
      hide Valid;
      assert taken + nextIn + chunk == taken + (nextIn + chunk);
      if mode.Running? {
        AddInput(chunk);
        if !action.RunAction? { Ask(action); }
      } else {
        AskedBefore();
      }
    }

    /** With no input and no open run left the finished blocks are everything. */
    lemma Settled()
      requires Conserved() && nextIn == [] && EmptyRL() && runs == [] && RunsOk()
      ensures Texts(done) == taken
    {
      hide Texts, Formed;
      PlainNone();
      if stateInCh < 256 { OpenNonEmpty(); }
    }

    /** A flush or finish is complete. */
    method Settle(next: Mode)
      requires Steady() && AllOut() &&
        (if mode.Finishing? then phase.Output? && next.Idle?
         else mode.Flushing? && phase.Input? && runs == [] && next.Running?)
      modifies `mode
      ensures Valid() && mode == next && nextIn == [] && Texts(done) == taken
    {
      hide Shape, RunsOk, Conserved, Taking, DoneOk, Written, HandedOut;
      Settled();
      mode := next;
    }

    /** A flush or finish goes on, or has come to its end. */
    method Conclude(progress: bool) returns (status: Status)
      requires Steady() && (AllOut() || Valid()) && !mode.Running? && !mode.Idle?
      requires AllOut() && mode.Finishing? ==> phase.Output? && progress
      requires AllOut() && mode.Flushing? ==> phase.Input? && runs == []
      modifies `mode
      ensures Valid()
      ensures old(mode.Flushing?) ==>
        if old(AllOut()) then status.RunOk? && mode.Running? && nextIn == [] && Texts(done) == taken
        else status.FlushOk? && mode.Flushing?
      ensures old(mode.Finishing?) ==>
        if old(AllOut()) then status.StreamEnd? && mode.Idle?
        else mode.Finishing? && status == if progress then FinishOk else SequenceError
    {
      hide Steady, RunsOk, BlockOk, DoneOk, Conserved, Written, HandedOut;
      ModesOk();
      if mode.Flushing? {
        if availInExpect > 0 || !EmptyRL() || stateOutPos < |w.zbits| { return FlushOk; }
        PendingNone();
        Settle(Running);
        status := RunOk;
      } else {
        if !progress { return SequenceError; }
        if availInExpect > 0 || !EmptyRL() || stateOutPos < |w.zbits| { return FinishOk; }
        PendingNone();
        Settle(Idle);
        status := StreamEnd;
      }
    }

    /** A call that is accepted. */
    method Proceed(action: Action, chunk: seq<byte>, availOut: nat) returns (status: Status)
      requires Valid() && !mode.Idle? && (!mode.Running? ==> chunk == [])
      requires (mode.Flushing? ==> action.FlushAction?) && (mode.Finishing? ==> action.FinishAction?)
      modifies this, block, inUse, w
      ensures Valid() && |old(done)| <= |done| && done[..|old(done)|] == old(done) && old(taken) <= taken
        && old(out) <= out
      ensures taken + nextIn == old(taken + nextIn) + chunk
      ensures stops == old(stops) + if action.RunAction? then {} else {|taken + nextIn|}
      ensures status.StreamEnd? ==> action.FinishAction? && mode.Idle?
      ensures action.FlushAction? && status.RunOk? ==> mode.Running? && nextIn == [] && Texts(done) == taken
      ensures action.RunAction? ==> mode.Running?
      ensures availOut > 0 && action.FinishAction? ==>
        if status.StreamEnd? then mode.Idle? else status.FinishOk? && mode.Finishing?
      ensures availOut > 0 && old(mode.Finishing?) ==>
        mode.Idle? || (mode.Finishing? && Nearer(Where(), old(Where())))
      ensures availOut > 0 && old(mode.Flushing?) ==>
        mode.Running? || (mode.Flushing? && Nearer(Where(), old(Where())))
    {
      hide Steady, RunsOk, BlockOk, DoneOk, Conserved, Written, HandedOut, Valid, Pending, EmptyRL, Texts, AllOut,
        Nearer, Closer;
      Begin(action, chunk);
      var progress := HandleCompress(availOut);
      ModesOk();
      if mode.Running? {
        status := if progress then RunOk else ParamError;
      } else {
        status := Conclude(progress);
      }
    }

    /**
     * `BZ2_bzCompress` with `chunk` as additional input. Once the stream has ended, the bytes handed out are a stream
     * for all input; once a flush is complete, the finished blocks stand for it. A finish or flush that is given room
     * gets nearer its end with every call.
     */
    method Compress(action: Action, chunk: seq<byte>, availOut: nat) returns (status: Status, accepted: bool)
      requires Valid()
      modifies this, block, inUse, w
      ensures Valid() && |old(done)| <= |done| && done[..|old(done)|] == old(done) && old(taken) <= taken
        && old(out) <= out
      ensures taken + nextIn == old(taken + nextIn) + if accepted then chunk else []
      ensures stops == old(stops) + if accepted && !action.RunAction? then {|taken + nextIn|} else {}
      ensures status.StreamEnd? ==> action.FinishAction? && mode.Idle?
      ensures action.FlushAction? && status.RunOk? ==> mode.Running? && nextIn == [] && Texts(done) == taken
      ensures old(mode.Running?) ==> accepted && (action.RunAction? ==> mode.Running?)
      ensures !accepted ==> status.SequenceError? && unchanged(this, block, inUse, w)
      ensures !accepted <==> old(mode.Idle?) || (old(mode.Flushing?) && !(action.FlushAction? && chunk == []))
                                            || (old(mode.Finishing?) && !(action.FinishAction? && chunk == []))
      ensures accepted && availOut > 0 && action.FinishAction? ==>
        if status.StreamEnd? then mode.Idle? else status.FinishOk? && mode.Finishing?
      ensures accepted && availOut > 0 && old(mode.Finishing?) ==>
        mode.Idle? || (mode.Finishing? && Nearer(Where(), old(Where())))
      ensures accepted && availOut > 0 && old(mode.Flushing?) ==>
        mode.Running? || (mode.Flushing? && Nearer(Where(), old(Where())))
    {
      hide Steady, RunsOk, BlockOk, DoneOk, Conserved, Written, HandedOut, Valid, Pending;
      accepted := false;
      assert taken + nextIn + [] == taken + nextIn;
      if mode.Idle? { return SequenceError, false; }
      if mode.Flushing? && (!action.FlushAction? || chunk != []) { return SequenceError, false; }
      if mode.Finishing? && (!action.FinishAction? || chunk != []) { return SequenceError, false; }
      accepted := true;
      status := Proceed(action, chunk, availOut);
    }

    /** What a valid state promises: the finished blocks are sound, and stand for a prefix of the input. */
    lemma Promise()
      requires Valid()
      ensures (forall j | 0 <= j < |done| :: Sound(table, blockSize100k, done[j])) && combinedCrc == CombinedOf(done)
      ensures 1 <= blockSize100k <= 9 && Texts(done) <= taken && Stands(parts, done) && PartsOk(parts)
      ensures Divided(done, pieces, 100000 * blockSize100k - 19, stops)
    {
      hide Sound, Texts, CombinedOf, Plain, Stands, PartsOk, HandedOut, Taking, Handing, Divided, Onward;
      assert Texts(done) <= Texts(done) + Plain(runs) + Plain(OpenRun());
    }

    /** Once a stream has ended, what was handed out is the stream, and its blocks stand for all input. */
    lemma Ended()
      requires Valid() && mode.Idle?
      ensures 1 <= blockSize100k <= 9 && PartsOk(parts) && IsStream(out, blockSize100k, parts, combinedCrc)
      ensures nextIn == [] && Texts(done) == taken && (pieces == [] || pieces[|pieces| - 1].flushed)
    {
      hide Stands, PartsOk, IsStream, Texts, Formed, DoneOk, Taking, Divided;
      PlainNone();
      assert w.zbits[..|w.zbits|] == w.zbits;
      if phase.Input? { assert false by { TakingOpen(); } }
      if stateInCh < 256 {
        OpenNonEmpty();
      } else {
        assert runs + OpenRun() == [];
      }
    }
  }

  datatype Call = Call(action: Action, chunk: seq<byte>, availOut: nat)

  /** The input of the calls that were accepted. */
  function Given(calls: seq<Call>, accepted: seq<bool>): seq<byte>
    requires |accepted| <= |calls|
  {
    if accepted == [] then []
    else
      var i := |accepted| - 1;
      Given(calls, accepted[..i]) + if accepted[i] then calls[i].chunk else []
  }

  /** How much input had been given when a flush or the end was asked for. */
  function Asked(calls: seq<Call>, accepted: seq<bool>): set<nat>
    requires |accepted| <= |calls|
  {
    if accepted == [] then {}
    else
      var i := |accepted| - 1;
      Asked(calls, accepted[..i]) +
        if accepted[i] && !calls[i].action.RunAction? then {|Given(calls, accepted)|} else {}
  }

  /** No call before number `i` flushes or finishes. */
  ghost predicate Plainly(calls: seq<Call>, i: nat) {
    forall j | 0 <= j < |calls| && j < i :: calls[j].action.RunAction?
  }

  lemma GivenNext(calls: seq<Call>, accepted: seq<bool>, a: bool)
    requires |accepted| < |calls|
    ensures Given(calls, accepted + [a]) == Given(calls, accepted) + if a then calls[|accepted|].chunk else []
    ensures Asked(calls, accepted + [a]) == Asked(calls, accepted) +
      if a && !calls[|accepted|].action.RunAction? then {|Given(calls, accepted + [a])|} else {}
  {
    assert (accepted + [a])[..|accepted|] == accepted;
  }

  lemma NothingGiven(calls: seq<Call>)
    ensures Given(calls, []) == [] && Asked(calls, []) == {}
  {
  }

  lemma PlainNext(calls: seq<Call>, i: nat)
    requires i < |calls|
    ensures Plainly(calls, i + 1) <==> Plainly(calls, i) && calls[i].action.RunAction?
  {
  }

  lemma PlainStart(calls: seq<Call>)
    ensures Plainly(calls, 0)
  {
  }

  /**
   * Any run of the compressor, whatever the chunks, actions and output space of its calls: every finished block is
   * sound, together they stand for a prefix of the accepted input, and all input accepted is kept. A block ends where
   * it is full, or else where all input was taken that had been given when a flush or the end was asked for. Calls are
   * accepted at least up to the first that flushes or finishes.
   */
  method Session(t: Table, k: nat, factor: nat, calls: seq<Call>) returns (s: EState, accepted: seq<bool>)
    requires 1 <= k <= 9 && factor <= 250
    ensures fresh(s) && fresh(s.block) && fresh(s.inUse) && fresh(s.w) && s.Valid() && s.table == t
      && s.blockSize100k == k
    ensures |accepted| == |calls| && forall i | 0 <= i < |calls| && Plainly(calls, i) :: accepted[i]
    ensures s.taken + s.nextIn == Given(calls, accepted)
    ensures (forall j | 0 <= j < |s.done| :: Sound(t, k, s.done[j])) && Texts(s.done) <= s.taken
    ensures s.stops == Asked(calls, accepted) && Divided(s.done, s.pieces, 100000 * k - 19, s.stops)
  {
    hide *;
    s := new EState(t, k, factor);
    accepted := [];
    NothingGiven(calls);
    PlainStart(calls);
    for i := 0 to |calls|
      invariant |accepted| == i && s.Valid() && s.taken + s.nextIn == Given(calls, accepted) && s.table == t
        && s.blockSize100k == k && s.stops == Asked(calls, accepted)
      invariant fresh(s) && fresh(s.block) && fresh(s.inUse) && fresh(s.w)
      invariant (Plainly(calls, i) ==> s.mode.Running?) && forall j | 0 <= j < i && Plainly(calls, j) :: accepted[j]
    {
      PlainNext(calls, i);
      var status, a := s.Compress(calls[i].action, calls[i].chunk, calls[i].availOut);
      GivenNext(calls, accepted, a);
      accepted := accepted + [a];
    }
    s.Promise();
  }

  lemma PendingIs(s: EState)
    requires s.Valid()
    ensures s.Where().pending >= 0
  {
    hide EState.Written, EState.Taking, EState.Handing, EState.DoneOk, EState.Conserved, EState.RunsOk;
  }

  lemma NearerMeans(a: Place, b: Place)
    requires Nearer(a, b)
    ensures a.input < b.input || (a.input == b.input && (if a.open == b.open then
              (if a.taking == b.taking then a.pending < b.pending else b.taking) else b.open))
  {
  }

  /**
   * Called again and again with some room, a flush under way is completed and the stream is ended, whatever state the
   * compressor was in: each call takes input, closes the open run, finishes a block or leaves fewer bytes pending.
   */
  method Complete(s: EState)
    requires s.Valid()
    modifies s, s.block, s.inUse, s.w
    ensures s.Valid() && s.mode.Idle? && s.taken == old(s.taken + s.nextIn) && old(s.out) <= s.out
    ensures Divided(s.done, s.pieces, 100000 * s.blockSize100k - 19, s.stops)
    ensures s.stops <= old(s.stops) + {|s.taken|} && (s.pieces == [] || s.pieces[|s.pieces| - 1].flushed)
  {
    hide *;
    ghost var all := s.taken + s.nextIn;
    assert all + [] == all;
    while s.mode.Flushing?
      invariant s.Valid() && s.taken + s.nextIn == all && old(s.out) <= s.out && s.stops <= old(s.stops) + {|all|}
      decreases s.mode.Flushing?, s.Where().input, s.Where().open, s.Where().taking, s.Where().pending
    {
      PendingIs(s);
      ghost var at := s.Where();
      var room: nat :| room > 0;
      var status, a := s.Compress(FlushAction, [], room);
      if s.mode.Flushing? { NearerMeans(s.Where(), at); }
    }
    while !s.mode.Idle?
      invariant s.Valid() && !s.mode.Flushing? && s.taken + s.nextIn == all && old(s.out) <= s.out
        && s.stops <= old(s.stops) + {|all|}
      decreases !s.mode.Idle?, s.mode.Running?, s.Where().input, s.Where().open, s.Where().taking, s.Where().pending
    {
      PendingIs(s);
      ghost var at := s.Where();
      var room: nat :| room > 0;
      ghost var before := s.mode;
      var status, a := s.Compress(FinishAction, [], room);
      if before.Finishing? && !s.mode.Idle? { NearerMeans(s.Where(), at); }
    }
    s.Ended();
    s.Promise();
    assert s.taken + [] == s.taken;
  }
}
