/**
 * Undoing the run-length code while bytes are fetched from the block's vector, FAST or SMALL, and unmasked if it is
 * randomised.
 */
module RunDecoder {
  import opened Bytes
  import opened Rotations
  import opened BlockSort
  import opened InverseBwt
  import opened BwtDecoder
  import opened SmallDecoder
  import opened ZeroRuns
  import opened RunLength
  import opened BlockCrc
  import opened Randomiser

  /**
   * Block `b`, and the byte `x` fetched after it, are what the walk from row `origPtr` of column `l` spells, unmasked
   * if the block is randomised. So it is with every column and every row; for a column made from the sorted rotations
   * of a block, and the block's own row, it is that block.
   */
  ghost predicate Spells(b: seq<byte>, x: byte, l: seq<byte>, t: seq<nat>, origPtr: nat, randomised: bool) {
    && UndoesRank(l, t) && origPtr < |l| == |b|
    && (forall k | 0 <= k < |b| :: b[k] == Unmasked(randomised, k, Spelled(l, t, origPtr, k)))
    && x == Unmasked(randomised, |b|, Spelled(l, t, origPtr, |b|))
  }

  lemma SomethingSpelled(l: seq<byte>, t: seq<nat>, origPtr: nat, randomised: bool) returns (b: seq<byte>, x: byte)
    requires UndoesRank(l, t) && origPtr < |l|
    ensures Spells(b, x, l, t, origPtr, randomised)
  {
    hide UndoesRank, Unmasked, Spelled;
    b := seq(|l|, k requires 0 <= k < |l| => Unmasked(randomised, k, Spelled(l, t, origPtr, k)));
    x := Unmasked(randomised, |l|, Spelled(l, t, origPtr, |l|));
  }

  /** A block as it is sorted: masked, if it is randomised. */
  ghost function Masked(b: seq<byte>, randomised: bool): (m: seq<byte>)
    ensures |m| == |b| && forall k | 0 <= k < |b| :: m[k] == Unmasked(randomised, k, b[k])
  {
    seq(|b|, k requires 0 <= k < |b| => Unmasked(randomised, k, b[k]))
  }

  /** What is spelled from the own row of a block's sorted rotations, masked or not, is the block. */
  lemma SortedSpells(b: seq<byte>, ptr: seq<nat>, t: seq<nat>, origPtr: nat, randomised: bool)
    requires SortedRotations(Masked(b, randomised), ptr) && origPtr < |b| == |ptr| && ptr[origPtr] == 0
    requires UndoesRank(LastColumn(Masked(b, randomised), ptr), t)
    ensures Spells(b, Unmasked(randomised, |b|, Masked(b, randomised)[0]), LastColumn(Masked(b, randomised), ptr), t,
      origPtr, randomised)
  {
    hide SortedRotations, UndoesRank, Unmasked;
    var m := Masked(b, randomised);
    forall k | 0 <= k <= |b| ensures Spelled(LastColumn(m, ptr), t, origPtr, k) == (if k < |b| then m[k] else m[0]) {
      WalkSpellsBlock(m, ptr, t, origPtr, k);
      AtPeriod(m, 0);
    }
    forall k | 0 <= k < |b| ensures b[k] == Unmasked(randomised, k, m[k]) { UnmaskedTwice(randomised, k, b[k]); }
  }

  lemma SpellsGives(b: seq<byte>, x: byte, l: seq<byte>, t: seq<nat>, origPtr: nat, randomised: bool, k: nat)
    requires Spells(b, x, l, t, origPtr, randomised)
    ensures |t| == |l| == |b| > 0 && (forall j | 0 <= j < |t| :: t[j] < |t|) && origPtr < |b| && UndoesRank(l, t)
    ensures k <= |b| ==> Unmasked(randomised, k, Spelled(l, t, origPtr, k)) == ByteAt(b, x, k)
  {
    hide UndoesRank, Spelled, Unmasked;
    RowsToRows(l, t);
  }

  /**
   * Between bytes: `used` bytes have been fetched, the last of them, `k0`, starts the next run; `len` bytes of the run
   * before are still to be put out. What is out and what is to come are the block's text.
   */
  ghost predicate Emitting(b: seq<byte>, x: byte, out: seq<byte>, ch: byte, len: nat, used: nat, k0: byte) {
    && b != [] && 1 <= used <= |b| + 2 && (used <= |b| ==> k0 == b[used - 1])
    && out + Repeated(ch, len) + Text(b, x, used - 1) == Text(b, x, 0) && End(b, used - 1) == End(b, 0)
  }

  lemma EmitStart(b: seq<byte>, x: byte, k0: byte, ch: byte)
    requires b != [] && k0 == b[0]
    ensures Emitting(b, x, [], ch, 0, 1, k0)
  {
    assert [] + Repeated(ch, 0) + Text(b, x, 0) == Text(b, x, 0);
  }

  lemma EmitOne(b: seq<byte>, x: byte, out: seq<byte>, ch: byte, len: nat, used: nat, k0: byte)
    requires Emitting(b, x, out, ch, len, used, k0) && len > 0
    ensures Emitting(b, x, out + [ch], ch, len - 1, used, k0)
  {
    hide Text, End;
    assert Repeated(ch, len) == [ch] + Repeated(ch, len - 1);
    assert out + ([ch] + Repeated(ch, len - 1)) == out + [ch] + Repeated(ch, len - 1);
  }

  lemma TextStep(b: seq<byte>, x: byte, p: nat)
    requires p < |b|
    ensures Text(b, x, p) == Repeated(RunAt(b, x, p).ch, RunAt(b, x, p).len) + Text(b, x, NextRun(b, p))
      && End(b, p) == End(b, NextRun(b, p))
  {
    hide RunAt, NextRun;
  }

  lemma NothingLeft(out: seq<byte>, ch: byte, x: seq<byte>, y: seq<byte>)
    ensures out + Repeated(ch, 0) + (x + y) == out + x + y
  {
  }

  /** A new run may start where the last one is out. */
  lemma EmitRun(b: seq<byte>, x: byte, out: seq<byte>, ch: byte, used: nat, k0: byte, k0': byte)
    requires Emitting(b, x, out, ch, 0, used, k0) && used <= |b|
    requires NextRun(b, used - 1) < |b| ==> k0' == b[NextRun(b, used - 1)]
    ensures var r := RunAt(b, x, used - 1); Emitting(b, x, out, r.ch, r.len, NextRun(b, used - 1) + 1, k0')
  {
    hide RunAt, NextRun, Text, End, Repeated;
    var r, q := RunAt(b, x, used - 1), NextRun(b, used - 1);
    TextStep(b, x, used - 1);
    NothingLeft(out, ch, Repeated(r.ch, r.len), Text(b, x, q));
  }

  lemma EmitDone(b: seq<byte>, x: byte, out: seq<byte>, ch: byte, len: nat, used: nat, k0: byte)
    requires Emitting(b, x, out, ch, len, used, k0)
    ensures used > |b| && len == 0 ==> out == Text(b, x, 0)
    ensures used == |b| + 1 ==> End(b, 0) == |b|
    ensures used > |b| + 1 ==> End(b, 0) == |b| + 1
    ensures out <= Text(b, x, 0) && b != [] && 1 <= used <= |b| + 2
  {
    hide RunAt, NextRun;
    if used > |b| {
      assert Text(b, x, used - 1) == [] && End(b, used - 1) == used - 1;
    }
    assert out <= out + Repeated(ch, len) + Text(b, x, used - 1);
    if used > |b| && len == 0 {
      assert out + Repeated(ch, 0) + [] == out;
    }
  }

  /** The vector that bytes are fetched from. */
  datatype Vector = Fast(tt: array<nat>) | Small(ll16: array<nat>, ll4: array<byte>, cftab: array<nat>)

  /** The vector holds the column and its map T. */
  ghost predicate Ready(v: Vector, l: seq<byte>, t: seq<nat>, origPtr: nat)
    reads if v.Fast? then {v.tt as object} else {v.ll16 as object, v.ll4 as object, v.cftab as object}
  {
    match v
    case Fast(tt) => FastVector(l, t, tt[..])
    case Small(ll16, ll4, cftab) =>
      |l| <= ll16.Length && LLRoom(ll16[..], ll4[..]) && SmallVector(l, t, Entries(ll16[..], ll4[..]), origPtr)
        && StartsOf(l, cftab[..])
  }

  lemma FirstStep(t: seq<nat>, r: nat)
    requires r < |t| && forall j | 0 <= j < |t| :: t[j] < |t|
    ensures Walk(t, r, 0) == r && Walk(t, r, 1) == t[r]
  {
    assert Walk(t, r, 0) == r;
  }

  lemma FirstFetched(b: seq<byte>, x: byte)
    requires b != []
    ensures ByteAt(b, x, 0) == b[0]
  {
  }

  lemma NothingFolded(t: Table)
    ensures Fold(t, INITIAL, []) == INITIAL
  {
  }

  lemma InRange(tt: seq<nat>, tPos: nat)
    requires GetFast(tt, tPos).Got?
    ensures tPos < |tt| && GetFast(tt, tPos) == Got(Low(tt[tPos]), High(tt[tPos]))
  {
  }

  /** The run at a place, told by the bytes that are fetched after it. */
  lemma RunFacts(b: seq<byte>, x: byte, p: nat)
    requires p < |b|
    ensures var q, r := NextRun(b, p), RunAt(b, x, p);
            && (q < |b| ==> b[q] == ByteAt(b, x, q))
            && (if p + 1 == |b| || ByteAt(b, x, p + 1) != b[p] then r == Run(b[p], 1) && q == p + 1
                else if p + 2 == |b| || ByteAt(b, x, p + 2) != b[p] then r == Run(b[p], 2) && q == p + 2
                else if p + 3 == |b| || ByteAt(b, x, p + 3) != b[p] then r == Run(b[p], 3) && q == p + 3
                else r == Run(b[p], ByteAt(b, x, p + 4) + 4) && q == p + 5)
  {
  }

  lemma EmitByte(b: seq<byte>, x: byte, out: seq<byte>, ch: byte, len: nat, used: nat, k0: byte)
    requires Emitting(b, x, out, ch, len, used, k0) && used <= |b|
    ensures 1 <= used && k0 == b[used - 1] && b != []
  {
  }

  class DState {
    const table: Table
    const saveNblock: nat
    const blockRandomised: bool
    var rNToGo: nat
    var rTPos: nat
    var stateOutCh: byte
    var stateOutLen: nat
    var nblockUsed: nat
    var k0: byte
    var tPos: nat
    var calculatedBlockCRC: bv32
    var out: seq<byte>

    constructor (t: Table, n: nat, randomised: bool)
      ensures table == t && saveNblock == n && blockRandomised == randomised
    {
      table, saveNblock, blockRandomised := t, n, randomised;
      rNToGo, rTPos := 0, 0;
      stateOutCh, stateOutLen, nblockUsed, k0, tPos, calculatedBlockCRC, out := 0, 0, 0, 0, 0, INITIAL, [];
    }

    /** The check so far is that of what is out. */
    ghost predicate CrcOk()
      reads `calculatedBlockCRC, `out
    {
      calculatedBlockCRC == Fold(table, INITIAL, out)
    }

    /** Put out one byte of the current run. */
    method Emit(ghost b: seq<byte>, ghost x: byte, ghost len: nat)
      requires CrcOk() && len > 0 && Emitting(b, x, out, stateOutCh, len, nblockUsed, k0)
      modifies `calculatedBlockCRC, `out
      ensures CrcOk() && out == old(out) + [stateOutCh] && Emitting(b, x, out, stateOutCh, len - 1, nblockUsed, k0)
    {
      hide Emitting, Fold, Update;
      EmitOne(b, x, out, stateOutCh, len, nblockUsed, k0);
      FoldNext(table, INITIAL, out, stateOutCh);
      calculatedBlockCRC := Update(table, calculatedBlockCRC, stateOutCh);
      out := out + [stateOutCh];
    }

    // ----- fetching a byte -----

    /** After `nblockUsed` bytes the walk is as far, and so is the mask. */
    ghost predicate Along(fast: bool, b: seq<byte>, t: seq<nat>, origPtr: nat)
      reads `tPos, `nblockUsed, `rNToGo, `rTPos
    {
      && |t| == |b| > 0 && origPtr < |b| && (forall j | 0 <= j < |t| :: t[j] < |t|)
      && tPos == Walk(t, origPtr, if fast then nblockUsed + 1 else nblockUsed)
      && (blockRandomised ==> Mask(rNToGo, rTPos) == MaskAt(nblockUsed))
    }

    /** The vector is ready, and bytes have been fetched from it as far as the counters say. */
    ghost predicate Underway(v: Vector, b: seq<byte>, x: byte, l: seq<byte>, t: seq<nat>, origPtr: nat)
      reads `tPos, `nblockUsed, `rNToGo, `rTPos, if v.Fast? then {v.tt as object}
        else {v.ll16 as object, v.ll4 as object, v.cftab as object}
    {
      Spells(b, x, l, t, origPtr, blockRandomised) && Ready(v, l, t, origPtr) && Along(v.Fast?, b, t, origPtr)
    }

    /** `BZ_GET_FAST`; the position is always in range. */
    method GetFastByte(tt: array<nat>, ghost b: seq<byte>, ghost l: seq<byte>, ghost t: seq<nat>, ghost origPtr: nat)
        returns (k1: byte)
      requires FastVector(l, t, tt[..]) && |l| == |b| && UndoesRank(l, t) && Along(true, b, t, origPtr)
      modifies `tPos
      ensures k1 == Spelled(l, t, origPtr, nblockUsed) && tPos == Walk(t, origPtr, nblockUsed + 2)
    {
      hide FastVector, UndoesRank, Walk, Low, High, Spelled;
      FastStep(l, t, tt[..], origPtr, nblockUsed);
      InRange(tt[..], tPos);
      tPos := tt[tPos];
      k1 := Low(tPos);
      tPos := High(tPos);
    }

    /** `BZ_GET_SMALL`. */
    method GetSmallByte(ll16: array<nat>, ll4: array<byte>, cftab: array<nat>, ghost b: seq<byte>, ghost l: seq<byte>,
        ghost t: seq<nat>, ghost origPtr: nat) returns (k1: byte)
      requires |l| <= ll16.Length && LLRoom(ll16[..], ll4[..])
        && SmallVector(l, t, Entries(ll16[..], ll4[..]), origPtr) && StartsOf(l, cftab[..])
      requires |l| == |b| && UndoesRank(l, t) && Along(false, b, t, origPtr)
      modifies `tPos
      ensures k1 == Spelled(l, t, origPtr, nblockUsed) && tPos == Walk(t, origPtr, nblockUsed + 1)
    {
      hide SmallVector, UndoesRank, Walk, StartsOf, GetSmall, LLRoom, Entries, Spelled;
      var g := FetchSmall(ll16, ll4, cftab, tPos, l);
      SmallStep(l, t, Entries(ll16[..], ll4[..]), origPtr, nblockUsed, g);
      k1, tPos := g.ch, g.tPos;
    }

    /** `BZ_RAND_UPD_MASK`. */
    method UpdateMask()
      requires rTPos < 512
      modifies `rNToGo, `rTPos
      ensures Mask(rNToGo, rTPos) == Updated(Mask(old(rNToGo), old(rTPos)))
    {
      hide RNum;
      if rNToGo == 0 {
        rNToGo := RNum(rTPos);
        rTPos := rTPos + 1;
        if rTPos == 512 { rTPos := 0; }
      }
      rNToGo := rNToGo - 1;
    }

    /** The next byte of the block, and after the block the one that follows on the walk. */
    method Fetch(v: Vector, ghost b: seq<byte>, ghost x: byte, ghost l: seq<byte>, ghost t: seq<nat>,
        ghost origPtr: nat) returns (k1: byte)
      requires Underway(v, b, x, l, t, origPtr)
      modifies `tPos, `nblockUsed, `rNToGo, `rTPos
      ensures nblockUsed == old(nblockUsed) + 1 && Underway(v, b, x, l, t, origPtr)
      ensures old(nblockUsed) <= |b| ==> k1 == ByteAt(b, x, old(nblockUsed))
    {
      hide Spells, FastVector, SmallVector, UndoesRank, Walk, StartsOf, LLRoom, Entries, Spelled, Updated;
      SpellsGives(b, x, l, t, origPtr, blockRandomised, nblockUsed);
      match v {
        case Fast(tt) => k1 := GetFastByte(tt, b, l, t, origPtr);
        case Small(ll16, ll4, cftab) => k1 := GetSmallByte(ll16, ll4, cftab, b, l, t, origPtr);
      }
      if blockRandomised {
        UpdateMask();
        k1 := Flipped(k1, Mask(rNToGo, rTPos));
      }
      nblockUsed := nblockUsed + 1;
    }

    /** The walk starts at the block's own row, the mask at its first distance. */
    method Start(v: Vector, origPtr: nat, ghost b: seq<byte>, ghost x: byte, ghost l: seq<byte>, ghost t: seq<nat>)
      requires Spells(b, x, l, t, origPtr, blockRandomised) && Ready(v, l, t, origPtr)
      modifies `tPos, `nblockUsed, `rNToGo, `rTPos
      ensures Underway(v, b, x, l, t, origPtr) && nblockUsed == 0
    {
      hide Spells, UndoesRank, SmallVector, StartsOf, Entries, Updated;
      SpellsGives(b, x, l, t, origPtr, blockRandomised, 0);
      match v {
        case Fast(tt) =>
          WordParts(l[origPtr], t[origPtr]);
          tPos := High(tt[origPtr]);
        case Small(_, _, _) => tPos := origPtr;
      }
      nblockUsed := 0;
      rNToGo, rTPos := INIT_MASK.rNToGo, INIT_MASK.rTPos;
      FirstStep(t, origPtr);
    }

    /** The block is set up for output: the first byte is fetched, nothing is out. */
    method Begin(v: Vector, origPtr: nat, ghost b: seq<byte>, ghost x: byte, ghost l: seq<byte>, ghost t: seq<nat>)
      requires Spells(b, x, l, t, origPtr, blockRandomised) && Ready(v, l, t, origPtr) && saveNblock == |b|
      modifies this
      ensures Underway(v, b, x, l, t, origPtr) && CrcOk() && out == []
        && Emitting(b, x, out, stateOutCh, stateOutLen, nblockUsed, k0)
    {
      hide Spells, Ready, Underway, Emitting, Fold, ByteAt;
      SpellsGives(b, x, l, t, origPtr, blockRandomised, 0);
      stateOutLen, stateOutCh, calculatedBlockCRC, out := 0, 0, INITIAL, [];
      Start(v, origPtr, b, x, l, t);
      k0 := Fetch(v, b, x, l, t, origPtr);
      FirstFetched(b, x);
      EmitStart(b, x, k0, stateOutCh);
      NothingFolded(table);
    }

    /** Fetch the bytes of the next run. For a run of one byte its length is not stored: `one` says so. */
    method FetchRunFast(v: Vector, ghost b: seq<byte>, ghost x: byte, ghost l: seq<byte>, ghost t: seq<nat>,
        ghost origPtr: nat) returns (one: bool)
      requires Underway(v, b, x, l, t, origPtr)
      requires saveNblock == |b| && 1 <= nblockUsed <= saveNblock && k0 == b[nblockUsed - 1]
      modifies `tPos, `nblockUsed, `rNToGo, `rTPos, `stateOutCh, `stateOutLen, `k0
      ensures Underway(v, b, x, l, t, origPtr) && nblockUsed == NextRun(b, old(nblockUsed) - 1) + 1
      ensures var r := RunAt(b, x, old(nblockUsed) - 1);
        stateOutCh == r.ch && (if one then r.len == 1 else r.len == stateOutLen >= 2)
      ensures nblockUsed <= |b| ==> k0 == b[nblockUsed - 1]
    {
      hide *;
      RunFacts(b, x, nblockUsed - 1);
      stateOutCh := k0;
      var k1 := Fetch(v, b, x, l, t, origPtr);
      if k1 != k0 {
        k0 := k1;
        return true;
      }
      if nblockUsed == saveNblock + 1 {
        return true;
      }
      one := false;
      stateOutLen := 2;
      k1 := Fetch(v, b, x, l, t, origPtr);
      if nblockUsed == saveNblock + 1 {
        return;
      }
      if k1 != k0 {
        k0 := k1;
        return;
      }
      stateOutLen := 3;
      k1 := Fetch(v, b, x, l, t, origPtr);
      if nblockUsed == saveNblock + 1 {
        return;
      }
      if k1 != k0 {
        k0 := k1;
        return;
      }
      k1 := Fetch(v, b, x, l, t, origPtr);
      stateOutLen := k1 as nat + 4;
      k0 := Fetch(v, b, x, l, t, origPtr);
    }

    /**
     * `unRLE_obuf_to_output_FAST` for blocks that are not randomised: put out as much as there is room for. It reports
     * corruption exactly when the block lacks its last count byte, and once its text, with the byte fetched in place of
     * the count, is out; without corruption, once no more is to come, all of the block's text is out.
     */
    method UnRleFast(v: Vector, availOut0: nat, ghost b: seq<byte>, ghost x: byte, ghost l: seq<byte>,
        ghost t: seq<nat>, ghost origPtr: nat) returns (corrupt: bool, availOut: nat)
      requires Underway(v, b, x, l, t, origPtr) && saveNblock == |b|
      requires CrcOk() && Emitting(b, x, out, stateOutCh, stateOutLen, nblockUsed, k0)
      modifies this
      ensures !corrupt ==>
        Underway(v, b, x, l, t, origPtr) && CrcOk() && Emitting(b, x, out, stateOutCh, stateOutLen, nblockUsed, k0)
      ensures !corrupt ==> availOut == 0 || (nblockUsed == saveNblock + 1 && stateOutLen == 0)
      ensures corrupt ==> End(b, 0) == |b| + 1 && out == Text(b, x, 0)
      ensures |out| - |old(out)| == availOut0 - availOut && old(out) <= out
    {
      hide *;
      EmitDone(b, x, out, stateOutCh, stateOutLen, nblockUsed, k0);
      availOut := availOut0;
      var one := false;
      while true
        invariant Underway(v, b, x, l, t, origPtr) && CrcOk()
        invariant Emitting(b, x, out, stateOutCh, if one then 1 else stateOutLen, nblockUsed, k0)
        invariant |out| - |old(out)| == availOut0 - availOut && old(out) <= out && nblockUsed <= saveNblock + 2
        decreases saveNblock + 2 - nblockUsed
      {
        if one || stateOutLen > 0 {
          if !one {
            while availOut != 0 && stateOutLen != 1
              modifies `calculatedBlockCRC, `out, `stateOutLen
              invariant CrcOk() && stateOutLen >= 1 && Emitting(b, x, out, stateOutCh, stateOutLen, nblockUsed, k0)
              invariant |out| - |old(out)| == availOut0 - availOut && old(out) <= out
              decreases stateOutLen
            {
              Emit(b, x, stateOutLen);
              stateOutLen := stateOutLen - 1;
              availOut := availOut - 1;
            }
            if availOut == 0 { return false, availOut; }
          }
          if availOut == 0 {
            stateOutLen := 1;
            return false, availOut;
          }
          Emit(b, x, 1);
          availOut := availOut - 1;
          one := false;
        }
        EmitDone(b, x, out, stateOutCh, 0, nblockUsed, k0);
        if nblockUsed > saveNblock + 1 { return true, availOut; }
        if nblockUsed == saveNblock + 1 {
          stateOutLen := 0;
          return false, availOut;
        }
        ghost var ch, k00, used := stateOutCh, k0, nblockUsed;
        EmitByte(b, x, out, ch, 0, used, k00);
        one := FetchRunFast(v, b, x, l, t, origPtr);
        EmitRun(b, x, out, ch, used, k00, k0);
        EmitDone(b, x, out, stateOutCh, if one then 1 else stateOutLen, nblockUsed, k0);
      }
    }

    /** Fetch the bytes of the next run. */
    method FetchRun(v: Vector, ghost b: seq<byte>, ghost x: byte, ghost l: seq<byte>, ghost t: seq<nat>,
        ghost origPtr: nat)
      requires Underway(v, b, x, l, t, origPtr)
      requires saveNblock == |b| && 1 <= nblockUsed <= saveNblock && k0 == b[nblockUsed - 1]
      modifies `tPos, `nblockUsed, `rNToGo, `rTPos, `stateOutCh, `stateOutLen, `k0
      ensures Underway(v, b, x, l, t, origPtr) && nblockUsed == NextRun(b, old(nblockUsed) - 1) + 1
      ensures var r := RunAt(b, x, old(nblockUsed) - 1); stateOutCh == r.ch && stateOutLen == r.len
      ensures nblockUsed <= |b| ==> k0 == b[nblockUsed - 1]
    {
      hide *;
      RunFacts(b, x, nblockUsed - 1);
      stateOutLen := 1;
      stateOutCh := k0;
      var k1 := Fetch(v, b, x, l, t, origPtr);
      if nblockUsed == saveNblock + 1 {
        return;
      }
      if k1 != k0 {
        k0 := k1;
        return;
      }
      stateOutLen := 2;
      k1 := Fetch(v, b, x, l, t, origPtr);
      if nblockUsed == saveNblock + 1 {
        return;
      }
      if k1 != k0 {
        k0 := k1;
        return;
      }
      stateOutLen := 3;
      k1 := Fetch(v, b, x, l, t, origPtr);
      if nblockUsed == saveNblock + 1 {
        return;
      }
      if k1 != k0 {
        k0 := k1;
        return;
      }
      k1 := Fetch(v, b, x, l, t, origPtr);
      stateOutLen := k1 as nat + 4;
      k0 := Fetch(v, b, x, l, t, origPtr);
    }

    /**
     * `unRLE_obuf_to_output_SMALL`, and the FAST form for randomised blocks, which is the same loop with bytes fetched
     * from the other vector: the promise is that of the loop above.
     */
    method UnRle(v: Vector, availOut0: nat,
                      ghost b: seq<byte>, ghost x: byte, ghost l: seq<byte>, ghost t: seq<nat>, ghost origPtr: nat)
      returns (corrupt: bool, availOut: nat)
      requires Underway(v, b, x, l, t, origPtr) && saveNblock == |b|
      requires CrcOk() && Emitting(b, x, out, stateOutCh, stateOutLen, nblockUsed, k0)
      modifies this
      ensures !corrupt ==>
        Underway(v, b, x, l, t, origPtr) && CrcOk() && Emitting(b, x, out, stateOutCh, stateOutLen, nblockUsed, k0)
      ensures !corrupt ==> availOut == 0 || (nblockUsed == saveNblock + 1 && stateOutLen == 0)
      ensures corrupt ==> End(b, 0) == |b| + 1 && out == Text(b, x, 0)
      ensures |out| - |old(out)| == availOut0 - availOut && old(out) <= out
    {
      hide *;
      EmitDone(b, x, out, stateOutCh, stateOutLen, nblockUsed, k0);
      availOut := availOut0;
      while true
        invariant Underway(v, b, x, l, t, origPtr) && CrcOk()
          && Emitting(b, x, out, stateOutCh, stateOutLen, nblockUsed, k0)
        invariant |out| - |old(out)| == availOut0 - availOut && old(out) <= out && nblockUsed <= saveNblock + 2
        decreases saveNblock + 2 - nblockUsed
      {
        while availOut != 0 && stateOutLen != 0
          modifies `calculatedBlockCRC, `out, `stateOutLen
          invariant CrcOk() && Emitting(b, x, out, stateOutCh, stateOutLen, nblockUsed, k0)
          invariant |out| - |old(out)| == availOut0 - availOut && old(out) <= out
          decreases stateOutLen
        {
          Emit(b, x, stateOutLen);
          stateOutLen := stateOutLen - 1;
          availOut := availOut - 1;
        }
        if availOut == 0 { return false, availOut; }
        EmitDone(b, x, out, stateOutCh, 0, nblockUsed, k0);
        if nblockUsed == saveNblock + 1 { return false, availOut; }
        if nblockUsed > saveNblock + 1 { return true, availOut; }
        ghost var ch, k00, used := stateOutCh, k0, nblockUsed;
        EmitByte(b, x, out, ch, 0, used, k00);
        FetchRun(v, b, x, l, t, origPtr);
        EmitRun(b, x, out, ch, used, k00, k0);
        EmitDone(b, x, out, stateOutCh, stateOutLen, nblockUsed, k0);
      }
    }

    /** Once the block is out its text has been delivered, and the check is the text's. */
    lemma Finished(b: seq<byte>, x: byte)
      requires CrcOk() && Emitting(b, x, out, stateOutCh, stateOutLen, nblockUsed, k0) && nblockUsed == |b| + 1
        && stateOutLen == 0
      ensures out == Text(b, x, 0) && Finalise(calculatedBlockCRC) == CheckOf(table, Text(b, x, 0)) && End(b, 0) == |b|
    {
      hide Fold, Text, End;
      EmitDone(b, x, out, stateOutCh, stateOutLen, nblockUsed, k0);
    }
  }
}
