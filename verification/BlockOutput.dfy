/**
 * Putting out a block once its column is loaded: the vector is built and its text fetched, whatever room each call
 * finds, none included.
 */
module BlockOutput {
  import opened Bytes
  import opened InverseBwt
  import opened BwtDecoder
  import opened SmallDecoder
  import opened ZeroRuns
  import opened RunLength
  import opened BlockCrc
  import opened Randomiser
  import opened RunDecoder
  import opened BlockDecoder

  // ----- what a column stands for -----

  lemma SomeRows(l: seq<byte>)
    ensures exists t :: UndoesRank(l, t)
  {
    var t := RowsOf(l);
  }

  /** The map T of a column: there is one and no other. */
  ghost function MapT(l: seq<byte>): (t: seq<nat>)
    ensures UndoesRank(l, t)
  {
    SomeRows(l);
    var t :| UndoesRank(l, t);
    t
  }

  lemma RowsAlone(l: seq<byte>, t: seq<nat>, t': seq<nat>)
    requires UndoesRank(l, t) && UndoesRank(l, t')
    ensures t == t'
  {
    hide Rank;
    forall j | 0 <= j < |l| ensures t[j] == t'[j] {
      var x, y := t[j], t'[j];
      if l[x] < l[y] || (l[x] == l[y] && x < y) {
        RankOrder(l, x, y);
      } else if l[y] < l[x] || (l[x] == l[y] && y < x) {
        RankOrder(l, y, x);
      }
    }
  }

  /** The block that the walk from row `origPtr` of a column spells, unmasked if it is randomised. */
  ghost function BlockOf(l: seq<byte>, origPtr: nat, randomised: bool): (b: seq<byte>)
    requires origPtr < |l|
    ensures |b| == |l|
  {
    seq(|l|, k requires 0 <= k < |l| => Unmasked(randomised, k, Spelled(l, MapT(l), origPtr, k)))
  }

  /** The byte that the walk spells after the block. */
  ghost function ByteAfter(l: seq<byte>, origPtr: nat, randomised: bool): byte
    requires origPtr < |l|
  {
    Unmasked(randomised, |l|, Spelled(l, MapT(l), origPtr, |l|))
  }

  lemma SpellsIs(b: seq<byte>, x: byte, l: seq<byte>, t: seq<nat>, origPtr: nat, randomised: bool)
    requires Spells(b, x, l, t, origPtr, randomised)
    ensures origPtr < |l| && b == BlockOf(l, origPtr, randomised) && x == ByteAfter(l, origPtr, randomised)
  {
    hide UndoesRank, Unmasked, Spelled, MapT;
    RowsAlone(l, t, MapT(l));
  }

  /** The text of a column, unless the block it stands for lacks its last count byte. */
  ghost function ColumnText(l: seq<byte>, origPtr: nat, randomised: bool): Option<seq<byte>>
    requires origPtr < |l|
  {
    var b := BlockOf(l, origPtr, randomised);
    if End(b, 0) == |b| then Some(TextOf(b)) else None
  }

  /** What is put out of a column in any case: if the last count byte is missing, the byte after it is taken for it. */
  ghost function ColumnOut(l: seq<byte>, origPtr: nat, randomised: bool): seq<byte>
    requires origPtr < |l|
  {
    Text(BlockOf(l, origPtr, randomised), ByteAfter(l, origPtr, randomised), 0)
  }

  /** A column that has a text puts out that text. */
  lemma OutIsText(l: seq<byte>, origPtr: nat, randomised: bool)
    requires origPtr < |l| && ColumnText(l, origPtr, randomised).Some?
    ensures ColumnOut(l, origPtr, randomised) == ColumnText(l, origPtr, randomised).value
  {
    hide BlockOf, ByteAfter, End, Text;
    TextAlone(BlockOf(l, origPtr, randomised), ByteAfter(l, origPtr, randomised), 0, 0);
  }

  /** What putting out a block ends in: all that is put out, with the check of its text, or corruption. */
  ghost predicate Delivered(table: Table, l: seq<byte>, origPtr: nat, randomised: bool, corrupt: bool, out: seq<byte>,
      crc: bv32)
    requires origPtr < |l|
  {
    && out == ColumnOut(l, origPtr, randomised) && (corrupt <==> ColumnText(l, origPtr, randomised).None?)
    && (!corrupt ==> crc == CheckOf(table, out))
  }

  lemma OutputIs(table: Table, b: seq<byte>, x: byte, l: seq<byte>, origPtr: nat, randomised: bool, corrupt: bool,
      out: seq<byte>, crc: bv32)
    requires origPtr < |l| && b == BlockOf(l, origPtr, randomised) && x == ByteAfter(l, origPtr, randomised)
    requires out == Text(b, x, 0) && End(b, 0) == if corrupt then |b| + 1 else |b|
    requires !corrupt ==> crc == CheckOf(table, out)
    ensures Delivered(table, l, origPtr, randomised, corrupt, out, crc)
  {
    hide BlockOf, ByteAfter, End, Text, CheckOf;
  }

  // ----- the methods -----

  lemma LoadedParts(tt: seq<nat>, unzftab: seq<nat>, l: seq<byte>)
    requires Loaded(tt, unzftab, l)
    ensures |l| <= |tt| && (forall i | 0 <= i < |l| :: tt[i] == l[i]) && CountsOf(l, unzftab) && |unzftab| == 256
  {
  }

  lemma VectorParts(l: seq<byte>, t: seq<nat>, tt: seq<nat>)
    requires FastVector(l, t, tt)
    ensures UndoesRank(l, t)
  {
  }

  lemma SmallParts(l: seq<byte>, t: seq<nat>, ll: seq<nat>, o: nat)
    requires SmallVector(l, t, ll, o)
    ensures UndoesRank(l, t) && o < |l| <= |ll|
  {
  }

  /** More text is out, and never more than there is. */
  lemma OutWithin(b: seq<byte>, x: byte, out: seq<byte>, ch: byte, len: nat, used: nat, k0: byte)
    requires Emitting(b, x, out, ch, len, used, k0)
    ensures |out| <= |Text(b, x, 0)|
  {
    hide Text, End;
    EmitDone(b, x, out, ch, len, used, k0);
  }

  /** A block whose vector is built, put out call by call. Calls may find no room, but not for ever. */
  method Deliver(table: Table, v: Vector, info: BlockInfo, ghost l: seq<byte>, ghost t: seq<nat>)
    returns (corrupt: bool, text: seq<byte>, crc: bv32)
    requires info.origPtr < info.nblock == |l| && UndoesRank(l, t) && Ready(v, l, t, info.origPtr)
    ensures Delivered(table, l, info.origPtr, info.randomised, corrupt, text, crc)
  {
    hide Ready, UndoesRank, Spells, Emitting, Text, End, Fold, CheckOf, Finalise, DState.Underway, BlockOf,
      ByteAfter, Delivered;
    ghost var b, x := SomethingSpelled(l, t, info.origPtr, info.randomised);
    SpellsIs(b, x, l, t, info.origPtr, info.randomised);
    var d := new DState(table, info.nblock, info.randomised);
    d.Begin(v, info.origPtr, b, x, l, t);
    corrupt := false;
    var idle: nat := *; // so many calls may find no room before one does
    while !(d.nblockUsed == d.saveNblock + 1 && d.stateOutLen == 0)
      modifies d
      invariant d.Underway(v, b, x, l, t, info.origPtr) && d.CrcOk()
      invariant Emitting(b, x, d.out, d.stateOutCh, d.stateOutLen, d.nblockUsed, d.k0)
      decreases |Text(b, x, 0)| - |d.out|, d.nblockUsed != d.saveNblock + 1 || d.stateOutLen != 0, idle
    {
      OutWithin(b, x, d.out, d.stateOutCh, d.stateOutLen, d.nblockUsed, d.k0);
      var room: nat :| idle == 0 ==> room > 0;
      var left;
      if v.Fast? && !d.blockRandomised {
        corrupt, left := d.UnRleFast(v, room, b, x, l, t, info.origPtr);
      } else {
        corrupt, left := d.UnRle(v, room, b, x, l, t, info.origPtr);
      }
      if corrupt {
        text, crc := d.out, d.calculatedBlockCRC;
        OutputIs(table, b, x, l, info.origPtr, info.randomised, corrupt, text, crc);
        return;
      }
      OutWithin(b, x, d.out, d.stateOutCh, d.stateOutLen, d.nblockUsed, d.k0);
      if room > 0 { idle := *; } else { idle := idle - 1; }
    }
    d.Finished(b, x);
    text, crc := d.out, Finalise(d.calculatedBlockCRC);
    OutputIs(table, b, x, l, info.origPtr, info.randomised, corrupt, text, crc);
  }

  /** A block whose column is in `tt`, put out by way of the FAST vector. */
  method DeliverFast(table: Table, tt: array<nat>, unzftab: array<nat>, info: BlockInfo, ghost l: seq<byte>)
    returns (corrupt: bool, text: seq<byte>, crc: bv32)
    requires tt != unzftab && Loaded(tt[..], unzftab[..], l) && info.origPtr < info.nblock == |l|
    modifies tt
    ensures Delivered(table, l, info.origPtr, info.randomised, corrupt, text, crc)
  {
    hide Loaded, CountsOf, StartsOf, FastVector, UndoesRank, Delivered;
    LoadedParts(tt[..], unzftab[..], l);
    var ok, cftab := BuildCftab(unzftab, info.nblock, l);
    ghost var t := BuildFast(tt, cftab, info.nblock, l);
    VectorParts(l, t, tt[..]);
    corrupt, text, crc := Deliver(table, Fast(tt), info, l, t);
  }

  /** The same by way of the SMALL vector. */
  method DeliverSmall(table: Table, ll16: array<nat>, unzftab: array<nat>, info: BlockInfo, ghost l: seq<byte>)
    returns (corrupt: bool, text: seq<byte>, crc: bv32)
    requires ll16 != unzftab && Loaded(ll16[..], unzftab[..], l) && info.origPtr < info.nblock == |l| <= 900000
    modifies ll16
    ensures Delivered(table, l, info.origPtr, info.randomised, corrupt, text, crc)
  {
    hide Loaded, CountsOf, StartsOf, SmallVector, RanksStored, UndoesRank, Entries, Delivered;
    LoadedParts(ll16[..], unzftab[..], l);
    var ok, cftab := BuildCftab(unzftab, info.nblock, l);
    var ll4 := new byte[(1 + ll16.Length) / 2](_ => 0);
    BuildSmall(ll16, ll4, cftab, info.nblock, l);
    ghost var t := RowsOf(l);
    ReversePointers(ll16, ll4, info.origPtr, l, t);
    SmallParts(l, t, Entries(ll16[..], ll4[..]), info.origPtr);
    corrupt, text, crc := Deliver(table, Small(ll16, ll4, cftab), info, l, t);
  }
}
