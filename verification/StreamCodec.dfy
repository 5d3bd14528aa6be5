/** A stream that was written is read back as the texts of its blocks. */
module StreamCodec {
  import opened Arithmetic
  import opened Bytes
  import opened BlockSort
  import opened InverseBwt
  import opened BwtDecoder
  import opened ZeroRuns
  import opened CanonicalCode
  import opened BitStream
  import opened BlockFormat
  import opened BlockFields
  import opened BlockWriter
  import opened BlockEncoder
  import opened BlockOutput
  import opened RunLength
  import opened BlockCrc
  import opened Randomiser
  import opened RunDecoder
  import opened StreamReader
  import opened StreamFormat

  /** The blocks from number `i` on. */
  ghost function FromBits(parts: seq<Part>, i: nat): seq<bit>
    requires PartsOk(parts) && i <= |parts|
    decreases |parts| - i
  {
    if i == |parts| then [] else PartBits(parts[i]) + FromBits(parts, i + 1)
  }

  lemma {:induction false} FromStart(parts: seq<Part>, i: nat)
    requires PartsOk(parts) && i <= |parts|
    ensures BlocksBits(parts) == BlocksBits(parts[..i]) + FromBits(parts, i)
    decreases |parts| - i
  {
    hide PartBits;
    if i == |parts| {
      assert parts[..i] == parts;
    } else {
      FromStart(parts, i + 1);
      assert parts[..i + 1][..i] == parts[..i];
      Regrouped(BlocksBits(parts[..i]), PartBits(parts[i]), FromBits(parts, i + 1));
    }
  }

  /** The input is such a stream, followed by `tail`. */
  ghost predicate Is(bits: seq<bit>, t: Table, k: nat, parts: seq<Part>, blocks: seq<Block>, tail: seq<bit>) {
    && 1 <= k <= 9 && Stands(parts, blocks) && PartsOk(parts) && AllSound(t, k, blocks)
    && bits == StreamBits(k, parts, CombinedOf(blocks)) + tail
  }

  /** `i` blocks have been read and put out. */
  ghost predicate AtBlock(bits: seq<bit>, t: Table, k: nat, parts: seq<Part>, blocks: seq<Block>, tail: seq<bit>,
      i: nat, out: seq<byte>, combined: bv32) {
    && 1 <= k <= 9 && i <= |parts| == |blocks| && Stands(parts, blocks) && PartsOk(parts) && AllSound(t, k, blocks)
    && bits == FromBits(parts, i) + (TrailerBits(CombinedOf(blocks)) + tail)
    && out == Texts(blocks[..i]) && combined == CombinedOf(blocks[..i])
  }

  lemma NothingYet(blocks: seq<Block>)
    ensures Texts(blocks[..0]) == [] && CombinedOf(blocks[..0]) == 0
  {
  }

  lemma HeaderRead(bits: seq<bit>, t: Table, k: nat, parts: seq<Part>, blocks: seq<Block>, tail: seq<bit>)
    requires Is(bits, t, k, parts, blocks, tail)
    ensures 1 <= k <= 9 && ReadMagic(bits, STREAM_MAGIC).Ok?
    ensures Take(ReadMagic(bits, STREAM_MAGIC).rest, 8).Ok?
    ensures Take(ReadMagic(bits, STREAM_MAGIC).rest, 8).value == HDR_0 + k
    ensures AtBlock(Take(ReadMagic(bits, STREAM_MAGIC).rest, 8).rest, t, k, parts, blocks, tail, 0, [], 0)
  {
    hide Take, ReadMagic, BytesToBits, BitsOf, Pow2, PartsOk, Stands, AllSound, BlocksBits, TrailerBits, FromBits;
    var body := BlocksBits(parts) + TrailerBits(CombinedOf(blocks)) + tail;
    FromStart(parts, 0);
    NoParts(blocks);
    assert parts[..0] == [] && [] + FromBits(parts, 0) == FromBits(parts, 0);
    Regrouped(BlocksBits(parts), TrailerBits(CombinedOf(blocks)), tail);
    assert bits == BytesToBits(STREAM_MAGIC) + (BitsOf(HDR_0 + k, 8) + body);
    MagicWritten(STREAM_MAGIC, BitsOf(HDR_0 + k, 8) + body);
    PowEight();
    TakeWritten(HDR_0 + k, 8, body);
    StandsSize(parts, blocks);
    NothingYet(blocks);
  }

  /** The first byte of a magic number, read before the others. */
  lemma MagicByte(magic: seq<byte>, tail: seq<bit>)
    requires magic != []
    ensures Take(BytesToBits(magic) + tail, 8) == Ok(magic[0], BytesToBits(magic[1..]) + tail)
    ensures ReadMagic(BytesToBits(magic[1..]) + tail, magic[1..]) == Ok((), tail)
  {
    hide Take, ReadMagic, BytesToBits, BitsOf, Pow2;
    FirstByte(magic);
    PowEight();
    assert BitsOf(magic[0], 8) + BytesToBits(magic[1..]) + tail ==
      BitsOf(magic[0], 8) + (BytesToBits(magic[1..]) + tail);
    TakeWritten(magic[0], 8, BytesToBits(magic[1..]) + tail);
    MagicWritten(magic[1..], tail);
  }

  lemma {:induction false} PlainMasked(b: seq<byte>)
    ensures Masked(b, false) == b
  {
  }

  /** The own row of a block among its sorted rotations gives the block back. */
  lemma BlockIs(block: seq<byte>, ptr: seq<nat>, o: nat)
    requires SortedRotations(block, ptr) && o < |block| == |ptr| && ptr[o] == 0
    ensures BlockOf(LastColumn(block, ptr), o, false) == block
  {
    hide SortedRotations, UndoesRank, Spells, BlockOf, LastColumn, Masked;
    PlainMasked(block);
    var l := LastColumn(block, ptr);
    var t := RowsOf(l);
    SortedSpells(block, ptr, t, o, false);
    SpellsIs(block, Unmasked(false, |block|, block[0]), l, t, o, false);
  }

  lemma OutputOf(l: seq<byte>, o: nat, b: seq<byte>)
    requires o < |l| && BlockOf(l, o, false) == b && End(b, 0) == |b|
    ensures ColumnText(l, o, false) == Some(TextOf(b))
  {
    hide BlockOf, End, Text;
  }

  /** A block of the encoder is read and put out as its text, and passes its check. */
  lemma BlockTextIs(p: Part, t: Table, k: nat, blk: Block, rest: seq<bit>)
    requires 1 <= k <= 9 && StandsFor(p.h, p.syms, blk.bytes, Stored(blk.crc)) && Sound(t, k, blk)
    ensures DataOk(p.h, p.syms) && blk.crc == CheckOf(t, TextOf(blk.bytes))
    ensures BlockText(BytesToBits(BLOCK_MAGIC[1..]) + (BlockBits(p.h, p.syms) + rest), t, k) ==
      Ok(TextOf(blk.bytes), rest)
  {
    hide ReadMagic, BytesToBits, DataOk, StandsFor, Sound, SortedRotations, ReadColumn, BlockBits, TextOf, Stored,
      CheckOf, ColumnText, BlockOf, End, LastColumn;
    StandsData(p.h, p.syms, blk.bytes, Stored(blk.crc));
    SoundParts(t, k, blk);
    MagicWritten(BLOCK_MAGIC[1..], BlockBits(p.h, p.syms) + rest);
    var ptr := BlockReadBack(p.h, p.syms, blk.bytes, Stored(blk.crc), k, rest);
    BlockIs(blk.bytes, ptr, p.h.origPtr);
    OutputOf(LastColumn(blk.bytes, ptr), p.h.origPtr, blk.bytes);
  }

  /** Another block follows: it is read as its text. */
  lemma BlockNext(bits: seq<bit>, t: Table, k: nat, parts: seq<Part>, blocks: seq<Block>, tail: seq<bit>, i: nat,
      out: seq<byte>, combined: bv32) returns (rest: seq<bit>)
    requires AtBlock(bits, t, k, parts, blocks, tail, i, out, combined) && i < |blocks|
    ensures Take(bits, 8).Ok? && Take(bits, 8).value == BLOCK_MAGIC[0]
      && BlockText(Take(bits, 8).rest, t, k) == Ok(TextOf(blocks[i].bytes), rest)
    ensures blocks[i].crc == CheckOf(t, TextOf(blocks[i].bytes))
    ensures AtBlock(rest, t, k, parts, blocks, tail, i + 1, out + TextOf(blocks[i].bytes),
      Combine(combined, blocks[i].crc))
  {
    hide Take, ReadMagic, BytesToBits, BitsOf, DataOk, StandsFor, Sound, BlockText, TrailerBits, BlockBits, TextOf,
      Combine, Stored, CheckOf;
    var p := parts[i];
    rest := FromBits(parts, i + 1) + (TrailerBits(CombinedOf(blocks)) + tail);
    assert bits == BytesToBits(BLOCK_MAGIC) + (BlockBits(p.h, p.syms) + rest);
    MagicByte(BLOCK_MAGIC, BlockBits(p.h, p.syms) + rest);
    BlockTextIs(p, t, k, blocks[i], rest);
    assert blocks[..i + 1] == blocks[..i] + [blocks[i]];
    DoneNext(blocks[..i], blocks[i]);
  }

  /** Nothing but the trailer follows. */
  lemma TrailerNext(bits: seq<bit>, t: Table, k: nat, parts: seq<Part>, blocks: seq<Block>, tail: seq<bit>, i: nat,
      out: seq<byte>, combined: bv32)
    requires AtBlock(bits, t, k, parts, blocks, tail, i, out, combined) && i == |blocks|
    ensures Take(bits, 8).Ok? && Take(bits, 8).value == END_MAGIC[0]
    ensures Trailer(Take(bits, 8).rest, out, combined) == Ok(Texts(blocks), tail)
  {
    hide Take, ReadMagic, ReadNumber, BytesToBits, BitsOf, Pow2, Stands, PartsOk, AllSound, Texts, CombinedOf, Stored;
    var c := BitsOf(Stored(CombinedOf(blocks)), 32);
    assert blocks[..i] == blocks;
    assert FromBits(parts, i) == [];
    assert bits == BytesToBits(END_MAGIC) + (c + tail);
    MagicByte(END_MAGIC, c + tail);
    Pow24();
    NumberWritten(Stored(CombinedOf(blocks)), 4, tail);
  }

  lemma BlocksLeft(bits: seq<bit>, t: Table, k: nat, parts: seq<Part>, blocks: seq<Block>, tail: seq<bit>, i: nat,
      out: seq<byte>, combined: bv32)
    requires AtBlock(bits, t, k, parts, blocks, tail, i, out, combined)
    ensures i <= |blocks| == |parts|
  {
    hide Stands, PartsOk, AllSound;
  }

  lemma {:induction false} BlocksRead(bits: seq<bit>, t: Table, k: nat, parts: seq<Part>, blocks: seq<Block>,
      tail: seq<bit>, i: nat, out: seq<byte>, combined: bv32)
    requires AtBlock(bits, t, k, parts, blocks, tail, i, out, combined)
    ensures BlocksText(bits, t, k, out, combined) == Ok(Texts(blocks), tail)
    decreases |blocks| - i
  {
    hide Take, AtBlock, BlocksText, BlockText, Trailer, Texts, TextOf, Combine, CheckOf;
    BlocksLeft(bits, t, k, parts, blocks, tail, i, out, combined);
    BlocksStep(bits, t, k, out, combined);
    if i < |blocks| {
      var rest := BlockNext(bits, t, k, parts, blocks, tail, i, out, combined);
      BlocksRead(rest, t, k, parts, blocks, tail, i + 1, out + TextOf(blocks[i].bytes),
        Combine(combined, blocks[i].crc));
    } else {
      TrailerNext(bits, t, k, parts, blocks, tail, i, out, combined);
    }
  }

  /** A stream that was written is read as the texts of its blocks, and what follows it is left. */
  lemma StreamRead(bits: seq<bit>, t: Table, k: nat, parts: seq<Part>, blocks: seq<Block>, tail: seq<bit>)
    requires Is(bits, t, k, parts, blocks, tail)
    ensures StreamText(bits, t) == Ok(Texts(blocks), tail)
  {
    hide Take, ReadMagic, Is, AtBlock, BlocksText, Texts;
    HeaderRead(bits, t, k, parts, blocks, tail);
    BlocksRead(Take(ReadMagic(bits, STREAM_MAGIC).rest, 8).rest, t, k, parts, blocks, tail, 0, [], 0);
  }
}
