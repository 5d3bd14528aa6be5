/** The decompressor over a whole stream: what it makes of any bits at all, and that it makes just that of them. */
module StreamReader {
  import opened Bytes
  import opened CanonicalCode
  import opened BlockCrc
  import opened BlockFormat
  import opened BlockFields
  import opened BlockReader
  import opened BlockDecoder
  import opened BlockOutput

  // ----- what is read -----

  /** The text of a column, if its check is the one that was stored. */
  ghost function Checked(t: Table, c: Column, rest: seq<bit>): Parsed<seq<byte>>
    requires c.origPtr < |c.bytes|
  {
    match ColumnText(c.bytes, c.origPtr, c.randomised)
    case None => Bad
    case Some(text) => if Stored(CheckOf(t, text)) != c.crc then Bad else Ok(text, rest)
  }

  /** What is put out of a block: all of its column, right or wrong, or nothing if the column cannot be read. */
  ghost function BlockOut(bits: seq<bit>, k: nat): seq<byte> {
    var magic := ReadMagic(bits, BLOCK_MAGIC[1..]);
    if !magic.Ok? then []
    else
      var column := ReadColumn(magic.rest, k);
      if !column.Ok? then []
      else ColumnOut(column.value.bytes, column.value.origPtr, column.value.randomised)
  }

  /** The text of a block, after the first byte of its magic number. */
  ghost function BlockText(bits: seq<bit>, t: Table, k: nat): (r: Parsed<seq<byte>>)
    ensures r.Ok? ==> |r.rest| <= |bits|
  {
    var magic :- ReadMagic(bits, BLOCK_MAGIC[1..]);
    var column :- ReadColumn(magic.1, k);
    Checked(t, column.0, column.1)
  }

  /** The end of a stream, after the first byte of its magic number; `out` is the text of its blocks. */
  function Trailer(bits: seq<bit>, out: seq<byte>, combined: bv32): Parsed<seq<byte>> {
    var magic :- ReadMagic(bits, END_MAGIC[1..]);
    var storedCombined :- ReadNumber(magic.1, 4, 0);
    if storedCombined.0 != Stored(combined) then Bad else Ok(out, storedCombined.1)
  }

  /** The blocks still to come, appended to the text of those before, and the trailer. */
  ghost function BlocksText(bits: seq<bit>, t: Table, k: nat, out: seq<byte>, combined: bv32): Parsed<seq<byte>>
    decreases |bits|
  {
    var uc :- Take(bits, 8);
    if uc.0 == END_MAGIC[0] then Trailer(uc.1, out, combined)
    else if uc.0 != BLOCK_MAGIC[0] then Bad
    else
      var text :- BlockText(uc.1, t, k);
      BlocksText(text.1, t, k, out + text.0, Combine(combined, CheckOf(t, text.0)))
  }

  /** All that is put out of the blocks still to come, after `out`, however the stream ends. */
  ghost function BlocksOut(bits: seq<bit>, t: Table, k: nat, out: seq<byte>): seq<byte>
    decreases |bits|
  {
    var uc := Take(bits, 8);
    if !uc.Ok? || uc.value != BLOCK_MAGIC[0] then out
    else
      var text := BlockText(uc.rest, t, k);
      if text.Ok? then BlocksOut(text.rest, t, k, out + text.value) else out + BlockOut(uc.rest, k)
  }

  /** All that is put out of a stream, up to where it ends or turns out to be bad, cut off or overlong. */
  ghost function StreamOut(bits: seq<bit>, t: Table): seq<byte> {
    var magic := ReadMagic(bits, STREAM_MAGIC);
    if !magic.Ok? then []
    else
      var size := Take(magic.rest, 8);
      if !size.Ok? || size.value < HDR_0 + 1 || size.value > HDR_0 + 9 then []
      else BlocksOut(size.rest, t, size.value - HDR_0, [])
  }

  /** The text of a stream, and what follows the stream. */
  ghost function StreamText(bits: seq<bit>, t: Table): Parsed<seq<byte>> {
    var magic :- ReadMagic(bits, STREAM_MAGIC);
    var size :- Take(magic.1, 8);
    if size.0 < HDR_0 + 1 || size.0 > HDR_0 + 9 then Bad else BlocksText(size.1, t, size.0 - HDR_0, [], 0)
  }

  // ----- reading it -----

  lemma DeliveredIs(t: Table, c: Column, rest: seq<bit>, corrupt: bool, text: seq<byte>, crc: bv32)
    requires c.origPtr < |c.bytes| && Delivered(t, c.bytes, c.origPtr, c.randomised, corrupt, text, crc)
    ensures Checked(t, c, rest) == if corrupt || Stored(crc) != c.crc then Bad else Ok(text, rest)
    ensures !corrupt ==> crc == CheckOf(t, text)
    ensures text == ColumnOut(c.bytes, c.origPtr, c.randomised)
  {
    hide ColumnText, ColumnOut, CheckOf, Stored;
    if !corrupt { OutIsText(c.bytes, c.origPtr, c.randomised); }
  }

  /** A block read, put out and checked. What is put out of it is `put`, whether or not the check is passed. */
  method DecompressBlock(src: Source, t: Table, k: nat, small: bool, tt: array<nat>, unzftab: array<nat>)
      returns (r: Read<seq<byte>>, put: seq<byte>, crc: bv32)
    requires src.Valid() && tt != unzftab && tt.Length == 100000 * k <= 900000 && unzftab.Length == 256
    modifies src, src.reader, tt, unzftab
    ensures src.Valid() && Agrees(BlockText(old(src.Rest()), t, k), r, src.Rest())
    ensures put == BlockOut(old(src.Rest()), k) && (r.Done? ==> r.value == put && crc == CheckOf(t, put))
  {
    hide Source.Valid, Source.Rest, ReadMagic, ReadColumn, Loaded, ColumnText, ColumnOut, Delivered, Checked, CheckOf,
      Stored;
    put, crc := [], 0;
    var _ :- ReadMagicBytes(src, BLOCK_MAGIC[1..]);
    ghost var c := ReadColumn(src.Rest(), k);
    var info, l :- ReadBlock(src, k, tt, unzftab);
    LoadedParts(tt[..], unzftab[..], l);
    var corrupt;
    if small {
      corrupt, put, crc := DeliverSmall(t, tt, unzftab, info, l);
    } else {
      corrupt, put, crc := DeliverFast(t, tt, unzftab, info, l);
    }
    DeliveredIs(t, c.value, c.rest, corrupt, put, crc);
    if corrupt || Stored(crc) != info.crc { return Faulty, put, crc; }
    r := Done(put);
  }

  /** The end of a stream, after the first byte of its magic number. */
  method CheckTrailer(src: Source, out: seq<byte>, combined: bv32) returns (r: Read<seq<byte>>)
    requires src.Valid()
    modifies src, src.reader
    ensures src.Valid() && Agrees(Trailer(old(src.Rest()), out, combined), r, src.Rest())
    ensures r.Done? ==> r.value == out
  {
    hide Source.Valid, Source.Rest, ReadMagic, ReadNumber, Stored;
    var _ :- ReadMagicBytes(src, END_MAGIC[1..]);
    var storedCombined :- ReadBigEndian(src, 4);
    if Stored(combined) != storedCombined { return Faulty; }
    r := Done(out);
  }

  lemma BlocksStep(bits: seq<bit>, t: Table, k: nat, out: seq<byte>, combined: bv32)
    ensures BlocksText(bits, t, k, out, combined) ==
            var uc := Take(bits, 8);
            if !uc.Ok? then Short
            else if uc.value == END_MAGIC[0] then Trailer(uc.rest, out, combined)
            else if uc.value != BLOCK_MAGIC[0] then Bad
            else
              var text := BlockText(uc.rest, t, k);
              if text.Ok? then BlocksText(text.rest, t, k, out + text.value, Combine(combined, CheckOf(t, text.value)))
                else text
    ensures BlocksOut(bits, t, k, out) ==
            var uc := Take(bits, 8);
            if !uc.Ok? || uc.value != BLOCK_MAGIC[0] then out
            else
              var text := BlockText(uc.rest, t, k);
              if text.Ok? then BlocksOut(text.rest, t, k, out + text.value) else out + BlockOut(uc.rest, k)
    ensures Take(bits, 8).Ok? ==> |Take(bits, 8).rest| < |bits|
  {
    hide BlockText, BlockOut, Trailer, CheckOf, Combine;
  }

  /** Nothing put out is taken back, and all that is put out of a good stream is its text. */
  lemma {:induction false} BlocksOutIs(bits: seq<bit>, t: Table, k: nat, out: seq<byte>, combined: bv32)
    ensures out <= BlocksOut(bits, t, k, out)
    ensures BlocksText(bits, t, k, out, combined).Ok? ==>
      BlocksOut(bits, t, k, out) == BlocksText(bits, t, k, out, combined).value
    decreases |bits|
  {
    hide Take, BlockText, BlockOut, BlocksText, BlocksOut, CheckOf, Combine;
    BlocksStep(bits, t, k, out, combined);
    var uc := Take(bits, 8);
    if uc.Ok? && uc.value == BLOCK_MAGIC[0] {
      var text := BlockText(uc.rest, t, k);
      if text.Ok? {
        BlocksOutIs(text.rest, t, k, out + text.value, Combine(combined, CheckOf(t, text.value)));
      }
    }
  }

  /**
   * `BZ2_bzDecompress` over a whole stream, in its FAST and its SMALL form: on any bits at all it puts out what they
   * stand for and leaves alone what follows, or stops with the error the specification stops with. However it ends,
   * `out` is all that has been put out.
   */
  method Decompress(src: Source, t: Table, small: bool) returns (r: Read<seq<byte>>, out: seq<byte>)
    requires src.Valid()
    modifies src, src.reader
    ensures src.Valid() && Agrees(StreamText(old(src.Rest()), t), r, src.Rest())
    ensures out == StreamOut(old(src.Rest()), t) && (r.Done? ==> r.value == out)
  {
    hide Source.Valid, Source.Rest, Take, ReadMagic, BlockText, BlockOut, BlocksText, BlocksOut, Trailer, Combine,
      CheckOf;
    out := [];
    var _ :- ReadMagicBytes(src, STREAM_MAGIC);
    var size :- src.Get(8);
    if size < HDR_0 + 1 || size > HDR_0 + 9 { return Faulty, out; }
    var k := size - HDR_0;
    var tt, unzftab := new nat[100000 * k], new nat[256];
    var combined: bv32 := 0;
    while true
      modifies src, src.reader, tt, unzftab
      invariant src.Valid() && BlocksText(src.Rest(), t, k, out, combined) == StreamText(old(src.Rest()), t)
      invariant BlocksOut(src.Rest(), t, k, out) == StreamOut(old(src.Rest()), t)
      decreases |src.Rest()|
    {
      BlocksStep(src.Rest(), t, k, out, combined);
      var uc :- src.Get(8);
      if uc == END_MAGIC[0] {
        r := CheckTrailer(src, out, combined);
        return;
      }
      if uc != BLOCK_MAGIC[0] { return Faulty, out; }
      var text, put, crc := DecompressBlock(src, t, k, small, tt, unzftab);
      out := out + put;
      if text.IsFailure() { return text.PropagateFailure(), out; }
      combined := Combine(combined, crc);
    }
  }
}
