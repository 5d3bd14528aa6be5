/** The format of a compressed stream: header, blocks and trailer, and the blocks that its parts stand for. */
module StreamFormat {
  import opened Bytes
  import opened CanonicalCode
  import opened RunLength
  import opened BlockCrc
  import opened BitStream
  import opened BlockFields
  import opened BlockEncoder

  /** A finished block: its bytes, the bytes in use, and the check of its text. */
  datatype Block = Block(bytes: seq<byte>, used: seq<bool>, crc: bv32)

  ghost predicate Marks(used: seq<bool>, bytes: seq<byte>) {
    |used| == 256 && forall c: byte :: used[c] <==> c in bytes
  }

  /** A block that the decoder reads to its end, with the check it computes, and that has room in the arrays. */
  ghost predicate Sound(t: Table, k: nat, b: Block) {
    && 0 < |b.bytes| <= 100000 * k && End(b.bytes, 0) == |b.bytes| && b.crc == CheckOf(t, TextOf(b.bytes))
    && Marks(b.used, b.bytes)
  }

  ghost function Texts(bs: seq<Block>): seq<byte> {
    if bs == [] then [] else Texts(bs[..|bs| - 1]) + TextOf(bs[|bs| - 1].bytes)
  }

  function CombinedOf(bs: seq<Block>): bv32 {
    if bs == [] then 0 else Combine(CombinedOf(bs[..|bs| - 1]), bs[|bs| - 1].crc)
  }

  lemma DoneNext(done: seq<Block>, b: Block)
    ensures Texts(done + [b]) == Texts(done) + TextOf(b.bytes)
    ensures CombinedOf(done + [b]) == Combine(CombinedOf(done), b.crc)
  {
    hide Text, Combine;
    assert (done + [b])[..|done|] == done;
  }

  // ----- the parts of a stream -----

  /** Head and symbols of a block of the stream. */
  datatype Part = Part(h: Head, syms: seq<nat>)

  ghost predicate PartsOk(parts: seq<Part>) {
    forall i | 0 <= i < |parts| :: DataOk(parts[i].h, parts[i].syms)
  }

  ghost function PartBits(p: Part): seq<bit>
    requires DataOk(p.h, p.syms)
  {
    BytesToBits(BLOCK_MAGIC) + BlockBits(p.h, p.syms)
  }

  ghost function BlocksBits(parts: seq<Part>): seq<bit>
    requires PartsOk(parts)
  {
    if parts == [] then [] else BlocksBits(parts[..|parts| - 1]) + PartBits(parts[|parts| - 1])
  }

  function HeaderBits(k: nat): seq<bit>
    requires 1 <= k <= 9
  {
    BytesToBits(STREAM_MAGIC) + BitsOf(HDR_0 + k, 8)
  }

  function TrailerBits(combined: bv32): seq<bit> {
    BytesToBits(END_MAGIC) + BitsOf(Stored(combined), 32)
  }

  ghost function StreamBits(k: nat, parts: seq<Part>, combined: bv32): seq<bit>
    requires 1 <= k <= 9 && PartsOk(parts)
  {
    HeaderBits(k) + (BlocksBits(parts) + TrailerBits(combined))
  }

  /** The parts of the stream stand for these blocks. */
  ghost predicate Stands(parts: seq<Part>, blocks: seq<Block>) {
    |parts| == |blocks|
      && forall i | 0 <= i < |parts| :: StandsFor(parts[i].h, parts[i].syms, blocks[i].bytes, Stored(blocks[i].crc))
  }

  ghost predicate AllSound(t: Table, k: nat, blocks: seq<Block>) {
    forall i | 0 <= i < |blocks| :: Sound(t, k, blocks[i])
  }

  lemma SoundParts(t: Table, k: nat, b: Block)
    requires Sound(t, k, b)
    ensures 0 < |b.bytes| <= 100000 * k && |b.used| == 256 && (forall c: byte :: b.used[c] <==> c in b.bytes)
    ensures End(b.bytes, 0) == |b.bytes| && b.crc == CheckOf(t, TextOf(b.bytes))
  {
    hide End, TextOf, CheckOf;
  }

  lemma BlocksMore(parts: seq<Part>, p: Part)
    requires PartsOk(parts) && DataOk(p.h, p.syms)
    ensures PartsOk(parts + [p]) && BlocksBits(parts + [p]) == BlocksBits(parts) + PartBits(p)
  {
    hide DataOk, PartBits;
    assert (parts + [p])[..|parts|] == parts;
  }

  lemma StandsData(h: Head, syms: seq<nat>, block: seq<byte>, crc: nat)
    requires StandsFor(h, syms, block, crc)
    ensures DataOk(h, syms)
  {
    hide DataOk;
  }

  lemma NoParts(blocks: seq<Block>)
    ensures Stands([], blocks[..0]) && PartsOk([]) && BlocksBits([]) == []
  {
  }

  lemma PartIs(start: seq<bit>, p: Part)
    requires DataOk(p.h, p.syms)
    ensures start + BytesToBits(BLOCK_MAGIC) + BlockBits(p.h, p.syms) == start + PartBits(p)
  {
    hide DataOk, BlockBits, BytesToBits;
  }

  lemma StandsSize(parts: seq<Part>, blocks: seq<Block>)
    requires Stands(parts, blocks)
    ensures |parts| == |blocks|
  {
    hide StandsFor;
  }

  /** Bytes that hold a stream, the last of them filled up. */
  ghost predicate IsStream(bytes: seq<byte>, k: nat, parts: seq<Part>, combined: bv32)
    requires 1 <= k <= 9 && PartsOk(parts)
  {
    exists pad: seq<bit> :: |pad| < 8 && BytesToBits(bytes) == StreamBits(k, parts, combined) + pad
  }

  lemma StandsNext(parts: seq<Part>, blocks: seq<Block>, p: Part, b: Block)
    requires Stands(parts, blocks) && StandsFor(p.h, p.syms, b.bytes, Stored(b.crc))
    ensures Stands(parts + [p], blocks + [b])
  {
    hide StandsFor, Stored;
  }

  lemma PartSize(p: Part)
    requires DataOk(p.h, p.syms)
    ensures |PartBits(p)| == 48 + |BlockBits(p.h, p.syms)|
  {
    hide DataOk, BlockBits;
  }

  /** The bits before, those of the parts and the trailer, put together. */
  lemma StreamWhole(before: seq<bit>, start: seq<bit>, header: seq<bit>, blocks: seq<bit>, trailer: seq<bit>,
      pad: seq<bit>)
    requires before + start == header + blocks
    ensures before + (start + trailer + pad) == header + (blocks + trailer) + pad
  {
    assert before + (start + trailer + pad) == before + start + trailer + pad;
    assert header + blocks + trailer + pad == header + (blocks + trailer) + pad;
  }

  // ----- the first bytes -----

  lemma {:induction false} BitsTellBytes(a: seq<byte>, b: seq<byte>)
    requires |a| == |b| && BytesToBits(a) == BytesToBits(b)
    ensures a == b
  {
    hide BitsOf;
    if a != [] {
      var n := |a| - 1;
      var x, y := BytesToBits(a[..n]), BytesToBits(b[..n]);
      assert BytesToBits(a)[..8 * n] == x && BytesToBits(b)[..8 * n] == y;
      assert BytesToBits(a)[8 * n..] == BitsOf(a[n], 8) && BytesToBits(b)[8 * n..] == BitsOf(b[n], 8);
      BitsTellBytes(a[..n], b[..n]);
      OctetBits(a[n]);
      OctetBits(b[n]);
      assert a == a[..n] + [a[n]] && b == b[..n] + [b[n]];
    }
  }

  lemma OctetBits(b: byte)
    ensures Value(BitsOf(b, 8)) == b
  {
    hide BitsOf, Value;
    PowEight();
    ValueOfBits(b, 8);
  }

  /** Bytes whose bits begin with those of `front` begin with it. */
  lemma BeginsWith(bytes: seq<byte>, front: seq<byte>, rest: seq<bit>)
    requires BytesToBits(bytes) == BytesToBits(front) + rest
    ensures front <= bytes
  {
    hide BytesToBits;
    var n := |front|;
    BytesToBitsConcat(bytes[..n], bytes[n..]);
    assert bytes == bytes[..n] + bytes[n..];
    assert BytesToBits(bytes)[..8 * n] == BytesToBits(front);
    assert BytesToBits(bytes)[..8 * n] == BytesToBits(bytes[..n]);
    BitsTellBytes(bytes[..n], front);
  }

  lemma PartBegins(p: Part)
    requires DataOk(p.h, p.syms)
    ensures PartBits(p) == BytesToBits([0x31, 0x41, 0x59, 0x26, 0x53, 0x59]) + BlockBits(p.h, p.syms)
  {
    hide DataOk, BlockBits, BytesToBits;
  }

  lemma LastPart(parts: seq<Part>)
    requires PartsOk(parts) && parts != []
    ensures var n := |parts| - 1;
      && PartsOk(parts[..n]) && DataOk(parts[n].h, parts[n].syms)
      && BlocksBits(parts) == BlocksBits(parts[..n]) + PartBits(parts[n])
  {
    hide DataOk, PartBits;
  }

  lemma {:induction false} FirstBlock(parts: seq<Part>) returns (rest: seq<bit>)
    requires PartsOk(parts) && parts != []
    ensures BlocksBits(parts) == BytesToBits([0x31, 0x41, 0x59, 0x26, 0x53, 0x59]) + rest
    decreases |parts|
  {
    hide DataOk, BlockBits, BytesToBits, PartBits, BlocksBits, PartsOk;
    var n := |parts| - 1;
    LastPart(parts);
    if n == 0 {
      NoParts([]);
      assert parts[..0] == [];
      PartBegins(parts[0]);
      rest := BlockBits(parts[0].h, parts[0].syms);
    } else {
      rest := FirstBlock(parts[..n]);
      rest := rest + PartBits(parts[n]);
    }
  }

  /**
   * A stream begins with "BZh" and the digit of the block size, and then with the digits of pi if there is a block, and
   * with those of its square root if there is none.
   */
  lemma StreamBegins(bytes: seq<byte>, k: nat, parts: seq<Part>, combined: bv32)
    requires 1 <= k <= 9 && PartsOk(parts) && IsStream(bytes, k, parts, combined)
    ensures [0x42, 0x5a, 0x68, 0x30 + k] +
      (if parts == [] then [0x17, 0x72, 0x45, 0x38, 0x50, 0x90] else [0x31, 0x41, 0x59, 0x26, 0x53, 0x59]) <= bytes
  {
    hide DataOk, BlockBits, BytesToBits, BitsOf, PartBits;
    var pad: seq<bit> :| |pad| < 8 && BytesToBits(bytes) == StreamBits(k, parts, combined) + pad;
    var header: seq<byte> := [0x42, 0x5a, 0x68];
    BytesToBitsNext(header, 0x30 + k);
    assert header + [0x30 + k] == [0x42, 0x5a, 0x68, 0x30 + k];
    var front: seq<byte> := [0x42, 0x5a, 0x68, 0x30 + k];
    var magic: seq<byte>, rest: seq<bit>;
    if parts == [] {
      magic, rest := [0x17, 0x72, 0x45, 0x38, 0x50, 0x90], BitsOf(Stored(combined), 32) + pad;
      assert BlocksBits(parts) == [];
    } else {
      magic := [0x31, 0x41, 0x59, 0x26, 0x53, 0x59];
      rest := FirstBlock(parts);
      rest := rest + TrailerBits(combined) + pad;
    }
    BytesToBitsConcat(front, magic);
    assert BytesToBits(bytes) == BytesToBits(front) + BytesToBits(magic) + rest;
    BeginsWith(bytes, front + magic, rest);
  }
}
