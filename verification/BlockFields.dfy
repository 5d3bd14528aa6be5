/** The fields of a block in their order in the stream: the head, which describes the block, and the data. */
module BlockFields {
  import opened Arithmetic
  import opened Bytes
  import opened CanonicalCode
  import opened ZeroRuns
  import opened MtfCoder
  import opened BitStream
  import opened BlockFormat
  import opened BlockData
  import opened BlockColumn

  const STREAM_MAGIC: seq<byte> := [0x42, 0x5a, 0x68] // "BZh"
  const HDR_0: byte := 0x30
  const BLOCK_MAGIC: seq<byte> := [0x31, 0x41, 0x59, 0x26, 0x53, 0x59]
  const END_MAGIC: seq<byte> := [0x17, 0x72, 0x45, 0x38, 0x50, 0x90]

  // ----- bytes and numbers -----

  /** Bytes that must be these. */
  function ReadMagic(bits: seq<bit>, magic: seq<byte>): (r: Parsed<()>)
    ensures r.Ok? ==> |r.rest| <= |bits|
    decreases |magic|
  {
    if magic == [] then Ok((), bits)
    else
      var uc :- Take(bits, 8);
      if uc.0 != magic[0] then Bad else ReadMagic(uc.1, magic[1..])
  }

  lemma NoBytes()
    ensures BytesToBits([]) == []
  {
  }

  lemma {:induction false} MagicWritten(magic: seq<byte>, tail: seq<bit>)
    ensures ReadMagic(BytesToBits(magic) + tail, magic) == Ok((), tail)
  {
    hide Take, BytesToBits, BitsOf;
    if magic == [] {
      NoBytes();
      assert [] + tail == tail;
    } else {
      FirstByte(magic);
      PowEight();
      TakeWritten(magic[0], 8, BytesToBits(magic[1..]) + tail);
      assert BitsOf(magic[0], 8) + BytesToBits(magic[1..]) + tail ==
        BitsOf(magic[0], 8) + (BytesToBits(magic[1..]) + tail);
      MagicWritten(magic[1..], tail);
    }
  }

  /** A number of `n` bytes, the most significant first. */
  function ReadNumber(bits: seq<bit>, n: nat, acc: nat): (r: Parsed<nat>)
    ensures r.Ok? ==> |r.rest| <= |bits|
    decreases n
  {
    if n == 0 then Ok(acc, bits)
    else
      var uc :- Take(bits, 8);
      ReadNumber(uc.1, n - 1, 256 * acc + uc.0)
  }

  lemma Nothing(acc: nat)
    ensures acc * Pow2(0) + Value([]) == acc
  {
  }

  lemma {:induction false} NumberRead(bits: seq<bit>, n: nat, acc: nat)
    requires |bits| >= 8 * n
    ensures ReadNumber(bits, n, acc) == Ok(acc * Pow2(8 * n) + Value(bits[..8 * n]), bits[8 * n..])
    decreases n
  {
    hide Pow2, Value;
    if n == 0 {
      assert bits[..0] == [] && bits[0..] == bits;
      Nothing(acc);
    } else {
      var m := 8 * (n - 1);
      var first, rest := bits[..8], bits[8..];
      NumberRead(rest, n - 1, 256 * acc + Value(first));
      assert rest[m..] == bits[8 * n..] && bits[..8 * n] == first + rest[..m];
      ValueConcat(first, rest[..m]);
      PowAdd(8, m);
      PowEight();
      Regroup(acc, 256, Pow2(m), Value(first));
    }
  }

  lemma NumberWritten(v: nat, n: nat, tail: seq<bit>)
    requires v < Pow2(8 * n)
    ensures ReadNumber(BitsOf(v, 8 * n) + tail, n, 0) == Ok(v, tail)
  {
    hide Pow2, Value, BitsOf;
    var all := BitsOf(v, 8 * n) + tail;
    NumberRead(all, n, 0);
    assert all[..8 * n] == BitsOf(v, 8 * n) && all[8 * n..] == tail;
    ValueOfBits(v, 8 * n);
  }

  lemma HalfOf(q: nat, p: nat, r: nat)
    ensures q * (2 * p) + r == 2 * (q * p) + r
    ensures (q * (2 * p) + r) / 2 == q * p + r / 2 && (q * (2 * p) + r) % 2 == r % 2
  {
    Regroup(q, p, 2, 0);
  }

  lemma {:induction false} BitsShift(q: nat, r: nat, n: nat, k: nat)
    requires r < Pow2(k)
    ensures BitsOf(q * Pow2(k) + r, n + k) == BitsOf(q, n) + BitsOf(r, k)
    decreases k
  {
    if k == 0 {
      assert BitsOf(q, n) + [] == BitsOf(q, n);
    } else {
      var p := Pow2(k - 1);
      HalfOf(q, p, r);
      BitsShift(q, r / 2, n, k - 1);
    }
  }

  /** The bits of a number: those of its last byte come last. */
  lemma BitsSplit(v: nat, n: nat)
    ensures BitsOf(v, n + 8) == BitsOf(v / 256, n) + BitsOf(v % 256, 8)
  {
    hide BitsOf;
    PowEight();
    BitsShift(v / 256, v % 256, n, 8);
  }

  // ----- the head -----

  datatype Head = Head(crc: nat, randomised: bool, origPtr: nat, inUse: seq<bool>, groups: Groups,
      tables: seq<seq<nat>>)

  function AlphaSize(inUse: seq<bool>): nat
    requires |inUse| == 256
  {
    UseCount(inUse, 256) + 2
  }

  function FrontBits(h: Head): seq<bit> {
    BitsOf(h.crc, 32) + ([FlagBit(h.randomised)] + BitsOf(h.origPtr, 24))
  }

  /** The fields before the map. */
  function ReadFront(bits: seq<bit>, k: nat): (r: Parsed<(nat, bool, nat)>)
    ensures r.Ok? ==> |r.rest| <= |bits|
  {
    var crc :- ReadNumber(bits, 4, 0);
    var randomised :- Take(crc.1, 1);
    var origPtr :- ReadNumber(randomised.1, 3, 0);
    if origPtr.0 > 10 + 100000 * k then Bad else Ok((crc.0, randomised.0 == 1, origPtr.0), origPtr.1)
  }

  lemma FrontWritten(h: Head, k: nat, tail: seq<bit>)
    requires h.crc < Pow2(32) && h.origPtr < Pow2(24) && h.origPtr <= 10 + 100000 * k
    ensures ReadFront(FrontBits(h) + tail, k) == Ok((h.crc, h.randomised, h.origPtr), tail)
  {
    hide Pow2, BitsOf, Take, ReadNumber;
    var a, b, c := BitsOf(h.crc, 32), FlagBit(h.randomised), BitsOf(h.origPtr, 24);
    assert a + ([b] + c) + tail == a + ([b] + (c + tail));
    NumberWritten(h.crc, 4, [b] + (c + tail));
    TakeBit(b, c + tail);
    NumberWritten(h.origPtr, 3, tail);
  }

  /** Heads as the encoder makes them. */
  ghost predicate HeadOk(h: Head) {
    && h.crc < Pow2(32) && h.origPtr < Pow2(24)
    && |h.inUse| == 256 && UseCount(h.inUse, 256) > 0
    && 2 <= h.groups.nGroups <= 6 && AllIn(Identity(h.groups.nGroups), h.groups.selectors)
    && 1 <= |h.groups.selectors| <= MAX_SELECTORS
    && |h.tables| == h.groups.nGroups && TablesOk(h.tables, AlphaSize(h.inUse))
      && forall t | 0 <= t < |h.tables| :: h.tables[t] != []
  }

  function HeadBits(h: Head): seq<bit>
    requires HeadOk(h)
  {
    FrontBits(h) + (MapBits(h.inUse) + (SelectorBits(h.groups.selectors, h.groups.nGroups) + TablesBits(h.tables)))
  }

  /** The fields of a head that come after its front: the map, the selectors and the code lengths. */
  function ReadCodes(bits: seq<bit>): (r: Parsed<(seq<bool>, Groups, seq<seq<nat>>)>)
    ensures r.Ok? ==> |r.rest| <= |bits| && |r.value.0| == 256
  {
    var inUse :- ReadMap(bits);
    var groups :- ReadSelectors(inUse.1);
    var tables :- ReadTables(groups.1, groups.0.nGroups, AlphaSize(inUse.0), []);
    Ok((inUse.0, groups.0, tables.0), tables.1)
  }

  function ReadHead(bits: seq<bit>, k: nat): (r: Parsed<Head>)
    ensures r.Ok? ==> |r.rest| <= |bits| && |r.value.inUse| == 256
  {
    var front :- ReadFront(bits, k);
    var codes :- ReadCodes(front.1);
    Ok(Head(front.0.0, front.0.1, front.0.2, codes.0.0, codes.0.1, codes.0.2), codes.1)
  }

  /** What reading a head promises of it. */
  lemma HeadInRange(bits: seq<bit>, k: nat)
    requires ReadHead(bits, k).Ok?
    ensures var h := ReadHead(bits, k).value;
            && UseCount(h.inUse, 256) > 0 && GroupsOk(h.groups) && |h.tables| == h.groups.nGroups
            && TablesOk(h.tables, AlphaSize(h.inUse))
            && Selects(h.groups.selectors, |h.tables|, 0) && |h.groups.selectors| <= MAX_SELECTORS
  {
    hide ReadFront, ReadSelectors, ReadTables, ReadFlags, ReadRows, UseCount;
    var m := ReadMap(ReadFront(bits, k).rest);
    SelectorsInRange(m.rest);
  }

  lemma HeadWritten(h: Head, k: nat, tail: seq<bit>)
    requires HeadOk(h) && h.origPtr <= 10 + 100000 * k
    ensures ReadHead(HeadBits(h) + tail, k) == Ok(h, tail)
  {
    hide Pow2, FrontBits, ReadFront, MapBits, ReadMap, SelectorBits, ReadSelectors, TablesBits, ReadTables, UseCount,
      Identity;
    var a, b, c, d := FrontBits(h), MapBits(h.inUse), SelectorBits(h.groups.selectors, h.groups.nGroups),
      TablesBits(h.tables);
    assert a + (b + (c + d)) + tail == a + (b + (c + (d + tail)));
    FrontWritten(h, k, b + (c + (d + tail)));
    MapWritten(h.inUse, c + (d + tail));
    SelectorsWritten(h.groups.selectors, h.groups.nGroups, d + tail);
    TablesWritten(h.tables, AlphaSize(h.inUse), tail, []);
    assert [] + h.tables == h.tables;
  }

  // ----- the whole block -----

  /** The last column of the sorted rotations, as a block of the stream gives it. */
  datatype Column = Column(crc: nat, randomised: bool, origPtr: nat, bytes: seq<byte>)

  ghost predicate DataOk(h: Head, syms: seq<nat>) {
    && HeadOk(h) && CodesOk(h.tables, AlphaSize(h.inUse)) && Selects(h.groups.selectors, |h.tables|, |syms|)
    && AllBelow(syms, AlphaSize(h.inUse)) && Marked(syms, AlphaSize(h.inUse) - 1)
  }

  ghost function BlockBits(h: Head, syms: seq<nat>): seq<bit>
    requires DataOk(h, syms)
  {
    HeadBits(h) + DataBits(syms, 0, h.tables, h.groups.selectors, AlphaSize(h.inUse))
  }

  lemma UseAtMost(inUse: seq<bool>)
    requires |inUse| == 256
    ensures UseCount(inUse, 256) <= 256
  {
    hide UseCount;
    UseCountGrows(inUse, 0, 256);
    UseCountZero(inUse);
  }

  /** The bytes in use, filled up to 256 places. */
  function Places(inUse: seq<bool>): (u: seq<byte>)
    requires |inUse| == 256
    ensures |u| == 256
  {
    UseAtMost(inUse);
    UsedBytes(inUse, 256) + seq(256 - UseCount(inUse, 256), _ => 0)
  }

  /** What the symbols of a block with this head are read with. */
  function CodingOf(h: Head, k: nat): Coding
    requires |h.inUse| == 256
  {
    Coding(h.tables, h.groups.selectors, UseCount(h.inUse, 256), Places(h.inUse), 100000 * k)
  }

  lemma CodingIsOk(h: Head, k: nat)
    requires |h.inUse| == 256 && UseCount(h.inUse, 256) > 0 && TablesOk(h.tables, AlphaSize(h.inUse))
      && Selects(h.groups.selectors, |h.tables|, 0)
    ensures CodingOk(CodingOf(h, k))
  {
    hide UseCount, TablesOk, Selects;
    UseAtMost(h.inUse);
  }

  /** What the decoder reads as a block after its magic bytes. */
  ghost function ReadColumn(bits: seq<bit>, k: nat): (r: Parsed<Column>)
    ensures r.Ok? ==> |r.rest| <= |bits| && r.value.origPtr < |r.value.bytes|
  {
    var head :- ReadHead(bits, k);
    HeadInRange(bits, k);
    CodingIsOk(head.0, k);
    var bytes :- ReadBytes(head.1, CodingOf(head.0, k), 0, Identity(256), 0, 1, []);
    if head.0.origPtr >= |bytes.0| then Bad else Ok(Column(head.0.crc, head.0.randomised, head.0.origPtr, bytes.0),
      bytes.1)
  }

  /** A block that was written is read as its column. */
  lemma ColumnWritten(h: Head, syms: seq<nat>, column: seq<byte>, k: nat, tail: seq<bit>)
    requires DataOk(h, syms) && h.origPtr < |column| <= 100000 * k <= 900000
      && forall i | 0 <= i < |column| :: h.inUse[column[i]]
    requires UseCount(h.inUse, 256) <= 256 && AllIn(Identity(UseCount(h.inUse, 256)), Numbered(h.inUse, column))
    requires syms == Encoded(Identity(UseCount(h.inUse, 256)), Numbered(h.inUse, column), 0, UseCount(h.inUse, 256) + 1)
    ensures ReadColumn(BlockBits(h, syms) + tail, k) == Ok(Column(h.crc, h.randomised, h.origPtr, column), tail)
  {
    hide HeadBits, ReadHead, DataBits, ReadData, ReadBytes, CodesOk, UseCount, Encoded, Decoded, Identity, UsedBytes,
      Numbered, Unnumbered;
    var eob := AlphaSize(h.inUse) - 1;
    var data := DataBits(syms, 0, h.tables, h.groups.selectors, AlphaSize(h.inUse));
    assert HeadBits(h) + data + tail == HeadBits(h) + (data + tail);
    HeadWritten(h, k, data + tail);
    assert syms[..0] == [];
    DataWritten(syms, 0, h.tables, h.groups.selectors, AlphaSize(h.inUse), eob, tail);
    var u := Places(h.inUse);
    assert u[..UseCount(h.inUse, 256)] == UsedBytes(h.inUse, 256);
    ColumnRoundTrip(h.inUse, u, column);
    CodingIsOk(h, k);
    BytesAre(data + tail, CodingOf(h, k), [], Identity(256), 0, 1, []);
    assert syms[0..] == syms && [] + column == column;
  }
}
