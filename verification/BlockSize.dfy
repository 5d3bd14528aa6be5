/** How many bits a block can take: the compressor writes them behind the block, into what is left of the same array. */
module BlockSize {
  import opened Bytes
  import opened CanonicalCode
  import opened ZeroRuns
  import opened MtfCoder
  import opened BlockFormat
  import opened BlockData
  import opened BlockFields

  const BZ_N_OVERSHOOT := 34

  lemma {:induction false} BitsOfLength(v: nat, n: nat)
    ensures |BitsOf(v, n)| == n
  {
    if n > 0 { BitsOfLength(v / 2, n - 1); }
  }

  lemma {:induction false} FlagBitsLength(fs: seq<bool>)
    ensures |FlagBits(fs)| == |fs|
  {
    if fs != [] { FlagBitsLength(fs[1..]); }
  }

  lemma {:induction false} RowBitsAtMost(inUse: seq<bool>, i: nat)
    requires |inUse| == 256 && i <= 16
    ensures |RowBits(inUse, i)| <= 16 * (16 - i)
    decreases 16 - i
  {
    hide FlagBits, RowUsed;
    if i < 16 {
      FlagBitsLength(inUse[16 * i..16 * i + 16]);
      RowBitsAtMost(inUse, i + 1);
    }
  }

  lemma MapBitsAtMost(inUse: seq<bool>)
    requires |inUse| == 256
    ensures |MapBits(inUse)| <= 272
  {
    hide FlagBits, RowBits;
    FlagBitsLength(RowsUsed(inUse));
    RowBitsAtMost(inUse, 0);
  }

  lemma {:induction false} UnaryBitsLength(j: nat)
    ensures |UnaryBits(j)| == j + 1
  {
    if j > 0 { UnaryBitsLength(j - 1); }
  }

  lemma {:induction false} UnariesBitsAtMost(js: seq<nat>, n: nat)
    requires AllBelow(js, n) && n <= 6
    ensures |UnariesBits(js)| <= 6 * |js|
  {
    if js != [] {
      UnaryBitsLength(js[0]);
      UnariesBitsAtMost(js[1..], n);
    }
  }

  lemma {:induction false} DeltaBitsAtMost(curr: nat, want: nat)
    requires 1 <= curr <= 20 && 1 <= want <= 20
    ensures |DeltaBits(curr, want)| == 1 + 2 * (if curr < want then want - curr else curr - want)
    decreases if curr < want then want - curr else curr - want
  {
    if curr < want { DeltaBitsAtMost(curr + 1, want); } else if curr > want { DeltaBitsAtMost(curr - 1, want); }
  }

  lemma {:induction false} DeltasBitsAtMost(curr: nat, lens: seq<nat>)
    requires 1 <= curr <= 20 && AllLengths(lens)
    ensures |DeltasBits(curr, lens)| <= 39 * |lens|
    decreases |lens|
  {
    hide DeltaBits;
    if lens != [] {
      DeltaBitsAtMost(curr, lens[0]);
      DeltasBitsAtMost(lens[0], lens[1..]);
    }
  }

  lemma {:induction false} TablesBitsAtMost(tables: seq<seq<nat>>, alphaSize: nat)
    requires TablesOk(tables, alphaSize) && alphaSize <= 258 && forall t | 0 <= t < |tables| :: tables[t] != []
    ensures |TablesBits(tables)| <= 10067 * |tables|
  {
    hide DeltasBits, BitsOf;
    if tables != [] {
      BitsOfLength(tables[0][0], 5);
      DeltasBitsAtMost(tables[0][0], tables[0]);
      TablesBitsAtMost(tables[1..], alphaSize);
    }
  }

  lemma WordAtMost(length: seq<nat>, s: nat)
    requires CodeOk(length) && s < |length|
    ensures |Word(length, s)| <= 20
  {
    hide Codeword;
  }

  lemma {:induction false} DataBitsAtMost(syms: seq<nat>, k: nat, tables: seq<seq<nat>>, sel: seq<byte>, alphaSize: nat)
    requires CodesOk(tables, alphaSize) && Selects(sel, |tables|, |syms|) && k <= |syms| && AllBelow(syms, alphaSize)
    ensures |DataBits(syms, k, tables, sel, alphaSize)| <= 20 * (|syms| - k)
    decreases |syms| - k
  {
    hide Word;
    if k < |syms| {
      WordAtMost(TableFor(tables, sel, k), syms[k]);
      DataBitsAtMost(syms, k + 1, tables, sel, alphaSize);
    }
  }

  lemma SelectorBitsAtMost(sel: seq<byte>, nGroups: nat)
    requires nGroups <= 6 && AllIn(Identity(nGroups), sel)
    ensures |SelectorBits(sel, nGroups)| <= 18 + 6 * |sel|
  {
    hide BitsOf, UnariesBits, Positions, Identity;
    BitsOfLength(nGroups, 3);
    BitsOfLength(|sel|, 15);
    UnariesBitsAtMost(Positions(sel, Identity(nGroups)), nGroups);
  }

  /** The bits of a block, for its numbers of selectors and symbols. */
  lemma BlockBitsAtMost(h: Head, syms: seq<nat>)
    requires DataOk(h, syms)
    ensures |BlockBits(h, syms)| <= 60749 + 6 * |h.groups.selectors| + 20 * |syms|
  {
    hide BitsOf, MapBits, SelectorBits, TablesBits, DataBits, UseCount, CodesOk, Identity;
    BitsOfLength(h.crc, 32);
    BitsOfLength(h.origPtr, 24);
    MapBitsAtMost(h.inUse);
    SelectorBitsAtMost(h.groups.selectors, h.groups.nGroups);
    UseAtMost(h.inUse);
    TablesBitsAtMost(h.tables, AlphaSize(h.inUse));
    DataBitsAtMost(syms, 0, h.tables, h.groups.selectors, AlphaSize(h.inUse));
  }

  /** The bytes of the array behind a block of `nblock` bytes. */
  function RoomBehind(k: nat, nblock: nat): int {
    4 * (100000 * k + BZ_N_OVERSHOOT) - nblock
  }

  /**
   * A block with its magic number fits the room behind it, with 151 bits to spare: for those left from the block
   * before, a stream header, and a trailer filled up to bytes.
   */
  lemma BlockFits(h: Head, syms: seq<nat>, k: nat, nblock: nat)
    requires 1 <= k && DataOk(h, syms) && nblock <= 100000 * k - 10 && |syms| <= nblock + 1
      && |h.groups.selectors| <= |syms| / G_SIZE + 1
    ensures 48 + |BlockBits(h, syms)| + 151 <= 8 * RoomBehind(k, nblock)
  {
    hide BlockBits, DataOk;
    BlockBitsAtMost(h, syms);
  }
}
