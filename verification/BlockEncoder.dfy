/** `BZ2_compressBlock` from the sorted block to the bits. */
module BlockEncoder {
  import opened Arithmetic
  import opened Bytes
  import opened Permutations
  import opened BlockSort
  import MainCompare
  import MainQuickSort
  import MainSort
  import opened InverseBwt
  import opened CanonicalCode
  import opened MtfList
  import opened ZeroRuns
  import opened MtfCoder
  import opened BitStream
  import opened BlockFormat
  import opened BlockData
  import opened BlockFields
  import opened BlockWriter
  import opened TableChoice

  ghost predicate SortedBy(h: Head, syms: seq<nat>, block: seq<byte>, ptr: seq<nat>)
    requires |h.inUse| == 256
  {
    && SortedRotations(block, ptr) && h.origPtr < |block| == |ptr| && ptr[h.origPtr] == 0
    && (forall i | 0 <= i < |block| :: h.inUse[LastColumn(block, ptr)[i]])
    && UseCount(h.inUse, 256) <= 256 && AllIn(Identity(UseCount(h.inUse, 256)),
      Numbered(h.inUse, LastColumn(block, ptr)))
    && syms == Encoded(Identity(UseCount(h.inUse, 256)), Numbered(h.inUse, LastColumn(block, ptr)), 0,
      UseCount(h.inUse, 256) + 1)
  }

  /**
   * Head and symbols stand for a block: its row among the sorted rotations, its bytes in use, and the symbols of the
   * last column.
   */
  ghost predicate StandsFor(h: Head, syms: seq<nat>, block: seq<byte>, crc: nat) {
    && DataOk(h, syms) && !h.randomised && h.crc == crc && (forall c: byte :: h.inUse[c] <==> c in block)
    && exists ptr: seq<nat> :: SortedBy(h, syms, block, ptr)
  }

  // ----- sorting -----

  lemma SortedSize(b: seq<byte>, ptr: seq<nat>)
    requires SortedRotations(b, ptr)
    ensures |ptr| == |b| > 0 && IsPermutation(ptr) && forall k | 0 <= k < |ptr| :: ptr[k] < |b|
  {
    forall k | 0 <= k < |ptr| ensures ptr[k] < |b| { PermutationInRange(ptr, k); }
  }

  const MAIN_SORT_MIN := 10000

  /** How much work the main sorter may do: `BZ2_blockSort` brings the work factor into 1 .. 100. */
  function Budget(nblock: nat, workFactor: int): (r: nat)
    ensures r <= 33 * nblock
    ensures r == 0 <==> workFactor < 4 || nblock == 0
  {
    var wfact := if workFactor < 1 then 1 else if workFactor > 100 then 100 else workFactor;
    nblock * ((wfact - 1) / 3)
  }

  /** The fallback sorter, with the arrays it needs. */
  method SortByFallback(ptr: array<nat>, block: seq<byte>)
    requires 0 < |block| == ptr.Length < 0x7fff_ffff
    modifies ptr
    ensures SortedRotations(block, ptr[..])
  {
    hide SortedRotations;
    var n := |block|;
    var eclass, eclass8, bhtab := new nat[n], new byte[n](k requires 0 <= k < n => block[k]), new bv32[n / 32 + 3];
    assert eclass8[..] == block;
    FallbackSort(ptr, eclass, eclass8, bhtab);
  }

  /** The main sorter, with the arrays it needs. */
  method SortByMain(ptr: array<nat>, block: seq<byte>, budget0: nat) returns (budget: int)
    requires MAIN_SORT_MIN <= |block| == ptr.Length < MainQuickSort.MAX_ROWS
    modifies ptr
    ensures budget >= 0 ==> SortedRotations(block, ptr[..])
  {
    hide SortedRotations;
    var n := |block|;
    var size := n + MainCompare.OVERSHOOT;
    var bytes := new byte[size](k requires 0 <= k => if k < n then block[k] else 0);
    var quadrant, ftab := new MainCompare.u16[size], new nat[65537];
    assert bytes[..n] == block;
    budget := MainSort.SortRotations(ptr, bytes, quadrant, ftab, n, budget0, block);
  }

  /**
   * `BZ2_blockSort`: short blocks go to the fallback sorter, others to the main sorter, and to the fallback sorter
   * where the main one has used up its budget.
   */
  method SortBlock(block: seq<byte>, workFactor: int) returns (ptr: array<nat>, origPtr: nat)
    requires 0 < |block| < MainQuickSort.MAX_ROWS
    ensures fresh(ptr) && SortedRotations(block, ptr[..]) && origPtr < |block| == ptr.Length && ptr[origPtr] == 0
  {
    hide SortedRotations, IsPermutation;
    ptr := new nat[|block|];
    if |block| < MAIN_SORT_MIN {
      SortByFallback(ptr, block);
    } else {
      var budget := SortByMain(ptr, block, Budget(|block|, workFactor));
      if budget < 0 {
        SortByFallback(ptr, block);
      }
    }
    SortedSize(block, ptr[..]);
    origPtr := FindOrigPtr(ptr);
  }

  /** The pointers seen as halves of 16 bits: the array that pointers and symbols share. */
  method AsHalves(ptr: array<nat>) returns (arr1: array<nat>)
    ensures fresh(arr1) && arr1.Length == 2 * ptr.Length && PointersFrom(arr1[..], ptr[..], 0)
  {
    arr1 := new nat[2 * ptr.Length](_ => 0);
    for k := 0 to ptr.Length
      modifies arr1
      invariant forall i | 0 <= i < k :: arr1[2 * i] + 65536 * arr1[2 * i + 1] == ptr[i]
    {
      arr1[2 * k], arr1[2 * k + 1] := ptr[k] % 65536, ptr[k] / 65536;
    }
    forall k {:trigger ptr[..][k]} | 0 <= k < ptr.Length ensures Ptr(arr1[..], k) == ptr[..][k] {
      assert arr1[2 * k] + 65536 * arr1[2 * k + 1] == ptr[k];
    }
  }

  // ----- the symbols -----

  lemma MarkedAfter(a: seq<nat>, b: seq<nat>, eob: nat)
    requires Marked(b, eob) && forall k | 0 <= k < |a| :: a[k] != eob
    ensures Marked(a + b, eob)
  {
  }

  /** The encoder emits the end marker last, and only there. */
  lemma {:induction false} EncodedMarked(yy: seq<byte>, col: seq<byte>, zp: nat, eob: nat)
    requires AllIn(yy, col) && |yy| >= 1 && eob == |yy| + 1
    ensures Marked(Encoded(yy, col, zp, eob), eob)
    decreases |col|
  {
    hide MoveToFront, Digits, Flush;
    FlushRange(zp);
    if col != [] {
      var j := IndexOf(yy, col[0]);
      if j == 0 {
        EncodedMarked(yy, col[1..], zp + 1, eob);
      } else {
        MoveKeeps(yy, j);
        EncodedMarked(MoveToFront(yy, j), col[1..], 0, eob);
        MarkedAfter(Flush(zp) + [j + 1], Encoded(MoveToFront(yy, j), col[1..], 0, eob), eob);
      }
    } else {
      MarkedAfter(Flush(zp), [eob], eob);
    }
  }

  /**
   * What the symbols of a sorted block are: below the end marker's successor, marked, and no more than the block's
   * bytes and one.
   */
  lemma SymbolsOf(inUse: seq<bool>, column: seq<byte>)
    requires |inUse| == 256 && column != [] && forall k | 0 <= k < |column| :: inUse[column[k]]
    ensures var n := UseCount(inUse, 256);
            && 1 <= n <= 256 && AllIn(Identity(n), Numbered(inUse, column))
            && var syms := Encoded(Identity(n), Numbered(inUse, column), 0, n + 1);
               Marked(syms, n + 1) && AllBelow(syms, n + 2) && 0 < |syms| <= |column| + 1
  {
    hide UseCount, Encoded, Identity, UsedBytes;
    var n, c := UseCount(inUse, 256), Numbered(inUse, column);
    NumberedIn(inUse, column);
    assert c[0] < n;
    var syms := Encoded(Identity(n), c, 0, n + 1);
    EncodedMarked(Identity(n), c, 0, n + 1);
    EncodedRange(Identity(n), c, 0, n + 1);
    EncodedAtMost(Identity(n), c, 0, n + 1);
  }

  lemma NumberedIs(inUse: seq<bool>, column: seq<byte>)
    requires |inUse| == 256 && forall k | 0 <= k < |column| :: inUse[column[k]]
    ensures forall k | 0 <= k < |column| :: Numbered(inUse, column)[k] == UseCount(inUse, column[k])
  {
    hide UseCount;
  }

  /**
   * The bytes that precede the rotations make up the last column; their numbers are what generateMTFValues works on.
   */
  lemma ColumnNumbers(inUse: seq<bool>, block: seq<byte>, ptr: seq<nat>, unseqToSeq: seq<byte>)
    requires |inUse| == 256 && |unseqToSeq| == 256 && SortedRotations(block, ptr)
    requires (forall c: byte :: inUse[c] <==> c in block)
      && forall c: byte | inUse[c] :: unseqToSeq[c] == UseCount(inUse, c)
    ensures |ptr| == |block| && (forall k | 0 <= k < |ptr| :: ptr[k] < |block|)
    ensures var column := LastColumn(block, ptr);
            && (forall k | 0 <= k < |column| :: inUse[column[k]])
            && |Numbered(inUse, column)| == |block|
            && forall k | 0 <= k < |ptr| && ptr[k] < |block| ::
                 Numbered(inUse, column)[k] == unseqToSeq[block[if ptr[k] == 0 then |block| - 1 else ptr[k] - 1]]
  {
    hide SortedRotations, UseCount;
    SortedSize(block, ptr);
    var column := LastColumn(block, ptr);
    forall k | 0 <= k < |column| ensures column[k] in block
      && column[k] == block[if ptr[k] == 0 then |block| - 1 else ptr[k] - 1] {
      assert column[k] == block[Back(ptr[k], 1, |block|)];
    }
    NumberedIs(inUse, column);
  }

  // ----- writing -----

  /** `bsPutUChar`, for the bytes of a magic number. */
  method PutBytes(w: BitWriter, bytes: seq<byte>)
    requires w.Valid()
    modifies w
    ensures w.Valid() && w.Bits() == old(w.Bits()) + BytesToBits(bytes)
  {
    hide BitWriter.Valid, BitWriter.Bits, BytesToBits, BitsOf, Pow2;
    ghost var start := w.Bits();
    PowEight();
    NoBytes();
    assert bytes[..0] == [] && start + [] == start;
    for i := 0 to |bytes|
      invariant w.Valid() && w.Bits() == start + BytesToBits(bytes[..i])
    {
      BytesToBitsNext(bytes[..i], bytes[i]);
      assert bytes[..i + 1] == bytes[..i] + [bytes[i]];
      Regrouped(start, BytesToBits(bytes[..i]), BitsOf(bytes[i], 8));
      w.BsW(8, bytes[i]);
    }
    assert bytes[..|bytes|] == bytes;
  }

  lemma FourBytes(u: nat, start: seq<bit>)
    requires u < 0x1_0000_0000
    ensures start + BitsOf(u / 0x100_0000 % 256, 8) + BitsOf(u / 0x1_0000 % 256, 8) + BitsOf(u / 0x100 % 256, 8)
      + BitsOf(u % 256, 8)
         == start + BitsOf(u, 32)
  {
    hide BitsOf;
    BitsSplit(u, 24);
    BitsSplit(u / 256, 16);
    BitsSplit(u / 256 / 256, 8);
    assert u / 256 / 256 == u / 0x1_0000 && u / 0x1_0000 / 256 == u / 0x100_0000;
    assert u / 0x100_0000 % 256 == u / 0x100_0000;
  }

  /** `bsPutUInt32`. */
  method PutUInt32(w: BitWriter, u: nat)
    requires w.Valid() && u < 0x1_0000_0000
    modifies w
    ensures w.Valid() && w.Bits() == old(w.Bits()) + BitsOf(u, 32)
  {
    hide BitWriter.Valid, BitWriter.Bits, BitsOf, Pow2;
    PowEight();
    FourBytes(u, w.Bits());
    w.BsW(8, u / 0x100_0000 % 256);
    w.BsW(8, u / 0x1_0000 % 256);
    w.BsW(8, u / 0x100 % 256);
    w.BsW(8, u % 256);
  }

  lemma FrontParts(start: seq<bit>, h: Head)
    ensures start + BitsOf(h.crc, 32) + [FlagBit(h.randomised)] + BitsOf(h.origPtr, 24) == start + FrontBits(h)
  {
    hide BitsOf;
  }

  lemma BlockParts(start: seq<bit>, h: Head, syms: seq<nat>)
    requires DataOk(h, syms)
    ensures start + FrontBits(h) + MapBits(h.inUse) + SelectorBits(h.groups.selectors, h.groups.nGroups)
      + TablesBits(h.tables)
            + DataBits(syms, 0, h.tables, h.groups.selectors, AlphaSize(h.inUse)) == start + BlockBits(h, syms)
  {
    hide FrontBits, MapBits, SelectorBits, TablesBits, DataBits;
  }

  /** The last three parts of a block, as sendMTFValues writes them. */
  method SendParts(w: BitWriter, h: Head, mtfv: array<nat>, nMTF: nat)
    requires w.Valid() && nMTF <= mtfv.Length && DataOk(h, mtfv[..nMTF])
    modifies w
    ensures w.Valid()
    ensures w.Bits() == old(w.Bits()) + MapBits(h.inUse) + SelectorBits(h.groups.selectors, h.groups.nGroups)
      + TablesBits(h.tables)
                        + DataBits(mtfv[..nMTF], 0, h.tables, h.groups.selectors, AlphaSize(h.inUse))
  {
    hide BitWriter.Valid, BitWriter.Bits, MapBits, SelectorBits, TablesBits, DataBits, CodeOk, UseCount, Identity, Pow2;
    WriteMap(w, h.inUse);
    WriteSelectors(w, h.groups.selectors, h.groups.nGroups);
    WriteTables(w, h.tables, AlphaSize(h.inUse));
    WriteData(w, mtfv, nMTF, h.groups.selectors, h.tables, AlphaSize(h.inUse));
  }

  lemma NamesIn(sel: seq<byte>, n: nat)
    requires n <= 256 && forall k | 0 <= k < |sel| :: sel[k] < n
    ensures AllIn(Identity(n), sel)
  {
    forall k | 0 <= k < |sel| ensures sel[k] in Identity(n) {
      assert Identity(n)[sel[k]] == sel[k];
    }
  }

  /** With chosen tables and selectors the head is fit to be written. */
  lemma HeadMade(h: Head, syms: seq<nat>, n: nat)
    requires |h.inUse| == 256 && n == UseCount(h.inUse, 256) && n >= 1 && h.crc < 0x1_0000_0000 && h.origPtr <= 900000
    requires Marked(syms, n + 1) && AllBelow(syms, n + 2) && |syms| <= MAX_SYMBOLS
    requires h.groups.nGroups == NumGroups(|syms|) == |h.tables| && CodesOk(h.tables, n + 2)
    requires Selects(h.groups.selectors, |h.tables|, |syms|) && 1 <= |h.groups.selectors| <= |syms| / G_SIZE + 1
    ensures DataOk(h, syms)
  {
    hide UseCount, Identity, CodeOk, Pow2, AllLengths, AllIn, Marked, AllBelow;
    Pow24();
    CodesHaveLengths(h.tables, n + 2);
    NamesIn(h.groups.selectors, h.groups.nGroups);
  }

  lemma TalliedFront(freq: seq<nat>, syms: seq<nat>, n: nat)
    requires Tallied(freq, syms, n)
    ensures n <= |freq| && Tallied(freq[..n], syms, n)
  {
  }

  lemma BlockStands(h: Head, syms: seq<nat>, block: seq<byte>, ptr: seq<nat>, crc: nat)
    requires DataOk(h, syms) && !h.randomised && h.crc == crc && (forall c: byte :: h.inUse[c] <==> c in block)
      && SortedBy(h, syms, block, ptr)
    ensures StandsFor(h, syms, block, crc)
  {
    hide DataOk, SortedBy;
  }

  /** The symbols of the last column, written over the pointers, and how often each occurs. */
  method MakeSymbols(block: seq<byte>, inUse: seq<bool>, ptr: array<nat>)
      returns (mtfv: array<nat>, nMTF: nat, freq: seq<nat>, nInUse: nat)
    requires 0 < |block| <= 900000 && |inUse| == 256 && (forall c: byte :: inUse[c] <==> c in block)
    requires SortedRotations(block, ptr[..]) && |block| == ptr.Length
    ensures fresh(mtfv) && nMTF <= mtfv.Length && nInUse == UseCount(inUse, 256) && 1 <= nInUse <= 256
    ensures SymbolsMade(block, inUse, ptr[..], mtfv[..nMTF], nInUse)
    ensures Marked(mtfv[..nMTF], nInUse + 1) && AllBelow(mtfv[..nMTF], nInUse + 2) && 0 < nMTF <= |block| + 1
    ensures |freq| == nInUse + 2 && Tallied(freq, mtfv[..nMTF], nInUse + 2)
  {
    hide SortedRotations, PointersFrom, UseCount, Encoded, AllIn, Identity, LastColumn, AllBelow, Marked, Numbered,
      Tallied;
    var unseqToSeq;
    unseqToSeq, nInUse := MakeMapsE(inUse);
    ColumnNumbers(inUse, block, ptr[..], unseqToSeq[..]);
    ghost var column := LastColumn(block, ptr[..]);
    SymbolsOf(inUse, column);
    mtfv := AsHalves(ptr);
    var mtfFreq := new nat[MAX_ALPHA];
    nMTF := GenerateMtfValues(mtfv, block, unseqToSeq, mtfFreq, nInUse, ptr[..], Numbered(inUse, column));
    TalliedFront(mtfFreq[..], mtfv[..nMTF], nInUse + 2);
    freq := mtfFreq[..nInUse + 2];
  }

  ghost predicate SymbolsMade(block: seq<byte>, inUse: seq<bool>, ptr: seq<nat>, syms: seq<nat>, n: nat)
    requires |inUse| == 256 && SortedRotations(block, ptr)
  {
    var column := LastColumn(block, ptr);
    && |block| == |ptr| && (forall i | 0 <= i < |block| :: inUse[column[i]]) && 1 <= n <= 256
    && AllIn(Identity(n), Numbered(inUse, column)) && syms == Encoded(Identity(n), Numbered(inUse, column), 0, n + 1)
  }

  lemma SortedByIs(h: Head, syms: seq<nat>, block: seq<byte>, ptr: seq<nat>)
    requires |h.inUse| == 256 && SortedRotations(block, ptr) && h.origPtr < |block| == |ptr| && ptr[h.origPtr] == 0
    requires SymbolsMade(block, h.inUse, ptr, syms, UseCount(h.inUse, 256))
    ensures SortedBy(h, syms, block, ptr)
  {
    hide SortedRotations, UseCount, Encoded, AllIn, Identity, LastColumn, Numbered;
  }

  /**
   * A block is written: magic number, check, the bit that says it is not randomised, the row of the block among the
   * sorted rotations, and what sendMTFValues makes of the symbols of the last column.
   */
  method CompressBlock(w: BitWriter, block: seq<byte>, inUse: seq<bool>, crc: nat, workFactor: int)
      returns (ghost h: Head, ghost syms: seq<nat>)
    requires w.Valid() && 0 < |block| <= 900000 && crc < 0x1_0000_0000 && |inUse| == 256
      && forall c: byte :: inUse[c] <==> c in block
    modifies w
    ensures StandsFor(h, syms, block, crc) && |syms| <= |block| + 1 && |h.groups.selectors| <= |syms| / G_SIZE + 1
    ensures w.Valid() && w.Bits() == old(w.Bits()) + BytesToBits(BLOCK_MAGIC) + BlockBits(h, syms)
  {
    hide BitWriter.Valid, BitWriter.Bits, BytesToBits, BitsOf, SortedRotations, UseCount, DataOk, FrontBits, BlockBits,
      MapBits, SelectorBits, TablesBits, DataBits, CodesOk, Selects, AllBelow, Marked, Pow2, Rounds, Tallied,
      SymbolsMade, SortedBy, StandsFor;
    var ptr, origPtr := SortBlock(block, workFactor);
    PutBytes(w, BLOCK_MAGIC);
    ghost var start := w.Bits();
    PutUInt32(w, crc);
    PutBit(w, 0);
    Pow24();
    w.BsW(24, origPtr);
    var mtfv, nMTF, freq, nInUse := MakeSymbols(block, inUse, ptr);
    syms := mtfv[..nMTF];
    var tables, selector, allTables, allSelectors := ChooseTables(mtfv[..nMTF], freq, nInUse + 2);
    var head := Head(crc, false, origPtr, inUse, Groups(|tables|, selector), tables);
    h := head;
    HeadMade(h, syms, nInUse);
    assert FlagBit(false) == 0;
    FrontParts(start, h);
    SendParts(w, head, mtfv, nMTF);
    BlockParts(start, h, syms);
    SortedByIs(h, syms, block, ptr[..]);
    BlockStands(h, syms, block, ptr[..], crc);
  }

  lemma DataShape(h: Head, syms: seq<nat>)
    requires DataOk(h, syms)
    ensures |h.inUse| == 256
  {
  }

  /** What was written for a block is read back as the last column of its sorted rotations. */
  lemma BlockReadBack(h: Head, syms: seq<nat>, block: seq<byte>, crc: nat, k: nat, tail: seq<bit>)
      returns (ptr: seq<nat>)
    requires StandsFor(h, syms, block, crc) && |block| <= 100000 * k <= 900000
    ensures SortedRotations(block, ptr) && h.origPtr < |block| == |ptr| && ptr[h.origPtr] == 0
    ensures !h.randomised && ReadColumn(BlockBits(h, syms) + tail, k) ==
      Ok(Column(crc, false, h.origPtr, LastColumn(block, ptr)), tail)
  {
    hide DataOk, BlockBits, ReadColumn, SortedRotations, UseCount, Identity, Numbered, Encoded, AllIn;
    DataShape(h, syms);
    ptr :| SortedBy(h, syms, block, ptr);
    ColumnWritten(h, syms, LastColumn(block, ptr), k, tail);
  }
}
