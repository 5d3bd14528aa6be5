/**
 * `BZ2_decompress` for one block: from the bits to the vector that bytes are fetched from, in the FAST and in the SMALL
 * form.
 */
module BlockDecoder {
  import opened Bytes
  import opened BwtDecoder
  import opened CanonicalCode
  import opened MtfList
  import opened ZeroRuns
  import opened MtfCoder
  import opened BlockFormat
  import opened BlockData
  import opened BlockColumn
  import opened BlockFields
  import opened BlockReader
  import opened SymbolReader

  // ----- the head -----

  method ReadMagicBytes(src: Source, magic: seq<byte>) returns (r: Read<()>)
    requires src.Valid()
    modifies src, src.reader
    ensures src.Valid() && Agrees(ReadMagic(old(src.Rest()), magic), r, src.Rest())
  {
    hide Take, Source.Valid, Source.Rest;
    assert magic[0..] == magic;
    for i := 0 to |magic|
      invariant src.Valid() && ReadMagic(src.Rest(), magic[i..]) == ReadMagic(old(src.Rest()), magic)
    {
      assert magic[i..][1..] == magic[i + 1..];
      var uc :- src.Get(8);
      if uc != magic[i] { return Faulty; }
    }
    r := Done(());
  }

  method ReadBigEndian(src: Source, n: nat) returns (r: Read<nat>)
    requires src.Valid()
    modifies src, src.reader
    ensures src.Valid() && Agrees(ReadNumber(old(src.Rest()), n, 0), r, src.Rest())
  {
    hide Take, Source.Valid, Source.Rest;
    var v: nat := 0;
    for i := 0 to n
      invariant src.Valid() && ReadNumber(src.Rest(), n - i, v) == ReadNumber(old(src.Rest()), n, 0)
    {
      var uc :- src.Get(8);
      v := 256 * v + uc;
    }
    r := Done(v);
  }

  method ReadFrontFields(src: Source, k: nat) returns (r: Read<(nat, bool, nat)>)
    requires src.Valid()
    modifies src, src.reader
    ensures src.Valid() && Agrees(ReadFront(old(src.Rest()), k), r, src.Rest())
  {
    hide Take, Source.Valid, Source.Rest, ReadNumber;
    var storedBlockCRC :- ReadBigEndian(src, 4);
    var randomised :- src.Get(1);
    var origPtr :- ReadBigEndian(src, 3);
    if origPtr > 10 + 100000 * k { return Faulty; }
    r := Done((storedBlockCRC, randomised == 1, origPtr));
  }

  method ReadBlockHead(src: Source, k: nat) returns (r: Read<Head>)
    requires src.Valid()
    modifies src, src.reader
    ensures src.Valid() && Agrees(ReadHead(old(src.Rest()), k), r, src.Rest())
  {
    hide Source.Valid, Source.Rest, ReadFront, ReadMap, ReadSelectors, ReadTables, UseCount;
    var front :- ReadFrontFields(src, k);
    var inUse :- ReadMapping(src);
    var groups :- ReadGroups(src);
    var nInUse := CountUsed(inUse);
    var tables :- ReadAllTables(src, groups.nGroups, nInUse + 2);
    r := Done(Head(front.0, front.1, front.2, inUse, groups, tables));
  }

  // ----- the column -----

  datatype BlockInfo = BlockInfo(crc: nat, randomised: bool, origPtr: nat, nblock: nat)

  ghost predicate ReadAs(p: Parsed<Column>, r: Read<BlockInfo>, l: seq<byte>, rest: seq<bit>) {
    match p
    case Ok(c, left) => r == Done(BlockInfo(c.crc, c.randomised, c.origPtr, |c.bytes|)) && l == c.bytes && rest == left
    case Short => r == Starved
    case Bad => r == Faulty
    case Overrun => r == Overran
  }

  /** The first bytes of the vector are the column, and are counted. */
  ghost predicate Loaded(tt: seq<nat>, unzftab: seq<nat>, l: seq<byte>) {
    |l| <= |tt| && (forall i | 0 <= i < |l| :: tt[i] == l[i]) && CountsOf(l, unzftab)
  }

  lemma WrittenLoaded(tt: seq<nat>, unzftab: seq<nat>, l: seq<byte>)
    requires Written(tt, unzftab, l)
    ensures Loaded(tt, unzftab, l)
  {
  }

  /** Decoding has come to a symbol; what it will end in is settled. */
  ghost predicate AtSymbol(whole: Parsed<seq<byte>>, s: nat, rest: seq<bit>, c: Coding, k: nat, list: seq<byte>,
      run: nat, place: nat, out: seq<byte>) {
    CodingOk(c) && |list| == 256 && s <= c.n + 1 && whole == OnSymbol(s, rest, c, k, list, run, place, out)
  }

  lemma BytesStep(bits: seq<bit>, c: Coding, k: nat, list: seq<byte>, run: nat, place: nat, out: seq<byte>)
    requires CodingOk(c) && |list| == 256
    ensures var s := SymbolNext(bits, c, k);
            ReadBytes(bits, c, k, list, run, place, out)
            == if s.Ok? then OnSymbol(s.value, s.rest, c, k + 1, list, run, place, out) else s.PropagateFailure()
  {
    hide SymbolNext, CodingOk;
  }

  lemma AtDigit(whole: Parsed<seq<byte>>, s: nat, rest: seq<bit>, c: Coding, k: nat, list: seq<byte>, run: nat,
      place: nat, out: seq<byte>)
    requires AtSymbol(whole, s, rest, c, k, list, run, place, out) && s <= RUNB
    ensures place >= N_LIMIT ==> whole == Bad
    ensures place < N_LIMIT ==>
              match SymbolNext(rest, c, k)
              case Ok(s', rest') => AtSymbol(whole, s', rest', c, k + 1, list, run + (s + 1) * place, 2 * place, out)
              case Short => whole == Short
              case Bad => whole == Bad
              case Overrun => false
  {
    hide SymbolNext, CodingOk;
    if place < N_LIMIT { BytesStep(rest, c, k, list, run + (s + 1) * place, 2 * place, out); }
  }

  /** A symbol other than RUNA and RUNB ends the run, which is written. */
  lemma AtRunEnd(whole: Parsed<seq<byte>>, s: nat, rest: seq<bit>, c: Coding, k: nat, list: seq<byte>, run: nat,
      place: nat, out: seq<byte>)
    requires AtSymbol(whole, s, rest, c, k, list, run, place, out) && s > RUNB
    ensures |c.u| == 256
    ensures |out| + run > c.nblockMax ==> whole == Bad
    ensures |out| + run <= c.nblockMax ==> AtSymbol(whole, s, rest, c, k, list, 0, 1, out + Repeated(c.u[list[0]], run))
  {
    hide ReadBytes, MoveToFront, TablesOk;
    assert out + Repeated(c.u[list[0]], run) + Repeated(c.u[list[0]], 0) == out + Repeated(c.u[list[0]], run);
  }

  lemma AtMove(whole: Parsed<seq<byte>>, s: nat, rest: seq<bit>, c: Coding, k: nat, list: seq<byte>, out: seq<byte>)
    requires AtSymbol(whole, s, rest, c, k, list, 0, 1, out) && RUNB < s < c.n + 1
    ensures |c.u| == 256 && c.n <= 256
    ensures |out| >= c.nblockMax ==> whole == Bad
    ensures |out| < c.nblockMax ==>
              match SymbolNext(rest, c, k)
              case Ok(s', rest') => AtSymbol(whole, s', rest', c, k + 1, MoveToFront(list, s - 1), 0, 1,
                out + [c.u[list[s - 1]]])
              case Short => whole == Short
              case Bad => whole == Bad
              case Overrun => false
  {
    hide SymbolNext, MoveToFront, TablesOk;
    if |out| < c.nblockMax { BytesStep(rest, c, k, MoveToFront(list, s - 1), 0, 1, out + [c.u[list[s - 1]]]); }
    assert out + Repeated(c.u[list[0]], 0) + [c.u[list[s - 1]]] == out + [c.u[list[s - 1]]];
  }

  lemma AtEnd(whole: Parsed<seq<byte>>, rest: seq<bit>, c: Coding, k: nat, list: seq<byte>, out: seq<byte>)
    requires AtSymbol(whole, c.n + 1, rest, c, k, list, 0, 1, out) && |out| <= c.nblockMax
    ensures whole == Ok(out, rest)
  {
    assert out + Repeated(c.u[list[0]], 0) == out;
  }

  lemma AtFirst(bits: seq<bit>, c: Coding)
    requires CodingOk(c)
    ensures var whole := ReadBytes(bits, c, 0, Identity(256), 0, 1, []);
            match SymbolNext(bits, c, 0)
            case Ok(s, rest) => AtSymbol(whole, s, rest, c, 1, Identity(256), 0, 1, [])
            case Short => whole == Short
            case Bad => whole == Bad
            case Overrun => false
  {
    hide SymbolNext, CodingOk, Identity;
    BytesStep(bits, c, 0, Identity(256), 0, 1, []);
  }

  /** A method failed as the specification fails. */
  ghost predicate Fails<T, U>(p: Parsed<T>, r: Read<U>) {
    (p.Short? && r.Starved?) || (p.Bad? && r.Faulty?) || (p.Overrun? && r.Overran?)
  }

  ghost predicate Reading(src: Source, ds: seq<Decoder>, sel: seq<byte>, cur: Cursor, c: Coding, k: nat)
    reads src, src.reader
  {
    src.Valid() && CodingOk(c) && c.selectors == sel && AllDecode(ds, c.tables, c.n + 2) && At(cur, k, sel)
  }

  /** The next symbol of the block. */
  method NextValue(src: Source, ds: seq<Decoder>, sel: seq<byte>, cur0: Cursor, ghost c: Coding, ghost k: nat)
      returns (r: Read<nat>, cur: Cursor)
    requires Reading(src, ds, sel, cur0, c, k)
    modifies src, src.reader
    ensures Agrees(SymbolNext(old(src.Rest()), c, k), r, src.Rest())
    ensures src.Valid() && (r.Done? ==> Reading(src, ds, sel, cur, c, k + 1))
  {
    hide Source.Valid, Source.Rest, ReadSymbol, AllDecode, TablesOk, At;
    r, cur := GetMtfVal(src, ds, sel, cur0, c.tables, c.n + 2, k);
  }

  lemma ReadingParts(src: Source, ds: seq<Decoder>, sel: seq<byte>, cur: Cursor, c: Coding, k: nat)
    requires Reading(src, ds, sel, cur, c, k)
    ensures src.Valid() && CodingOk(c) && c.n <= 256 && |c.u| == 256
  {
    hide Source.Valid;
  }

  /** The digits of a run, up to the next other symbol. */
  method ReadRun(src: Source, ds: seq<Decoder>, sel: seq<byte>, nextSym0: nat, cur0: Cursor,
      ghost whole: Parsed<seq<byte>>, ghost c: Coding, ghost k0: nat, ghost list: seq<byte>,
      ghost out: seq<byte>) returns (r: Read<(nat, nat)>, cur: Cursor, ghost k: nat, ghost place: nat)
    requires Reading(src, ds, sel, cur0, c, k0) && AtSymbol(whole, nextSym0, src.Rest(), c, k0, list, 0, 1, out)
      && nextSym0 <= RUNB
    modifies src, src.reader
    ensures src.Valid() && (!r.Done? ==> Fails(whole, r))
    ensures r.Done? ==> Reading(src, ds, sel, cur, c, k) && r.value.0 > RUNB && |src.Rest()| < |old(src.Rest())|
    ensures r.Done? ==> AtSymbol(whole, r.value.0, src.Rest(), c, k, list, r.value.1, place, out)
  {
    hide Source.Valid, Source.Rest, SymbolNext, Reading, AtSymbol;
    var nextSym: nat, es: int, n: nat := nextSym0, -1, 1;
    cur, k, place := cur0, k0, 1;
    while true
      invariant Reading(src, ds, sel, cur, c, k) && nextSym <= RUNB && es >= -1 && |src.Rest()| <= |old(src.Rest())|
      invariant AtSymbol(whole, nextSym, src.Rest(), c, k, list, es + 1, n, out)
      decreases |src.Rest()|
    {
      ReadingParts(src, ds, sel, cur, c, k);
      AtDigit(whole, nextSym, src.Rest(), c, k, list, es + 1, n, out);
      if n >= N_LIMIT { return Faulty, cur, k, n; }
      if nextSym == RUNA { es := es + (0 + 1) * n; } else { es := es + (1 + 1) * n; }
      n := n * 2;
      place := n;
      nextSym, cur :- NextValue(src, ds, sel, cur, c, k);
      k := k + 1;
      if nextSym > RUNB { return Done((nextSym, es + 1)), cur, k, place; }
    }
  }

  method ClearCounts(unzftab: array<nat>)
    requires unzftab.Length == 256
    modifies unzftab
    ensures forall k | 0 <= k < 256 :: unzftab[k] == 0
  {
    for k := 0 to 256
      invariant forall i | 0 <= i < k :: unzftab[i] == 0
    {
      unzftab[k] := 0;
    }
  }

  lemma ValidParts(mtf: MtfState)
    requires mtf.Valid()
    ensures |mtf.list| == 256 && mtf.mtfbase.Length == 16 && mtf.mtfbase[0] < mtf.mtfa.Length
      && mtf.mtfa[mtf.mtfbase[0]] == mtf.list[0]
  {
    hide Holds;
    ListSize(mtf.mtfa[..], mtf.mtfbase[..], mtf.list);
    FirstSegment(mtf.mtfa[..], mtf.mtfbase[..], mtf.list, 0);
  }

  lemma SymbolBelow(whole: Parsed<seq<byte>>, s: nat, rest: seq<bit>, c: Coding, k: nat, list: seq<byte>, run: nat,
      place: nat, out: seq<byte>)
    requires AtSymbol(whole, s, rest, c, k, list, run, place, out)
    ensures s <= c.n + 1
  {
    hide CodingOk, OnSymbol;
  }

  /**
   * The decoder's loop over the symbols of a block, which leaves its bytes in `tt` and their counts in `unzftab`.
   */
  method DecodeValues(src: Source, ds: seq<Decoder>, sel: seq<byte>, nInUse: nat, seqToUnseq: seq<byte>,
      nblockMax: nat, mtf: MtfState, tt: array<nat>, unzftab: array<nat>, ghost c: Coding) returns (r: Read<nat>,
      ghost out: seq<byte>)
    requires Reading(src, ds, sel, Cursor(-1, 0, 0), c, 0) && c.n == nInUse && c.u == seqToUnseq
      && c.nblockMax == nblockMax
    requires mtf.Valid() && mtf.list == Identity(256)
    requires tt != unzftab && tt != mtf.mtfbase && unzftab != mtf.mtfbase && tt as object != mtf.mtfa as object
    requires unzftab as object != mtf.mtfa as object && mtf.mtfa as object != mtf.mtfbase as object
    requires unzftab.Length == 256 && nblockMax <= tt.Length
    modifies src, src.reader, tt, unzftab, mtf.mtfa, mtf.mtfbase, mtf`list
    ensures src.Valid() && CodingOk(c)
    ensures Agrees(ReadBytes(old(src.Rest()), c, 0, Identity(256), 0, 1, []), r.With(out), src.Rest())
    ensures r.Done? ==> r.value == |out| <= nblockMax && Written(tt[..], unzftab[..], out)
  {
    hide Source.Valid, Source.Rest, SymbolNext, ReadBytes, Reading, AtSymbol, MoveToFront, Written, Repeated, Identity,
      CodingOk, MtfState.Valid;
    var eob := nInUse + 1;
    ClearCounts(unzftab);
    ghost var k := 0;
    out := [];
    ReadingParts(src, ds, sel, Cursor(-1, 0, 0), c, 0);
    ghost var whole := ReadBytes(src.Rest(), c, 0, Identity(256), 0, 1, []);
    AtFirst(src.Rest(), c);
    WrittenNone(tt[..], unzftab[..]);
    var nblock: nat := 0;
    var nextSym: nat, cur :- NextValue(src, ds, sel, Cursor(-1, 0, 0), c, k);
    k := 1;
    while nextSym != eob
      invariant mtf.Valid() && nblock == |out| <= nblockMax && Written(tt[..], unzftab[..], out)
      invariant Reading(src, ds, sel, cur, c, k) && AtSymbol(whole, nextSym, src.Rest(), c, k, mtf.list, 0, 1, out)
      decreases |src.Rest()|
    {
      ReadingParts(src, ds, sel, cur, c, k);
      ValidParts(mtf);
      if nextSym <= RUNB {
        ghost var place;
        var s;
        s, cur, k, place :- ReadRun(src, ds, sel, nextSym, cur, whole, c, k, mtf.list, out);
        AtRunEnd(whole, s.0, src.Rest(), c, k, mtf.list, s.1, place, out);
        nextSym := s.0;
        var uc := seqToUnseq[mtf.mtfa[mtf.mtfbase[0]]];
        var ok;
        ok, nblock := PutRun(tt, unzftab, nblock, uc, s.1, nblockMax, out);
        if !ok { return Faulty, out; }
        out := out + Repeated(uc, s.1);
      } else {
        SymbolBelow(whole, nextSym, src.Rest(), c, k, mtf.list, 0, 1, out);
        AtMove(whole, nextSym, src.Rest(), c, k, mtf.list, out);
        if nblock >= nblockMax { return Faulty, out; }
        var uc := mtf.Decode(nextSym - 1);
        OneByte(seqToUnseq[uc]);
        var ok;
        ok, nblock := PutRun(tt, unzftab, nblock, seqToUnseq[uc], 1, nblockMax, out);
        out := out + [seqToUnseq[uc]];
        nextSym, cur :- NextValue(src, ds, sel, cur, c, k);
        k := k + 1;
      }
    }
    ReadingParts(src, ds, sel, cur, c, k);
    AtEnd(whole, src.Rest(), c, k, mtf.list, out);
    r := Done(nblock);
  }

  lemma PlacesStart(inUse: seq<bool>)
    requires |inUse| == 256
    ensures UseCount(inUse, 256) <= 256 && Places(inUse)[..UseCount(inUse, 256)] == UsedBytes(inUse, 256)
  {
    hide UseCount, UsedBytes;
    UseAtMost(inUse);
  }

  lemma ReadingStart(src: Source, ds: seq<Decoder>, sel: seq<byte>, c: Coding)
    requires src.Valid() && CodingOk(c) && c.selectors == sel && AllDecode(ds, c.tables, c.n + 2)
    ensures Reading(src, ds, sel, Cursor(-1, 0, 0), c, 0)
  {
    hide Source.Valid, CodingOk, AllDecode;
    AtStart(sel);
  }

  lemma IdentityFront(n: nat)
    requires 1 <= n <= 256
    ensures FrontBelow(Identity(256), n)
  {
  }

  /** A block from its check to its end marker. */
  method ReadBlock(src: Source, k: nat, tt: array<nat>, unzftab: array<nat>)
      returns (r: Read<BlockInfo>, ghost l: seq<byte>)
    requires src.Valid() && tt != unzftab && tt.Length == 100000 * k && unzftab.Length == 256
    modifies src, src.reader, tt, unzftab
    ensures src.Valid() && ReadAs(ReadColumn(old(src.Rest()), k), r, l, src.Rest())
    ensures r.Done? ==> r.value.origPtr < r.value.nblock == |l| && Loaded(tt[..], unzftab[..], l)
  {
    hide Source.Valid, Source.Rest, ReadHead, ReadBytes, Selects, TablesOk, UseCount, UsedBytes, Identity, Loaded,
      Written, AllDecode, CodingOk, Reading, MtfState.Valid;
    l := [];
    ghost var bits := src.Rest();
    if ReadHead(bits, k).Ok? { HeadInRange(bits, k); }
    var h :- ReadBlockHead(src, k);
    ghost var codes := src.Rest();
    var seqToUnseq, nInUse := MakeMapsD(h.inUse);
    CodingIsOk(h, k);
    PlacesStart(h.inUse);
    var ds := MakeDecoders(h.tables, nInUse + 2);
    var mtf := new MtfState();
    IdentityIs(mtf.list);
    var u := seqToUnseq[..];
    assert u[..nInUse] == seqToUnseq[..nInUse];
    ghost var c := CodingOf(h, k);
    IdentityFront(nInUse);
    BytesSame(codes, c, u, 0, Identity(256), 0, 1, []);
    ReadingStart(src, ds, h.groups.selectors, c.(u := u));
    var n, out :- DecodeValues(src, ds, h.groups.selectors, nInUse, u, 100000 * k, mtf, tt, unzftab, c.(u := u));
    l := out;
    WrittenLoaded(tt[..], unzftab[..], l);
    if h.origPtr >= n { return Faulty, l; }
    r := Done(BlockInfo(h.crc, h.randomised, h.origPtr, n));
  }
}
