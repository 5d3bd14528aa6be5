/**
 * The encoder's printer: the second half of sendMTFValues, which writes the map, the selectors, the code lengths and
 * the symbols.
 */
module BlockWriter {
  import opened Arithmetic
  import opened Bytes
  import opened HuffmanOptimal
  import opened CanonicalCode
  import opened MtfList
  import opened ZeroRuns
  import opened MtfCoder
  import opened BitStream
  import opened BlockFormat
  import opened BlockData
  import opened SymbolReader

  lemma OneBit(b: bit)
    ensures BitsOf(b, 1) == [b] && b < Pow2(1)
  {
    assert BitsOf(b / 2, 0) == [];
    assert Pow2(1) == 2 * Pow2(0);
  }

  lemma TwoBits(b: bit)
    ensures BitsOf(2 + b, 2) == [1, b] && 2 + b < Pow2(2)
  {
    OneBit(1);
    assert (2 + b) / 2 == 1 && (2 + b) % 2 == b;
    PowThree();
  }

  /** Bits already written, before those still to be written. */
  lemma Regrouped(done: seq<bit>, now: seq<bit>, todo: seq<bit>)
    ensures done + now + todo == done + (now + todo)
  {
  }

  method PutBit(w: BitWriter, b: bit)
    requires w.Valid()
    modifies w
    ensures w.Valid() && w.Bits() == old(w.Bits()) + [b]
  {
    hide BitWriter.Valid, BitWriter.Bits;
    OneBit(b);
    w.BsW(1, b);
  }

  // ----- the map -----

  lemma FlagsNext(flags: seq<bool>, j: nat)
    requires j < |flags|
    ensures FlagBits(flags[j..]) == [FlagBit(flags[j])] + FlagBits(flags[j + 1..])
  {
    assert flags[j..][1..] == flags[j + 1..];
  }

  lemma FlagsNone(flags: seq<bool>)
    ensures FlagBits(flags[|flags|..]) == []
  {
  }

  method WriteFlags(w: BitWriter, flags: seq<bool>)
    requires w.Valid()
    modifies w
    ensures w.Valid() && w.Bits() == old(w.Bits()) + FlagBits(flags)
  {
    hide BitWriter.Valid, BitWriter.Bits, FlagBits;
    ghost var all := w.Bits() + FlagBits(flags);
    assert flags[0..] == flags;
    for j := 0 to |flags|
      invariant w.Valid() && w.Bits() + FlagBits(flags[j..]) == all
    {
      FlagsNext(flags, j);
      Regrouped(w.Bits(), [FlagBit(flags[j])], FlagBits(flags[j + 1..]));
      if flags[j] { PutBit(w, 1); } else { PutBit(w, 0); }
    }
    FlagsNone(flags);
    assert w.Bits() + [] == w.Bits();
  }

  method UsedRows(inUse: seq<bool>) returns (inUse16: array<bool>)
    requires |inUse| == 256
    ensures fresh(inUse16) && inUse16[..] == RowsUsed(inUse)
  {
    inUse16 := new bool[16];
    for i := 0 to 16
      modifies inUse16
      invariant forall k | 0 <= k < i :: inUse16[k] == RowUsed(inUse, k)
    {
      inUse16[i] := false;
      for j := 0 to 16
        modifies inUse16
        invariant inUse16[i] == (true in inUse[16 * i..16 * i + j])
        invariant forall k | 0 <= k < i :: inUse16[k] == RowUsed(inUse, k)
      {
        assert inUse[16 * i..16 * i + (j + 1)] == inUse[16 * i..16 * i + j] + [inUse[i * 16 + j]];
        if inUse[i * 16 + j] { inUse16[i] := true; }
      }
    }
  }

  lemma RowNext(inUse: seq<bool>, i: nat)
    requires |inUse| == 256 && i < 16
    ensures RowBits(inUse, i) == if RowUsed(inUse, i) then FlagBits(inUse[16 * i..16 * i + 16]) + RowBits(inUse, i + 1)
      else RowBits(inUse, i + 1)
  {
    hide FlagBits;
    assert [] + RowBits(inUse, i + 1) == RowBits(inUse, i + 1);
  }

  lemma NoRow(inUse: seq<bool>)
    requires |inUse| == 256
    ensures RowBits(inUse, 16) == []
  {
  }

  /** The mapping table. */
  method WriteMap(w: BitWriter, inUse: seq<bool>)
    requires w.Valid() && |inUse| == 256
    modifies w
    ensures w.Valid() && w.Bits() == old(w.Bits()) + MapBits(inUse)
  {
    hide BitWriter.Valid, BitWriter.Bits, FlagBits, RowBits, RowUsed;
    ghost var all := w.Bits() + MapBits(inUse);
    var inUse16 := UsedRows(inUse);
    Regrouped(w.Bits(), FlagBits(RowsUsed(inUse)), RowBits(inUse, 0));
    WriteFlags(w, inUse16[..]);
    for i := 0 to 16
      modifies w
      invariant w.Valid() && w.Bits() + RowBits(inUse, i) == all
    {
      RowNext(inUse, i);
      var row := inUse[16 * i..16 * i + 16];
      assert inUse16[..][i] == inUse16[i];
      if inUse16[i] {
        Regrouped(w.Bits(), FlagBits(row), RowBits(inUse, i + 1));
        WriteFlags(w, row);
      }
    }
    NoRow(inUse);
    assert w.Bits() + [] == w.Bits();
  }

  // ----- the selectors -----

  /** Search the list for a selector; those passed on the way move up by one. */
  method FindSelector(pos: array<byte>, n: nat, x: byte) returns (j: nat)
    requires n <= pos.Length && x in pos[..n]
    modifies pos
    ensures j == IndexOf(old(pos[..n]), x) && pos[..n] == MoveToFront(old(pos[..n]), j)
  {
    hide MoveToFront;
    ghost var l := pos[..n];
    ghost var at := IndexOf(l, x);
    j := 0;
    var tmp := pos[j];
    while x != tmp
      invariant 0 <= j <= at && tmp == l[j]
      invariant forall k {:trigger pos[k]} | 1 <= k < n :: pos[k] == if k <= j then l[k - 1] else l[k]
      decreases at - j
    {
      j := j + 1;
      var tmp2 := tmp;
      tmp := pos[j];
      pos[j] := tmp2;
    }
    ghost var shifted := pos[..n];
    ShiftIsMove(l, shifted, j);
    pos[0] := tmp;
    assert pos[..n] == shifted[0 := tmp];
  }

  /** The positions of the selectors from `i` on, after those found so far. */
  ghost predicate Positioning(js: seq<nat>, sel: seq<byte>, i: nat, pos: seq<byte>, all: seq<nat>) {
    i <= |sel| && AllIn(pos, sel[i..]) && js + Positions(sel[i..], pos) == all
  }

  lemma PositionStart(sel: seq<byte>, pos: seq<byte>)
    requires AllIn(pos, sel)
    ensures Positioning([], sel, 0, pos, Positions(sel, pos))
  {
    assert sel[0..] == sel && [] + Positions(sel, pos) == Positions(sel, pos);
  }

  lemma PositionNext(js: seq<nat>, sel: seq<byte>, i: nat, pos: seq<byte>, all: seq<nat>)
    requires Positioning(js, sel, i, pos, all) && i < |sel|
    ensures sel[i] in pos
    ensures var j := IndexOf(pos, sel[i]); Positioning(js + [j], sel, i + 1, MoveToFront(pos, j), all)
  {
    hide MoveToFront, IndexOf;
    assert sel[i] == sel[i..][0];
    var j := IndexOf(pos, sel[i]);
    MoveKeeps(pos, j);
    assert sel[i..][1..] == sel[i + 1..];
    var more := Positions(sel[i + 1..], MoveToFront(pos, j));
    assert js + [j] + more == js + ([j] + more);
  }

  lemma PositionDone(js: seq<nat>, sel: seq<byte>, pos: seq<byte>, all: seq<nat>)
    requires Positioning(js, sel, |sel|, pos, all)
    ensures js == all
  {
    assert js + [] == js;
  }

  /** Move-to-front values of the selectors. */
  method SelectorPositions(selector: seq<byte>, nGroups: nat, selectorMtf: array<nat>)
    requires 1 <= nGroups <= 6 && AllIn(Identity(nGroups), selector)
      && |selector| <= MAX_SELECTORS == selectorMtf.Length
    modifies selectorMtf
    ensures selectorMtf[..|selector|] == Positions(selector, Identity(nGroups))
  {
    hide MoveToFront, Identity, Positions, Positioning, IndexOf;
    var pos := new byte[6](_ => 0);
    for i := 0 to nGroups
      modifies pos
      invariant forall k | 0 <= k < i :: pos[k] == k
    {
      pos[i] := i;
    }
    IdentityIs(pos[..nGroups]);
    ghost var all := Positions(selector, Identity(nGroups));
    PositionStart(selector, Identity(nGroups));
    assert selectorMtf[..0] == [];
    for i := 0 to |selector|
      modifies pos, selectorMtf
      invariant Positioning(selectorMtf[..i], selector, i, pos[..nGroups], all)
    {
      PositionNext(selectorMtf[..i], selector, i, pos[..nGroups], all);
      ghost var had := selectorMtf[..i];
      var j := FindSelector(pos, nGroups, selector[i]);
      selectorMtf[i] := j;
      assert selectorMtf[..i + 1] == had + [j];
    }
    PositionDone(selectorMtf[..|selector|], selector, pos[..nGroups], all);
  }

  method WriteUnary(w: BitWriter, m: nat)
    requires w.Valid()
    modifies w
    ensures w.Valid() && w.Bits() == old(w.Bits()) + UnaryBits(m)
  {
    hide BitWriter.Valid, BitWriter.Bits;
    ghost var all := w.Bits() + UnaryBits(m);
    for j := 0 to m
      invariant w.Valid() && w.Bits() + UnaryBits(m - j) == all
    {
      Regrouped(w.Bits(), [1], UnaryBits(m - j - 1));
      PutBit(w, 1);
    }
    PutBit(w, 0);
  }

  lemma UnariesNext(js: seq<nat>, i: nat)
    requires i < |js|
    ensures UnariesBits(js[i..]) == UnaryBits(js[i]) + UnariesBits(js[i + 1..])
  {
    assert js[i..][1..] == js[i + 1..];
  }

  lemma UnariesNone(js: seq<nat>)
    ensures UnariesBits(js[|js|..]) == []
  {
  }

  method WriteSelectors(w: BitWriter, selector: seq<byte>, nGroups: nat)
    requires w.Valid() && 2 <= nGroups <= 6 && AllIn(Identity(nGroups), selector) && |selector| <= MAX_SELECTORS
    modifies w
    ensures w.Valid() && w.Bits() == old(w.Bits()) + SelectorBits(selector, nGroups)
  {
    hide BitWriter.Valid, BitWriter.Bits, Pow2, BitsOf, UnaryBits, UnariesBits, Positions, Identity;
    ghost var start := w.Bits();
    var selectorMtf := new nat[MAX_SELECTORS];
    SelectorPositions(selector, nGroups, selectorMtf);
    ghost var js := selectorMtf[..|selector|];
    PowThree();
    PowFifteen();
    w.BsW(3, nGroups);
    w.BsW(15, |selector|);
    ghost var all := w.Bits() + UnariesBits(js);
    assert js[0..] == js;
    for i := 0 to |selector|
      modifies w
      invariant w.Valid() && w.Bits() + UnariesBits(js[i..]) == all
    {
      UnariesNext(js, i);
      Regrouped(w.Bits(), UnaryBits(js[i]), UnariesBits(js[i + 1..]));
      assert js[i] == selectorMtf[i];
      WriteUnary(w, selectorMtf[i]);
    }
    UnariesNone(js);
    assert w.Bits() + [] == w.Bits();
    Regrouped(start + BitsOf(nGroups, 3), BitsOf(|selector|, 15), UnariesBits(js));
    Regrouped(start, BitsOf(nGroups, 3), BitsOf(|selector|, 15) + UnariesBits(js));
  }

  // ----- the code lengths -----

  method WriteDelta(w: BitWriter, curr0: nat, want: nat)
    requires w.Valid()
    modifies w
    ensures w.Valid() && w.Bits() == old(w.Bits()) + DeltaBits(curr0, want)
  {
    hide BitWriter.Valid, BitWriter.Bits, BitsOf;
    ghost var all := w.Bits() + DeltaBits(curr0, want);
    var curr: nat := curr0;
    while curr < want
      invariant w.Valid() && w.Bits() + DeltaBits(curr, want) == all && (curr0 < want ==> curr <= want)
        && (curr0 >= want ==> curr == curr0)
    {
      Regrouped(w.Bits(), [1, 0], DeltaBits(curr + 1, want));
      TwoBits(0);
      w.BsW(2, 2);
      curr := curr + 1;
    }
    while curr > want
      invariant w.Valid() && w.Bits() + DeltaBits(curr, want) == all && curr >= want
    {
      Regrouped(w.Bits(), [1, 1], DeltaBits(curr - 1, want));
      TwoBits(1);
      w.BsW(2, 3);
      curr := curr - 1;
    }
    PutBit(w, 0);
  }

  lemma DeltasNext(curr: nat, len: seq<nat>, i: nat)
    requires i < |len|
    ensures DeltasBits(curr, len[i..]) == DeltaBits(curr, len[i]) + DeltasBits(len[i], len[i + 1..])
  {
    assert len[i..][1..] == len[i + 1..];
  }

  lemma DeltasNone(curr: nat, len: seq<nat>)
    ensures DeltasBits(curr, len[|len|..]) == []
  {
  }

  method WriteTable(w: BitWriter, len: seq<nat>)
    requires w.Valid() && len != [] && AllLengths(len)
    modifies w
    ensures w.Valid() && w.Bits() == old(w.Bits()) + TableBits(len)
  {
    hide BitWriter.Valid, BitWriter.Bits, Pow2, BitsOf, DeltaBits, DeltasBits;
    PowFive();
    Regrouped(w.Bits(), BitsOf(len[0], 5), DeltasBits(len[0], len));
    var curr := len[0];
    w.BsW(5, curr);
    ghost var all := w.Bits() + DeltasBits(curr, len);
    assert len[0..] == len;
    for i := 0 to |len|
      invariant w.Valid() && w.Bits() + DeltasBits(curr, len[i..]) == all
    {
      DeltasNext(curr, len, i);
      Regrouped(w.Bits(), DeltaBits(curr, len[i]), DeltasBits(len[i], len[i + 1..]));
      WriteDelta(w, curr, len[i]);
      curr := len[i];
    }
    DeltasNone(curr, len);
    assert w.Bits() + [] == w.Bits();
  }

  lemma TablesNext(tables: seq<seq<nat>>, t: nat)
    requires t < |tables| && forall k | 0 <= k < |tables| :: tables[k] != []
    ensures TablesBits(tables[t..]) == TableBits(tables[t]) + TablesBits(tables[t + 1..])
  {
    assert tables[t..][1..] == tables[t + 1..];
  }

  lemma TablesNone(tables: seq<seq<nat>>)
    ensures TablesBits(tables[|tables|..]) == []
  {
  }

  method WriteTables(w: BitWriter, tables: seq<seq<nat>>, alphaSize: nat)
    requires w.Valid() && alphaSize > 0 && TablesOk(tables, alphaSize)
    modifies w
    ensures w.Valid() && w.Bits() == old(w.Bits()) + TablesBits(tables)
  {
    hide BitWriter.Valid, BitWriter.Bits, TableBits, TablesBits;
    ghost var all := w.Bits() + TablesBits(tables);
    assert tables[0..] == tables;
    for t := 0 to |tables|
      invariant w.Valid() && w.Bits() + TablesBits(tables[t..]) == all
    {
      TablesNext(tables, t);
      Regrouped(w.Bits(), TableBits(tables[t]), TablesBits(tables[t + 1..]));
      WriteTable(w, tables[t]);
    }
    TablesNone(tables);
    assert w.Bits() + [] == w.Bits();
  }

  // ----- the symbols -----

  /** The codewords of a table, by symbol. */
  ghost predicate CodesFor(code: seq<nat>, length: seq<nat>) {
    |code| == |length| && forall s | 0 <= s < |length| :: code[s] == CodeOf(length, MinLen(length), s)
  }

  ghost predicate AllCodes(codes: seq<seq<nat>>, tables: seq<seq<nat>>) {
    |codes| == |tables| && forall t | 0 <= t < |tables| :: CodesFor(codes[t], tables[t])
  }

  method MakeCode(length: seq<nat>) returns (code: seq<nat>)
    requires length != [] && AllLengths(length)
    ensures CodesFor(code, length)
  {
    hide MinLen, MaxLen, CodeOf, Lengths;
    var minLen, maxLen := LengthRange(length);
    LengthsBetween(length);
    var c := new nat[|length|];
    AssignCodes(c, length, minLen, maxLen);
    code := c[..];
  }

  method MakeCodes(tables: seq<seq<nat>>, alphaSize: nat) returns (codes: seq<seq<nat>>)
    requires alphaSize > 0 && TablesOk(tables, alphaSize)
    ensures AllCodes(codes, tables)
  {
    hide CodesFor;
    codes := [];
    for t := 0 to |tables|
      invariant |codes| == t && forall k | 0 <= k < t :: CodesFor(codes[k], tables[k])
    {
      var code := MakeCode(tables[t]);
      codes := codes + [code];
    }
  }

  /** A codeword fits the bits it is written in. */
  lemma CodewordFits(code: seq<nat>, length: seq<nat>, s: nat)
    requires CodeOk(length) && CodesFor(code, length) && s < |length|
    ensures 1 <= length[s] <= 20 && code[s] < Pow2(length[s]) && BitsOf(code[s], length[s]) == Word(length, s)
  {
    hide KraftSum, CodeOf, Pow2, BitsOf, MinLen, MaxLen;
    LengthsBetween(length);
    CodeFits(length, MinLen(length), MaxLen(length), s);
  }

  lemma CodesSize(code: seq<nat>, length: seq<nat>)
    requires CodesFor(code, length)
    ensures |code| == |length|
  {
  }

  lemma DataNext(syms: seq<nat>, k: nat, tables: seq<seq<nat>>, sel: seq<byte>, alphaSize: nat, codes: seq<seq<nat>>,
      g: nat)
    requires CodesOk(tables, alphaSize) && Selects(sel, |tables|, |syms|) && k < |syms| && AllBelow(syms, alphaSize)
    requires AllCodes(codes, tables) && g == k / G_SIZE
    ensures g < |sel| && sel[g] < |tables| && |codes| == |tables| && |tables[sel[g]]| == |codes[sel[g]]| == alphaSize
      && syms[k] < alphaSize
    ensures var n, v := tables[sel[g]][syms[k]], codes[sel[g]][syms[k]];
            && 1 <= n <= 20 && v < Pow2(n)
            && DataBits(syms, k, tables, sel, alphaSize) == BitsOf(v, n) + DataBits(syms, k + 1, tables, sel, alphaSize)
  {
    hide CodeOk, CodesFor, Pow2, BitsOf, Word;
    CodesSize(codes[sel[g]], tables[sel[g]]);
    CodewordFits(codes[sel[g]], tables[sel[g]], syms[k]);
  }

  lemma DataNone(syms: seq<nat>, tables: seq<seq<nat>>, sel: seq<byte>, alphaSize: nat)
    requires CodesOk(tables, alphaSize) && Selects(sel, |tables|, |syms|) && AllBelow(syms, alphaSize)
    ensures DataBits(syms, |syms|, tables, sel, alphaSize) == []
  {
  }

  /** Two groups later, or within one: the group a symbol belongs to. */
  lemma InGroup(i: nat, gs: nat, selCtr: nat)
    requires gs == G_SIZE * selCtr && gs <= i < gs + G_SIZE
    ensures i / G_SIZE == selCtr
  {
    DivModUnique(i, G_SIZE, selCtr, i - gs);
  }

  /** The symbols, group by group; `mtfv` holds them in its first `nMTF` places. */
  method WriteData(w: BitWriter, mtfv: array<nat>, nMTF: nat, selector: seq<byte>, tables: seq<seq<nat>>,
      alphaSize: nat)
    requires w.Valid() && nMTF <= mtfv.Length && alphaSize > 0
    requires CodesOk(tables, alphaSize) && Selects(selector, |tables|, nMTF) && AllBelow(mtfv[..nMTF], alphaSize)
    modifies w
    ensures w.Valid() && w.Bits() == old(w.Bits()) + DataBits(mtfv[..nMTF], 0, tables, selector, alphaSize)
  {
    hide BitWriter.Valid, BitWriter.Bits, Pow2, BitsOf, DataBits, CodeOk, CodesOk, AllCodes, Selects, AllBelow,
      KraftSum;
    ghost var syms := mtfv[..nMTF];
    ghost var all := w.Bits() + DataBits(syms, 0, tables, selector, alphaSize);
    CodesHaveLengths(tables, alphaSize);
    var codes := MakeCodes(tables, alphaSize);
    var gs: nat, selCtr: nat := 0, 0;
    while gs < nMTF
      invariant gs <= nMTF && (gs < nMTF ==> gs == G_SIZE * selCtr)
      invariant w.Valid() && w.Bits() + DataBits(syms, gs, tables, selector, alphaSize) == all
      decreases nMTF - gs
    {
      var ge := if gs + G_SIZE - 1 >= nMTF then nMTF - 1 else gs + G_SIZE - 1;
      for i := gs to ge + 1
        invariant w.Valid() && w.Bits() + DataBits(syms, i, tables, selector, alphaSize) == all
      {
        InGroup(i, gs, selCtr);
        DataNext(syms, i, tables, selector, alphaSize, codes, selCtr);
        var n, v := tables[selector[selCtr]][mtfv[i]], codes[selector[selCtr]][mtfv[i]];
        Regrouped(w.Bits(), BitsOf(v, n), DataBits(syms, i + 1, tables, selector, alphaSize));
        w.BsW(n, v);
      }
      gs := ge + 1;
      selCtr := selCtr + 1;
    }
    DataNone(syms, tables, selector, alphaSize);
    assert w.Bits() + [] == w.Bits();
  }
}
