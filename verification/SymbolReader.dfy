/** Reading the symbols of a block with the decoding tables of its codes. */
module SymbolReader {
  import opened Arithmetic
  import opened Bytes
  import opened CanonicalCode
  import opened CodeTables
  import opened MtfCoder
  import opened BlockFormat
  import opened BlockData
  import opened BlockReader

  datatype Decoder = Decoder(limit: seq<int>, base: seq<int>, perm: seq<nat>, minLen: nat)

  ghost predicate Decodes(d: Decoder, length: seq<nat>) {
    && 0 < |length| <= MAX_ALPHA && AllLengths(length) && d.minLen == MinLen(length) && |d.perm| == MAX_ALPHA
    && IsPerm(d.perm, length) && IsLimit(d.limit, length, MinLen(length), MaxLen(length))
    && IsBase(d.base, length, MinLen(length), MaxLen(length))
  }

  lemma RangeNext(length: seq<nat>, i: nat)
    requires i < |length| && 1 <= length[i] <= 20
    ensures MinLen(length[..i + 1]) == var m := if i == 0 then 32 else MinLen(length[..i]);
      if length[i] < m then length[i] else m
    ensures MaxLen(length[..i + 1]) == var m := if i == 0 then 0 else MaxLen(length[..i]);
      if length[i] > m then length[i] else m
  {
    assert length[..i + 1][..i] == length[..i];
  }

  /** The least and the greatest length of a table. */
  method LengthRange(length: seq<nat>) returns (minLen: nat, maxLen: nat)
    requires length != [] && AllLengths(length)
    ensures minLen == MinLen(length) && maxLen == MaxLen(length)
  {
    hide MinLen, MaxLen;
    minLen, maxLen := 32, 0;
    for i := 0 to |length|
      invariant minLen == (if i == 0 then 32 else MinLen(length[..i]))
        && maxLen == if i == 0 then 0 else MaxLen(length[..i])
    {
      RangeNext(length, i);
      if length[i] > maxLen { maxLen := length[i]; }
      if length[i] < minLen { minLen := length[i]; }
    }
    assert length[..|length|] == length;
  }

  method MakeDecoder(length: seq<nat>) returns (d: Decoder)
    requires 0 < |length| <= MAX_ALPHA && AllLengths(length)
    ensures Decodes(d, length)
  {
    hide IsPerm, IsLimit, IsBase, MinLen, MaxLen, Lengths;
    var minLen, maxLen := LengthRange(length);
    LengthsBetween(length);
    var limit, base, perm := new int[MAX_CODE_LEN], new int[MAX_CODE_LEN], new nat[MAX_ALPHA];
    CreateDecodeTables(limit, base, perm, length, minLen, maxLen);
    d := Decoder(limit[..], base[..], perm[..], minLen);
  }

  lemma TablesShape(d: Decoder, length: seq<nat>)
    requires Decodes(d, length)
    ensures |d.limit| == |d.base| == MAX_CODE_LEN && d.minLen == MinLen(length) && 1 <= d.minLen <= 20
      && |d.perm| == MAX_ALPHA
    ensures length != [] && AllLengths(length) && |length| <= MAX_ALPHA
  {
    hide IsPerm;
    LengthsBetween(length);
  }

  /** One more bit is one more bit of the number. */
  lemma TakeMore(bits: seq<bit>, n: nat)
    requires Take(bits, n).Ok?
    ensures var more := Take(Take(bits, n).rest, 1);
            Take(bits, n + 1) == if more.Ok? then Ok(2 * Take(bits, n).value + more.value, more.rest) else Short
  {
    var rest := bits[n..];
    TakeFirst(rest);
    if rest != [] {
      assert bits[..n + 1][..n] == bits[..n] && rest[1..] == bits[n + 1..];
    }
  }

  lemma SoughtStep(bits: seq<bit>, length: seq<nat>, n: nat)
    requires AllLengths(length) && n > 0
    ensures var zvec := Take(bits, n);
            Sought(bits, length, n) ==
              if !zvec.Ok? then Short
              else if n > MAX_LENGTH then Bad
              else if zvec.value > LimitAt(length, n) then Sought(bits, length, n + 1)
              else
                var place := zvec.value - BaseAt(length, n);
                if 0 <= place < |length| then Ok(SymbolAt(length, place), zvec.rest) else Bad
  {
    hide LimitAt, BaseAt, Take;
  }

  lemma PermHolds(perm: seq<nat>, length: seq<nat>, p: nat)
    requires IsPerm(perm, length) && AllLengths(length) && p < |length|
    ensures perm[p] == SymbolAt(length, p)
  {
    hide Place;
    var s := SymbolAt(length, p);
    assert Place(length, s) == p;
  }

  /** What the search finds in the tables. */
  lemma DecoderHolds(d: Decoder, length: seq<nat>, n: nat, zvec: nat)
    requires Decodes(d, length) && d.minLen <= n <= MAX_LENGTH && |d.limit| == |d.base| == MAX_CODE_LEN
      && AllLengths(length)
    ensures d.limit[n] == LimitAt(length, n) && d.base[n] == BaseAt(length, n)
    ensures zvec <= d.limit[n] ==> zvec - d.base[n] < |length|
    ensures forall p | 0 <= p < |length| <= |d.perm| :: d.perm[p] == SymbolAt(length, p)
  {
    hide IsPerm, IsLimit, IsBase, MinLen, MaxLen, LimitAt, BaseAt;
    LengthsBetween(length);
    TablesHold(length, d.limit, d.base, n);
    if zvec <= d.limit[n] {
      LimitedPlace(length, MinLen(length), MaxLen(length), d.limit, d.base, d.perm, n, zvec);
    }
    forall p | 0 <= p < |length| <= |d.perm| ensures d.perm[p] == SymbolAt(length, p) { PermHolds(d.perm, length, p); }
  }

  /** The part of GET_MTF_VAL that reads one codeword. */
  method DecodeSymbol(src: Source, d: Decoder, ghost length: seq<nat>) returns (r: Read<nat>)
    requires src.Valid() && Decodes(d, length) && AllLengths(length) && length != []
    modifies src, src.reader
    ensures src.Valid() && Agrees(NextSymbol(old(src.Rest()), length), r, src.Rest())
  {
    hide Take, Source.Valid, Source.Rest, Decodes, LimitAt, BaseAt, SymbolAt, Sought, AllLengths;
    ghost var bits := src.Rest();
    TablesShape(d, length);
    var zn := d.minLen;
    SoughtStep(bits, length, zn);
    var zvec: nat :- src.Get(zn);
    while true
      invariant src.Valid() && d.minLen <= zn <= 21 && Take(bits, zn) == Ok(zvec, src.Rest())
      invariant Sought(bits, length, zn) == NextSymbol(bits, length)
      decreases 21 - zn
    {
      SoughtStep(bits, length, zn);
      if zn > 20 { return Faulty; }
      DecoderHolds(d, length, zn, zvec);
      if zvec <= d.limit[zn] { break; }
      SoughtStep(bits, length, zn + 1);
      TakeMore(bits, zn);
      zn := zn + 1;
      var zj :- src.Get(1);
      zvec := 2 * zvec + zj;
    }
    var place := zvec - d.base[zn];
    r := if place < 0 || place >= MAX_ALPHA then Faulty else Done(d.perm[place]);
  }

  ghost predicate AllDecode(ds: seq<Decoder>, tables: seq<seq<nat>>, alphaSize: nat) {
    |ds| == |tables| && forall t | 0 <= t < |ds| :: |tables[t]| == alphaSize && Decodes(ds[t], tables[t])
  }

  method MakeDecoders(tables: seq<seq<nat>>, alphaSize: nat) returns (ds: seq<Decoder>)
    requires 0 < alphaSize <= MAX_ALPHA && TablesOk(tables, alphaSize)
    ensures AllDecode(ds, tables, alphaSize)
  {
    hide Decodes;
    ds := [];
    for t := 0 to |tables|
      invariant |ds| == t && forall k | 0 <= k < t :: |tables[k]| == alphaSize && Decodes(ds[k], tables[k])
    {
      var d := MakeDecoder(tables[t]);
      ds := ds + [d];
    }
  }

  /** Symbols are read in groups of `G_SIZE`; after `k` of them, `groupPos` of group `groupNo` are left. */
  ghost predicate Grouped(k: nat, groupNo: int, groupPos: nat) {
    k == G_SIZE * (groupNo + 1) - groupPos && groupPos < G_SIZE && groupNo >= -1
  }

  lemma GroupOf(k: nat, groupNo: int, groupPos: nat)
    requires Grouped(k, groupNo, groupPos)
    ensures k / G_SIZE == if groupPos == 0 then groupNo + 1 else groupNo
    ensures Grouped(k + 1, if groupPos == 0 then groupNo + 1 else groupNo, if groupPos == 0 then G_SIZE - 1
      else groupPos - 1)
  {
    DivModUnique(k, G_SIZE, if groupPos == 0 then groupNo + 1 else groupNo,
      if groupPos == 0 then 0 else G_SIZE - groupPos);
  }

  /** Where the decoder stands among the groups: the group, the symbols of it still to come, and its table. */
  datatype Cursor = Cursor(groupNo: int, groupPos: nat, gSel: nat)

  /** `k` symbols have been read. */
  ghost predicate At(cur: Cursor, k: nat, sel: seq<byte>) {
    Grouped(k, cur.groupNo, cur.groupPos) && (cur.groupPos > 0 ==>
      0 <= cur.groupNo < |sel| && cur.gSel == sel[cur.groupNo])
  }

  lemma AtStart(sel: seq<byte>)
    ensures At(Cursor(-1, 0, 0), 0, sel)
  {
  }

  lemma GroupBounds(k: nat, groupNo: int, groupPos: nat)
    requires Grouped(k, groupNo, groupPos)
    ensures groupNo >= -1 && (groupPos > 0 ==> groupNo >= 0)
  {
  }

  /** The group of the next symbol, and where reading it leads. */
  lemma AtNext(cur: Cursor, k: nat, sel: seq<byte>)
    requires At(cur, k, sel)
    ensures var g := k / G_SIZE;
            && g == (if cur.groupPos == 0 then cur.groupNo + 1 else cur.groupNo)
            && (g < |sel| ==> At(Cursor(g, if cur.groupPos == 0 then G_SIZE - 1 else cur.groupPos - 1, sel[g]), k + 1,
              sel))
  {
    hide Grouped;
    GroupOf(k, cur.groupNo, cur.groupPos);
    GroupBounds(k, cur.groupNo, cur.groupPos);
  }

  lemma TableShape(ds: seq<Decoder>, tables: seq<seq<nat>>, alphaSize: nat, t: nat)
    requires AllDecode(ds, tables, alphaSize) && TablesOk(tables, alphaSize) && alphaSize > 0 && t < |tables|
    ensures t < |ds| && Decodes(ds[t], tables[t]) && AllLengths(tables[t]) && tables[t] != []
  {
    hide Decodes, AllLengths;
  }

  /** GET_MTF_VAL: the next symbol, with the table that the selector of its group names. */
  method GetMtfVal(src: Source, ds: seq<Decoder>, sel: seq<byte>, cur0: Cursor, ghost tables: seq<seq<nat>>,
      ghost alphaSize: nat, ghost k: nat) returns (r: Read<nat>, cur: Cursor)
    requires src.Valid() && AllDecode(ds, tables, alphaSize) && Selects(sel, |tables|, 0)
      && TablesOk(tables, alphaSize) && alphaSize > 0
    requires At(cur0, k, sel)
    modifies src, src.reader
    ensures src.Valid() && Agrees(ReadSymbol(old(src.Rest()), tables, sel, alphaSize, k), r, src.Rest())
    ensures r.Done? ==> At(cur, k + 1, sel)
  {
    hide Source.Valid, Source.Rest, NextSymbol, Decodes, Grouped, AllDecode, TablesOk, AllLengths;
    AtNext(cur0, k, sel);
    var groupNo, groupPos, gSel := cur0.groupNo, cur0.groupPos, cur0.gSel;
    cur := cur0;
    if groupPos == 0 {
      groupNo := groupNo + 1;
      if groupNo >= |sel| { return Faulty, cur; }
      groupPos := G_SIZE;
      gSel := sel[groupNo];
    }
    groupPos := groupPos - 1;
    TableShape(ds, tables, alphaSize, gSel);
    r := DecodeSymbol(src, ds[gSel], tables[gSel]);
    cur := Cursor(groupNo, groupPos, gSel);
  }
}
