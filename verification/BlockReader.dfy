/** The decoder's parser: fields of a block read from input that arrives in chunks of any size. */
module BlockReader {
  import opened Arithmetic
  import opened Bytes
  import opened CanonicalCode
  import opened MtfList
  import opened MtfCoder
  import opened BitStream
  import opened BlockFormat

  /** A value; or input that ends too early; or bad data; or a write behind the end of an array. */
  datatype Read<T> = Done(value: T) | Starved | Faulty | Overran {
    predicate IsFailure() {
      !Done?
    }

    function PropagateFailure<U>(): Read<U>
      requires IsFailure()
    {
      if Starved? then Read.Starved else if Faulty? then Read.Faulty else Read.Overran
    }

    function Extract(): T
      requires !IsFailure()
    {
      value
    }

    /** The same outcome, with another value. */
    function With<U>(v: U): Read<U> {
      if Done? then Read.Done(v) else PropagateFailure()
    }
  }

  /** A method read what the specification reads. */
  ghost predicate Agrees<T(!new)>(p: Parsed<T>, r: Read<T>, rest: seq<bit>) {
    match p
    case Ok(v, left) => r == Done(v) && rest == left
    case Short => r == Starved
    case Bad => r == Faulty
    case Overrun => r == Overran
  }

  function AllBytes(chunks: seq<seq<byte>>): seq<byte> {
    if chunks == [] then [] else chunks[0] + AllBytes(chunks[1..])
  }

  /**
   * Input that arrives in chunks. When the bits at hand do not suffice, the decoder returns to its caller and is called
   * again with the next chunk, at the point where it stopped; `later` holds the chunks of the calls to come.
   */
  class Source {
    const reader: BitReader
    var later: seq<seq<byte>>

    ghost predicate Valid()
      reads this, reader
    {
      reader.Valid()
    }

    ghost function Rest(): seq<bit>
      reads this, reader
    {
      reader.Rest() + BytesToBits(AllBytes(later))
    }

    constructor (chunks: seq<seq<byte>>)
      ensures Valid() && Rest() == BytesToBits(AllBytes(chunks)) && fresh(reader)
    {
      reader := new BitReader();
      later := chunks;
      new;
      assert [] + BytesToBits(AllBytes(chunks)) == BytesToBits(AllBytes(chunks));
    }

    /** `GET_BITS`, across calls. */
    method Get(n: nat) returns (r: Read<nat>)
      requires Valid() && 1 <= n <= 24
      modifies this, reader
      ensures Valid() && Agrees(Take(old(Rest()), n), r, Rest())
      ensures r.Done? ==> r.value < Pow2(n)
    {
      hide Pow2, Value, BitsOf, BytesToBits, BitReader.Valid, BitReader.Rest;
      ghost var rest := Rest();
      while true
        invariant Valid() && Rest() == rest
        decreases |later|
      {
        ghost var near, far := reader.Rest(), BytesToBits(AllBytes(later));
        var g := reader.GetBits(n);
        if g.Got? {
          ValueOfBits(g.v, n);
          assert rest[..n] == near[..n] && rest[n..] == near[n..] + far;
          return Done(g.v);
        }
        if later == [] {
          assert near + [] == near;
          return Starved;
        }
        BytesToBitsConcat(later[0], AllBytes(later[1..]));
        assert near + (BytesToBits(later[0]) + BytesToBits(AllBytes(later[1..]))) ==
          near + BytesToBits(later[0]) + BytesToBits(AllBytes(later[1..]));
        reader.Feed(later[0]);
        later := later[1..];
      }
    }
  }

  // ----- the map -----

  /** Flags read into places `lo` to `lo + n` of an array. */
  method ReadFlagsInto(src: Source, flags: array<bool>, lo: nat, n: nat) returns (r: Read<()>)
    requires src.Valid() && lo + n <= flags.Length && forall k | lo <= k < flags.Length :: !flags[k]
    modifies src, src.reader, flags
    ensures src.Valid() && Agrees(ReadFlags(old(src.Rest()), n, old(flags[..lo])), r.With(flags[..lo + n]), src.Rest())
    ensures r.Done? ==> forall k | lo + n <= k < flags.Length :: !flags[k]
  {
    hide Take, Source.Valid, Source.Rest;
    ghost var all := ReadFlags(src.Rest(), n, flags[..lo]);
    for i := 0 to n
      invariant src.Valid() && ReadFlags(src.Rest(), n - i, flags[..lo + i]) == all
      invariant forall k | lo + i <= k < flags.Length :: !flags[k]
    {
      ghost var had := flags[..lo + i];
      var uc :- src.Get(1);
      if uc == 1 { flags[lo + i] := true; }
      assert flags[..lo + i + 1] == had + [uc == 1];
    }
    r := Done(());
  }

  lemma UnusedRow(flags: seq<bool>, lo: nat, n: nat)
    requires lo + n <= |flags| && forall k | lo <= k < |flags| :: !flags[k]
    ensures flags[..lo + n] == flags[..lo] + Unused(n)
  {
  }

  method CountUsed(inUse: seq<bool>) returns (nInUse: nat)
    requires |inUse| == 256
    ensures nInUse == UseCount(inUse, 256)
  {
    var u;
    u, nInUse := MakeMapsD(inUse);
  }

  lemma RowStep(bits: seq<bit>, used: seq<bool>, i: nat, acc: seq<bool>)
    requires |used| == 16 && i < 16 && |acc| == 16 * i
    ensures ReadRows(bits, used, i, acc) ==
            if used[i] then
              var row :- ReadFlags(bits, 16, acc); ReadRows(row.1, used, i + 1, row.0)
            else ReadRows(bits, used, i + 1, acc + Unused(16))
  {
  }

  lemma RowsDone(bits: seq<bit>, used: seq<bool>, acc: seq<bool>)
    requires |used| == 16 && |acc| == 256
    ensures ReadRows(bits, used, 16, acc) == Ok(acc, bits)
  {
  }

  /** The rows of the mapping table that `inUse16` marks as in use. */
  method ReadMappedRows(src: Source, inUse16: array<bool>) returns (r: Read<seq<bool>>)
    requires src.Valid() && inUse16.Length == 16
    modifies src, src.reader
    ensures src.Valid() && Agrees(ReadRows(old(src.Rest()), inUse16[..], 0, []), r, src.Rest())
    ensures r.Done? ==> |r.value| == 256
  {
    hide Take, Source.Valid, Source.Rest, ReadFlags, ReadRows, UseCount;
    ghost var used := inUse16[..];
    ghost var all := ReadRows(src.Rest(), used, 0, []);
    var inUse := new bool[256](_ => false);
    assert inUse[..16 * 0] == [];
    for i := 0 to 16
      invariant src.Valid() && inUse16[..] == used && ReadRows(src.Rest(), used, i, inUse[..16 * i]) == all
      invariant forall k | 16 * i <= k < 256 :: !inUse[k]
    {
      RowStep(src.Rest(), used, i, inUse[..16 * i]);
      if inUse16[i] {
        var _ :- ReadFlagsInto(src, inUse, 16 * i, 16);
      } else {
        UnusedRow(inUse[..], 16 * i, 16);
        assert inUse[..][..16 * i + 16] == inUse[..16 * (i + 1)] && inUse[..][..16 * i] == inUse[..16 * i];
      }
    }
    RowsDone(src.Rest(), used, inUse[..]);
    assert inUse[..16 * 16] == inUse[..];
    r := Done(inUse[..]);
  }

  /** The mapping table. */
  method ReadMapping(src: Source) returns (r: Read<seq<bool>>)
    requires src.Valid()
    modifies src, src.reader
    ensures src.Valid() && Agrees(ReadMap(old(src.Rest())), r, src.Rest())
    ensures r.Done? ==> |r.value| == 256
  {
    hide Take, Source.Valid, Source.Rest, ReadFlags, ReadRows, UseCount;
    var inUse16 := new bool[16](_ => false);
    assert inUse16[..0] == [];
    var _ :- ReadFlagsInto(src, inUse16, 0, 16);
    assert inUse16[..16] == inUse16[..];
    var inUse :- ReadMappedRows(src, inUse16);
    var nInUse := CountUsed(inUse);
    r := if nInUse == 0 then Faulty else Done(inUse);
  }

  // ----- the selectors -----

  method ReadUnaryCode(src: Source, nGroups: nat) returns (r: Read<nat>)
    requires src.Valid() && nGroups > 0
    modifies src, src.reader
    ensures src.Valid() && Agrees(ReadUnary(old(src.Rest()), 0, nGroups), r, src.Rest())
  {
    hide Take, Source.Valid, Source.Rest;
    ghost var all := ReadUnary(src.Rest(), 0, nGroups);
    var j := 0;
    while true
      invariant src.Valid() && j < nGroups && ReadUnary(src.Rest(), j, nGroups) == all
      decreases nGroups - j
    {
      var uc :- src.Get(1);
      if uc == 0 { return Done(j); }
      j := j + 1;
      if j >= nGroups { return Faulty; }
    }
  }

  /** The element at `v` of the list moves to the front. */
  method BringToFront(pos: array<byte>, n: nat, v0: nat) returns (tmp: byte)
    requires v0 < n <= pos.Length
    modifies pos
    ensures tmp == old(pos[v0]) && pos[..n] == MoveToFront(old(pos[..n]), v0)
  {
    hide MoveToFront;
    ghost var l := pos[..n];
    var v := v0;
    tmp := pos[v];
    while v > 0
      invariant v <= v0
      invariant forall k {:trigger pos[k]} | 0 <= k < n :: pos[k] == if v < k <= v0 then l[k - 1] else l[k]
    {
      pos[v] := pos[v - 1];
      v := v - 1;
    }
    ShiftIsMove(l, pos[..n], v0);
    ghost var s := pos[..n];
    pos[0] := tmp;
    assert pos[..n] == s[0 := tmp];
  }

  /** The selectors so far and those still to come. */
  ghost predicate Selecting(sel: seq<byte>, js: seq<nat>, i: nat, pos: seq<byte>, all: seq<byte>) {
    i <= |js| && AllBelow(js[i..], |pos|) && sel + Selected(js[i..], pos) == all
  }

  lemma SelectStart(js: seq<nat>, pos: seq<byte>)
    requires AllBelow(js, |pos|)
    ensures Selecting([], js, 0, pos, Selected(js, pos))
  {
    assert js[0..] == js && [] + Selected(js, pos) == Selected(js, pos);
  }

  lemma SelectNext(sel: seq<byte>, js: seq<nat>, i: nat, pos: seq<byte>, all: seq<byte>)
    requires Selecting(sel, js, i, pos, all) && i < |js|
    ensures js[i] < |pos| && Selecting(sel + [pos[js[i]]], js, i + 1, MoveToFront(pos, js[i]), all)
  {
    hide MoveToFront;
    assert js[i] == js[i..][0];
    assert js[i..][1..] == js[i + 1..];
    var more := Selected(js[i + 1..], MoveToFront(pos, js[i]));
    assert sel + [pos[js[i]]] + more == sel + ([pos[js[i]]] + more);
  }

  lemma SelectDone(sel: seq<byte>, js: seq<nat>, pos: seq<byte>, all: seq<byte>)
    requires Selecting(sel, js, |js|, pos, all)
    ensures sel == all
  {
    assert sel + [] == sel;
  }

  /** Undoing the move-to-front coding of the selectors. */
  method UndoSelectors(selectorMtf: array<nat>, selector: array<byte>, nSelectors: nat, nGroups: nat)
    requires 2 <= nGroups <= 6 && selectorMtf.Length == selector.Length == MAX_SELECTORS && nSelectors <= MAX_SELECTORS
    requires AllBelow(selectorMtf[..nSelectors], nGroups)
    modifies selector
    ensures selector[..nSelectors] == Selected(old(selectorMtf[..nSelectors]), Identity(nGroups))
  {
    hide MoveToFront, Identity, Selected, Selecting;
    var pos := new byte[6](_ => 0);
    for v := 0 to nGroups
      modifies pos
      invariant forall k | 0 <= k < v :: pos[k] == k
    {
      pos[v] := v;
    }
    IdentityIs(pos[..nGroups]);
    ghost var js := selectorMtf[..nSelectors];
    ghost var all := Selected(js, Identity(nGroups));
    SelectStart(js, Identity(nGroups));
    assert selector[..0] == [];
    for i := 0 to nSelectors
      modifies selector, pos
      invariant Selecting(selector[..i], js, i, pos[..nGroups], all)
    {
      SelectNext(selector[..i], js, i, pos[..nGroups], all);
      ghost var had := selector[..i];
      assert selectorMtf[i] == js[i];
      var tmp := BringToFront(pos, nGroups, selectorMtf[i]);
      selector[i] := tmp;
      assert selector[..i + 1] == had + [tmp];
    }
    SelectDone(selector[..nSelectors], js, pos[..nGroups], all);
  }

  /** The positions; they are stored as they arrive, with nothing to keep them within the array. */
  method ReadPositions(src: Source, nSelectors: nat, nGroups: nat, selectorMtf: array<nat>)
      returns (r: Read<()>, ghost js: seq<nat>)
    requires src.Valid() && nGroups > 0 && nSelectors > 0 && selectorMtf.Length == MAX_SELECTORS
    modifies src, src.reader, selectorMtf
    ensures src.Valid() && Agrees(ReadUnaries(old(src.Rest()), nSelectors, nGroups, []), r.With(js), src.Rest())
    ensures r.Done? ==> nSelectors <= MAX_SELECTORS && selectorMtf[..nSelectors] == js && AllBelow(js, nGroups)
  {
    hide Take, Source.Valid, Source.Rest, ReadUnary;
    ghost var all := ReadUnaries(src.Rest(), nSelectors, nGroups, []);
    js := [];
    for i := 0 to nSelectors
      invariant src.Valid() && i <= MAX_SELECTORS && |js| == i && selectorMtf[..i] == js && AllBelow(js, nGroups)
      invariant ReadUnaries(src.Rest(), nSelectors - i, nGroups, js) == all
    {
      var j :- ReadUnaryCode(src, nGroups);
      if i >= selectorMtf.Length { return Overran, js; }
      selectorMtf[i] := j;
      js := js + [j];
      assert selectorMtf[..i + 1] == js;
    }
    r := Done(());
  }

  method ReadSelectorList(src: Source, nSelectors: nat, nGroups: nat) returns (r: Read<Groups>)
    requires src.Valid() && nSelectors > 0 && 2 <= nGroups <= 6
    modifies src, src.reader
    ensures src.Valid() && Agrees(ReadSelected(old(src.Rest()), nSelectors, nGroups), r, src.Rest())
  {
    hide Take, Source.Valid, Source.Rest, ReadUnaries, Selected, Identity;
    var selectorMtf, selector := new nat[MAX_SELECTORS], new byte[MAX_SELECTORS];
    var _, js :- ReadPositions(src, nSelectors, nGroups, selectorMtf);
    UndoSelectors(selectorMtf, selector, nSelectors, nGroups);
    r := Done(Groups(nGroups, selector[..nSelectors]));
  }

  method ReadGroups(src: Source) returns (r: Read<Groups>)
    requires src.Valid()
    modifies src, src.reader
    ensures src.Valid() && Agrees(ReadSelectors(old(src.Rest())), r, src.Rest())
    ensures r.Done? ==> GroupsOk(r.value)
  {
    hide Take, Source.Valid, Source.Rest, ReadSelected;
    SelectorsInRange(src.Rest());
    var g :- src.Get(3);
    var nGroups := g;
    if nGroups < 2 || nGroups > 6 { return Faulty; }
    var c :- src.Get(15);
    var nSelectors := c;
    if nSelectors < 1 { return Faulty; }
    r := ReadSelectorList(src, nSelectors, nGroups);
  }

  // ----- the code lengths -----

  lemma TakeLess(bits: seq<bit>)
    ensures Take(bits, 1).Ok? ==> |Take(bits, 1).rest| < |bits|
  {
  }

  method ReadLength(src: Source, curr0: nat) returns (r: Read<nat>)
    requires src.Valid()
    modifies src, src.reader
    ensures src.Valid() && Agrees(ReadDelta(old(src.Rest()), curr0), r, src.Rest())
  {
    hide Take, Source.Valid, Source.Rest;
    ghost var all := ReadDelta(src.Rest(), curr0);
    var curr: int := curr0;
    while true
      invariant src.Valid() && ReadDelta(src.Rest(), curr) == all
      decreases |src.Rest()|
    {
      TakeLess(src.Rest());
      if curr < 1 || curr > 20 { return Faulty; }
      var uc :- src.Get(1);
      if uc == 0 { return Done(curr); }
      TakeLess(src.Rest());
      uc :- src.Get(1);
      if uc == 0 { curr := curr + 1; } else { curr := curr - 1; }
    }
  }

  method ReadCodeLengths(src: Source, alphaSize: nat) returns (r: Read<seq<nat>>)
    requires src.Valid()
    modifies src, src.reader
    ensures src.Valid() && Agrees(ReadTable(old(src.Rest()), alphaSize), r, src.Rest())
  {
    hide Take, Source.Valid, Source.Rest, ReadDelta;
    var c :- src.Get(5);
    var curr := c;
    ghost var all := ReadDeltas(src.Rest(), alphaSize, curr, []);
    var len: seq<nat> := [];
    for i := 0 to alphaSize
      invariant src.Valid() && |len| == i && AllLengths(len) && ReadDeltas(src.Rest(), alphaSize - i, curr, len) == all
    {
      var l :- ReadLength(src, curr);
      curr := l;
      len := len + [curr];
    }
    r := Done(len);
  }

  method ReadAllTables(src: Source, nGroups: nat, alphaSize: nat) returns (r: Read<seq<seq<nat>>>)
    requires src.Valid()
    modifies src, src.reader
    ensures src.Valid() && Agrees(ReadTables(old(src.Rest()), nGroups, alphaSize, []), r, src.Rest())
  {
    hide Source.Valid, Source.Rest, ReadTable;
    ghost var all := ReadTables(src.Rest(), nGroups, alphaSize, []);
    var tables: seq<seq<nat>> := [];
    for t := 0 to nGroups
      invariant src.Valid() && |tables| == t && TablesOk(tables, alphaSize)
      invariant ReadTables(src.Rest(), nGroups - t, alphaSize, tables) == all
    {
      var len :- ReadCodeLengths(src, alphaSize);
      tables := tables + [len];
    }
    r := Done(tables);
  }
}
