/**
 * The fields of a compressed block as bits, and as the decoder reads them: the map of bytes in use, the selectors, the
 * code lengths and the symbols. Reading a field gives its value and the bits after it, or fails for want of bits or as
 * bad data.
 */
module BlockFormat {
  import opened Arithmetic
  import opened Bytes
  import opened CanonicalCode
  import opened MtfList
  import opened ZeroRuns
  import opened MtfCoder

  /**
   * A field that was read; or too few bits; or bad data; or data that the decoder would store behind the end of an
   * array.
   */
  datatype Parsed<T> = Ok(value: T, rest: seq<bit>) | Short | Bad | Overrun {
    predicate IsFailure() {
      !Ok?
    }

    function PropagateFailure<U>(): Parsed<U>
      requires IsFailure()
    {
      if Short? then Parsed.Short else if Bad? then Parsed.Bad else Parsed.Overrun
    }

    function Extract(): (T, seq<bit>)
      requires !IsFailure()
    {
      (value, rest)
    }
  }

  /** The next `n` bits as a number. */
  function Take(bits: seq<bit>, n: nat): (r: Parsed<nat>)
    ensures r == Short || (r.Ok? && |r.rest| <= |bits|)
  {
    if |bits| < n then Short else Ok(Value(bits[..n]), bits[n..])
  }

  lemma TakeWritten(v: nat, n: nat, tail: seq<bit>)
    requires v < Pow2(n)
    ensures Take(BitsOf(v, n) + tail, n) == Ok(v, tail)
  {
    hide Pow2, BitsOf, Value;
    ValueOfBits(v, n);
    var all := BitsOf(v, n) + tail;
    assert all[..n] == BitsOf(v, n) && all[n..] == tail;
  }

  lemma TakeBit(b: bit, tail: seq<bit>)
    ensures Take([b] + tail, 1) == Ok(b, tail)
  {
    var all := [b] + tail;
    assert all[..1] == [b] && all[1..] == tail;
    assert [b][..0] == [];
    assert Value([b]) == 2 * Value([]) + b;
  }

  lemma TakeFirst(bits: seq<bit>)
    ensures Take(bits, 1) == if bits == [] then Short else Ok(bits[0], bits[1..])
  {
    if bits != [] {
      assert bits == [bits[0]] + bits[1..];
      TakeBit(bits[0], bits[1..]);
    }
  }

  // ----- the map of bytes in use -----

  function FlagBit(f: bool): bit {
    if f then 1 else 0
  }

  function FlagBits(fs: seq<bool>): seq<bit> {
    if fs == [] then [] else [FlagBit(fs[0])] + FlagBits(fs[1..])
  }

  /** `n` flags, appended to those read before. */
  function ReadFlags(bits: seq<bit>, n: nat, acc: seq<bool>): (r: Parsed<seq<bool>>)
    ensures r.Ok? ==> |r.rest| <= |bits| && |r.value| == |acc| + n
    decreases n
  {
    if n == 0 then Ok(acc, bits)
    else
      var uc :- Take(bits, 1);
      ReadFlags(uc.1, n - 1, acc + [uc.0 == 1])
  }

  lemma NoFlags(bits: seq<bit>, acc: seq<bool>)
    ensures ReadFlags(bits, 0, acc) == Ok(acc, bits)
  {
  }

  lemma FlagStep(f: bool, rest: seq<bit>, n: nat, acc: seq<bool>)
    requires n > 0
    ensures ReadFlags([FlagBit(f)] + rest, n, acc) == ReadFlags(rest, n - 1, acc + [f])
  {
    hide Take;
    TakeBit(FlagBit(f), rest);
  }

  lemma {:induction false} FlagsWritten(fs: seq<bool>, tail: seq<bit>, acc: seq<bool>)
    ensures ReadFlags(FlagBits(fs) + tail, |fs|, acc) == Ok(acc + fs, tail)
    decreases |fs|
  {
    hide ReadFlags, FlagBit;
    if fs == [] {
      assert FlagBits(fs) + tail == tail && acc + fs == acc;
      NoFlags(tail, acc);
    } else {
      var f, g := fs[0], fs[1..];
      FlagStep(f, FlagBits(g) + tail, |fs|, acc);
      assert [FlagBit(f)] + FlagBits(g) + tail == [FlagBit(f)] + (FlagBits(g) + tail);
      FlagsWritten(g, tail, acc + [f]);
      assert acc + [f] + g == acc + fs;
    }
  }

  predicate RowUsed(inUse: seq<bool>, i: nat)
    requires |inUse| == 256 && i < 16
  {
    true in inUse[16 * i..16 * i + 16]
  }

  function RowsUsed(inUse: seq<bool>): (r: seq<bool>)
    requires |inUse| == 256
    ensures |r| == 16 && forall i | 0 <= i < 16 :: r[i] == RowUsed(inUse, i)
  {
    seq(16, i requires 0 <= i < 16 => RowUsed(inUse, i))
  }

  /** The flags of the rows in use, from row `i` on. */
  function RowBits(inUse: seq<bool>, i: nat): seq<bit>
    requires |inUse| == 256 && i <= 16
    decreases 16 - i
  {
    if i == 16 then []
    else (if RowUsed(inUse, i) then FlagBits(inUse[16 * i..16 * i + 16]) else []) + RowBits(inUse, i + 1)
  }

  function MapBits(inUse: seq<bool>): seq<bit>
    requires |inUse| == 256
  {
    FlagBits(RowsUsed(inUse)) + RowBits(inUse, 0)
  }

  function Unused(n: nat): (r: seq<bool>)
    ensures |r| == n && forall k | 0 <= k < n :: !r[k]
  {
    seq(n, _ => false)
  }

  /** Rows from `i` on, appended to those before. */
  function ReadRows(bits: seq<bit>, used: seq<bool>, i: nat, acc: seq<bool>): (r: Parsed<seq<bool>>)
    requires |used| == 16 && i <= 16 && |acc| == 16 * i
    ensures r.Ok? ==> |r.rest| <= |bits| && |r.value| == 256
    decreases 16 - i
  {
    if i == 16 then Ok(acc, bits)
    else if used[i] then
      var row :- ReadFlags(bits, 16, acc);
      ReadRows(row.1, used, i + 1, row.0)
    else ReadRows(bits, used, i + 1, acc + Unused(16))
  }

  /** The map; a block must use some byte. */
  function ReadMap(bits: seq<bit>): (r: Parsed<seq<bool>>)
    ensures r.Ok? ==> |r.rest| <= |bits| && |r.value| == 256
  {
    var used :- ReadFlags(bits, 16, []);
    var inUse :- ReadRows(used.1, used.0, 0, []);
    if UseCount(inUse.0, 256) == 0 then Bad else Ok(inUse.0, inUse.1)
  }

  lemma {:induction false} RowsWritten(inUse: seq<bool>, i: nat, tail: seq<bit>)
    requires |inUse| == 256 && i <= 16
    ensures ReadRows(RowBits(inUse, i) + tail, RowsUsed(inUse), i, inUse[..16 * i]) == Ok(inUse, tail)
    decreases 16 - i
  {
    hide Take, FlagBits, ReadFlags;
    if i == 16 {
      assert RowBits(inUse, i) + tail == tail && inUse[..256] == inUse;
    } else {
      var row := inUse[16 * i..16 * i + 16];
      RowsWritten(inUse, i + 1, tail);
      if RowUsed(inUse, i) {
        FlagsWritten(row, RowBits(inUse, i + 1) + tail, inUse[..16 * i]);
        assert FlagBits(row) + RowBits(inUse, i + 1) + tail == FlagBits(row) + (RowBits(inUse, i + 1) + tail);
        assert inUse[..16 * i] + row == inUse[..16 * (i + 1)];
      } else {
        assert forall j | 0 <= j < 16 :: !row[j];
        assert [] + RowBits(inUse, i + 1) == RowBits(inUse, i + 1);
        assert row == Unused(16);
        assert inUse[..16 * i] + row == inUse[..16 * (i + 1)];
      }
    }
  }

  /** The map is read back, if some byte is in use. */
  lemma MapWritten(inUse: seq<bool>, tail: seq<bit>)
    requires |inUse| == 256
    ensures ReadMap(MapBits(inUse) + tail) == if UseCount(inUse, 256) == 0 then Bad else Ok(inUse, tail)
  {
    hide ReadFlags, FlagBits, ReadRows, RowBits, UseCount;
    FlagsWritten(RowsUsed(inUse), RowBits(inUse, 0) + tail, []);
    assert [] + RowsUsed(inUse) == RowsUsed(inUse);
    assert MapBits(inUse) + tail == FlagBits(RowsUsed(inUse)) + (RowBits(inUse, 0) + tail);
    RowsWritten(inUse, 0, tail);
    assert inUse[..16 * 0] == [];
  }

  // ----- selectors -----

  function UnaryBits(j: nat): seq<bit> {
    if j == 0 then [0] else [1] + UnaryBits(j - 1)
  }

  function ReadUnary(bits: seq<bit>, j: nat, nGroups: nat): (r: Parsed<nat>)
    requires j < nGroups
    ensures r != Overrun && (r.Ok? ==> |r.rest| <= |bits| && r.value < nGroups)
    decreases nGroups - j
  {
    var uc :- Take(bits, 1);
    if uc.0 == 0 then Ok(j, uc.1)
    else if j + 1 >= nGroups then Bad
    else ReadUnary(uc.1, j + 1, nGroups)
  }

  lemma {:induction false} UnaryWritten(m: nat, tail: seq<bit>, j: nat, nGroups: nat)
    requires j + m < nGroups
    ensures ReadUnary(UnaryBits(m) + tail, j, nGroups) == Ok(j + m, tail)
    decreases m
  {
    hide Take;
    if m == 0 {
      TakeBit(0, tail);
    } else {
      assert UnaryBits(m) + tail == [1] + (UnaryBits(m - 1) + tail);
      TakeBit(1, UnaryBits(m - 1) + tail);
      UnaryWritten(m - 1, tail, j + 1, nGroups);
    }
  }

  ghost predicate AllBelow(s: seq<nat>, n: nat) {
    forall k | 0 <= k < |s| :: s[k] < n
  }

  function UnariesBits(js: seq<nat>): seq<bit> {
    if js == [] then [] else UnaryBits(js[0]) + UnariesBits(js[1..])
  }

  /**
   * The arrays for selectors have this many places. Their number in the stream, of fifteen bits, is not compared with
   * it.
   */
  const MAX_SELECTORS := 2 + 900000 / 50

  /** `n` codes, appended to those read before. One more than there are places for is stored behind the array. */
  function ReadUnaries(bits: seq<bit>, n: nat, nGroups: nat, acc: seq<nat>): (r: Parsed<seq<nat>>)
    requires nGroups > 0 && AllBelow(acc, nGroups)
    ensures r.Ok? ==>
      |r.rest| <= |bits| && |r.value| == |acc| + n && AllBelow(r.value, nGroups)
      && (n > 0 ==> |acc| + n <= 18002)
    decreases n
  {
    if n == 0 then Ok(acc, bits)
    else
      var j :- ReadUnary(bits, 0, nGroups);
      if |acc| >= 18002 then Overrun else ReadUnaries(j.1, n - 1, nGroups, acc + [j.0])
  }

  lemma {:induction false} UnariesWritten(js: seq<nat>, tail: seq<bit>, nGroups: nat, acc: seq<nat>)
    requires nGroups > 0 && AllBelow(acc, nGroups) && AllBelow(js, nGroups) && |acc| + |js| <= MAX_SELECTORS
    ensures ReadUnaries(UnariesBits(js) + tail, |js|, nGroups, acc) == Ok(acc + js, tail)
    decreases |js|
  {
    hide ReadUnary, UnaryBits;
    if js == [] {
      assert UnariesBits(js) + tail == tail && acc + js == acc;
    } else {
      assert UnariesBits(js) + tail == UnaryBits(js[0]) + (UnariesBits(js[1..]) + tail);
      UnaryWritten(js[0], UnariesBits(js[1..]) + tail, 0, nGroups);
      UnariesWritten(js[1..], tail, nGroups, acc + [js[0]]);
      assert acc + [js[0]] + js[1..] == acc + js;
    }
  }

  /** Selectors as positions in a list that each selector, once used, moves to the front of. */
  function Positions(sel: seq<byte>, pos: seq<byte>): (js: seq<nat>)
    requires AllIn(pos, sel)
    ensures |js| == |sel| && AllBelow(js, |pos|)
    decreases |sel|
  {
    if sel == [] then []
    else
      var j := IndexOf(pos, sel[0]);
      MoveKeeps(pos, j);
      [j] + Positions(sel[1..], MoveToFront(pos, j))
  }

  function Selected(js: seq<nat>, pos: seq<byte>): (sel: seq<byte>)
    requires AllBelow(js, |pos|)
    ensures |sel| == |js|
    decreases |js|
  {
    if js == [] then [] else [pos[js[0]]] + Selected(js[1..], MoveToFront(pos, js[0]))
  }

  lemma {:induction false} SelectedAgain(sel: seq<byte>, pos: seq<byte>)
    requires AllIn(pos, sel)
    ensures Selected(Positions(sel, pos), pos) == sel
    decreases |sel|
  {
    hide MoveToFront;
    if sel != [] {
      var j := IndexOf(pos, sel[0]);
      MoveKeeps(pos, j);
      SelectedAgain(sel[1..], MoveToFront(pos, j));
      assert Positions(sel, pos)[1..] == Positions(sel[1..], MoveToFront(pos, j));
    }
  }

  /** Selectors name tables. */
  lemma {:induction false} SelectedRange(js: seq<nat>, pos: seq<byte>, n: nat)
    requires AllBelow(js, |pos|) && forall k | 0 <= k < |pos| :: pos[k] < n
    ensures forall k | 0 <= k < |js| :: Selected(js, pos)[k] < n
    decreases |js|
  {
    if js != [] {
      SelectedRange(js[1..], MoveToFront(pos, js[0]), n);
    }
  }

  function SelectorBits(sel: seq<byte>, nGroups: nat): seq<bit>
    requires nGroups <= 6 && AllIn(Identity(nGroups), sel)
  {
    BitsOf(nGroups, 3) + (BitsOf(|sel|, 15) + UnariesBits(Positions(sel, Identity(nGroups))))
  }

  datatype Groups = Groups(nGroups: nat, selectors: seq<byte>)

  ghost predicate GroupsOk(g: Groups) {
    2 <= g.nGroups <= 6 && 1 <= |g.selectors| <= MAX_SELECTORS
      && forall k | 0 <= k < |g.selectors| :: g.selectors[k] < g.nGroups
  }

  /** `n` selectors of `nGroups` tables, their positions undone. */
  function ReadSelected(bits: seq<bit>, n: nat, nGroups: nat): (r: Parsed<Groups>)
    requires 0 < nGroups <= 256
    ensures r.Ok? ==> |r.rest| <= |bits|
  {
    var js :- ReadUnaries(bits, n, nGroups, []);
    Ok(Groups(nGroups, Selected(js.0, Identity(nGroups))), js.1)
  }

  /** The number of tables, then the selectors. */
  function ReadSelectors(bits: seq<bit>): (r: Parsed<Groups>)
    ensures r.Ok? ==> |r.rest| <= |bits|
  {
    var nGroups :- Take(bits, 3);
    if nGroups.0 < 2 || nGroups.0 > 6 then Bad
    else
      var nSelectors :- Take(nGroups.1, 15);
      if nSelectors.0 < 1 then Bad
      else
        ReadSelected(nSelectors.1, nSelectors.0, nGroups.0)
  }

  lemma SelectorsInRange(bits: seq<bit>)
    ensures ReadSelectors(bits).Ok? ==> GroupsOk(ReadSelectors(bits).value)
  {
    hide Take, Selected, ReadUnaries;
    if ReadSelectors(bits).Ok? {
      var n := Take(bits, 3).value;
      var js := ReadUnaries(Take(Take(bits, 3).rest, 15).rest, Take(Take(bits, 3).rest, 15).value, n, []).value;
      SelectedRange(js, Identity(n), n);
    }
  }

  lemma PowThree()
    ensures Pow2(3) == 8 && Pow2(1) == 2 && Pow2(2) == 4
  {
  }

  lemma PowFive()
    ensures Pow2(5) == 32
  {
    assert Pow2(3) == 8;
  }

  lemma PowFifteen()
    ensures Pow2(15) == 0x8000
  {
    hide Pow2;
    PowFive();
    PowAdd(5, 5);
    PowAdd(10, 5);
  }

  /** Selectors are read back. */
  lemma SelectorsWritten(sel: seq<byte>, nGroups: nat, tail: seq<bit>)
    requires 2 <= nGroups <= 6 && AllIn(Identity(nGroups), sel) && 1 <= |sel| <= MAX_SELECTORS
    ensures ReadSelectors(SelectorBits(sel, nGroups) + tail) == Ok(Groups(nGroups, sel), tail)
  {
    hide Take, BitsOf, UnariesBits, ReadUnaries, Positions, Selected, Identity;
    var js := Positions(sel, Identity(nGroups));
    var a, b, c := BitsOf(nGroups, 3), BitsOf(|sel|, 15), UnariesBits(js);
    assert a + (b + c) + tail == a + (b + (c + tail));
    PowThree();
    PowFifteen();
    TakeWritten(nGroups, 3, b + (c + tail));
    TakeWritten(|sel|, 15, c + tail);
    UnariesWritten(js, tail, nGroups, []);
    assert [] + js == js;
    SelectedAgain(sel, Identity(nGroups));
  }

  // ----- more selectors than there are places for -----

  lemma TakenBits(bits: seq<bit>, n: nat)
    requires Take(bits, n).Ok?
    ensures Take(bits, n).value < Pow2(n) && bits == BitsOf(Take(bits, n).value, n) + Take(bits, n).rest
  {
    hide Value, BitsOf, Pow2;
    BitsOfValue(bits[..n]);
  }

  lemma {:induction false} UnaryIs(bits: seq<bit>, j: nat, nGroups: nat)
    requires j < nGroups && ReadUnary(bits, j, nGroups).Ok?
    ensures var r := ReadUnary(bits, j, nGroups); r.value >= j && bits == UnaryBits(r.value - j) + r.rest
    decreases nGroups - j
  {
    hide Take;
    var r := ReadUnary(bits, j, nGroups);
    TakeFirst(bits);
    if bits[0] != 0 {
      UnaryIs(bits[1..], j + 1, nGroups);
      assert UnaryBits(r.value - j) + r.rest == [1] + (UnaryBits(r.value - (j + 1)) + r.rest);
    }
  }

  /** The bits start with `n` codes in range. */
  ghost predicate Arrive(bits: seq<bit>, n: nat, nGroups: nat, js: seq<nat>) {
    |js| == n && AllBelow(js, nGroups) && UnariesBits(js) <= bits
  }

  lemma ArriveMore(bits: seq<bit>, j: nat, rest: seq<bit>, n: nat, nGroups: nat, js: seq<nat>)
    requires bits == UnaryBits(j) + rest && j < nGroups && Arrive(rest, n, nGroups, js)
    ensures Arrive(bits, n + 1, nGroups, [j] + js)
  {
    hide UnaryBits;
    assert ([j] + js)[1..] == js;
    assert UnaryBits(j) + UnariesBits(js) <= UnaryBits(j) + rest;
  }

  lemma NoneArrive(bits: seq<bit>, nGroups: nat)
    ensures Arrive(bits, 0, nGroups, [])
  {
  }

  lemma {:induction false} CodesArrive(bits: seq<bit>, n: nat, nGroups: nat, acc: seq<nat>) returns (js: seq<nat>)
    requires nGroups > 0 && AllBelow(acc, nGroups) && |acc| <= MAX_SELECTORS
      && ReadUnaries(bits, n, nGroups, acc) == Overrun
    ensures |acc| + n > MAX_SELECTORS && Arrive(bits, MAX_SELECTORS + 1 - |acc|, nGroups, js)
    decreases n
  {
    hide ReadUnary, UnaryBits, Arrive;
    var j := ReadUnary(bits, 0, nGroups);
    UnaryIs(bits, 0, nGroups);
    if |acc| >= MAX_SELECTORS {
      NoneArrive(j.rest, nGroups);
      ArriveMore(bits, j.value, j.rest, 0, nGroups, []);
      js := [j.value] + [];
    } else {
      js := CodesArrive(j.rest, n - 1, nGroups, acc + [j.value]);
      ArriveMore(bits, j.value, j.rest, MAX_SELECTORS - |acc|, nGroups, js);
      js := [j.value] + js;
    }
  }

  lemma {:induction false} CodesOverrun(bits: seq<bit>, n: nat, nGroups: nat, acc: seq<nat>, js: seq<nat>)
    requires nGroups > 0 && AllBelow(acc, nGroups) && |acc| <= MAX_SELECTORS < |acc| + n
    requires Arrive(bits, MAX_SELECTORS + 1 - |acc|, nGroups, js)
    ensures ReadUnaries(bits, n, nGroups, acc) == Overrun
    decreases n
  {
    hide ReadUnary, UnaryBits;
    var rest := bits[|UnaryBits(js[0])|..];
    assert UnariesBits(js)[..|UnaryBits(js[0])|] == UnaryBits(js[0])
      && UnariesBits(js)[|UnaryBits(js[0])|..] == UnariesBits(js[1..]);
    assert bits == UnaryBits(js[0]) + rest && UnariesBits(js[1..]) <= rest;
    UnaryWritten(js[0], rest, 0, nGroups);
    if |acc| < MAX_SELECTORS {
      CodesOverrun(rest, n - 1, nGroups, acc + [js[0]], js[1..]);
    }
  }

  /** The bits announce more selectors than there are places for, and the codes of one more than fit come next. */
  ghost predicate Overlong(bits: seq<bit>, nGroups: nat, nSelectors: nat, js: seq<nat>) {
    && 2 <= nGroups <= 6 && 18002 < nSelectors < Pow2(15) && |js| == 18003 && AllBelow(js, nGroups)
    && BitsOf(nGroups, 3) + (BitsOf(nSelectors, 15) + UnariesBits(js)) <= bits
  }

  lemma OverlongMade(bits: seq<bit>, nGroups: nat, nSelectors: nat, rest: seq<bit>, js: seq<nat>)
    requires 2 <= nGroups <= 6 && MAX_SELECTORS < nSelectors < Pow2(15) && Arrive(rest, MAX_SELECTORS + 1, nGroups, js)
    requires bits == BitsOf(nGroups, 3) + (BitsOf(nSelectors, 15) + rest)
    ensures Overlong(bits, nGroups, nSelectors, js)
  {
    hide BitsOf, Pow2, UnariesBits;
    var a, b := BitsOf(nGroups, 3), BitsOf(nSelectors, 15);
    assert a + (b + rest) == a + (b + UnariesBits(js)) + rest[|UnariesBits(js)|..];
  }

  lemma OverlongParts(bits: seq<bit>, nGroups: nat, nSelectors: nat, js: seq<nat>) returns (rest: seq<bit>)
    requires Overlong(bits, nGroups, nSelectors, js)
    ensures 2 <= nGroups <= 6 && MAX_SELECTORS < nSelectors < Pow2(15) && Arrive(rest, MAX_SELECTORS + 1, nGroups, js)
    ensures bits == BitsOf(nGroups, 3) + (BitsOf(nSelectors, 15) + rest)
  {
    hide BitsOf, Pow2, UnariesBits;
    var a, b, c := BitsOf(nGroups, 3), BitsOf(nSelectors, 15), UnariesBits(js);
    var more := bits[|a + (b + c)|..];
    rest := c + more;
    assert bits == a + (b + c) + more == a + (b + rest);
  }

  /** Exactly then the decoder stores selectors behind the end of their array. */
  lemma SelectorsOverrun(bits: seq<bit>)
    ensures ReadSelectors(bits) == Overrun <==> exists nGroups, nSelectors, js ::
      Overlong(bits, nGroups, nSelectors, js)
  {
    hide Take, BitsOf, Pow2, ReadUnaries, Arrive, Selected, Overlong;
    if ReadSelectors(bits) == Overrun {
      var g := Take(bits, 3);
      var c := Take(g.rest, 15);
      TakenBits(bits, 3);
      TakenBits(g.rest, 15);
      var js := CodesArrive(c.rest, c.value, g.value, []);
      OverlongMade(bits, g.value, c.value, c.rest, js);
      assert Overlong(bits, g.value, c.value, js);
    }
    forall nGroups, nSelectors, js | Overlong(bits, nGroups, nSelectors, js) ensures ReadSelectors(bits) == Overrun {
      var rest := OverlongParts(bits, nGroups, nSelectors, js);
      PowThree();
      TakeWritten(nGroups, 3, BitsOf(nSelectors, 15) + rest);
      TakeWritten(nSelectors, 15, rest);
      CodesOverrun(rest, nSelectors, nGroups, [], js);
    }
  }

  function Zeros(n: nat): (z: seq<bit>)
    ensures |z| == n && forall k | 0 <= k < n :: z[k] == 0
  {
    seq(n, _ => 0)
  }

  lemma {:induction false} ZerosAre(js: seq<nat>)
    requires forall k | 0 <= k < |js| :: js[k] == 0
    ensures UnariesBits(js) == Zeros(|js|)
  {
    if js == [] {
    } else {
      ZerosAre(js[1..]);
      assert Zeros(|js|) == [0] + Zeros(|js| - 1);
    }
  }

  /** Two tables, one selector more than fits, and a bit for each: the array is overrun. */
  lemma OverlongZeros(bits: seq<bit>)
    requires bits == BitsOf(2, 3) + (BitsOf(MAX_SELECTORS + 1, 15) + Zeros(MAX_SELECTORS + 1))
    ensures ReadSelectors(bits) == Overrun
  {
    hide ReadSelectors, BitsOf, Pow2, Zeros, UnariesBits;
    var js: seq<nat> := seq(MAX_SELECTORS + 1, _ => 0);
    PowFifteen();
    ZerosAre(js);
    assert Overlong(bits, 2, MAX_SELECTORS + 1, js);
    SelectorsOverrun(bits);
  }

  // ----- code lengths -----

  /** From the current length to the wanted one, a step at a time. */
  function DeltaBits(curr: nat, want: nat): seq<bit>
    decreases if curr < want then want - curr else curr - want
  {
    if curr < want then [1, 0] + DeltaBits(curr + 1, want)
    else if curr > want then [1, 1] + DeltaBits(curr - 1, want)
    else [0]
  }

  function ReadDelta(bits: seq<bit>, curr: int): (r: Parsed<nat>)
    ensures r.Ok? ==> |r.rest| <= |bits| && 1 <= r.value <= 20
    decreases |bits|
  {
    if curr < 1 || curr > 20 then Bad
    else
      var more :- Take(bits, 1);
      if more.0 == 0 then Ok(curr, more.1)
      else
        var down :- Take(more.1, 1);
        ReadDelta(down.1, if down.0 == 0 then curr + 1 else curr - 1)
  }

  lemma {:induction false} DeltaWritten(curr: nat, want: nat, tail: seq<bit>)
    requires 1 <= curr <= 20 && 1 <= want <= 20
    ensures ReadDelta(DeltaBits(curr, want) + tail, curr) == Ok(want, tail)
    decreases if curr < want then want - curr else curr - want
  {
    hide Take;
    if curr == want {
      TakeBit(0, tail);
    } else {
      var next := if curr < want then curr + 1 else curr - 1;
      var b: bit := if curr < want then 0 else 1;
      assert [1, b] + DeltaBits(next, want) + tail == [1] + ([b] + (DeltaBits(next, want) + tail));
      TakeBit(1, [b] + (DeltaBits(next, want) + tail));
      TakeBit(b, DeltaBits(next, want) + tail);
      DeltaWritten(next, want, tail);
    }
  }

  function DeltasBits(curr: nat, lens: seq<nat>): seq<bit>
    decreases |lens|
  {
    if lens == [] then [] else DeltaBits(curr, lens[0]) + DeltasBits(lens[0], lens[1..])
  }

  ghost predicate AllLengths(s: seq<nat>) {
    forall k | 0 <= k < |s| :: 1 <= s[k] <= 20
  }

  function ReadDeltas(bits: seq<bit>, n: nat, curr: int, acc: seq<nat>): (r: Parsed<seq<nat>>)
    requires AllLengths(acc)
    ensures r.Ok? ==> |r.rest| <= |bits| && |r.value| == |acc| + n && AllLengths(r.value)
    decreases n
  {
    if n == 0 then Ok(acc, bits)
    else
      var c :- ReadDelta(bits, curr);
      ReadDeltas(c.1, n - 1, c.0, acc + [c.0])
  }

  lemma {:induction false} DeltasWritten(lens: seq<nat>, curr: nat, tail: seq<bit>, acc: seq<nat>)
    requires AllLengths(acc) && AllLengths(lens) && 1 <= curr <= 20
    ensures ReadDeltas(DeltasBits(curr, lens) + tail, |lens|, curr, acc) == Ok(acc + lens, tail)
    decreases |lens|
  {
    hide ReadDelta, DeltaBits;
    if lens == [] {
      assert DeltasBits(curr, lens) + tail == tail && acc + lens == acc;
    } else {
      assert DeltasBits(curr, lens) + tail == DeltaBits(curr, lens[0]) + (DeltasBits(lens[0], lens[1..]) + tail);
      DeltaWritten(curr, lens[0], DeltasBits(lens[0], lens[1..]) + tail);
      DeltasWritten(lens[1..], lens[0], tail, acc + [lens[0]]);
      assert acc + [lens[0]] + lens[1..] == acc + lens;
    }
  }

  /** A table: its first length in five bits, then each length by its distance from the one before. */
  function TableBits(lens: seq<nat>): seq<bit>
    requires lens != []
  {
    BitsOf(lens[0], 5) + DeltasBits(lens[0], lens)
  }

  function ReadTable(bits: seq<bit>, alphaSize: nat): (r: Parsed<seq<nat>>)
    ensures r.Ok? ==> |r.rest| <= |bits| && |r.value| == alphaSize && AllLengths(r.value)
  {
    var curr :- Take(bits, 5);
    ReadDeltas(curr.1, alphaSize, curr.0, [])
  }

  lemma TableWritten(lens: seq<nat>, tail: seq<bit>)
    requires lens != [] && AllLengths(lens)
    ensures ReadTable(TableBits(lens) + tail, |lens|) == Ok(lens, tail)
  {
    hide Take, BitsOf, DeltasBits, ReadDeltas;
    PowFive();
    TakeWritten(lens[0], 5, DeltasBits(lens[0], lens) + tail);
    assert TableBits(lens) + tail == BitsOf(lens[0], 5) + (DeltasBits(lens[0], lens) + tail);
    DeltasWritten(lens, lens[0], tail, []);
    assert [] + lens == lens;
  }

  ghost predicate TablesOk(tables: seq<seq<nat>>, alphaSize: nat) {
    forall t | 0 <= t < |tables| :: |tables[t]| == alphaSize && AllLengths(tables[t])
  }

  function TablesBits(tables: seq<seq<nat>>): seq<bit>
    requires forall t | 0 <= t < |tables| :: tables[t] != []
  {
    if tables == [] then [] else TableBits(tables[0]) + TablesBits(tables[1..])
  }

  function ReadTables(bits: seq<bit>, n: nat, alphaSize: nat, acc: seq<seq<nat>>): (r: Parsed<seq<seq<nat>>>)
    requires TablesOk(acc, alphaSize)
    ensures r.Ok? ==> |r.rest| <= |bits| && |r.value| == |acc| + n && TablesOk(r.value, alphaSize)
    decreases n
  {
    if n == 0 then Ok(acc, bits)
    else
      var t :- ReadTable(bits, alphaSize);
      ReadTables(t.1, n - 1, alphaSize, acc + [t.0])
  }

  lemma {:induction false} TablesWritten(tables: seq<seq<nat>>, alphaSize: nat, tail: seq<bit>, acc: seq<seq<nat>>)
    requires TablesOk(acc, alphaSize) && TablesOk(tables, alphaSize) && alphaSize > 0
    ensures ReadTables(TablesBits(tables) + tail, |tables|, alphaSize, acc) == Ok(acc + tables, tail)
    decreases |tables|
  {
    hide ReadTable, TableBits;
    if tables == [] {
      assert TablesBits(tables) + tail == tail && acc + tables == acc;
    } else {
      assert TablesBits(tables) + tail == TableBits(tables[0]) + (TablesBits(tables[1..]) + tail);
      TableWritten(tables[0], TablesBits(tables[1..]) + tail);
      TablesWritten(tables[1..], alphaSize, tail, acc + [tables[0]]);
      assert acc + [tables[0]] + tables[1..] == acc + tables;
    }
  }
}
