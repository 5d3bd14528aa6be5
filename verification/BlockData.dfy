/** The symbols of a block as bits: groups of fifty, each coded by the table its selector names. */
module BlockData {
  import opened Bytes
  import opened HuffmanOptimal
  import opened CanonicalCode
  import opened CodeTables
  import opened BlockFormat

  const G_SIZE := 50

  function MinLen(length: seq<nat>): (m: nat)
    ensures forall i | 0 <= i < |length| :: m <= length[i]
    ensures length != [] ==> m in length
  {
    if length == [] then 32
    else
      var m := MinLen(length[..|length| - 1]);
      if length[|length| - 1] < m || |length| == 1 then length[|length| - 1] else m
  }

  function MaxLen(length: seq<nat>): (m: nat)
    ensures forall i | 0 <= i < |length| :: length[i] <= m
    ensures length != [] ==> m in length
  {
    if length == [] then 0
    else
      var m := MaxLen(length[..|length| - 1]);
      if length[|length| - 1] > m || |length| == 1 then length[|length| - 1] else m
  }

  lemma LengthsBetween(length: seq<nat>)
    requires length != [] && AllLengths(length)
    ensures Lengths(length, MinLen(length), MaxLen(length)) && Count(length, MaxLen(length)) > 0
  {
    hide MinLen, MaxLen;
    var m := MaxLen(length);
    var i :| 0 <= i < |length| && length[i] == m;
    CountLess(length, m, i, |length|);
  }

  /** A code that can be decoded. */
  ghost predicate CodeOk(length: seq<nat>) {
    length != [] && AllLengths(length) && KraftSum(length) <= 1.0
  }

  ghost function Word(length: seq<nat>, s: nat): (w: seq<bit>)
    requires s < |length|
    ensures |w| == length[s]
  {
    Codeword(length, MinLen(length), s)
  }

  /** What the decoding tables hold for `n` bits, whether the lengths form a prefix code or not. */
  ghost function LimitAt(length: seq<nat>, n: nat): int {
    if n <= MaxLen(length) then First(length, MinLen(length), n) + Count(length, n) - 1 else 0
  }

  ghost function BaseAt(length: seq<nat>, n: nat): int {
    if n <= MaxLen(length) then First(length, MinLen(length), n) - Below(length, n) else Below(length, n)
  }

  lemma PlacesTaken(length: seq<nat>, p: nat)
    requires AllLengths(length) && p < |length|
    ensures exists s: nat :: s < |length| && Place(length, s) == p
  {
    AllBelowLength(length, MAX_LENGTH + 1, |length|);
    var s := PlaceTaken(length, MAX_LENGTH + 1, p);
  }

  /** The symbol at a place in the order of length, then number. */
  ghost function SymbolAt(length: seq<nat>, p: nat): (s: nat)
    requires AllLengths(length) && p < |length|
    ensures s < |length| && Place(length, s) == p
  {
    PlacesTaken(length, p);
    var s: nat :| s < |length| && Place(length, s) == p;
    s
  }

  /**
   * Bits are added until their value is within the limit; its place then tells the symbol, unless it lies before the
   * first.
   */
  ghost function Sought(bits: seq<bit>, length: seq<nat>, n: nat): (r: Parsed<nat>)
    requires AllLengths(length) && n > 0
    ensures r != Overrun && (r.Ok? ==> |r.rest| < |bits| && r.value < |length|)
    decreases MAX_LENGTH + 1 - n
  {
    var zvec :- Take(bits, n);
    if n > MAX_LENGTH then Bad
    else if zvec.0 <= LimitAt(length, n) then
      var place := zvec.0 - BaseAt(length, n);
      if 0 <= place < |length| then Ok(SymbolAt(length, place), zvec.1) else Bad
    else Sought(bits, length, n + 1)
  }

  /** The symbol that comes next. */
  ghost function NextSymbol(bits: seq<bit>, length: seq<nat>): (r: Parsed<nat>)
    requires AllLengths(length) && length != []
    ensures r != Overrun && (r.Ok? ==> |r.rest| < |bits| && r.value < |length|)
  {
    LengthsBetween(length);
    Sought(bits, length, MinLen(length))
  }

  lemma PlaceBetween(length: seq<nat>, s: nat)
    requires s < |length|
    ensures Below(length, length[s]) <= Place(length, s) < Below(length, length[s] + 1)
  {
    PlaceInRange(length, s);
  }

  lemma PlaceAlone(length: seq<nat>, s: nat, s': nat)
    requires s < |length| && s' < |length| && Place(length, s) == Place(length, s')
    ensures s == s'
  {
    hide CountEq, CountBelow;
    PlaceBetween(length, s);
    PlaceBetween(length, s');
    if length[s] < length[s'] {
      BelowMonotone(length, length[s] + 1, length[s'], |length|);
    } else if length[s'] < length[s] {
      BelowMonotone(length, length[s'] + 1, length[s], |length|);
    } else if s < s' {
      CountLess(length, length[s], s, s');
    } else if s' < s {
      CountLess(length, length[s], s', s);
    }
  }

  /** Decoding tables as sequences. */
  lemma TablesMade(length: seq<nat>) returns (limit: seq<int>, base: seq<int>, perm: seq<nat>)
    requires AllLengths(length) && length != []
    ensures IsLimit(limit, length, MinLen(length), MaxLen(length))
      && IsBase(base, length, MinLen(length), MaxLen(length))
    ensures IsPerm(perm, length) && |perm| == |length| && forall p | 0 <= p < |length| :: perm[p] == SymbolAt(length, p)
  {
    hide CountEq, CountBelow, First, Below, Place, MinLen, MaxLen;
    LengthsBetween(length);
    limit := seq(MAX_CODE_LEN, n requires 0 <= n => LimitAt(length, n));
    base := seq(MAX_CODE_LEN, n requires 0 <= n => BaseAt(length, n));
    perm := seq(|length|, p requires 0 <= p < |length| => SymbolAt(length, p));
    forall s {:trigger Place(length, s)} | 0 <= s < |length|
      ensures Place(length, s) < |length| && perm[Place(length, s)] == s {
      PlaceInRange(length, s);
      PlaceAlone(length, s, SymbolAt(length, Place(length, s)));
    }
  }

  /** What the tables hold, where the search looks at them. */
  lemma TablesHold(length: seq<nat>, limit: seq<int>, base: seq<int>, n: nat)
    requires length != [] && AllLengths(length) && MinLen(length) <= n <= MAX_LENGTH
    requires IsLimit(limit, length, MinLen(length), MaxLen(length))
      && IsBase(base, length, MinLen(length), MaxLen(length))
    ensures limit[n] == LimitAt(length, n) && base[n] == BaseAt(length, n)
  {
    hide CountEq, CountBelow, First, Below, MinLen, MaxLen;
  }

  ghost predicate StandsFirst(bits: seq<bit>, length: seq<nat>, s: nat) {
    Stands(bits, 0, length, MinLen(length), s)
  }

  /** No codeword of fewer than `n` bits stands here. */
  ghost predicate Seeking(bits: seq<bit>, length: seq<nat>, n: nat) {
    && MinLen(length) <= n && NoneShorter(bits, 0, length, MinLen(length), n)
    && (n <= |bits| ==> Value(bits[..n]) >= First(length, MinLen(length), n))
  }

  lemma SeekNext(bits: seq<bit>, length: seq<nat>, n: nat)
    requires CodeOk(length) && Seeking(bits, length, n) && n <= MAX_LENGTH && n <= |bits|
      && Value(bits[..n]) > LimitAt(length, n)
    ensures Seeking(bits, length, n + 1)
  {
    hide KraftSum, Stands, First, Value, MinLen, MaxLen, LimitAt, BaseAt, IsPerm, NoneShorter;
    LengthsBetween(length);
    var limit, base, perm := TablesMade(length);
    TablesHold(length, limit, base, n);
    assert bits[0..0 + n] == bits[..n];
    SearchNext(bits, 0, length, MinLen(length), MaxLen(length), limit, n, Value(bits[..n]));
    if n < |bits| { assert bits[0..0 + (n + 1)] == bits[..n + 1]; }
  }

  lemma SeekFound(bits: seq<bit>, length: seq<nat>, n: nat)
    requires CodeOk(length) && Seeking(bits, length, n) && n <= MAX_LENGTH && n <= |bits|
      && Value(bits[..n]) <= LimitAt(length, n)
    ensures var p := Value(bits[..n]) - BaseAt(length, n);
            0 <= p < |length| && StandsFirst(bits, length, SymbolAt(length, p)) && length[SymbolAt(length, p)] == n
  {
    hide KraftSum, Stands, First, Value, MinLen, MaxLen, LimitAt, BaseAt, NoneShorter, IsPerm, IsLimit, IsBase;
    LengthsBetween(length);
    var limit, base, perm := TablesMade(length);
    TablesHold(length, limit, base, n);
    assert bits[0..0 + n] == bits[..n];
    var s := SearchFound(bits, 0, length, MinLen(length), MaxLen(length), limit, base, perm, n, Value(bits[..n]));
  }

  /** In a prefix code a symbol is found exactly when its codeword stands here, whatever follows it. */
  lemma {:induction false} SoughtIs(bits: seq<bit>, length: seq<nat>, n: nat)
    requires CodeOk(length) && 0 < n <= MAX_LENGTH + 1 && Seeking(bits, length, n)
    ensures var r := Sought(bits, length, n);
            if r.Ok? then StandsFirst(bits, length, r.value) && r.rest == bits[length[r.value]..]
            else forall s: nat :: !StandsFirst(bits, length, s)
    decreases MAX_LENGTH + 1 - n
  {
    hide KraftSum, Stands, First, Value, MinLen, MaxLen, LimitAt, BaseAt, SymbolAt;
    LengthsBetween(length);
    if n > |bits| {
      NoneThatFits(bits, 0, length, MinLen(length), n);
    } else if n > MAX_LENGTH {
      assert bits[0..0 + n] == bits[..n];
      NoneThatLong(bits, 0, length, MinLen(length), MaxLen(length), n, Value(bits[..n]));
    } else if Value(bits[..n]) <= LimitAt(length, n) {
      SeekFound(bits, length, n);
    } else {
      SeekNext(bits, length, n);
      SoughtIs(bits, length, n + 1);
    }
  }

  lemma SeekStart(bits: seq<bit>, length: seq<nat>)
    requires length != [] && AllLengths(length)
    ensures Seeking(bits, length, MinLen(length))
  {
    hide Stands, Value, MinLen, MaxLen;
    LengthsBetween(length);
    FirstIsZero(length, MinLen(length));
    forall s: nat | Stands(bits, 0, length, MinLen(length), s) ensures s < |length| && length[s] >= MinLen(length) {
      StandsHere(bits, 0, length, MinLen(length), s);
    }
  }

  /**
   * In a prefix code the next symbol is the one whose codeword stands here; no other does, and if none does, none is
   * read.
   */
  lemma NextIs(bits: seq<bit>, length: seq<nat>)
    requires CodeOk(length)
    ensures var r := NextSymbol(bits, length);
            && (r.Ok? ==> StandsFirst(bits, length, r.value) && r.rest == bits[length[r.value]..])
            && forall s: nat | StandsFirst(bits, length, s) :: r.Ok? && r.value == s
  {
    hide KraftSum, Stands, First, Value, MinLen, MaxLen, Sought;
    LengthsBetween(length);
    var m := MinLen(length);
    SeekStart(bits, length);
    SoughtIs(bits, length, m);
    forall s: nat | StandsFirst(bits, length, s) ensures NextSymbol(bits, length).Ok?
      && NextSymbol(bits, length).value == s {
      StandsAlone(bits, 0, length, m, MaxLen(length), s, NextSymbol(bits, length).value);
    }
  }

  lemma WordRead(length: seq<nat>, s: nat, tail: seq<bit>)
    requires CodeOk(length) && s < |length|
    ensures NextSymbol(Word(length, s) + tail, length) == Ok(s, tail)
  {
    hide Codeword, KraftSum, NextSymbol;
    var all := Word(length, s) + tail;
    assert all[0..0 + length[s]] == Word(length, s) && all[length[s]..] == tail;
    assert StandsFirst(all, length, s);
    NextIs(all, length);
  }

  // ----- the data of a block -----

  ghost predicate CodesOk(tables: seq<seq<nat>>, alphaSize: nat) {
    forall t | 0 <= t < |tables| :: |tables[t]| == alphaSize && CodeOk(tables[t])
  }

  /** Selectors name tables, and there is one for every fifty symbols. */
  ghost predicate Selects(sel: seq<byte>, n: nat, count: nat) {
    count <= 50 * |sel| && forall k | 0 <= k < |sel| :: sel[k] < n
  }

  ghost function TableFor(tables: seq<seq<nat>>, sel: seq<byte>, k: nat): seq<nat>
    requires Selects(sel, |tables|, k + 1)
  {
    tables[sel[k / 50]]
  }

  /** The codewords of the symbols from number `k` on. */
  ghost function DataBits(syms: seq<nat>, k: nat, tables: seq<seq<nat>>, sel: seq<byte>, alphaSize: nat): seq<bit>
    requires CodesOk(tables, alphaSize) && Selects(sel, |tables|, |syms|) && k <= |syms| && AllBelow(syms, alphaSize)
    decreases |syms| - k
  {
    if k == |syms| then [] else Word(TableFor(tables, sel, k), syms[k]) + DataBits(syms, k + 1, tables, sel, alphaSize)
  }

  /** Symbol number `k`, coded by the table that its group of fifty selects. */
  ghost function ReadSymbol(bits: seq<bit>, tables: seq<seq<nat>>, sel: seq<byte>, alphaSize: nat,
      k: nat): (r: Parsed<nat>)
    requires TablesOk(tables, alphaSize) && alphaSize > 0 && Selects(sel, |tables|, 0)
    ensures r != Overrun && (r.Ok? ==> |r.rest| < |bits| && r.value < alphaSize)
  {
    if k / 50 >= |sel| then Bad else NextSymbol(bits, tables[sel[k / 50]])
  }

  /** Symbols up to the end marker, appended to those read before. */
  ghost function ReadData(bits: seq<bit>, tables: seq<seq<nat>>, sel: seq<byte>, alphaSize: nat, eob: nat,
      acc: seq<nat>): (r: Parsed<seq<nat>>)
    requires TablesOk(tables, alphaSize) && alphaSize > 0 && Selects(sel, |tables|, 0)
    decreases |bits|
  {
    var s :- ReadSymbol(bits, tables, sel, alphaSize, |acc|);
    if s.0 == eob then Ok(acc + [s.0], s.1) else ReadData(s.1, tables, sel, alphaSize, eob, acc + [s.0])
  }

  /** The end marker comes last, and only there. */
  ghost predicate Marked(syms: seq<nat>, eob: nat) {
    syms != [] && syms[|syms| - 1] == eob && forall k | 0 <= k < |syms| - 1 :: syms[k] != eob
  }

  lemma CodesHaveLengths(tables: seq<seq<nat>>, alphaSize: nat)
    requires CodesOk(tables, alphaSize)
    ensures TablesOk(tables, alphaSize) && (tables != [] ==> alphaSize > 0)
  {
    hide KraftSum;
    if tables != [] { assert |tables[0]| == alphaSize; }
  }

  /** Symbols are read back from their codewords. */
  lemma {:induction false} DataWritten(syms: seq<nat>, k: nat, tables: seq<seq<nat>>, sel: seq<byte>, alphaSize: nat,
      eob: nat, tail: seq<bit>)
    requires TablesOk(tables, alphaSize) && CodesOk(tables, alphaSize) && alphaSize > 0
      && Selects(sel, |tables|, |syms|) && k < |syms| && AllBelow(syms, alphaSize)
    requires Marked(syms, eob)
    ensures ReadData(DataBits(syms, k, tables, sel, alphaSize) + tail, tables, sel, alphaSize, eob, syms[..k]) ==
      Ok(syms, tail)
    decreases |syms| - k
  {
    hide NextSymbol, Word, CodeOk;
    var table := TableFor(tables, sel, k);
    var more := DataBits(syms, k + 1, tables, sel, alphaSize);
    assert syms[..k] + [syms[k]] == syms[..k + 1];
    assert Word(table, syms[k]) + more + tail == Word(table, syms[k]) + (more + tail);
    WordRead(table, syms[k], more + tail);
    if k + 1 < |syms| {
      DataWritten(syms, k + 1, tables, sel, alphaSize, eob, tail);
    } else {
      assert syms[..k + 1] == syms && more + tail == tail;
    }
  }
}
