/** The last column of a block: its symbols are decoded into bytes as they are read. */
module BlockColumn {
  import opened Bytes
  import opened CanonicalCode
  import opened MtfList
  import opened ZeroRuns
  import opened MtfCoder
  import opened BlockFormat
  import opened BlockData

  /**
   * What the symbols of a block are read with: its tables and selectors, the `n` bytes in use, and the room for the
   * column.
   */
  datatype Coding = Coding(tables: seq<seq<nat>>, selectors: seq<byte>, n: nat, u: seq<byte>, nblockMax: nat)

  ghost predicate CodingOk(c: Coding) {
    1 <= c.n <= 256 && |c.u| == 256 && TablesOk(c.tables, c.n + 2) && Selects(c.selectors, |c.tables|, 0)
  }

  ghost function SymbolNext(bits: seq<bit>, c: Coding, k: nat): (r: Parsed<nat>)
    requires CodingOk(c)
    ensures r != Overrun && (r.Ok? ==> |r.rest| < |bits| && r.value <= c.n + 1)
  {
    ReadSymbol(bits, c.tables, c.selectors, c.n + 2, k)
  }

  ghost function OnSymbol(s: nat, bits: seq<bit>, c: Coding, k: nat, list: seq<byte>, run: nat, place: nat,
      out: seq<byte>): (r: Parsed<seq<byte>>)
    requires CodingOk(c) && |list| == 256 && s <= c.n + 1
    ensures r.Ok? ==> |r.rest| <= |bits|
    decreases |bits|, 1
  {
    if s <= RUNB then
      if place >= 2 * 1024 * 1024 then Bad else ReadBytes(bits, c, k, list, run + (s + 1) * place, 2 * place, out)
    else if s == c.n + 1 then
      if |out| + run > c.nblockMax then Bad else Ok(out + Repeated(c.u[list[0]], run), bits)
    else
      if |out| + run >= c.nblockMax then Bad
      else ReadBytes(bits, c, k, MoveToFront(list, s - 1), 0, 1, out + Repeated(c.u[list[0]], run) + [c.u[list[s - 1]]])
  }

  /**
   * From the symbol with number `k` on: `list` is the move-to-front list, `run` the value of the digits read since the
   * last other symbol, `place` that of the next digit's place, and `out` the bytes before.
   */
  ghost function ReadBytes(bits: seq<bit>, c: Coding, k: nat, list: seq<byte>, run: nat, place: nat,
      out: seq<byte>): (r: Parsed<seq<byte>>)
    requires CodingOk(c) && |list| == 256
    ensures r.Ok? ==> |r.rest| <= |bits|
    decreases |bits|, 0
  {
    var s :- SymbolNext(bits, c, k);
    OnSymbol(s.0, s.1, c, k + 1, list, run, place, out)
  }

  // ----- reading first, decoding afterwards -----

  ghost function AllSymbols(bits: seq<bit>, c: Coding, acc: seq<nat>): (r: Parsed<seq<nat>>)
    requires CodingOk(c)
  {
    ReadData(bits, c.tables, c.selectors, c.n + 2, c.n + 1, acc)
  }

  /** What symbols that were read stand for, if it fits. */
  function Fitting(d: Option<seq<byte>>, c: Coding, out: seq<byte>, rest: seq<bit>): Parsed<seq<byte>>
    requires |c.u| == 256
  {
    match d
    case None => Bad
    case Some(col) => if |out| + |col| > c.nblockMax then Bad else Ok(out + Unnumbered(c.u, col), rest)
  }

  lemma SymbolsStep(bits: seq<bit>, c: Coding, acc: seq<nat>)
    requires CodingOk(c)
    ensures var s := SymbolNext(bits, c, |acc|);
            && (!s.Ok? ==> !AllSymbols(bits, c, acc).Ok?)
            && (s.Ok? && s.value != c.n + 1 ==> AllSymbols(bits, c, acc) == AllSymbols(s.rest, c, acc + [s.value]))
            && (s.Ok? && s.value == c.n + 1 ==> AllSymbols(bits, c, acc) == Ok(acc + [s.value], s.rest))
  {
    hide NextSymbol, TablesOk;
  }

  /** What is read comes after what was read before. */
  lemma {:induction false} SymbolsLonger(bits: seq<bit>, c: Coding, acc: seq<nat>)
    requires CodingOk(c) && AllSymbols(bits, c, acc).Ok?
    ensures acc <= AllSymbols(bits, c, acc).value
    decreases |bits|
  {
    hide SymbolNext, AllSymbols, CodingOk;
    SymbolsStep(bits, c, acc);
    var s := SymbolNext(bits, c, |acc|);
    if s.value != c.n + 1 {
      SymbolsLonger(s.rest, c, acc + [s.value]);
      assert acc <= acc + [s.value];
    }
  }

  /** The symbols from place `k` on, split. */
  lemma SymbolsSplit(all: seq<nat>, acc: seq<nat>, s: nat)
    requires acc + [s] <= all
    ensures |acc| < |all| && all[|acc|..] == [s] + all[|acc| + 1..]
  {
    assert all[|acc|] == s;
  }

  lemma DigitDecoded(l: seq<byte>, s: nat, rest: seq<nat>, eob: nat, run: nat, place: nat)
    requires l != [] && s <= RUNB < eob
    ensures Decoded(l, [s] + rest, eob, run, place) == if place >= N_LIMIT then None
      else Decoded(l, rest, eob, run + (s + 1) * place, 2 * place)
  {
    assert ([s] + rest)[1..] == rest;
  }

  /** A symbol that ends a run: what it and those after it stand for, if it fits. */
  lemma MoveFits(l: seq<byte>, s: nat, rest: seq<nat>, run: nat, place: nat, c: Coding, out: seq<byte>, tail: seq<bit>)
    requires |l| == 256 && |c.u| == 256 && RUNB < s < c.n + 1 <= 257
    ensures Fitting(Decoded(l, [s] + rest, c.n + 1, run, place), c, out, tail)
         == if |out| + run >= c.nblockMax then Bad
            else Fitting(Decoded(MoveToFront(l, s - 1), rest, c.n + 1, 0, 1), c,
              out + Repeated(c.u[l[0]], run) + [c.u[l[s - 1]]], tail)
  {
    hide Decoded, MoveToFront, Repeated, Unnumbered;
    AfterIs(l, s, rest, c.n + 1, run, place);
    match Decoded(MoveToFront(l, s - 1), rest, c.n + 1, 0, 1)
    case None =>
    case Some(col) =>
      assert Repeated(l[0], run) + [l[s - 1]] + col == Repeated(l[0], run) + ([l[s - 1]] + col);
      UnnumberedRun(c.u, l[0], run, [l[s - 1]] + col);
      assert Unnumbered(c.u, [l[s - 1]] + col) == [c.u[l[s - 1]]] + Unnumbered(c.u, col);
      assert out + (Repeated(c.u[l[0]], run) + ([c.u[l[s - 1]]] + Unnumbered(c.u, col)))
          == out + Repeated(c.u[l[0]], run) + [c.u[l[s - 1]]] + Unnumbered(c.u, col);
  }

  lemma EndFits(l: seq<byte>, rest: seq<nat>, run: nat, place: nat, c: Coding, out: seq<byte>, tail: seq<bit>)
    requires |l| == 256 && |c.u| == 256 && c.n >= 1
    ensures Fitting(Decoded(l, [c.n + 1] + rest, c.n + 1, run, place), c, out, tail)
         == if |out| + run > c.nblockMax then Bad else Ok(out + Repeated(c.u[l[0]], run), tail)
  {
    hide Decoded, Unnumbered;
    AfterIs(l, c.n + 1, rest, c.n + 1, run, place);
    UnnumberedRun(c.u, l[0], run, []);
  }

  lemma CodingParts(c: Coding)
    requires CodingOk(c)
    ensures 1 <= c.n <= 256 && |c.u| == 256
  {
  }

  lemma NoneFits(c: Coding, out: seq<byte>, d: Parsed<seq<nat>>)
    requires |c.u| == 256
    ensures d.Ok? ==> Fitting(None, c, out, d.rest) == Bad
  {
  }

  /** Decoding all symbols after reading them gives the same, but for where an error is noticed. */
  lemma {:induction false} BytesAre(bits: seq<bit>, c: Coding, acc: seq<nat>, list: seq<byte>, run: nat, place: nat,
      out: seq<byte>)
    requires CodingOk(c) && |list| == 256
    ensures |c.u| == 256
    ensures var d, r := AllSymbols(bits, c, acc), ReadBytes(bits, c, |acc|, list, run, place, out);
            if d.Ok? then |acc| <= |d.value| && r == Fitting(Decoded(list, d.value[|acc|..], c.n + 1, run, place), c,
              out, d.rest) else !r.Ok?
    decreases |bits|
  {
    hide SymbolNext, AllSymbols, CodingOk, Decoded, MoveToFront, Repeated, Fitting;
    CodingParts(c);
    SymbolsStep(bits, c, acc);
    var s, d := SymbolNext(bits, c, |acc|), AllSymbols(bits, c, acc);
    if s.Ok? {
      var acc' := acc + [s.value];
      if d.Ok? {
        if s.value != c.n + 1 { SymbolsLonger(s.rest, c, acc'); }
        SymbolsSplit(d.value, acc, s.value);
      }
      var rest := if d.Ok? then d.value[|acc'|..] else [];
      if s.value <= RUNB {
        DigitDecoded(list, s.value, rest, c.n + 1, run, place);
        NoneFits(c, out, d);
        if place < N_LIMIT {
          BytesAre(s.rest, c, acc', list, run + (s.value + 1) * place, 2 * place, out);
        }
      } else if s.value == c.n + 1 {
        EndFits(list, rest, run, place, c, out, s.rest);
      } else {
        if d.Ok? { MoveFits(list, s.value, rest, run, place, c, out, d.rest); }
        if |out| + run < c.nblockMax {
          BytesAre(s.rest, c, acc', MoveToFront(list, s.value - 1), 0, 1,
            out + Repeated(c.u[list[0]], run) + [c.u[list[s.value - 1]]]);
        }
      }
    }
  }

  // ----- the bytes in use -----

  /** The first `n` elements of the list are numbers below `n`, in some order. */
  ghost predicate FrontBelow(l: seq<byte>, n: nat) {
    1 <= n <= |l| && forall k | 0 <= k < n :: l[k] < n
  }

  lemma FrontKept(l: seq<byte>, n: nat, j: nat)
    requires FrontBelow(l, n) && j < n
    ensures FrontBelow(MoveToFront(l, j), n)
  {
  }

  lemma SameInUse(u: seq<byte>, v: seq<byte>, n: nat, x: byte)
    requires n <= |u| && n <= |v| && u[..n] == v[..n] && x < n
    ensures u[x] == v[x]
  {
    assert u[..n][x] == v[..n][x];
  }

  /** Entries of `seqToUnseq` behind the bytes in use play no part. */
  lemma {:induction false} BytesSame(bits: seq<bit>, c: Coding, v: seq<byte>, k: nat, list: seq<byte>, run: nat,
      place: nat, out: seq<byte>)
    requires CodingOk(c) && |v| == 256 && c.u[..c.n] == v[..c.n] && |list| == 256 && FrontBelow(list, c.n)
    ensures CodingOk(c.(u := v)) && ReadBytes(bits, c.(u := v), k, list, run, place, out) ==
      ReadBytes(bits, c, k, list, run, place, out)
    decreases |bits|
  {
    hide NextSymbol, MoveToFront, Repeated, TablesOk;
    var s := SymbolNext(bits, c, k);
    SameInUse(c.u, v, c.n, list[0]);
    if s.Ok? && s.value <= RUNB {
      BytesSame(s.rest, c, v, k + 1, list, run + (s.value + 1) * place, 2 * place, out);
    } else if s.Ok? && s.value < c.n + 1 {
      SameInUse(c.u, v, c.n, list[s.value - 1]);
      FrontKept(list, c.n, s.value - 1);
      BytesSame(s.rest, c, v, k + 1, MoveToFront(list, s.value - 1), 0, 1,
        out + Repeated(c.u[list[0]], run) + [c.u[list[s.value - 1]]]);
    }
  }
}
