/** `crc32_z`: the braided CRC, on little- and big-endian machines, against the CRC one octet at a time. */
module Crc32 {
  import opened Gf2
  import opened Arithmetic
  import opened CrcPowers
  import opened CrcBytes
  import opened CrcWords
  import opened CrcBraid
  import opened BigEndian

  datatype Buffer = Null | Octets(m: seq<octet>)

  /** The tables for words of `w` octets in `n` braids. */
  datatype Tables = Tables(crc: Table, big: seq<word>, braid: seq<Table>, braidBig: seq<seq<word>>)

  ghost predicate Made(t: Tables, n: nat, w: nat) {
    && n >= 1 && w >= 4 && |t.braid| == w
    && IsCrcTable(t.crc) && IsSwapped(t.big, t.crc, w)
    && AreBraidTables(t.braid, n * w - w) && AreBigTables(t.braidBig, t.braid)
  }

  // ----- making the tables -----

  /** The octet at the low end of the polynomial, so that three more octets pass before it counts. */
  function Topmost(i: octet): bv32 {
    Wide(i) << 24
  }

  lemma TopmostOctets(i: octet)
    ensures Topmost(i) & 0xff == 0 && (Topmost(i) >> 8) & 0xff == 0 && (Topmost(i) >> 16) & 0xff == 0
    ensures Topmost(i) >> 8 >> 8 == Topmost(i) >> 16 && Topmost(i) >> 16 >> 8 == Wide(i)
  {
  }

  lemma TopmostPasses(i: octet)
    ensures TimesN(24, Topmost(i)) == Wide(i)
  {
    hide TimesN, Times, ShiftN, LowZero;
    var t := Topmost(i);
    TopmostOctets(i);
    TimesNAdd(8, 16, t);
    TimesNAdd(8, 8, t >> 8);
    LowZeroEight(t);
    NoCarry(8, t);
    ShiftEight(t);
    LowZeroEight(t >> 8);
    NoCarry(8, t >> 8);
    ShiftEight(t >> 8);
    LowZeroEight(t >> 16);
    NoCarry(8, t >> 16);
    ShiftEight(t >> 16);
  }

  lemma TopmostNonzero(i: octet)
    requires i != 0
    ensures Topmost(i) != 0
  {
  }

  lemma EntryRight(i: octet, e: nat)
    ensures Mul(Topmost(i), XPow(8 * (e + 3))) == TimesN(8 * e, Wide(i))
  {
    hide Mul, XPow, TimesN, Topmost, Wide;
    MulCommutes(Topmost(i), XPow(8 * (e + 3)));
    MulXPow(8 * (e + 3), Topmost(i));
    TimesNAdd(24, 8 * e, Topmost(i));
    TopmostPasses(i);
  }

  lemma OctetNonzero(i: int)
    requires 0 <= i < 256
    ensures i as octet == 0 ==> i == 0
  {
  }

  lemma ZeroEntry(e: nat)
    ensures TimesN(8 * e, Wide(0)) == 0
  {
    TimesNZero(8 * e);
  }

  /** One row of the braid tables and of their swapped form. */
  method BraidRow(p: bv32, w: nat, ghost e: nat) returns (row: Table, bigRow: seq<word>)
    requires p == XPow(8 * (e + 3))
    ensures |row| == 256 && forall i: int {:trigger row[i]} | 0 <= i < 256 :: row[i] == TimesN(8 * e, Wide(i as octet))
    ensures IsSwapped(bigRow, row, w)
  {
    hide Mul, XPow, TimesN, Topmost, Wide, Swapped;
    row, bigRow := [0], [Swapped(0, w)];
    ZeroEntry(e);
    for i := 1 to 256
      invariant |row| == i && forall k: int {:trigger row[k]} | 0 <= k < i :: row[k] == TimesN(8 * e, Wide(k as octet))
      invariant |bigRow| == i && forall k {:trigger bigRow[k]} | 0 <= k < i :: bigRow[k] == Swapped(row[k], w)
    {
      var b := i as octet;
      OctetNonzero(i);
      TopmostNonzero(b);
      var q := MultModP(Topmost(b), p);
      EntryRight(b, e);
      row := row + [q];
      bigRow := bigRow + [Swapped(q, w)];
    }
  }

  lemma ScaledOne(n: nat)
    ensures Scaled(n, 0) == n
  {
    assert Pow2(0) == 1;
  }

  /** `braid`: both sets of tables, row by row. */
  method Braid(powers: seq<bv32>, n: nat, w: nat) returns (ltl: seq<Table>, big: seq<seq<word>>)
    requires IsPowerTable(powers) && n >= 1 && w >= 4
    ensures |ltl| == w && n * w >= w && AreBraidTables(ltl, n * w - w) && AreBigTables(big, ltl)
  {
    hide XPow, TimesN, Wide, Scaled, IsSwapped, IsPowerTable;
    var size := n * w;
    LessOne(n, w);
    ltl, big := [], [];
    for k := 0 to w
      invariant |ltl| == k && forall j {:trigger ltl[j]} | 0 <= j < k :: IsBraidTable(ltl[j], size - w, w, j)
      invariant |big| == k && forall j {:trigger big[j]} | 0 <= j < k :: IsSwapped(big[j], ltl[k - 1 - j], w)
    {
      ScaledOne(8 * (size + 3 - k));
      var p := X2nModP(powers, 8 * (size + 3 - k), 0);
      var row, bigRow := BraidRow(p, w, size - k);
      ltl := ltl + [row];
      big := [bigRow] + big;
    }
  }

  lemma AllMade(t: Tables, n: nat, w: nat)
    requires n >= 1 && w >= 4 && |t.braid| == w && n * w >= w
    requires IsCrcTable(t.crc) && IsSwapped(t.big, t.crc, w)
    requires AreBraidTables(t.braid, n * w - w) && AreBigTables(t.braidBig, t.braid)
    ensures Made(t, n, w)
  {
  }

  /** `make_crc_table`. */
  method MakeTables(n: nat, w: nat) returns (t: Tables, powers: seq<bv32>)
    requires n >= 1 && w >= 4
    ensures Made(t, n, w) && IsPowerTable(powers)
  {
    hide TimesN, Wide, XPow, Pow2, Swapped, AreBraidTables, AreBigTables, Made;
    var table := new bv32[256];
    MakeCrcTable(table);
    var x2n := new bv32[32];
    MakePowerTable(x2n);
    powers := x2n[..];
    var crc := table[..];
    var big := [];
    for i := 0 to 256
      invariant |big| == i && forall k {:trigger big[k]} | 0 <= k < i :: big[k] == Swapped(crc[k], w)
    {
      big := big + [Swapped(crc[i], w)];
    }
    var ltl, braidBig := Braid(powers, n, w);
    t := Tables(crc, big, ltl, braidBig);
    AllMade(t, n, w);
  }

  // ----- blocks of words -----

  /** Word `j` of the block that starts at `pos`. */
  function WordAt(buf: seq<octet>, pos: nat, j: nat, w: nat): (x: word)
    requires pos + j * w + w <= |buf|
    ensures |x| == w && x == buf[pos..][j * w..j * w + w] == buf[pos + j * w..][..w]
  {
    buf[pos + j * w..pos + j * w + w]
  }

  lemma MadeGives(t: Tables, n: nat, w: nat)
    requires Made(t, n, w)
    ensures n >= 1 && w >= 4 && |t.braid| == w && n * w >= w && IsCrcTable(t.crc) && AreBraidTables(t.braid, n * w - w)
    ensures IsSwapped(t.big, t.crc, w) && AreBigTables(t.braidBig, t.braid)
  {
    LessOne(n, w);
  }

  lemma MulLeq(a: nat, b: nat, c: nat)
    requires a <= b
    ensures a * c <= b * c
  {
  }

  lemma {:induction false} NextAt(crcs: seq<bv32>, w: nat, gap: nat, m: seq<octet>, j: nat)
    requires |crcs| * w <= |m| && j < |crcs|
    ensures |Next(crcs, w, gap, m)| == |crcs| && (j + 1) * w <= |m| && j * w + w == (j + 1) * w
    ensures Next(crcs, w, gap, m)[j] == TimesN(8 * gap, Fold(crcs[j], m[j * w..j * w + w]))
    decreases |crcs|
  {
    hide TimesN, Fold;
    LessOne(|crcs|, w);
    Regroup(j, 1, w, w);
    MulLeq(j + 1, |crcs|, w);
    if j == 0 {
      if |crcs| > 1 {
        NextAt(crcs[1..], w, gap, m[w..], 0);
      }
      assert m[0..w] == m[..w];
    } else {
      NextAt(crcs[1..], w, gap, m[w..], j - 1);
      LessOne(j, w);
      assert m[w..][(j - 1) * w..(j - 1) * w + w] == m[j * w..j * w + w];
    }
  }

  /** Word `j` of a block lies in it. */
  lemma WordInBlock(j: nat, n: nat, w: nat)
    requires j < n
    ensures j * w + w <= n * w && 0 <= j * w
  {
    MulLeq(j + 1, n, w);
    Regroup(j, 1, w, w);
    assert (j + 1) * w == j * w + w;
  }

  /** A word with the register mixed in: the register over the word, starting from it. */
  lemma MixFold(c: bv32, x: word)
    requires |x| >= 4
    ensures Fold(0, Mix(c, x)) == Fold(c, x)
  {
    hide Add, Fold, Mix, Fits;
    FitsFour(|x|, c);
    FoldMix(0, c, x);
    AddZero(c);
  }

  lemma MixFold2(c: bv32, d: bv32, x: word)
    requires |x| >= 4
    ensures Fold(0, Mix(c, Mix(d, x))) == Fold(Add(c, d), x)
  {
    hide Add, Fold, Mix;
    MixMix(c, d, x);
    MixFold(Add(c, d), x);
  }

  /** One block, little-endian: each braid takes in its word. */
  method BlockLittle(t: Tables, crcs: array<bv32>, buf: seq<octet>, pos: nat, n: nat, w: nat)
    requires Made(t, n, w) && crcs.Length == n && pos + n * w <= |buf|
    modifies crcs
    ensures crcs[..] == Next(old(crcs[..]), w, n * w - w, buf[pos..])
  {
    hide *;
    MadeGives(t, n, w);
    ghost var was, gap, m := crcs[..], n * w - w, buf[pos..];
    for j := 0 to n
      invariant forall i {:trigger crcs[i]} | j <= i < n :: crcs[i] == was[i]
      invariant forall i {:trigger crcs[i]} | 0 <= i < j ::
        |Next(was, w, gap, m)| == n && crcs[i] == Next(was, w, gap, m)[i]
    {
      WordInBlock(j, n, w);
      var x := WordAt(buf, pos, j, w);
      var c := BraidWord(t.braid, Mix(crcs[j], x), gap);
      MixFold(was[j], x);
      NextAt(was, w, gap, m, j);
      crcs[j] := c;
    }
    NextAt(was, w, gap, m, 0);
  }

  /** The last block, little-endian: the braids are joined. */
  method LastLittle(t: Tables, crcs: array<bv32>, buf: seq<octet>, pos: nat, n: nat, w: nat, ghost final: bv32)
      returns (crc: bv32)
    requires Made(t, n, w) && crcs.Length == n && pos + n * w <= |buf|
    requires Owes(crcs[..], w, buf[pos..], final)
    ensures final == Fold(crc, buf[pos + n * w..])
  {
    hide *;
    MadeGives(t, n, w);
    JoinStart(crcs[..], w, buf[pos..], final);
    crc := 0;
    var j := 0;
    assert buf[pos + 0 * w..] == buf[pos..] && crcs[0..] == crcs[..];
    while j < n
      invariant 0 <= j <= n && pos + j * w <= |buf|
      invariant Joining(crc, crcs[j..], w, buf[pos + j * w..], final)
    {
      WordInBlock(j, n, w);
      Regroup(j, 1, w, w);
      var x := WordAt(buf, pos, j, w);
      ghost var m := buf[pos + j * w..];
      JoinNext(crc, crcs[j..], w, m, final);
      assert m[w..] == buf[pos + (j + 1) * w..] && crcs[j..][1..] == crcs[j + 1..];
      MixFold2(crc, crcs[j], x);
      crc := CrcWord(t.crc, Mix(crc, Mix(crcs[j], x)));
      j := j + 1;
    }
    assert crcs[n..] == [];
    JoinDone(crc, w, buf[pos + n * w..], final);
  }

  // ----- the same on a big-endian machine, where a word read from memory is the swapped one -----

  ghost predicate AllSwapped(crcs: seq<word>, regs: seq<bv32>, w: nat) {
    |crcs| == |regs| && forall j {:trigger crcs[j]} | 0 <= j < |crcs| :: crcs[j] == Swapped(regs[j], w)
  }

  /** The register mixed into the word, as the big-endian code does it. */
  lemma BigMix(r: bv32, x: word)
    ensures |Swapped(r, |x|)| == |x| && XorWords(Swapped(r, |x|), Swap(x)) == Swap(Mix(r, x))
  {
    hide *;
    SwappedMix(r, x);
  }

  lemma BigMix2(c: bv32, r: bv32, x: word)
    ensures XorWords(XorWords(Swapped(r, |x|), Swap(x)), Swapped(c, |x|)) == Swap(Mix(c, Mix(r, x)))
  {
    hide *;
    SwappedMix(r, x);
    SwappedMix(c, Mix(r, x));
    XorWordsCommutes(Swap(Mix(r, x)), Swapped(c, |x|));
  }

  lemma SwappedEach(crcs: seq<word>, regs: seq<bv32>, w: nat)
    requires AllSwapped(crcs, regs, w)
    ensures |crcs| == |regs| && forall j {:trigger crcs[j]} | 0 <= j < |crcs| :: crcs[j] == Swapped(regs[j], w)
  {
  }

  lemma EachSwapped(crcs: seq<word>, regs: seq<bv32>, w: nat)
    requires |crcs| == |regs| && forall j {:trigger crcs[j]} | 0 <= j < |crcs| :: crcs[j] == Swapped(regs[j], w)
    ensures AllSwapped(crcs, regs, w)
  {
  }

  method BlockBig(t: Tables, crcs: array<word>, ghost regs: seq<bv32>, buf: seq<octet>, pos: nat, n: nat, w: nat)
    requires Made(t, n, w) && crcs.Length == n && pos + n * w <= |buf| && AllSwapped(crcs[..], regs, w)
    modifies crcs
    ensures AllSwapped(crcs[..], Next(regs, w, n * w - w, buf[pos..]), w)
  {
    hide *;
    MadeGives(t, n, w);
    ghost var gap, m := n * w - w, buf[pos..];
    ghost var next := Next(regs, w, gap, m);
    SwappedEach(crcs[..], regs, w);
    for j := 0 to n
      invariant forall i {:trigger crcs[i]} | j <= i < n :: crcs[i] == Swapped(regs[i], w)
      invariant forall i {:trigger crcs[i]} | 0 <= i < j :: |next| == n && crcs[i] == Swapped(next[i], w)
    {
      WordInBlock(j, n, w);
      ghost var x := WordAt(buf, pos, j, w);
      BigMix(regs[j], x);
      var c := BraidWordBig(t.braidBig, XorWords(crcs[j], Swap(WordAt(buf, pos, j, w))), t.braid, Mix(regs[j], x), gap);
      MixFold(regs[j], x);
      NextAt(regs, w, gap, m, j);
      crcs[j] := c;
    }
    NextAt(regs, w, gap, m, 0);
    EachSwapped(crcs[..], next, w);
  }

  lemma SwapBack(c: bv32, w: nat)
    requires w >= 4
    ensures Narrow(Swap(Swapped(c, w))) == c
  {
    hide Swap, Mix, Narrow;
    SwapSwap(Extend(c, w));
    NarrowMix(c, Zeros(w));
  }

  method LastBig(t: Tables, crcs: array<word>, ghost regs: seq<bv32>, buf: seq<octet>, pos: nat, n: nat, w: nat,
      ghost final: bv32) returns (crc: bv32)
    requires Made(t, n, w) && crcs.Length == n && pos + n * w <= |buf| && AllSwapped(crcs[..], regs, w)
    requires Owes(regs, w, buf[pos..], final)
    ensures final == Fold(crc, buf[pos + n * w..])
  {
    hide *;
    MadeGives(t, n, w);
    SwappedEach(crcs[..], regs, w);
    JoinStart(regs, w, buf[pos..], final);
    ghost var c: bv32 := 0;
    var comb := Swapped(0, w);
    var j := 0;
    assert buf[pos + 0 * w..] == buf[pos..] && regs[0..] == regs;
    while j < n
      invariant 0 <= j <= n && pos + j * w <= |buf|
      invariant comb == Swapped(c, w) && Joining(c, regs[j..], w, buf[pos + j * w..], final)
    {
      WordInBlock(j, n, w);
      Regroup(j, 1, w, w);
      ghost var x := WordAt(buf, pos, j, w);
      ghost var m := buf[pos + j * w..];
      JoinNext(c, regs[j..], w, m, final);
      assert m[w..] == buf[pos + (j + 1) * w..] && regs[j..][1..] == regs[j + 1..];
      MixFold2(c, regs[j], x);
      BigMix(regs[j], x);
      BigMix2(c, regs[j], x);
      comb := CrcWordBig(t.big, XorWords(XorWords(crcs[j], Swap(WordAt(buf, pos, j, w))), comb), t.crc,
        Mix(c, Mix(regs[j], x)));
      c := Fold(Add(c, regs[j]), x);
      j := j + 1;
    }
    assert regs[n..] == [];
    JoinDone(c, w, buf[pos + n * w..], final);
    SwapBack(c, w);
    crc := Narrow(Swap(comb));
  }

  // ----- crc32_z -----

  lemma BlocksLeft(blks: nat, size: nat)
    requires blks >= 1
    ensures (blks - 1) * size == blks * size - size && blks * size >= size
    ensures blks >= 2 ==> blks * size >= 2 * size
  {
    if blks >= 2 {
      MulLeq(2, blks, size);
    }
  }

  method BraidedLittle(t: Tables, crc0: bv32, buf: seq<octet>, pos0: nat, blks0: nat, n: nat, w: nat)
      returns (crc: bv32)
    requires Made(t, n, w) && blks0 >= 1 && pos0 + blks0 * (n * w) <= |buf|
    ensures Fold(crc, buf[pos0 + blks0 * (n * w)..]) == Fold(crc0, buf[pos0..])
  {
    hide *;
    MadeGives(t, n, w);
    var size, blks, pos := n * w, blks0, pos0;
    ghost var final := Fold(crc0, buf[pos0..]);
    var crcs := new bv32[n](_ => 0);
    crcs[0] := crc0;
    BlocksLeft(blks, size);
    OwesStart(crc0, crcs[..], w, buf[pos..]);
    while blks > 1
      invariant blks >= 1 && pos + blks * size == pos0 + blks0 * size
      invariant Owes(crcs[..], w, buf[pos..], final)
    {
      BlocksLeft(blks, size);
      OwesNext(crcs[..], w, size - w, buf[pos..], final);
      assert buf[pos..][size..] == buf[pos + size..];
      BlockLittle(t, crcs, buf, pos, n, w);
      pos := pos + size;
      blks := blks - 1;
    }
    BlocksLeft(blks, size);
    crc := LastLittle(t, crcs, buf, pos, n, w, final);
  }

  method BraidedBig(t: Tables, crc0: bv32, buf: seq<octet>, pos0: nat, blks0: nat, n: nat, w: nat) returns (crc: bv32)
    requires Made(t, n, w) && blks0 >= 1 && pos0 + blks0 * (n * w) <= |buf|
    ensures Fold(crc, buf[pos0 + blks0 * (n * w)..]) == Fold(crc0, buf[pos0..])
  {
    hide *;
    MadeGives(t, n, w);
    var size, blks, pos := n * w, blks0, pos0;
    ghost var final := Fold(crc0, buf[pos0..]);
    var crcs := new word[n](_ => Swapped(0, w));
    crcs[0] := Swapped(crc0, w);
    ghost var regs := seq(n, k => if k == 0 then crc0 else 0);
    EachSwapped(crcs[..], regs, w);
    BlocksLeft(blks, size);
    OwesStart(crc0, regs, w, buf[pos..]);
    while blks > 1
      invariant blks >= 1 && pos + blks * size == pos0 + blks0 * size && |regs| == n
      invariant AllSwapped(crcs[..], regs, w) && Owes(regs, w, buf[pos..], final)
    {
      BlocksLeft(blks, size);
      OwesNext(regs, w, size - w, buf[pos..], final);
      assert buf[pos..][size..] == buf[pos + size..];
      BlockBig(t, crcs, regs, buf, pos, n, w);
      NextAt(regs, w, size - w, buf[pos..], 0);
      regs := Next(regs, w, size - w, buf[pos..]);
      pos := pos + size;
      blks := blks - 1;
    }
    BlocksLeft(blks, size);
    crc := LastBig(t, crcs, regs, buf, pos, n, w, final);
  }

  /** One octet at position `pos`; the register at the end stays what it will be. */
  method OneOctet(t: Tables, n: nat, w: nat, crc0: bv32, buf: seq<octet>, pos: nat) returns (crc: bv32)
    requires Made(t, n, w) && pos < |buf|
    ensures Fold(crc, buf[pos + 1..]) == Fold(crc0, buf[pos..])
  {
    hide Made, Step, TableStep, IsCrcTable;
    MadeGives(t, n, w);
    TableSize(t.crc);
    TableStepRight(t.crc, crc0, buf[pos]);
    crc := TableStep(t.crc, crc0, buf[pos]);
    assert buf[pos..][1..] == buf[pos + 1..];
  }

  /** Octets before the next word boundary. */
  function Gap(address: nat, w: nat): (g: nat)
    requires w > 0
    ensures g < w
  {
    if address % w == 0 then 0 else w - address % w
  }

  lemma Aligned(address: nat, w: nat)
    requires w > 0
    ensures (address + Gap(address, w)) % w == 0
  {
    var q, r := DivModParts(address, w);
    if r != 0 {
      Regroup(q, 1, w, 1);
      assert address + (w - r) == (q + 1) * w + 0;
      DivModUnique(address + (w - r), w, q + 1, 0);
    }
  }

  lemma AtLeastOne(x: nat, m: nat)
    requires m > 0 && x >= m
    ensures x / m >= 1 && x / m * m <= x
  {
    var q, r := DivModParts(x, m);
    DivModUnique(x, m, q, r);
  }

  lemma FoldNone(crc: bv32, buf: seq<octet>)
    ensures Fold(crc, buf[|buf|..]) == crc
  {
  }

  /** The octets left over, eight at a time and then one by one. */
  method Rest(t: Tables, n: nat, w: nat, crc0: bv32, buf: seq<octet>, pos0: nat) returns (crc: bv32)
    requires Made(t, n, w) && pos0 <= |buf|
    ensures crc == Fold(crc0, buf[pos0..])
  {
    hide *;
    crc := crc0;
    var pos := pos0;
    while |buf| - pos >= 8
      invariant pos <= |buf| && Fold(crc, buf[pos..]) == Fold(crc0, buf[pos0..])
    {
      var end := pos + 8;
      while pos < end
        invariant pos <= end <= |buf| && Fold(crc, buf[pos..]) == Fold(crc0, buf[pos0..])
      {
        crc := OneOctet(t, n, w, crc, buf, pos);
        pos := pos + 1;
      }
    }
    while pos < |buf|
      invariant pos <= |buf| && Fold(crc, buf[pos..]) == Fold(crc0, buf[pos0..])
    {
      crc := OneOctet(t, n, w, crc, buf, pos);
      pos := pos + 1;
    }
    FoldNone(crc, buf);
  }

  /**
   * `crc32_z`: for every initial value, buffer, alignment, number of braids, word size and byte order the result is the
   * CRC taken one octet at a time. `address` is the buffer's address, of which only the residue modulo `w` matters.
   */
  method Crc32Z(t: Tables, n: nat, w: nat, little: bool, address: nat, crc0: bv32, buffer: Buffer) returns (crc: bv32)
    requires Made(t, n, w)
    ensures crc == match buffer case Null => 0 case Octets(m) => Crc(crc0, m)
  {
    hide Made, Fold, Add, Not;
    if buffer.Null? { return 0; }
    MadeGives(t, n, w);
    var buf := buffer.m;
    crc := Not(crc0);
    ghost var final := Fold(crc, buf);
    var pos := 0;
    assert buf[0..] == buf;
    if |buf| >= n * w + w - 1 {
      while pos < |buf| && (address + pos) % w != 0
        invariant pos <= |buf| && pos <= Gap(address, w) && Fold(crc, buf[pos..]) == final
      {
        Aligned(address, w);
        crc := OneOctet(t, n, w, crc, buf, pos);
        pos := pos + 1;
      }
      var blks := (|buf| - pos) / (n * w);
      AtLeastOne(|buf| - pos, n * w);
      if little {
        crc := BraidedLittle(t, crc, buf, pos, blks, n, w);
      } else {
        crc := BraidedBig(t, crc, buf, pos, blks, n, w);
      }
      pos := pos + blks * (n * w);
    }
    crc := Rest(t, n, w, crc, buf, pos);
    crc := Not(crc);
  }
}
