/** Machine words as their octets, least significant first, and the CRC of a word. */
module CrcWords {
  import opened Gf2
  import opened CrcBytes

  type word = seq<octet>

  function Xor8(a: octet, b: octet): octet {
    a ^ b
  }

  /** Exclusive-or the register, extended with zeros, into a word. */
  function Mix(c: bv32, w: word): (r: word)
    ensures |r| == |w|
    decreases |w|
  {
    if w == [] then [] else [Xor8(Low(c), w[0])] + Mix(High(c), w[1..])
  }

  /** The register fits in `n` octets. */
  predicate Fits(n: nat, c: bv32)
    decreases n
  {
    if n == 0 then c == 0 else Fits(n - 1, High(c))
  }

  function Zeros(n: nat): (z: word)
    ensures |z| == n && forall k | 0 <= k < n :: z[k] == 0
  {
    if n == 0 then [] else [0] + Zeros(n - 1)
  }

  lemma {:induction false} ZeroFits(n: nat)
    ensures Fits(n, 0)
    decreases n
  {
    if n > 0 { ZeroFits(n - 1); }
  }

  lemma FourOctets(c: bv32)
    ensures High(High(High(High(c)))) == 0
  {
    assert c >> 8 >> 8 == c >> 16;
    assert c >> 16 >> 8 == c >> 24;
    assert c >> 24 >> 8 == 0;
  }

  lemma FitsFour(n: nat, c: bv32)
    requires n >= 4
    ensures Fits(n, c) && Fits(n - 1, High(c))
  {
    hide High;
    FourOctets(c);
    ZeroFits(n - 4);
    assert Fits(n - 3, High(High(High(c))));
    assert Fits(n - 2, High(High(c)));
  }

  lemma WideXor(a: octet, b: octet)
    ensures Wide(Xor8(a, b)) == Add(Wide(a), Wide(b))
  {
  }

  lemma LowAdd(a: bv32, b: bv32)
    ensures Low(Add(a, b)) == Xor8(Low(a), Low(b))
  {
  }

  lemma HighAddAll(a: bv32, b: bv32)
    ensures High(Add(a, b)) == Add(High(a), High(b))
  {
  }

  lemma OctetAssociates(a: octet, b: octet, c: octet)
    ensures Xor8(Xor8(a, b), c) == Xor8(a, Xor8(b, c))
  {
  }

  lemma OctetZero(a: octet)
    ensures Xor8(a, 0) == a
  {
  }

  /** The low octet of what is added to the register may be moved to the next octet of the message. */
  lemma StepMix(d: bv32, c: bv32, x: octet)
    ensures Step(Add(d, c), x) == Add(Step(d, Xor8(Low(c), x)), High(c))
  {
    hide Add, TimesN, Wide, Low, High, Xor8;
    var h, l := c & 0xffff_ff00, Wide(Low(c));
    SplitLow(c);
    ClearLow(c);
    LowZeroEight(h);
    NoCarry(8, h);
    ShiftEight(h);
    WideXor(Low(c), x);
    AddCommutes(h, l);
    AddAssociates(d, Add(l, h), Wide(x));
    AddAssociates(l, h, Wide(x));
    AddCommutes(h, Wide(x));
    AddAssociates(l, Wide(x), h);
    AddAssociates(d, Add(l, Wide(x)), h);
    TimesNLinear(8, Add(d, Add(l, Wide(x))), h);
  }

  /** Starting the register with `c` is mixing it into the message. */
  lemma {:induction false} FoldMix(d: bv32, c: bv32, w: word)
    requires Fits(|w|, c)
    ensures Fold(Add(d, c), w) == Fold(d, Mix(c, w))
    decreases |w|
  {
    hide Add, Step, Low, High, Xor8;
    if w == [] {
      AddZero(d);
    } else {
      StepMix(d, c, w[0]);
      FoldMix(Step(d, Xor8(Low(c), w[0])), High(c), w[1..]);
      assert Mix(c, w)[0] == Xor8(Low(c), w[0]) && Mix(c, w)[1..] == Mix(High(c), w[1..]);
    }
  }

  lemma {:induction false} MixMix(a: bv32, b: bv32, w: word)
    ensures Mix(a, Mix(b, w)) == Mix(Add(a, b), w)
    decreases |w|
  {
    hide Add, Low, High, Xor8;
    if w != [] {
      LowAdd(a, b);
      HighAddAll(a, b);
      OctetAssociates(Low(a), Low(b), w[0]);
      MixMix(High(a), High(b), w[1..]);
      assert Mix(b, w)[1..] == Mix(High(b), w[1..]);
    }
  }

  lemma MixNothing()
    ensures Mix(0, [0]) == [0]
  {
    assert Low(0) ^ 0 == 0;
    assert [0 as octet][1..] == [];
  }

  lemma {:induction false} MixPad(c: bv32, w: word)
    requires Fits(|w|, c)
    ensures Mix(c, w + [0]) == Mix(c, w) + [0]
    decreases |w|
  {
    hide High, Low, Xor8;
    if w == [] {
      MixNothing();
    } else {
      assert (w + [0])[1..] == w[1..] + [0];
      MixPad(High(c), w[1..]);
    }
  }

  /** The low 32 bits of a word. */
  function Narrow(w: word): bv32
    requires |w| >= 4
  {
    Wide(w[0]) | (Wide(w[1]) << 8) | (Wide(w[2]) << 16) | (Wide(w[3]) << 24)
  }

  lemma NarrowFour(w: word, a: octet, b: octet, c: octet, d: octet)
    requires |w| >= 4 && w[0] == a && w[1] == b && w[2] == c && w[3] == d
    ensures Narrow(w) == Wide(a) | (Wide(b) << 8) | (Wide(c) << 16) | (Wide(d) << 24)
  {
  }

  lemma Octets(c: bv32)
    ensures Wide(Low(c)) | (Wide(Low(High(c))) << 8) | (Wide(Low(High(High(c)))) << 16) |
      (Wide(Low(High(High(High(c))))) << 24) == c
  {
  }

  lemma MixHead(c: bv32, x: octet, r: word)
    ensures Mix(c, [x] + r) == [Xor8(Low(c), x)] + Mix(High(c), r)
  {
    assert ([x] + r)[1..] == r;
  }

  lemma NarrowMix(c: bv32, w: word)
    requires |w| >= 4 && forall k | 0 <= k < |w| :: w[k] == 0
    ensures Narrow(Mix(c, w)) == c
  {
    hide Low, High, Xor8, Wide;
    var c1 := High(c);
    var c2 := High(c1);
    var c3 := High(c2);
    assert w == [0] + w[1..];
    MixHead(c, 0, w[1..]);
    assert w[1..] == [0] + w[2..];
    MixHead(c1, 0, w[2..]);
    assert w[2..] == [0] + w[3..];
    MixHead(c2, 0, w[3..]);
    assert w[3..] == [0] + w[4..];
    MixHead(c3, 0, w[4..]);
    OctetZero(Low(c));
    OctetZero(Low(c1));
    OctetZero(Low(c2));
    OctetZero(Low(c3));
    NarrowFour(Mix(c, w), Low(c), Low(c1), Low(c2), Low(c3));
    Octets(c);
  }

  /** `data` after `k` rounds of crc_word: the register over the first `k` octets, mixed into the others. */
  ghost function WordState(w: word, k: nat): word
    requires k <= |w|
  {
    Mix(Fold(0, w[..k]), w[k..] + Zeros(k))
  }

  lemma {:induction false} ZerosSnoc(k: nat)
    ensures Zeros(k) + [0] == Zeros(k + 1)
  {
    assert |Zeros(k + 1)| == k + 1;
  }

  lemma WordStep(c: bv32, x: octet)
    ensures Add(TimesN(8, Wide(Xor8(Low(c), x))), High(c)) == Step(c, x)
  {
    hide Add, TimesN, Wide, Low, High, Xor8;
    StepMix(0, c, x);
    AddZero(c);
    AddZero(Wide(Xor8(Low(c), x)));
  }

  lemma WordNext(table: Table, w: word, k: nat)
    requires IsCrcTable(table) && k < |w| && |w| >= 4
    ensures var data := WordState(w, k); Mix(At(table, data[0]), data[1..] + [0]) == WordState(w, k + 1)
  {
    hide Add, Low, High, At, Step, TimesN, Wide, Fits, Xor8;
    var c, r, x := Fold(0, w[..k]), w[k + 1..] + Zeros(k), w[k];
    var data := WordState(w, k);
    assert w[k..] + Zeros(k) == [x] + r;
    assert ([x] + r)[1..] == r;
    MixHead(c, x, r);
    FitsFour(|w|, c);
    MixPad(High(c), r);
    MixMix(At(table, data[0]), High(c), r + [0]);
    AtRight(table, Xor8(Low(c), x));
    WordStep(c, x);
    ZerosSnoc(k);
    assert r + [0] == w[k + 1..] + Zeros(k + 1);
    assert w[..k + 1] == w[..k] + [x];
    FoldSnoc(0, w[..k], x);
  }

  lemma TableSize(table: Table)
    requires IsCrcTable(table)
    ensures |table| == 256
  {
  }

  lemma {:induction false} MixZero(w: word)
    ensures Mix(0, w) == w
    decreases |w|
  {
    if w != [] {
      assert Low(0) == 0 && 0 ^ w[0] == w[0];
      MixZero(w[1..]);
    }
  }

  lemma WordFirst(w: word)
    ensures WordState(w, 0) == w
  {
    MixZero(w);
    assert w[0..] + Zeros(0) == w;
    assert w[..0] == [];
  }

  lemma WordLast(w: word)
    requires |w| >= 4
    ensures Narrow(WordState(w, |w|)) == Fold(0, w)
  {
    hide Narrow, Mix;
    assert w[|w|..] + Zeros(|w|) == Zeros(|w|);
    assert w[..|w|] == w;
    NarrowMix(Fold(0, w), Zeros(|w|));
  }

  /** `crc_word`: the register after the octets of the word, starting from zero. */
  method CrcWord(table: Table, w: word) returns (c: bv32)
    requires IsCrcTable(table) && |w| >= 4
    ensures c == Fold(0, w)
  {
    hide At, Mix, Fold, Zeros, Narrow, IsCrcTable;
    var data := w;
    WordFirst(w);
    TableSize(table);
    for k := 0 to |w|
      invariant data == WordState(w, k) && |data| == |w|
    {
      WordNext(table, w, k);
      data := Mix(At(table, data[0]), data[1..] + [0]);
    }
    WordLast(w);
    c := Narrow(data);
  }
}
