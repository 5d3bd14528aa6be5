/** What the match finder's tables say about the input: heads and links of chains of equal hashes. */
module HashChains {
  import opened Bytes
  import opened Arithmetic
  import opened RollingHash

  const MIN_LOOKAHEAD := 262

  /** Hash of the three bytes at absolute position `a` of the input. */
  ghost function HashAt(bits: nat, input: seq<byte>, a: nat): nat
    requires a + 2 < |input|
  {
    Hash3(bits, input[a], input[a + 1], input[a + 2])
  }

  /** `insH` has absorbed the two bytes at `a`, so the next update yields the hash of the string there. */
  ghost predicate Ready(bits: nat, insH: nat, input: seq<byte>, a: nat) {
    a + 1 < |input| && forall c: byte :: UpdateHash(bits, insH, c) == Hash3(bits, input[a], input[a + 1], c)
  }

  lemma ReadyFresh(bits: nat, input: seq<byte>, a: nat)
    requires a + 1 < |input|
    ensures Ready(bits, UpdateHash(bits, input[a], input[a + 1]), input, a)
  {
  }

  lemma ReadyNext(bits: nat, input: seq<byte>, a: nat)
    requires bits >= 8 && a + 2 < |input|
    ensures Ready(bits, HashAt(bits, input, a), input, a + 1)
  {
    hide UpdateHash, Hash3;
    forall c: byte ensures UpdateHash(bits, HashAt(bits, input, a), c) == Hash3(bits, input[a + 1], input[a + 2], c) {
      HashRolls(bits, input[a], input[a + 1], input[a + 2], c);
    }
  }

  /** A table entry: nothing, or the window index of an inserted string with hash `h` before position `a`. */
  ghost predicate Entry(bits: nat, input: seq<byte>, ins: set<nat>, base: nat, q: nat, a: nat, h: nat) {
    q == 0 || (base + q in ins && base + q < a && base + q + 2 < |input| && HashAt(bits, input, base + q) == h)
  }

  /** The inserted strings are complete and lie before `lim`. */
  ghost predicate Inserted(input: seq<byte>, ins: set<nat>, lim: nat) {
    forall a | a in ins :: a < lim && a + 2 < |input|
  }

  ghost predicate HeadsOk(bits: nat, input: seq<byte>, ins: set<nat>, base: nat, head: seq<nat>, lim: nat) {
    |head| == Pow2(bits) && forall h: nat {:trigger head[h]} | h < |head| ::
      Entry(bits, input, ins, base, head[h], lim, h)
  }

  /**
   * The slot of the link of the string at position `a`: its index in the window, or what it was before slides, by the
   * window's size.
   */
  function Slot(a: nat, base: nat, w: nat): (k: nat)
    requires w > 0
    ensures k < w
  {
    (a - base) % w
  }

  /** Links of the strings that still own their slot, those less than a window before `pos`. */
  ghost predicate LinksOk(bits: nat, w: nat, input: seq<byte>, ins: set<nat>, base: nat, prev: seq<nat>, pos: nat)
    requires w > 0
  {
    |prev| == w &&
    forall a | a in ins && a + w > pos :: a + 2 < |input|
      && Entry(bits, input, ins, base, prev[Slot(a, base, w)], a, HashAt(bits, input, a))
  }

  /** Between window index `q` and position `a` no inserted string has hash `h`; index 0 is no one's. */
  ghost predicate Newest(bits: nat, input: seq<byte>, ins: set<nat>, base: nat, q: nat, a: nat, h: nat) {
    forall b | b in ins && base < b < a && b + 2 < |input| && HashAt(bits, input, b) == h :: b <= base + q
  }

  /** The nearest string of hash `h` before position `a`, if the window has one. */
  ghost predicate Nearest(bits: nat, input: seq<byte>, ins: set<nat>, base: nat, q: nat, a: nat, h: nat) {
    Entry(bits, input, ins, base, q, a, h) && Newest(bits, input, ins, base, q, a, h)
  }

  ghost predicate HeadsNewest(bits: nat, input: seq<byte>, ins: set<nat>, base: nat, head: seq<nat>, lim: nat) {
    forall h: nat {:trigger head[h]} | h < |head| :: Newest(bits, input, ins, base, head[h], lim, h)
  }

  ghost predicate LinksNewest(bits: nat, w: nat, input: seq<byte>, ins: set<nat>, base: nat, prev: seq<nat>, pos: nat)
    requires w > 0
  {
    |prev| == w && forall a | a in ins && a + w > pos && a + 2 < |input| ::
      Newest(bits, input, ins, base, prev[Slot(a, base, w)], a, HashAt(bits, input, a))
  }

  /**
   * What the chains are: every entry reached from a head, as long as it lies within a window of `pos`, is an inserted
   * string with the hash of its chain, and no such string is left out.
   */
  ghost predicate Chains(bits: nat, w: nat, input: seq<byte>, ins: set<nat>, base: nat, head: seq<nat>, prev: seq<nat>,
      lim: nat, pos: nat) {
    && bits >= 8 && w > 0
    && Inserted(input, ins, lim)
    && HeadsOk(bits, input, ins, base, head, lim)
    && LinksOk(bits, w, input, ins, base, prev, pos)
    && HeadsNewest(bits, input, ins, base, head, lim)
    && LinksNewest(bits, w, input, ins, base, prev, pos)
  }

  lemma SlotsDiffer(a: nat, c: nat, base: nat, w: nat)
    requires c < a < c + w
    ensures Slot(a, base, w) != Slot(c, base, w)
  {
    if Slot(a, base, w) == Slot(c, base, w) {
      var x, y := (a - base) / w, (c - base) / w;
      assert a - base == x * w + Slot(a, base, w) && c - base == y * w + Slot(c, base, w);
      assert (x - y) * w == a - c;
      MulSign(x - y, w);
    }
  }

  /** A slide leaves every string its slot. */
  lemma SlotSlides(a: nat, base: nat, w: nat)
    requires w > 0
    ensures Slot(a, base + w, w) == Slot(a, base, w)
  {
    RemainderDown(a - base, w);
  }

  lemma HashBelow(bits: nat, a: byte, b: byte, c: byte)
    ensures Hash3(bits, a, b, c) < Pow2(bits)
  {
  }

  /** No string of a hash is newer than the one just inserted, and the one before it is its link. */
  lemma InsertNewest(bits: nat, w: nat, input: seq<byte>, ins: set<nat>, base: nat, head: seq<nat>, prev: seq<nat>,
      lim: nat, pos: nat, a: nat)
    requires bits >= 8 && w > 0 && |head| == Pow2(bits) && Inserted(input, ins, lim)
    requires HeadsNewest(bits, input, ins, base, head, lim) && LinksNewest(bits, w, input, ins, base, prev, pos)
    requires lim <= a <= pos && base <= a && a + 2 < |input| && HashAt(bits, input, a) < |head|
    ensures var h := HashAt(bits, input, a);
            HeadsNewest(bits, input, ins + {a}, base, head[h := a - base], a + 1) &&
            LinksNewest(bits, w, input, ins + {a}, base, prev[Slot(a, base, w) := head[h]], pos)
  {
    hide HashAt, Pow2;
    var h := HashAt(bits, input, a);
    var ins', head', prev' := ins + {a}, head[h := a - base], prev[Slot(a, base, w) := head[h]];
    forall g: nat | g < |head'| ensures Newest(bits, input, ins', base, head'[g], a + 1, g) {
      assert Newest(bits, input, ins, base, head[g], lim, g);
    }
    forall c | c in ins' && c + w > pos && c + 2 < |input|
      ensures Newest(bits, input, ins', base, prev'[Slot(c, base, w)], c, HashAt(bits, input, c))
    {
      assert Newest(bits, input, ins, base, head[h], lim, h);
      if c != a {
        SlotsDiffer(a, c, base, w);
        assert Newest(bits, input, ins, base, prev[Slot(c, base, w)], c, HashAt(bits, input, c));
      }
    }
  }

  /** Inserting the string at `a`, newer than all others, extends its chain and breaks none. */
  lemma ChainsInsert(bits: nat, w: nat, input: seq<byte>, ins: set<nat>, base: nat, head: seq<nat>, prev: seq<nat>,
      lim: nat, pos: nat, a: nat)
    requires Chains(bits, w, input, ins, base, head, prev, lim, pos)
    requires lim <= a <= pos && base <= a && a + 2 < |input|
    ensures HashAt(bits, input, a) < |head| && |prev| == w
    ensures var h := HashAt(bits, input, a);
            Chains(bits, w, input, ins + {a}, base, head[h := a - base], prev[Slot(a, base, w) := head[h]], a + 1, pos)
  {
    hide UpdateHash, Pow2, HeadsNewest, LinksNewest;
    var h := HashAt(bits, input, a);
    HashBelow(bits, input[a], input[a + 1], input[a + 2]);
    InsertNewest(bits, w, input, ins, base, head, prev, lim, pos, a);
    var ins', head', prev' := ins + {a}, head[h := a - base], prev[Slot(a, base, w) := head[h]];
    forall g: nat | g < |head'| ensures Entry(bits, input, ins', base, head'[g], a + 1, g) {
      assert Entry(bits, input, ins, base, head[g], lim, g);
    }
    forall c | c in ins' && c + w > pos
      ensures c + 2 < |input| && Entry(bits, input, ins', base, prev'[Slot(c, base, w)], c, HashAt(bits, input, c))
    {
      assert Entry(bits, input, ins, base, head[h], lim, h);
      if c != a {
        SlotsDiffer(a, c, base, w);
        assert Entry(bits, input, ins, base, prev[Slot(c, base, w)], c, HashAt(bits, input, c));
      }
    }
  }

  lemma ChainsHead(bits: nat, w: nat, input: seq<byte>, ins: set<nat>, base: nat, head: seq<nat>, prev: seq<nat>,
      lim: nat, pos: nat, h: nat)
    requires Chains(bits, w, input, ins, base, head, prev, lim, pos) && h < Pow2(bits)
    ensures |head| == Pow2(bits) && Nearest(bits, input, ins, base, head[h], lim, h)
  {
    hide Pow2, HashAt;
    assert Entry(bits, input, ins, base, head[h], lim, h) && Newest(bits, input, ins, base, head[h], lim, h);
  }

  /** Following a link stays on the chain and goes back in the input. */
  lemma ChainsLink(bits: nat, w: nat, input: seq<byte>, ins: set<nat>, base: nat, head: seq<nat>, prev: seq<nat>,
      lim: nat, pos: nat, cur: nat, h: nat)
    requires Chains(bits, w, input, ins, base, head, prev, lim, pos)
    requires base + cur in ins && base + cur + w > pos && base + cur + 2 < |input|
      && HashAt(bits, input, base + cur) == h
    ensures |prev| == w && Nearest(bits, input, ins, base, prev[cur % w], base + cur, h)
  {
    hide Pow2, HashAt;
    assert Slot(base + cur, base, w) == cur % w;
    assert Entry(bits, input, ins, base, prev[Slot(base + cur, base, w)], base + cur, HashAt(bits, input, base + cur));
    assert Newest(bits, input, ins, base, prev[Slot(base + cur, base, w)], base + cur, HashAt(bits, input, base + cur));
  }

  lemma LaterNewest(bits: nat, w: nat, input: seq<byte>, more: seq<byte>, ins: set<nat>, base: nat, head: seq<nat>,
      prev: seq<nat>, lim: nat, lim': nat, pos: nat, pos': nat)
    requires w > 0 && pos <= pos' && Inserted(input, ins, lim)
    requires HeadsNewest(bits, input, ins, base, head, lim) && LinksNewest(bits, w, input, ins, base, prev, pos)
    ensures HeadsNewest(bits, input + more, ins, base, head, lim')
      && LinksNewest(bits, w, input + more, ins, base, prev, pos')
  {
    hide UpdateHash, Hash3;
    var all := input + more;
    forall a | 0 <= a && a + 2 < |input| ensures HashAt(bits, all, a) == HashAt(bits, input, a) {
      assert all[a] == input[a] && all[a + 1] == input[a + 1] && all[a + 2] == input[a + 2];
    }
    forall h: nat | h < |head| ensures Newest(bits, all, ins, base, head[h], lim', h) {
      assert Newest(bits, input, ins, base, head[h], lim, h);
    }
    forall a | a in ins && a + w > pos' && a + 2 < |all|
      ensures Newest(bits, all, ins, base, prev[Slot(a, base, w)], a, HashAt(bits, all, a))
    {
      assert Newest(bits, input, ins, base, prev[Slot(a, base, w)], a, HashAt(bits, input, a));
    }
  }

  /** Moving on, reading more input and forgetting nothing keeps the chains sound. */
  lemma ChainsLater(bits: nat, w: nat, input: seq<byte>, more: seq<byte>, ins: set<nat>, base: nat, head: seq<nat>,
      prev: seq<nat>, lim: nat, lim': nat, pos: nat, pos': nat)
    requires Chains(bits, w, input, ins, base, head, prev, lim, pos)
    requires pos <= pos' && (lim <= lim' || Inserted(input, ins, lim'))
    ensures Chains(bits, w, input + more, ins, base, head, prev, lim', pos')
  {
    hide UpdateHash, Pow2, HeadsNewest, LinksNewest;
    LaterNewest(bits, w, input, more, ins, base, head, prev, lim, lim', pos, pos');
    var all := input + more;
    assert forall a | 0 <= a < |input| :: all[a] == input[a];
    forall h: nat | h < |head| ensures Entry(bits, all, ins, base, head[h], lim', h) {
      assert Entry(bits, input, ins, base, head[h], lim, h);
    }
    forall a | a in ins && a + w > pos'
      ensures a + 2 < |all| && Entry(bits, all, ins, base, prev[Slot(a, base, w)], a, HashAt(bits, all, a))
    {
      assert Entry(bits, input, ins, base, prev[Slot(a, base, w)], a, HashAt(bits, input, a));
    }
  }

  /** An entry after the window has moved down by `w`. */
  function Slid(q: nat, w: nat): nat {
    if q >= w then q - w else 0
  }

  /** What moves out of the window is no one's newest. */
  lemma SlideNewest(bits: nat, w: nat, input: seq<byte>, ins: set<nat>, base: nat, head: seq<nat>, prev: seq<nat>,
      head': seq<nat>, prev': seq<nat>, lim: nat, pos: nat)
    requires w > 0
    requires HeadsNewest(bits, input, ins, base, head, lim) && LinksNewest(bits, w, input, ins, base, prev, pos)
    requires |head'| == |head| && forall h | 0 <= h < |head| :: head'[h] == Slid(head[h], w)
    requires |prev'| == |prev| && forall k | 0 <= k < |prev| :: prev'[k] == Slid(prev[k], w)
    ensures HeadsNewest(bits, input, ins, base + w, head', lim)
      && LinksNewest(bits, w, input, ins, base + w, prev', pos)
  {
    hide HashAt;
    forall h: nat | h < |head'| ensures Newest(bits, input, ins, base + w, head'[h], lim, h) {
      assert Newest(bits, input, ins, base, head[h], lim, h);
    }
    forall a | a in ins && a + w > pos && a + 2 < |input|
      ensures Newest(bits, input, ins, base + w, prev'[Slot(a, base + w, w)], a, HashAt(bits, input, a))
    {
      SlotSlides(a, base, w);
      var k := Slot(a, base, w);
      assert Newest(bits, input, ins, base, prev[k], a, HashAt(bits, input, a));
      assert prev'[k] == Slid(prev[k], w);
    }
  }

  /** `slide_hash`: every head and link moved down names the same string of the input, or nothing. */
  lemma ChainsSlide(bits: nat, w: nat, input: seq<byte>, ins: set<nat>, base: nat, head: seq<nat>, prev: seq<nat>,
      head': seq<nat>, prev': seq<nat>, lim: nat, pos: nat)
    requires Chains(bits, w, input, ins, base, head, prev, lim, pos)
    requires |head'| == |head| && forall h | 0 <= h < |head| :: head'[h] == Slid(head[h], w)
    requires |prev'| == |prev| && forall k | 0 <= k < |prev| :: prev'[k] == Slid(prev[k], w)
    ensures Chains(bits, w, input, ins, base + w, head', prev', lim, pos)
  {
    hide UpdateHash, Pow2, HeadsNewest, LinksNewest;
    SlideNewest(bits, w, input, ins, base, head, prev, head', prev', lim, pos);
    forall h: nat | h < |head'| ensures Entry(bits, input, ins, base + w, head'[h], lim, h) {
      assert Entry(bits, input, ins, base, head[h], lim, h);
    }
    forall a | a in ins && a + w > pos
      ensures a + 2 < |input| && Entry(bits, input, ins, base + w, prev'[Slot(a, base + w, w)], a,
        HashAt(bits, input, a))
    {
      SlotSlides(a, base, w);
      var k := Slot(a, base, w);
      assert Entry(bits, input, ins, base, prev[k], a, HashAt(bits, input, a));
      assert prev'[k] == Slid(prev[k], w);
    }
  }

  /** Without heads nothing is said. */
  lemma ChainsForgotten(bits: nat, w: nat, input: seq<byte>, base: nat, head: seq<nat>, prev: seq<nat>, lim: nat,
      pos: nat)
    requires bits >= 8 && w > 0 && |head| == Pow2(bits) && |prev| == w && forall h | 0 <= h < |head| :: head[h] == 0
    ensures Chains(bits, w, input, {}, base, head, prev, lim, pos)
  {
    hide Pow2;
    forall h: nat | h < |head| ensures Entry(bits, input, {}, base, head[h], lim, h) {}
  }
}
