/** The initial run-length code: runs of 1..255 equal bytes, from four on with a count byte. */
module RunLength {
  import opened Bytes
  import opened ZeroRuns

  datatype Run = Run(ch: byte, len: nat)

  /** What add_pair_to_block writes for a run. */
  function Pair(r: Run): seq<byte>
    requires 1 <= r.len <= 255
  {
    if r.len < 4 then Repeated(r.ch, r.len) else Repeated(r.ch, 4) + [r.len - 4]
  }

  /** Runs as the encoder forms them: a run is followed by the same byte only if it is as long as can be. */
  ghost predicate Formed(rs: seq<Run>) {
    && (forall k | 0 <= k < |rs| :: 1 <= rs[k].len <= 255)
    && forall k {:trigger rs[k]} | 0 <= k < |rs| - 1 :: rs[k].ch != rs[k + 1].ch || rs[k].len == 255
  }

  ghost function Coded(rs: seq<Run>): seq<byte>
    requires Formed(rs)
  {
    if rs == [] then [] else Coded(rs[..|rs| - 1]) + Pair(rs[|rs| - 1])
  }

  ghost function Plain(rs: seq<Run>): seq<byte> {
    if rs == [] then [] else Plain(rs[..|rs| - 1]) + Repeated(rs[|rs| - 1].ch, rs[|rs| - 1].len)
  }

  // ----- reading a block -----

  /** Byte `k` of a block, or the one fetched after its end. */
  function ByteAt(b: seq<byte>, x: byte, k: nat): byte {
    if k < |b| then b[k] else x
  }

  /**
   * The run that starts at place `p` of a block. Its count byte is fetched even if the block has ended: then it is `x`.
   */
  function RunAt(b: seq<byte>, x: byte, p: nat): Run
    requires p < |b|
  {
    if p + 1 == |b| || b[p + 1] != b[p] then Run(b[p], 1)
    else if p + 2 == |b| || b[p + 2] != b[p] then Run(b[p], 2)
    else if p + 3 == |b| || b[p + 3] != b[p] then Run(b[p], 3)
    else Run(b[p], ByteAt(b, x, p + 4) + 4)
  }

  function NextRun(b: seq<byte>, p: nat): (q: nat)
    requires p < |b|
    ensures p < q <= |b| + 1
  {
    var r := RunAt(b, 0, p);
    if r.len < 4 then p + r.len else p + 5
  }

  /** The bytes a block stands for, from place `p` on. */
  function Text(b: seq<byte>, x: byte, p: nat): seq<byte>
    decreases |b| - p
  {
    if p >= |b| then [] else Repeated(RunAt(b, x, p).ch, RunAt(b, x, p).len) + Text(b, x, NextRun(b, p))
  }

  /** Where reading ends: at the end of the block or, if the block lacks its last count byte, one beyond. */
  function End(b: seq<byte>, p: nat): nat
    decreases |b| - p
  {
    if p >= |b| then p else End(b, NextRun(b, p))
  }

  lemma {:induction false} EndBeyond(b: seq<byte>, p: nat)
    ensures End(b, p) >= p
    decreases |b| - p
  {
    hide RunAt;
    if p < |b| { EndBeyond(b, NextRun(b, p)); }
  }

  /** What follows the block matters only if the last count byte is missing. */
  lemma {:induction false} TextAlone(b: seq<byte>, x: byte, y: byte, p: nat)
    requires End(b, p) == |b|
    ensures Text(b, x, p) == Text(b, y, p)
    decreases |b| - p
  {
    hide Repeated;
    if p < |b| {
      EndBeyond(b, NextRun(b, p));
      TextAlone(b, x, y, NextRun(b, p));
    }
  }

  /** The bytes a complete block stands for. */
  function TextOf(b: seq<byte>): seq<byte> {
    Text(b, 0, 0)
  }

  // ----- the round trip -----

  /** Runs of a sequence from number `k` on, as bytes in the block and as text. */
  ghost function CodedFrom(rs: seq<Run>, k: nat): seq<byte>
    requires Formed(rs) && k <= |rs|
    decreases |rs| - k
  {
    if k == |rs| then [] else Pair(rs[k]) + CodedFrom(rs, k + 1)
  }

  ghost function PlainFrom(rs: seq<Run>, k: nat): seq<byte>
    requires k <= |rs|
    decreases |rs| - k
  {
    if k == |rs| then [] else Repeated(rs[k].ch, rs[k].len) + PlainFrom(rs, k + 1)
  }

  lemma FormedPrefix(rs: seq<Run>, k: nat)
    requires Formed(rs) && k <= |rs|
    ensures Formed(rs[..k])
  {
  }

  lemma {:induction false} CodedSplit(rs: seq<Run>, k: nat)
    requires Formed(rs) && k <= |rs|
    ensures Formed(rs[..k]) && Coded(rs) == Coded(rs[..k]) + CodedFrom(rs, k)
    decreases |rs| - k
  {
    hide Pair;
    FormedPrefix(rs, k);
    if k == |rs| {
      assert rs[..k] == rs;
    } else {
      CodedSplit(rs, k + 1);
      FormedPrefix(rs, k + 1);
      assert rs[..k + 1][..k] == rs[..k];
      assert Coded(rs[..k]) + Pair(rs[k]) + CodedFrom(rs, k + 1) ==
        Coded(rs[..k]) + (Pair(rs[k]) + CodedFrom(rs, k + 1));
    }
  }

  lemma {:induction false} PlainSplit(rs: seq<Run>, k: nat)
    requires k <= |rs|
    ensures Plain(rs) == Plain(rs[..k]) + PlainFrom(rs, k)
    decreases |rs| - k
  {
    hide Repeated;
    if k == |rs| {
      assert rs[..k] == rs;
    } else {
      PlainSplit(rs, k + 1);
      assert rs[..k + 1][..k] == rs[..k];
      var x := Repeated(rs[k].ch, rs[k].len);
      assert Plain(rs[..k]) + x + PlainFrom(rs, k + 1) == Plain(rs[..k]) + (x + PlainFrom(rs, k + 1));
    }
  }

  /** The pair at place `p` of a block is read as its run. */
  lemma ReadPair(b: seq<byte>, x: byte, p: nat, r: Run, rest: seq<byte>)
    requires 1 <= r.len <= 255 && p <= |b| && b[p..] == Pair(r) + rest
    requires r.len < 4 && rest != [] ==> rest[0] != r.ch
    ensures p < |b| && RunAt(b, x, p) == r && NextRun(b, p) == p + |Pair(r)| <= |b| && b[p + |Pair(r)|..] == rest
  {
    var c := Pair(r);
    assert |b| == p + |c| + |rest|;
    assert forall k | 0 <= k < |c| :: b[p..][k] == b[p + k] == c[k];
    assert forall k | 0 <= k < |rest| :: b[p..][|c| + k] == b[p + |c| + k] == rest[k];
    assert b[p + |c|..] == rest;
    if r.len < 4 {
      if r.len >= 2 { assert b[p + 1] == c[1]; }
      if r.len == 3 { assert b[p + 2] == c[2]; }
      if rest != [] { assert b[p + |c| + 0] == rest[0]; }
    } else {
      assert b[p + 1] == c[1] && b[p + 2] == c[2] && b[p + 3] == c[3] && b[p + 4] == c[4];
    }
  }

  lemma PairStarts(r: Run)
    requires 1 <= r.len <= 255
    ensures |Pair(r)| >= 1 && Pair(r)[0] == r.ch
  {
  }

  /** After a short run comes another byte, or nothing. */
  lemma NextDiffers(rs: seq<Run>, k: nat)
    requires Formed(rs) && k < |rs|
    ensures 1 <= rs[k].len <= 255
    ensures rs[k].len < 4 && CodedFrom(rs, k + 1) != [] ==> CodedFrom(rs, k + 1)[0] != rs[k].ch
  {
    hide Pair;
    if k + 1 < |rs| {
      PairStarts(rs[k + 1]);
    }
  }

  /** Reading a block that consists of the encoder's pairs yields the bytes of its runs, and ends with the block. */
  lemma {:induction false} ReadRuns(rs: seq<Run>, b: seq<byte>, x: byte, k: nat, p: nat)
    requires Formed(rs) && k <= |rs| && p <= |b| && b[p..] == CodedFrom(rs, k)
    ensures Text(b, x, p) == PlainFrom(rs, k) && End(b, p) == |b|
    decreases |rs| - k
  {
    hide Pair, Repeated, RunAt, NextRun, Formed;
    if k < |rs| {
      var rest := CodedFrom(rs, k + 1);
      NextDiffers(rs, k);
      ReadPair(b, x, p, rs[k], rest);
      ReadRuns(rs, b, x, k + 1, p + |Pair(rs[k])|);
    }
  }

  lemma BlockRoundTrip(rs: seq<Run>)
    requires Formed(rs)
    ensures TextOf(Coded(rs)) == Plain(rs) && End(Coded(rs), 0) == |Coded(rs)|
  {
    hide Pair, Repeated, Text, End;
    CodedSplit(rs, 0);
    PlainSplit(rs, 0);
    assert rs[..0] == [];
    assert Coded(rs)[0..] == CodedFrom(rs, 0);
    ReadRuns(rs, Coded(rs), 0, 0, 0);
    assert Plain(rs) == PlainFrom(rs, 0);
  }
}
