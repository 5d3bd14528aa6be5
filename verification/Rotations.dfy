/** Cyclic rotations of a block and their order on the first `h` bytes. */
module Rotations {
  import opened Bytes

  /** Byte `k` of the block repeated for ever. */
  function At(b: seq<byte>, k: nat): byte
    requires |b| > 0
    decreases k
  {
    if k < |b| then b[k] else At(b, k - |b|)
  }

  lemma AtPeriod(b: seq<byte>, k: nat)
    requires |b| > 0
    ensures At(b, k + |b|) == At(b, k)
    ensures k < |b| ==> At(b, k) == b[k]
  {
  }

  /** Three-way comparison of the first `h` bytes of the rotations starting at `i` and `j`. */
  function Ord(b: seq<byte>, i: nat, j: nat, h: nat): (r: int)
    requires |b| > 0
    ensures -1 <= r <= 1
  {
    if h == 0 then 0
    else
      var c := Ord(b, i, j, h - 1);
      if c != 0 then c else Sgn(At(b, i + h - 1) - At(b, j + h - 1))
  }

  lemma {:induction false} OrdAnti(b: seq<byte>, i: nat, j: nat, h: nat)
    requires |b| > 0
    ensures Ord(b, j, i, h) == -Ord(b, i, j, h)
  {
    if h > 0 {
      OrdAnti(b, i, j, h - 1);
    }
  }

  /** Comparing `h + g` bytes is comparing `h` bytes and then `g` more: the doubling step of the sort. */
  lemma {:induction false} OrdSplit(b: seq<byte>, i: nat, j: nat, h: nat, g: nat)
    requires |b| > 0
    ensures Ord(b, i, j, h + g) ==
            if Ord(b, i, j, h) != 0 then Ord(b, i, j, h) else Ord(b, i + h, j + h, g)
  {
    if g > 0 {
      OrdSplit(b, i, j, h, g - 1);
      assert h + g - 1 == h + (g - 1);
      assert i + (h + g) - 1 == (i + h) + g - 1;
      assert j + (h + g) - 1 == (j + h) + g - 1;
    }
  }

  lemma {:induction false} OrdPeriod(b: seq<byte>, i: nat, j: nat, h: nat)
    requires |b| > 0
    ensures Ord(b, i + |b|, j, h) == Ord(b, i, j, h)
  {
    if h > 0 {
      OrdPeriod(b, i, j, h - 1);
      assert At(b, i + |b| + h - 1) == At(b, i + h - 1);
    }
  }

  /** The rotations starting at `i` and `j` agree in byte `t`. */
  ghost predicate Agree(b: seq<byte>, i: nat, j: nat, t: nat)
    requires |b| > 0
  {
    At(b, i + t) == At(b, j + t)
  }

  lemma {:induction false} OrdZero(b: seq<byte>, i: nat, j: nat, h: nat)
    requires |b| > 0
    ensures Ord(b, i, j, h) == 0 <==> forall t: nat | t < h :: Agree(b, i, j, t)
  {
    if h > 0 {
      OrdZero(b, i, j, h - 1);
      if Ord(b, i, j, h) == 0 {
        forall t: nat | t < h ensures Agree(b, i, j, t) {
          assert t == h - 1 || t < h - 1;
        }
      }
      if forall t: nat | t < h :: Agree(b, i, j, t) {
        assert Agree(b, i, j, h - 1);
        assert i + (h - 1) == i + h - 1;
      }
    }
  }

  lemma {:induction false} OrdTrans(b: seq<byte>, i: nat, j: nat, k: nat, h: nat)
    requires |b| > 0
    requires Ord(b, i, j, h) <= 0 && Ord(b, j, k, h) <= 0
    ensures Ord(b, i, k, h) == if Ord(b, i, j, h) == 0 && Ord(b, j, k, h) == 0 then 0 else -1
  {
    if h > 0 {
      OrdTrans(b, i, j, k, h - 1);
    }
  }

  /** Equality over one whole period is equality for ever. */
  lemma {:induction false} AtAgree(b: seq<byte>, i: nat, j: nat, t: nat)
    requires |b| > 0
    requires forall u: nat | u < |b| :: Agree(b, i, j, u)
    ensures At(b, i + t) == At(b, j + t)
    decreases t
  {
    if t < |b| {
      assert Agree(b, i, j, t);
    } else {
      AtAgree(b, i, j, t - |b|);
      assert At(b, i + t) == At(b, i + (t - |b|));
      assert At(b, j + t) == At(b, j + (t - |b|));
    }
  }

  /** More than one period of bytes adds nothing to the comparison. */
  lemma {:induction false} OrdWhole(b: seq<byte>, i: nat, j: nat, h: nat)
    requires |b| > 0 && h >= |b|
    ensures Ord(b, i, j, h) == Ord(b, i, j, |b|)
  {
    if Ord(b, i, j, |b|) == 0 {
      OrdZero(b, i, j, |b|);
      forall t: nat | t < h ensures Agree(b, i, j, t) {
        AtAgree(b, i, j, t);
      }
      OrdZero(b, i, j, h);
    } else {
      OrdSplit(b, i, j, |b|, h - |b|);
    }
  }

  /** The rotation that starts at byte `i`, as a string. */
  function Rotation(b: seq<byte>, i: nat): (r: seq<byte>)
    requires i < |b|
    ensures |r| == |b|
  {
    b[i..] + b[..i]
  }

  /** Lexicographic order on byte strings of equal length. */
  ghost predicate LexLeq(s: seq<byte>, t: seq<byte>)
    requires |s| == |t|
  {
    s == t || exists m :: 0 <= m < |s| && (forall k | 0 <= k < m :: s[k] == t[k]) && s[m] < t[m]
  }

  lemma RotationAt(b: seq<byte>, i: nat, t: nat)
    requires i < |b| && t < |b|
    ensures Rotation(b, i)[t] == At(b, i + t)
  {
  }

  lemma {:induction false} FirstDifference(b: seq<byte>, i: nat, j: nat, h: nat) returns (m: nat)
    requires |b| > 0 && Ord(b, i, j, h) != 0
    ensures m < h && Ord(b, i, j, h) == Sgn(At(b, i + m) - At(b, j + m)) != 0
    ensures forall t: nat | t < m :: Agree(b, i, j, t)
  {
    if Ord(b, i, j, h - 1) != 0 {
      m := FirstDifference(b, i, j, h - 1);
    } else {
      m := h - 1;
      OrdZero(b, i, j, h - 1);
    }
  }

  /** Where two strings first differ decides their order. */
  lemma LexAt(s: seq<byte>, t: seq<byte>, m: nat)
    requires |s| == |t| && m < |s| && s[m] != t[m] && forall k | 0 <= k < m :: s[k] == t[k]
    ensures LexLeq(s, t) <==> s[m] < t[m]
  {
    if LexLeq(s, t) {
      var n :| 0 <= n < |s| && (forall k | 0 <= k < n :: s[k] == t[k]) && s[n] < t[n];
      assert !(m < n) && !(n < m);
    }
  }

  lemma RotationsAgree(b: seq<byte>, i: nat, j: nat, t: nat)
    requires i < |b| && j < |b| && t < |b|
    ensures Agree(b, i, j, t) <==> Rotation(b, i)[t] == Rotation(b, j)[t]
  {
    hide At, Rotation;
    RotationAt(b, i, t);
    RotationAt(b, j, t);
  }

  /** `Ord` over one period is the lexicographic order of the rotations as strings. */
  lemma OrdIsLex(b: seq<byte>, i: nat, j: nat)
    requires i < |b| && j < |b|
    ensures Ord(b, i, j, |b|) <= 0 <==> LexLeq(Rotation(b, i), Rotation(b, j))
  {
    hide At, Ord, Agree, Rotation;
    var s, t := Rotation(b, i), Rotation(b, j);
    OrdZero(b, i, j, |b|);
    if Ord(b, i, j, |b|) == 0 {
      forall k | 0 <= k < |b| ensures s[k] == t[k] { RotationsAgree(b, i, j, k); }
      assert s == t;
    } else {
      var m := FirstDifference(b, i, j, |b|);
      forall k | 0 <= k < m ensures s[k] == t[k] { RotationsAgree(b, i, j, k); }
      RotationAt(b, i, m);
      RotationAt(b, j, m);
      LexAt(s, t, m);
    }
  }
}
