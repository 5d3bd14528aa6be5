/** generateMTFValues and its inverse in the decoder, as loops over arrays. */
module MtfCoder {
  import opened Bytes
  import opened MtfList
  import opened ZeroRuns

  // ----- the symbols in use -----

  function UseCount(inUse: seq<bool>, i: nat): nat
    requires i <= |inUse|
  {
    if i == 0 then 0 else UseCount(inUse, i - 1) + if inUse[i - 1] then 1 else 0
  }

  /** The bytes in use, in order: `seqToUnseq`. */
  function UsedBytes(inUse: seq<bool>, i: nat): (u: seq<byte>)
    requires i <= |inUse| <= 256
    ensures |u| == UseCount(inUse, i) && forall k | 0 <= k < |u| :: u[k] < i && inUse[u[k]]
  {
    if i == 0 then [] else UsedBytes(inUse, i - 1) + if inUse[i - 1] then [(i - 1) as byte] else []
  }

  lemma {:induction false} UseCountGrows(inUse: seq<bool>, i: nat, j: nat)
    requires i <= j <= |inUse|
    ensures UseCount(inUse, i) <= UseCount(inUse, j) <= UseCount(inUse, i) + (j - i)
  {
    if i < j { UseCountGrows(inUse, i, j - 1); }
  }

  /** The two maps undo each other on the bytes in use. */
  lemma {:induction false} MapsUndo(inUse: seq<bool>, b: byte, i: nat)
    requires b < i <= |inUse| <= 256 && inUse[b]
    ensures UseCount(inUse, b) < |UsedBytes(inUse, i)| && UsedBytes(inUse, i)[UseCount(inUse, b)] == b
  {
    if b + 1 < i {
      MapsUndo(inUse, b, i - 1);
    } else {
      UseCountGrows(inUse, b, b);
    }
  }

  /** `makeMaps_e`. */
  method MakeMapsE(inUse: seq<bool>) returns (unseqToSeq: array<byte>, nInUse: nat)
    requires |inUse| == 256
    ensures fresh(unseqToSeq) && unseqToSeq.Length == 256 && nInUse == UseCount(inUse, 256)
    ensures forall b: byte | inUse[b] :: unseqToSeq[b] == UseCount(inUse, b) < nInUse
  {
    unseqToSeq := new byte[256](_ => 0);
    nInUse := 0;
    for i := 0 to 256
      invariant nInUse == UseCount(inUse, i) <= i
      invariant forall b | 0 <= b < i && inUse[b] :: unseqToSeq[b] == UseCount(inUse, b) < nInUse
    {
      if inUse[i] {
        unseqToSeq[i] := nInUse;
        nInUse := nInUse + 1;
      }
    }
  }

  lemma UsedStart(inUse: seq<bool>)
    requires |inUse| <= 256
    ensures UsedBytes(inUse, 0) == []
  {
  }

  lemma UsedNext(inUse: seq<bool>, i: nat)
    requires i < |inUse| <= 256
    ensures UsedBytes(inUse, i + 1) == UsedBytes(inUse, i) + if inUse[i] then [i as byte] else []
  {
  }

  /** `makeMaps_d`. */
  method MakeMapsD(inUse: seq<bool>) returns (seqToUnseq: array<byte>, nInUse: nat)
    requires |inUse| == 256
    ensures fresh(seqToUnseq) && seqToUnseq.Length == 256 && nInUse == UseCount(inUse, 256) <= 256
    ensures seqToUnseq[..nInUse] == UsedBytes(inUse, 256)
  {
    hide UsedBytes;
    seqToUnseq := new byte[256](_ => 0);
    nInUse := 0;
    UsedStart(inUse);
    for i := 0 to 256
      invariant nInUse == UseCount(inUse, i) <= i && seqToUnseq[..nInUse] == UsedBytes(inUse, i)
    {
      UsedNext(inUse, i);
      if inUse[i] {
        seqToUnseq[nInUse] := i;
        nInUse := nInUse + 1;
      }
    }
  }

  // ----- encoding -----

  ghost predicate NumberOk(inUse: seq<bool>, b: byte)
    requires |inUse| == 256
  {
    UseCount(inUse, b) < UseCount(inUse, 256) <= 256
  }

  lemma NumberRange(inUse: seq<bool>, b: byte)
    requires |inUse| == 256 && inUse[b]
    ensures NumberOk(inUse, b)
  {
    hide UsedBytes;
    MapsUndo(inUse, b, 256);
    UseCountGrows(inUse, 0, 256);
    assert UseCount(inUse, 0) == 0;
  }

  /** Numbers of the bytes of a column among the bytes in use. */
  ghost function Numbered(inUse: seq<bool>, column: seq<byte>): (c: seq<byte>)
    requires |inUse| == 256 && forall k | 0 <= k < |column| :: inUse[column[k]]
    ensures |c| == |column| && forall k | 0 <= k < |c| :: c[k] < UseCount(inUse, 256)
  {
    assert forall k | 0 <= k < |column| :: NumberOk(inUse, column[k]) by {
      forall k | 0 <= k < |column| ensures NumberOk(inUse, column[k]) {
        NumberRange(inUse, column[k]);
      }
    }
    seq(|column|, k requires 0 <= k < |column| => UseCount(inUse, column[k]) as byte)
  }

  /** Half `k` of a pointer's two halves in the array that pointers and symbols share. */
  function Ptr(a: seq<nat>, k: int): nat {
    if 0 <= k && 2 * k + 1 < |a| then a[2 * k] + 65536 * a[2 * k + 1] else 0
  }

  function Identity(n: nat): (r: seq<byte>)
    requires n <= 256
    ensures |r| == n && forall k | 0 <= k < n :: r[k] == k
  {
    seq(n, k requires 0 <= k < n => k as byte)
  }

  lemma ShiftIsMove(l: seq<byte>, s: seq<byte>, j: nat)
    requires |s| == |l| && j < |l| && forall k {:trigger s[k]} | 1 <= k < |l| ::
      s[k] == if k <= j then l[k - 1] else l[k]
    ensures s[0 := l[j]] == MoveToFront(l, j)
  {
  }

  /** Find a byte in the list behind its first element and, on the way, move what stands before it up by one. */
  method FindAndShift(yy: array<byte>, n: nat, x: byte) returns (j: nat)
    requires n <= yy.Length && x in yy[..n] && yy[0] != x
    modifies yy
    ensures j == IndexOf(old(yy[..n]), x) && 0 < j < n
    ensures yy[..n] == MoveToFront(old(yy[..n]), j)
  {
    hide MoveToFront;
    ghost var l := yy[..n];
    ghost var at := IndexOf(l, x);
    var rtmp := yy[1];
    yy[1] := yy[0];
    j := 1;
    while x != rtmp
      invariant 1 <= j <= at && rtmp == l[j] && yy[0] == l[0]
      invariant forall k {:trigger yy[k]} | 1 <= k < n :: yy[k] == if k <= j then l[k - 1] else l[k]
      decreases at - j
    {
      j := j + 1;
      var rtmp2 := rtmp;
      rtmp := yy[j];
      yy[j] := rtmp2;
    }
    ghost var shifted := yy[..n];
    ShiftIsMove(l, shifted, j);
    yy[0] := rtmp;
    assert yy[..n] == shifted[0 := rtmp];
  }

  const MAX_ALPHA := 258

  /** How often each of the first `n` symbols of the alphabet occurs. */
  ghost predicate Tallied(freq: seq<nat>, syms: seq<nat>, n: nat) {
    n <= |freq| && forall v | 0 <= v < n :: freq[v] == multiset(syms)[v]
  }

  lemma TalliedMore(freq: seq<nat>, syms: seq<nat>, n: nat, x: nat)
    requires Tallied(freq, syms, n) && x < |freq|
    ensures Tallied(freq[x := freq[x] + 1], syms + [x], n)
  {
  }

  /** Write a symbol and count it. */
  method WriteOne(a: array<nat>, mtfFreq: array<nat>, k: nat, x: nat, ghost n: nat)
    requires k < a.Length && x < mtfFreq.Length && a != mtfFreq && Tallied(mtfFreq[..], a[..k], n)
    modifies a, mtfFreq
    ensures a[..k + 1] == old(a[..k]) + [x] && a[..k] == old(a[..k]) && Tallied(mtfFreq[..], a[..k + 1], n)
    ensures forall i | k < i < a.Length :: a[i] == old(a[i])
  {
    hide Tallied;
    TalliedMore(mtfFreq[..], a[..k], n, x);
    ghost var freq := mtfFreq[..];
    a[k] := x;
    mtfFreq[x] := mtfFreq[x] + 1;
    assert mtfFreq[..] == freq[x := freq[x] + 1];
  }

  lemma Associate3(a: seq<nat>, rest: seq<nat>)
    requires rest != []
    ensures a + [rest[0]] + rest[1..] == a + rest
  {
  }

  lemma DigitsFirst(z: nat)
    requires z >= 1
    ensures Digits(z)[0] == (if (z - 1) % 2 == 1 then RUNB else RUNA)
    ensures Digits(z)[1..] == if z - 1 < 2 then [] else Digits((z - 3) / 2 + 1)
  {
  }

  /** Write the numeral of a run. */
  method WriteRun(mtfv: array<nat>, mtfFreq: array<nat>, wr0: nat, z: nat, ghost n: nat) returns (wr: nat)
    requires z >= 1 && wr0 + z <= mtfv.Length && mtfFreq.Length == MAX_ALPHA && mtfv != mtfFreq
      && Tallied(mtfFreq[..], mtfv[..wr0], n)
    modifies mtfv, mtfFreq
    ensures wr == wr0 + |Digits(z)| <= wr0 + z && mtfv[..wr] == old(mtfv[..wr0]) + Digits(z)
      && Tallied(mtfFreq[..], mtfv[..wr], n)
    ensures forall k | wr <= k < mtfv.Length :: mtfv[k] == old(mtfv[k])
  {
    hide Digits, Tallied;
    wr := wr0;
    var zPend: nat := z - 1;
    DigitsAtMost(z);
    ghost var rest := Digits(z);
    ghost var full := mtfv[..wr0] + Digits(z);
    var more := true;
    while more
      invariant wr + |rest| == wr0 + |Digits(z)| && (more ==> rest == Digits(zPend + 1)) && (!more ==> rest == [])
      invariant mtfv[..wr] + rest == full && Tallied(mtfFreq[..], mtfv[..wr], n)
      invariant forall k | wr <= k < mtfv.Length :: mtfv[k] == old(mtfv[k])
      decreases more, zPend
    {
      DigitsFirst(zPend + 1);
      Associate3(mtfv[..wr], rest);
      WriteOne(mtfv, mtfFreq, wr, if zPend % 2 == 1 then RUNB else RUNA, n);
      wr := wr + 1;
      rest := rest[1..];
      if zPend < 2 { more := false; } else { zPend := (zPend - 2) / 2; }
    }
  }

  /** `a` holds the pointers from `i` on; the symbols written so far end before them. */
  ghost predicate PointersFrom(a: seq<nat>, ptr: seq<nat>, i: nat) {
    2 * |ptr| <= |a| && forall k {:trigger ptr[k]} | i <= k < |ptr| :: Ptr(a, k) == ptr[k]
  }

  lemma PointersKept(a: seq<nat>, a': seq<nat>, ptr: seq<nat>, i: nat, wr: nat)
    requires PointersFrom(a, ptr, i) && |a'| == |a| && wr <= 2 * i && forall k | wr <= k < |a| :: a'[k] == a[k]
    ensures PointersFrom(a', ptr, i)
  {
  }

  /** The rest of the column still to be encoded, after `i` bytes and with `zp` zeros pending. */
  ghost predicate Encoding(out: seq<nat>, yy: seq<byte>, col: seq<byte>, i: nat, zp: nat, all: seq<nat>) {
    && i <= |col| && AllIn(yy, col[i..]) && |out| + zp <= i && out + Encoded(yy, col[i..], zp, |yy| + 1) == all
  }

  lemma EncodingZero(out: seq<nat>, yy: seq<byte>, col: seq<byte>, i: nat, zp: nat, all: seq<nat>)
    requires Encoding(out, yy, col, i, zp, all) && i < |col| && yy != [] && yy[0] == col[i]
    ensures Encoding(out, yy, col, i + 1, zp + 1, all)
  {
    hide Encoded;
    EncodedZero(yy, col[i..], zp, |yy| + 1);
    assert col[i..][1..] == col[i + 1..];
  }

  lemma NotFirst(yy: seq<byte>, x: byte)
    requires x in yy && yy[0] != x
    ensures 0 < IndexOf(yy, x)
  {
  }

  lemma Associate(a: seq<nat>, b: seq<nat>, c: seq<nat>, d: seq<nat>)
    ensures a + (b + (c + d)) == a + b + c + d
  {
  }

  lemma FlushAtMost(zp: nat)
    ensures |Flush(zp)| <= zp
  {
    if zp > 0 { DigitsAtMost(zp); }
  }

  lemma EncodingMove(out: seq<nat>, yy: seq<byte>, col: seq<byte>, i: nat, zp: nat, all: seq<nat>)
    requires Encoding(out, yy, col, i, zp, all) && i < |col| && yy != [] && yy[0] != col[i]
    ensures col[i] in yy && 0 < IndexOf(yy, col[i]) < |yy|
    ensures var j := IndexOf(yy, col[i]); Encoding(out + Flush(zp) + [j + 1], MoveToFront(yy, j), col, i + 1, 0, all)
  {
    hide Encoded, Flush, MoveToFront;
    NotFirst(yy, col[i]);
    var j := IndexOf(yy, col[i]);
    EncodedMove(yy, col[i..], zp, |yy| + 1);
    assert col[i..][1..] == col[i + 1..];
    FlushAtMost(zp);
    Associate(out, Flush(zp), [j + 1], Encoded(MoveToFront(yy, j), col[i + 1..], 0, |yy| + 1));
  }

  lemma EncodingEnd(out: seq<nat>, yy: seq<byte>, col: seq<byte>, zp: nat, all: seq<nat>)
    requires Encoding(out, yy, col, |col|, zp, all)
    ensures out + Flush(zp) + [|yy| + 1] == all && |Flush(zp)| <= zp
  {
    hide Flush;
    FlushAtMost(zp);
    EncodedEnd(yy, zp, |yy| + 1);
    assert col[|col|..] == [];
    Associate(out, Flush(zp), [|yy| + 1], []);
  }

  /** Write the pending run, if there is one. */
  method FlushRun(mtfv: array<nat>, mtfFreq: array<nat>, wr0: nat, zp: nat, ghost n: nat) returns (wr: nat)
    requires wr0 + zp <= mtfv.Length && mtfFreq.Length == MAX_ALPHA && mtfv != mtfFreq
      && Tallied(mtfFreq[..], mtfv[..wr0], n)
    modifies mtfv, mtfFreq
    ensures wr0 <= wr <= wr0 + zp && mtfv[..wr] == old(mtfv[..wr0]) + Flush(zp) && Tallied(mtfFreq[..], mtfv[..wr], n)
    ensures forall k | wr <= k < mtfv.Length :: mtfv[k] == old(mtfv[k])
  {
    hide Tallied;
    wr := wr0;
    if zp > 0 { wr := WriteRun(mtfv, mtfFreq, wr0, zp, n); }
  }

  method ClearFreq(mtfFreq: array<nat>, n: nat)
    requires n <= mtfFreq.Length
    modifies mtfFreq
    ensures Tallied(mtfFreq[..], [], n)
  {
    for i := 0 to n
      invariant forall k | 0 <= k < i :: mtfFreq[k] == 0
    {
      mtfFreq[i] := 0;
    }
  }

  /** The byte before the start of rotation `p`, by number. */
  method ColumnByte(a: array<nat>, block: seq<byte>, unseqToSeq: array<byte>, i: nat, ghost ptr: seq<nat>,
      ghost col: seq<byte>) returns (x: byte)
    requires |ptr| == |block| == |col| && i < |ptr| && PointersFrom(a[..], ptr, i) && ptr[i] < |block|
      && unseqToSeq.Length == 256
    requires forall k | 0 <= k < |ptr| && ptr[k] < |block| ::
      col[k] == unseqToSeq[block[if ptr[k] == 0 then |block| - 1 else ptr[k] - 1]]
    ensures x == col[i]
  {
    var p: int := a[2 * i] + 65536 * a[2 * i + 1];
    assert Ptr(a[..], i) == ptr[i];
    var j: int := p - 1;
    if j < 0 { j := j + |block|; }
    x := unseqToSeq[block[j]];
  }

  lemma IdentityIs(y: seq<byte>)
    requires |y| <= 256 && forall k | 0 <= k < |y| :: y[k] == k
    ensures y == Identity(|y|)
  {
  }

  /** The list of the numbers in use, at the start. */
  method FirstList(nInUse: nat) returns (yy: array<byte>)
    requires nInUse <= 256
    ensures fresh(yy) && yy.Length == 256 && yy[..nInUse] == Identity(nInUse)
  {
    yy := new byte[256];
    for i := 0 to nInUse
      invariant forall k | 0 <= k < i :: yy[k] == k
    {
      yy[i] := i;
    }
    IdentityIs(yy[..nInUse]);
  }

  /** The pending run is written, then the position of a byte, which moves to the front. */
  method PutMove(mtfv: array<nat>, mtfFreq: array<nat>, yy: array<byte>, nInUse: nat, wr0: nat, zp: nat, x: byte)
      returns (wr: nat)
    requires wr0 + zp < mtfv.Length && mtfFreq.Length == MAX_ALPHA && mtfv != mtfFreq
    requires mtfv as object != yy as object && mtfFreq as object != yy as object
    requires nInUse <= 256 == yy.Length && x in yy[..nInUse] && yy[0] != x
      && Tallied(mtfFreq[..], mtfv[..wr0], nInUse + 2)
    modifies mtfv, mtfFreq, yy
    ensures wr0 < wr <= wr0 + zp + 1 && Tallied(mtfFreq[..], mtfv[..wr], nInUse + 2)
    ensures var j := IndexOf(old(yy[..nInUse]), x);
            mtfv[..wr] == old(mtfv[..wr0]) + Flush(zp) + [j + 1] && yy[..nInUse] == MoveToFront(old(yy[..nInUse]), j)
    ensures forall k | wr <= k < mtfv.Length :: mtfv[k] == old(mtfv[k])
  {
    hide Tallied, Flush, MoveToFront, IndexOf;
    wr := FlushRun(mtfv, mtfFreq, wr0, zp, nInUse + 2);
    var j := FindAndShift(yy, nInUse, x);
    WriteOne(mtfv, mtfFreq, wr, j + 1, nInUse + 2);
    wr := wr + 1;
  }

  lemma EncodingStart(yy: seq<byte>, col: seq<byte>)
    requires AllIn(yy, col)
    ensures Encoding([], yy, col, 0, 0, Encoded(yy, col, 0, |yy| + 1))
  {
    hide Encoded;
    assert col[0..] == col;
  }

  lemma RoomFor(a: seq<nat>, ptr: seq<nat>)
    requires PointersFrom(a, ptr, 0)
    ensures 2 * |ptr| <= |a|
  {
  }

  lemma PointersLater(a: seq<nat>, ptr: seq<nat>, i: nat)
    ensures PointersFrom(a, ptr, i) ==> PointersFrom(a, ptr, i + 1)
  {
  }

  /**
   * `generateMTFValues`. Symbols and pointers share the array `arr1` of halves of pointers: symbols are written at its
   * start while pointers are still read further on, and never overtake them.
   */
  method GenerateMtfValues(arr1: array<nat>, block: seq<byte>, unseqToSeq: array<byte>, mtfFreq: array<nat>,
      nInUse: nat, ghost ptr: seq<nat>, ghost col: seq<byte>) returns (nMTF: nat)
    requires mtfFreq.Length == MAX_ALPHA && mtfFreq != arr1 && mtfFreq as object != unseqToSeq as object
    requires arr1 as object != unseqToSeq as object && unseqToSeq.Length == 256 && 1 <= nInUse <= 256
    requires |ptr| == |block| == |col| > 0 && PointersFrom(arr1[..], ptr, 0)
      && forall k | 0 <= k < |ptr| :: ptr[k] < |block|
    requires forall k | 0 <= k < |ptr| && ptr[k] < |block| ::
      col[k] == unseqToSeq[block[if ptr[k] == 0 then |block| - 1 else ptr[k] - 1]]
    requires AllIn(Identity(nInUse), col)
    modifies arr1, mtfFreq
    ensures nMTF <= |block| + 1 && arr1[..nMTF] == Encoded(Identity(nInUse), col, 0, nInUse + 1)
    ensures Tallied(mtfFreq[..], arr1[..nMTF], nInUse + 2)
  {
    hide Encoding, PointersFrom, Encoded, AllIn, Flush, MoveToFront, Identity, Tallied;
    RoomFor(arr1[..], ptr);
    ghost var a0 := arr1[..];
    var yy := FirstList(nInUse);
    ghost var all := Encoded(Identity(nInUse), col, 0, nInUse + 1);
    EncodingStart(Identity(nInUse), col);
    ClearFreq(mtfFreq, nInUse + 2);
    assert arr1[..] == a0 && arr1[..0] == [];
    var wr: nat, zPend: nat := 0, 0;
    for i := 0 to |block|
      invariant wr + zPend <= i && arr1.Length >= 2 * |block| && PointersFrom(arr1[..], ptr, i)
      invariant Tallied(mtfFreq[..], arr1[..wr], nInUse + 2)
      invariant Encoding(arr1[..wr], yy[..nInUse], col, i, zPend, all)
    {
      var x := ColumnByte(arr1, block, unseqToSeq, i, ptr, col);
      if yy[0] == x {
        EncodingZero(arr1[..wr], yy[..nInUse], col, i, zPend, all);
        zPend := zPend + 1;
      } else {
        EncodingMove(arr1[..wr], yy[..nInUse], col, i, zPend, all);
        ghost var a := arr1[..];
        wr := PutMove(arr1, mtfFreq, yy, nInUse, wr, zPend, x);
        PointersLater(a, ptr, i);
        PointersKept(a, arr1[..], ptr, i + 1, wr);
        zPend := 0;
      }
      PointersLater(arr1[..], ptr, i);
    }
    EncodingEnd(arr1[..wr], yy[..nInUse], col, zPend, all);
    nMTF := FlushRun(arr1, mtfFreq, wr, zPend, nInUse + 2);
    WriteOne(arr1, mtfFreq, nMTF, nInUse + 1, nInUse + 2);
    nMTF := nMTF + 1;
  }

  // ----- decoding -----

  /** The bytes that the numbers of a column stand for. */
  function Unnumbered(u: seq<byte>, col: seq<byte>): (r: seq<byte>)
    requires |u| == 256
    ensures |r| == |col| && forall k | 0 <= k < |col| :: r[k] == u[col[k]]
  {
    seq(|col|, k requires 0 <= k < |col| => u[col[k]])
  }

  /** Column written so far and its byte counts. */
  ghost predicate Written(tt: seq<nat>, counts: seq<nat>, out: seq<byte>) {
    && |out| <= |tt| && |counts| == 256 && (forall k | 0 <= k < |out| :: tt[k] == out[k])
    && forall c: byte :: counts[c] == multiset(out)[c]
  }

  lemma CountMore(out: seq<byte>, x: byte, es: nat)
    ensures forall c: byte :: multiset(out + Repeated(x, es))[c] == multiset(out)[c] + if c == x then es else 0
    decreases es
  {
    if es == 0 {
      assert out + Repeated(x, 0) == out;
    } else {
      assert out + Repeated(x, es) == (out + [x]) + Repeated(x, es - 1);
      CountMore(out + [x], x, es - 1);
    }
  }

  lemma UnnumberedRun(u: seq<byte>, x: byte, es: nat, rest: seq<byte>)
    requires |u| == 256
    ensures Unnumbered(u, Repeated(x, es)) == Repeated(u[x], es)
    ensures Unnumbered(u, Repeated(x, es) + rest) == Repeated(u[x], es) + Unnumbered(u, rest)
  {
  }

  lemma WrittenMore(tt: seq<nat>, counts: seq<nat>, tt': seq<nat>, counts': seq<nat>, out: seq<byte>, x: byte, es: nat)
    requires Written(tt, counts, out) && |tt'| == |tt| && |out| + es <= |tt| && |counts'| == 256
    requires (forall k | 0 <= k < |out| :: tt'[k] == tt[k]) && forall k | |out| <= k < |out| + es :: tt'[k] == x
    requires counts' == counts[x := counts[x] + es]
    ensures Written(tt', counts', out + Repeated(x, es))
  {
    CountMore(out, x, es);
  }

  /** Write `es` copies of a byte, unless the block overflows. */
  method WriteBytes(tt: array<nat>, nblock0: nat, uc: byte, es0: nat, nblockMax: nat) returns (ok: bool, nblock: nat)
    requires nblock0 <= nblockMax <= tt.Length
    modifies tt
    ensures ok <==> nblock0 + es0 <= nblockMax
    ensures ok ==> nblock == nblock0 + es0 && (forall k | nblock0 <= k < nblock :: tt[k] == uc)
    ensures forall k | 0 <= k < nblock0 :: tt[k] == old(tt[k])
  {
    var es := es0;
    nblock := nblock0;
    while es > 0
      invariant 0 <= es <= es0 && nblock == nblock0 + es0 - es <= nblockMax
      invariant forall k | nblock0 <= k < nblock :: tt[k] == uc
      invariant forall k | 0 <= k < nblock0 :: tt[k] == old(tt[k])
    {
      if nblock >= nblockMax { return false, nblock; }
      tt[nblock] := uc;
      nblock := nblock + 1;
      es := es - 1;
    }
    ok := true;
  }

  lemma OneByte(x: byte)
    ensures Repeated(x, 1) == [x]
  {
  }

  lemma ListSize(m: seq<byte>, base: seq<nat>, l: seq<byte>)
    requires Holds(m, base, l)
    ensures |l| == 256
  {
  }

  lemma WrittenNone(tt: seq<nat>, counts: seq<nat>)
    requires |counts| == 256 && forall c | 0 <= c < 256 :: counts[c] == 0
    ensures Written(tt, counts, [])
  {
  }

  /** Count and write `es` copies of a byte. */
  method PutRun(tt: array<nat>, unzftab: array<nat>, nblock0: nat, uc: byte, es: nat, nblockMax: nat,
      ghost out: seq<byte>) returns (ok: bool, nblock: nat)
    requires tt != unzftab && unzftab.Length == 256 && nblock0 == |out| <= nblockMax <= tt.Length
      && Written(tt[..], unzftab[..], out)
    modifies tt, unzftab
    ensures ok <==> nblock0 + es <= nblockMax
    ensures ok ==> nblock == nblock0 + es && Written(tt[..], unzftab[..], out + Repeated(uc, es))
  {
    hide Written, Repeated;
    ghost var t0, c0 := tt[..], unzftab[..];
    unzftab[uc] := unzftab[uc] + es;
    ok, nblock := WriteBytes(tt, nblock0, uc, es, nblockMax);
    if ok {
      WrittenMore(t0, c0, tt[..], unzftab[..], out, uc, es);
    }
  }

  // ----- the round trip -----

  ghost predicate AllAtMost(s: seq<nat>, m: nat) {
    forall k | 0 <= k < |s| :: s[k] <= m
  }

  lemma FlushRange(zp: nat)
    ensures AllAtMost(Flush(zp), RUNB)
  {
  }

  /** The encoder's symbols: RUNA, RUNB, positions, and the end marker last. */
  lemma {:induction false} EncodedRange(yy: seq<byte>, col: seq<byte>, zp: nat, eob: nat)
    requires AllIn(yy, col) && |yy| >= 1 && eob == |yy| + 1
    ensures AllAtMost(Encoded(yy, col, zp, eob), eob)
    decreases |col|
  {
    hide MoveToFront, Digits, Flush;
    FlushRange(zp);
    if col != [] {
      var j := IndexOf(yy, col[0]);
      if j == 0 {
        EncodedRange(yy, col[1..], zp + 1, eob);
      } else {
        MoveKeeps(yy, j);
        EncodedRange(MoveToFront(yy, j), col[1..], 0, eob);
      }
    }
  }

  lemma UseCountZero(inUse: seq<bool>)
    ensures UseCount(inUse, 0) == 0
  {
  }

  lemma NumberedIn(inUse: seq<bool>, column: seq<byte>)
    requires |inUse| == 256 && forall k | 0 <= k < |column| :: inUse[column[k]]
    ensures UseCount(inUse, 256) <= 256 && AllIn(Identity(UseCount(inUse, 256)), Numbered(inUse, column))
  {
    hide UseCount;
    UseCountGrows(inUse, 0, 256);
    UseCountZero(inUse);
    var n, c := UseCount(inUse, 256), Numbered(inUse, column);
    forall k | 0 <= k < |c| ensures c[k] in Identity(n) {
      assert Identity(n)[c[k]] == c[k];
    }
  }

  lemma IdentityExtends(n: nat)
    requires 1 <= n <= 256
    ensures Extends(Identity(256), Identity(n))
  {
    assert Identity(256)[..n] == Identity(n);
  }

  /** Decoding the encoder's symbols for a column of at most 900000 bytes yields the column. */
  lemma ColumnRoundTrip(inUse: seq<bool>, u: seq<byte>, column: seq<byte>)
    requires |inUse| == 256 && column != [] && |column| <= 900000 && forall k | 0 <= k < |column| :: inUse[column[k]]
    requires |u| == 256 && UseCount(inUse, 256) <= 256 && u[..UseCount(inUse, 256)] == UsedBytes(inUse, 256)
    ensures var n := UseCount(inUse, 256);
            && n >= 1 && AllIn(Identity(n), Numbered(inUse, column))
            && var d := Decoded(Identity(256), Encoded(Identity(n), Numbered(inUse, column), 0, n + 1), n + 1, 0, 1);
               d.Some? && Unnumbered(u, d.value) == column
  {
    hide UseCount, Encoded, Decoded, Identity, UsedBytes;
    var n, c := UseCount(inUse, 256), Numbered(inUse, column);
    NumberedIn(inUse, column);
    assert c[0] < n;
    IdentityExtends(n);
    RoundTrip(Identity(256), Identity(n), c, 0);
    RepeatNone(Identity(256)[0], c);
    forall k | 0 <= k < |column| ensures u[c[k]] == column[k] {
      MapsUndo(inUse, column[k], 256);
      assert u[..n][c[k]] == u[c[k]];
    }
    assert Unnumbered(u, c) == column;
  }
}
