/** inflate_fast's copying of matches: from a circular window, from the output, or from both. */
module InflateWindow {
  import opened Bytes
  import opened Lz77Symbols

  lemma {:induction false} CopyBackMore(h: seq<byte>, dist: nat, a: nat, b: nat)
    requires 1 <= dist <= |h|
    ensures CopyBack(CopyBack(h, dist, a), dist, b) == CopyBack(h, dist, a + b)
    decreases a
  {
    if a > 0 {
      CopyBackMore(h + [h[|h| - dist]], dist, a - 1, b);
    }
  }

  lemma CopyBackOne(h: seq<byte>, dist: nat)
    requires 1 <= dist <= |h|
    ensures CopyBack(h, dist, 0) == h && CopyBack(h, dist, 1) == h + [h[|h| - dist]]
  {
  }

  /** What a window of which `have` bytes are in use, written next at `next`, holds: the oldest byte first. */
  function InOrder(w: seq<byte>, have: nat, next: nat): (h: seq<byte>)
    requires next <= |w| && have <= |w|
    ensures |h| == have
  {
    (w[next..] + w[..next])[|w| - have..]
  }

  lemma InOrderPiece(w: seq<byte>, have: nat, next: nat, a: nat, n: nat)
    requires next <= |w| && have <= |w| && a + n <= have
    ensures InOrder(w, have, next)[a..a + n] == (w[next..] + w[..next])[|w| - have + a..|w| - have + a + n]
  {
  }

  lemma PieceOfFirst(a: seq<byte>, b: seq<byte>, i: nat, n: nat)
    requires i + n <= |a|
    ensures (a + b)[i..i + n] == a[i..i + n]
  {
  }

  lemma PieceOfSecond(a: seq<byte>, b: seq<byte>, i: nat, n: nat)
    requires |a| <= i && i + n <= |a| + |b|
    ensures (a + b)[i..i + n] == b[i - |a|..i - |a| + n]
  {
  }

  lemma PieceOfFront(w: seq<byte>, next: nat, i: nat, n: nat)
    requires i + n <= next <= |w|
    ensures w[..next][i..i + n] == w[i..i + n]
  {
  }

  lemma PieceOfBack(w: seq<byte>, next: nat, i: nat, n: nat)
    requires next + i + n <= |w|
    ensures w[next..][i..i + n] == w[next + i..next + i + n]
  {
  }

  /** Where the bytes `op` before the end of the history in the window are found, `n` of them in one piece. */
  lemma PieceOfWindow(w: seq<byte>, have: nat, next: nat, op: nat, from: nat, n: nat)
    requires next <= have <= |w| && (have == |w| || have == next) && 1 <= op <= have && n <= op
      && (next < |w| || |w| == 0)
    requires if next == 0 then from == |w| - op else if next < op then from == |w| + next - op
      && n <= op - next else from == next - op
    ensures from + n <= |w| && InOrder(w, have, next)[have - op..have - op + n] == w[from..from + n]
  {
    hide InOrder;
    InOrderPiece(w, have, next, have - op, n);
    if op <= next {
      PieceOfSecond(w[next..], w[..next], |w| - op, n);
      PieceOfFront(w, next, next - op, n);
    } else {
      PieceOfFirst(w[next..], w[..next], |w| - op, n);
      PieceOfBack(w, next, |w| - op, n);
    }
  }

  lemma PrefixOfPiece(s: seq<byte>, i: nat, n: nat, m: nat)
    requires m <= n && i + n <= |s|
    ensures s[i..i + m] == s[i..i + n][..m]
  {
  }

  /** The piece to copy from, and the history, one byte later. */
  lemma PieceMoves(h: seq<byte>, dist: nat, n: nat, c: byte, piece: seq<byte>)
    requires 1 <= n <= dist <= |h| && piece == h[|h| - dist..|h| - dist + n]
    ensures piece[1..] == (h + [c])[|h| + 1 - dist..|h| + 1 - dist + (n - 1)]
  {
  }

  /** The output of an inflate call and the window that holds what came before it. */
  class Output {
    const out: array<byte>
    const beg: nat
    const window: array<byte>
    const whave: nat
    const wnext: nat
    var outPos: nat

    /**
     * The window is written round and round; `wnext` is where it would be written next, `whave` bytes of it are in use.
     */
    ghost predicate Shape() {
      out != window && (whave == window.Length || whave == wnext) && wnext <= whave <= window.Length
        && (wnext < window.Length || window.Length == 0)
    }

    ghost predicate Valid()
      reads `outPos
    {
      Shape() && beg <= outPos <= out.Length
    }

    /** `position` is where to write next; what this call wrote already starts at `start`. */
    constructor (o: array<byte>, start: nat, position: nat, w: array<byte>, have: nat, next: nat)
      requires start <= position <= o.Length && o != w && (have == w.Length || have == next)
        && next <= have <= w.Length && (next < w.Length || w.Length == 0)
      ensures Valid() && out == o && beg == start && outPos == position && window == w && whave == have && wnext == next
    {
      out, beg, outPos, window, whave, wnext := o, start, position, w, have, next;
    }

    ghost function WindowHistory(): (h: seq<byte>)
      requires Shape()
      reads window
      ensures |h| == whave
    {
      InOrder(window[..], whave, wnext)
    }

    /** All bytes that a match can reach back to: those in the window, then those of this call. */
    ghost function History(): (h: seq<byte>)
      requires Valid()
      reads `outPos, out, window
      ensures |h| == whave + (outPos - beg)
    {
      WindowHistory() + out[beg..outPos]
    }

    lemma Accounts()
      requires Valid()
      ensures beg <= outPos <= out.Length && |History()| == whave + (outPos - beg)
    {
      hide History;
    }

    /** The next `n` bytes of a match from `dist` back are found at `from`: in the window, or in the output. */
    ghost predicate Pointing(inWindow: bool, from: int, dist: nat, n: nat)
      requires Valid()
      reads `outPos, out, window
    {
      && 1 <= dist <= |History()|
      && if inWindow then
           0 <= from && from + n <= window.Length && n <= dist
             && window[from..from + n] == History()[|History()| - dist..|History()| - dist + n]
         else from == outPos - dist && dist <= outPos - beg
    }

    /** A literal, or one byte of a match. */
    method Append(c: byte)
      requires Valid() && outPos < out.Length
      modifies `outPos, out
      ensures Valid() && outPos == old(outPos) + 1 && History() == old(History()) + [c]
        && out[..old(outPos)] == old(out[..outPos])
      ensures WindowHistory() == old(WindowHistory()) && window[..] == old(window[..])
    {
      hide InOrder;
      ghost var h, w := History(), window[..];
      out[outPos] := c;
      outPos := outPos + 1;
      assert window[..] == w;
      assert out[beg..outPos] == out[beg..outPos - 1] + [c];
      assert History() == h + [c];
    }

    /** The byte pointed at is the one `dist` back. */
    lemma PointedByte(inWindow: bool, from: int, dist: nat, n: nat)
      requires Valid() && n >= 1 && Pointing(inWindow, from, dist, n)
      ensures beg <= outPos && 1 <= dist <= |History()|
      ensures inWindow ==>
        0 <= from && from + n <= window.Length && n <= dist
        && window[from..from + n] == History()[|History()| - dist..|History()| - dist + n]
        && window[from] == History()[|History()| - dist]
      ensures !inWindow ==>
        0 <= from < outPos && from == outPos - dist && dist <= outPos - beg
        && out[from] == History()[|History()| - dist]
    {
      hide WindowHistory, InOrder;
      if inWindow {
        assert window[from] == window[from..from + n][0];
        assert History()[|History()| - dist] == History()[|History()| - dist..|History()| - dist + n][0];
      }
    }

    /** After the byte at `from` has been copied, the ones behind it come next. */
    lemma PointingOn(inWindow: bool, from: int, dist: nat, n: nat, h: seq<byte>, c: byte, piece: seq<byte>)
      requires Valid() && History() == h + [c] && 1 <= dist <= |h| && n >= 1
      requires if inWindow then
          0 <= from && from + n <= window.Length && n <= dist && window[from..from + n] == piece
          && piece == h[|h| - dist..|h| - dist + n]
        else from == outPos - 1 - dist && dist <= outPos - 1 - beg
      ensures Pointing(inWindow, from + 1, dist, n - 1)
    {
      hide WindowHistory, InOrder, History;
      if inWindow {
        PieceMoves(h, dist, n, c, piece);
        assert window[from + 1..from + n] == piece[1..];
      }
    }

    /** One byte of a copy. */
    method Step(inWindow: bool, from: int, dist: nat, ghost n: nat) returns (next: int)
      requires Valid() && outPos < out.Length && n >= 1 && Pointing(inWindow, from, dist, n)
      modifies `outPos, out
      ensures Valid() && outPos == old(outPos) + 1 && next == from + 1 && Pointing(inWindow, next, dist, n - 1)
      ensures History() == CopyBack(old(History()), dist, 1) && WindowHistory() == old(WindowHistory())
      ensures out[..old(outPos)] == old(out[..outPos])
    {
      hide WindowHistory, InOrder, History, Pointing;
      ghost var h := History();
      PointedByte(inWindow, from, dist, n);
      CopyBackOne(h, dist);
      ghost var piece := if inWindow then window[from..from + n] else [];
      var c := if inWindow then window[from] else out[from];
      Append(c);
      next := from + 1;
      PointingOn(inWindow, from, dist, n, h, c, piece);
    }

    lemma PointingBack(inWindow: bool, from: int, dist: nat, n: nat)
      requires Valid() && Pointing(inWindow, from, dist, n)
      ensures 1 <= dist <= |History()|
    {
    }

    /** `n` bytes, one at a time. */
    method Copy(inWindow: bool, from: int, dist: nat, n: nat, ghost m: nat) returns (next: int)
      requires Valid() && outPos + n <= out.Length && n <= m && Pointing(inWindow, from, dist, m)
      modifies `outPos, out
      ensures Valid() && outPos == old(outPos) + n && next == from + n && Pointing(inWindow, next, dist, m - n)
      ensures History() == CopyBack(old(History()), dist, n) && WindowHistory() == old(WindowHistory())
      ensures out[..old(outPos)] == old(out[..outPos])
    {
      hide CopyBack, Pointing, History, WindowHistory, InOrder;
      ghost var h := History();
      PointingBack(inWindow, from, dist, m);
      CopyBackOne(h, dist);
      next := from;
      for i := 0 to n
        invariant Valid() && outPos == old(outPos) + i && next == from + i && Pointing(inWindow, next, dist, m - i)
        invariant History() == CopyBack(h, dist, i) && WindowHistory() == old(WindowHistory())
          && out[..old(outPos)] == old(out[..outPos])
      {
        CopyBackMore(h, dist, i, 1);
        ghost var was := out[..outPos];
        next := Step(inWindow, next, dist, m - i);
        assert out[..old(outPos)] == was[..old(outPos)];
      }
    }

    /** The rest of a match: three bytes at a time, then one or two. */
    method CopyRest(inWindow: bool, from0: int, dist: nat, len0: nat)
      requires Valid() && outPos + len0 <= out.Length && Pointing(inWindow, from0, dist, len0)
      modifies `outPos, out
      ensures Valid() && outPos == old(outPos) + len0
      ensures History() == CopyBack(old(History()), dist, len0) && out[..old(outPos)] == old(out[..outPos])
    {
      hide CopyBack, Pointing, History, WindowHistory, InOrder;
      ghost var h := History();
      PointingBack(inWindow, from0, dist, len0);
      CopyBackOne(h, dist);
      var from, len: nat := from0, len0;
      while len > 2
        invariant Valid() && len <= len0 && outPos == old(outPos) + (len0 - len) && Pointing(inWindow, from, dist, len)
        invariant History() == CopyBack(h, dist, len0 - len) && out[..old(outPos)] == old(out[..outPos])
        decreases len
      {
        CopyBackMore(h, dist, len0 - len, 3);
        ghost var was := out[..outPos];
        from := Copy(inWindow, from, dist, 3, len);
        assert out[..old(outPos)] == was[..old(outPos)];
        len := len - 3;
      }
      CopyBackMore(h, dist, len0 - len, len);
      ghost var was := out[..outPos];
      if len > 0 {
        from := Copy(inWindow, from, dist, if len > 1 then 2 else 1, len);
      } else {
        CopyBackOne(History(), dist);
      }
      assert out[..old(outPos)] == was[..old(outPos)];
    }

    lemma PointsToOutput(dist: nat, n: nat)
      requires Valid() && 1 <= dist <= outPos - beg
      ensures Pointing(false, outPos - dist, dist, n)
    {
    }

    /** The bytes of the window that a match from `dist` back begins with; `op` of them lie in the window. */
    lemma PointsToWindow(dist: nat, op: nat, from: nat, n: nat)
      requires Valid() && dist == outPos - beg + op && 1 <= op <= whave && n <= op && n <= window.Length
      requires if wnext == 0 then from == window.Length - op
               else if wnext < op then from == window.Length + wnext - op && n <= op - wnext
               else from == wnext - op
      ensures Pointing(true, from, dist, n)
    {
      hide InOrder;
      PieceOfWindow(window[..], whave, wnext, op, from, n);
      PieceOfFirst(WindowHistory(), out[beg..outPos], whave - op, n);
      assert |History()| - dist == whave - op;
      assert window[..][from..from + n] == window[from..from + n];
    }

    /** After the end of the window comes its start. */
    lemma PointsToStart(dist: nat, op: nat, n: nat)
      requires Valid() && dist == outPos - beg + op && 1 <= op <= wnext <= whave && n <= op && op == wnext
      ensures Pointing(true, 0, dist, n)
    {
      PointsToWindow(dist, op, 0, n);
    }

    lemma PointingFewer(from: nat, dist: nat, n: nat, m: nat)
      requires Valid() && m <= n && Pointing(true, from, dist, n)
      ensures Pointing(true, from, dist, m)
    {
      hide History;
      PrefixOfPiece(window[..], from, n, m);
      PrefixOfPiece(History(), |History()| - dist, n, m);
      assert window[..][from..from + n] == window[from..from + n]
        && window[..][from..from + m] == window[from..from + m];
    }

    /** Bytes from the window, and if the match is longer, the rest from the output. */
    method CopySplit(from: nat, dist: nat, op: nat, len: nat)
      requires Valid() && 1 <= op && outPos + len <= out.Length && dist == outPos - beg + op && op <= |History()|
        && op <= whave
      requires Pointing(true, from, dist, op)
      modifies `outPos, out
      ensures Valid() && outPos == old(outPos) + len
      ensures History() == CopyBack(old(History()), dist, len) && out[..old(outPos)] == old(out[..outPos])
    {
      hide CopyBack, Pointing, History, WindowHistory, InOrder;
      ghost var h := History();
      PointingBack(true, from, dist, op);
      if op < len {
        CopyBackMore(h, dist, op, len - op);
        var _ := Copy(true, from, dist, op, op);
        PointsToOutput(dist, len - op);
        ghost var was := out[..outPos];
        CopyRest(false, outPos - dist, dist, len - op);
        assert out[..old(outPos)] == was[..old(outPos)];
      } else {
        PointingFewer(from, dist, op, len);
        CopyRest(true, from, dist, len);
      }
    }

    /**
     * A match of `len` bytes from `dist` back. Whether it lies in the output, in one piece of the window, or wraps
     * around the end of the window, it appends what lies `dist` back in the history; if it reaches too far back,
     * nothing happens.
     */
    method CopyMatch(dist: nat, len: nat) returns (ok: bool)
      requires Valid() && dist >= 1 && len >= MIN_MATCH && outPos + len <= out.Length
      modifies `outPos, out
      ensures Valid() && (ok <==> dist <= |old(History())|)
      ensures ok ==> outPos == old(outPos) + len && History() == CopyBack(old(History()), dist, len)
      ensures !ok ==> outPos == old(outPos) && History() == old(History())
      ensures out[..old(outPos)] == old(out[..outPos])
    {
      hide CopyBack, Pointing, WindowHistory, InOrder, History;
      ghost var h := History();
      var op := outPos - beg;
      if dist <= op {
        PointsToOutput(dist, len);
        CopyRest(false, outPos - dist, dist, len);
        return true;
      }
      op := dist - op;
      if op > whave { return false; }
      ok := true;
      if wnext == 0 {
        PointsToWindow(dist, op, window.Length - op, op);
        CopySplit(window.Length - op, dist, op, len);
      } else if wnext < op {
        var from := window.Length + wnext - op;
        var n := op - wnext;
        PointsToWindow(dist, op, from, n);
        if n < len {
          CopyBackMore(h, dist, n, len - n);
          var _ := Copy(true, from, dist, n, n);
          PointsToStart(dist, wnext, wnext);
          ghost var was := out[..outPos];
          CopySplit(0, dist, wnext, len - n);
          assert out[..old(outPos)] == was[..old(outPos)];
        } else {
          PointingFewer(from, dist, n, len);
          CopyRest(true, from, dist, len);
        }
      } else {
        PointsToWindow(dist, op, wnext - op, op);
        CopySplit(wnext - op, dist, op, len);
      }
    }
  }
}
