/** Literals and matches, and the bytes they stand for (section 3.2.5 of RFC 1951, at the level of symbols). */
module Lz77Symbols {
  import opened Bytes

  const MIN_MATCH := 3
  const MAX_MATCH := 258

  datatype Symbol = Literal(b: byte) | Match(dist: nat, len: nat)

  /** Append `len` bytes, each a copy of the byte `dist` places before it. */
  function CopyBack(out: seq<byte>, dist: nat, len: nat): (r: seq<byte>)
    requires 1 <= dist <= |out|
    ensures |r| == |out| + len
    decreases len
  {
    if len == 0 then out else CopyBack(out + [out[|out| - dist]], dist, len - 1)
  }

  function Expand(syms: seq<Symbol>): seq<byte>
    requires WellFormed(syms)
    decreases |syms|, 1
  {
    if syms == [] then []
    else
      var n := |syms| - 1;
      var out := Expand(syms[..n]);
      match syms[n]
      case Literal(b) => out + [b]
      case Match(dist, len) => CopyBack(out, dist, len)
  }

  /** The symbols can be expanded: every match reaches back into bytes already produced. */
  predicate WellFormed(syms: seq<Symbol>)
    decreases |syms|, 0
  {
    syms == [] ||
    var n := |syms| - 1;
    WellFormed(syms[..n]) &&
    (syms[n].Match? ==> 1 <= syms[n].dist <= |Expand(syms[..n])|)
  }

  /** What the format allows: lengths 3..258 and distances no longer than `maxDist`. */
  predicate Legal(syms: seq<Symbol>, maxDist: int) {
    forall k | 0 <= k < |syms| && syms[k].Match? ::
      MIN_MATCH <= syms[k].len <= MAX_MATCH && 1 <= syms[k].dist <= maxDist
  }

  /** The `len` bytes at `pos` repeat those `dist` before them. */
  ghost predicate Repeats(input: seq<byte>, pos: nat, dist: int, len: nat) {
    && 1 <= dist <= pos && pos + len <= |input|
    && forall a | pos <= a < pos + len :: input[a] == input[a - dist]
  }

  lemma {:induction false} CopyExtends(out: seq<byte>, dist: nat, len: nat)
    requires 1 <= dist <= |out|
    ensures out <= CopyBack(out, dist, len)
    decreases len
  {
    if len > 0 { CopyExtends(out + [out[|out| - dist]], dist, len - 1); }
  }

  /** Copying from a distance extends a string as it goes on exactly where it repeats itself at that distance. */
  lemma {:induction false} CopyRepeats(input: seq<byte>, pos: nat, dist: nat, len: nat)
    requires 1 <= dist <= pos && pos + len <= |input|
    ensures CopyBack(input[..pos], dist, len) == input[..pos + len] <==> Repeats(input, pos, dist, len)
    decreases len
  {
    if len > 0 {
      var out := input[..pos];
      var more := out + [out[pos - dist]];
      if input[pos] == input[pos - dist] {
        assert more == input[..pos + 1];
        CopyRepeats(input, pos + 1, dist, len - 1);
      } else {
        CopyExtends(more, dist, len - 1);
        assert more[pos] != input[..pos + len][pos];
      }
    }
  }

  /** The symbols are legal and stand for exactly the first `pos` bytes of the input. */
  ghost predicate Spells(syms: seq<Symbol>, input: seq<byte>, pos: nat, maxDist: int) {
    pos <= |input| && WellFormed(syms) && Legal(syms, maxDist) && Expand(syms) == input[..pos]
  }

  lemma SpellsLiteral(syms: seq<Symbol>, input: seq<byte>, pos: nat, maxDist: int)
    requires Spells(syms, input, pos, maxDist) && pos < |input|
    ensures Spells(syms + [Literal(input[pos])], input, pos + 1, maxDist)
  {
    var s := syms + [Literal(input[pos])];
    assert s[..|syms|] == syms;
  }

  lemma SpellsMatch(syms: seq<Symbol>, input: seq<byte>, pos: nat, dist: nat, len: nat, maxDist: int)
    requires Spells(syms, input, pos, maxDist) && Repeats(input, pos, dist, len)
    requires MIN_MATCH <= len <= MAX_MATCH && dist <= maxDist
    ensures Spells(syms + [Match(dist, len)], input, pos + len, maxDist)
  {
    var s := syms + [Match(dist, len)];
    assert s[..|syms|] == syms;
    CopyRepeats(input, pos, dist, len);
  }

  /** Later input changes nothing that has been said. */
  lemma SpellsMore(syms: seq<Symbol>, input: seq<byte>, more: seq<byte>, pos: nat, maxDist: int)
    requires Spells(syms, input, pos, maxDist)
    ensures Spells(syms, input + more, pos, maxDist)
  {
    assert (input + more)[..pos] == input[..pos];
  }

  // ----- restarting -----

  /** A point where expansion can start afresh: the symbols and the bytes before it. */
  datatype Point = Point(mark: nat, origin: nat)

  /** The symbols from the point on are legal by themselves, and stand for the bytes from there to `pos`. */
  ghost predicate Since(syms: seq<Symbol>, p: Point, input: seq<byte>, pos: nat, maxDist: int) {
    p.mark <= |syms| && p.origin <= pos <= |input| && Spells(syms[p.mark..], input[p.origin..], pos - p.origin, maxDist)
  }

  /** The first point is the beginning. */
  ghost predicate Tells(syms: seq<Symbol>, points: seq<Point>, input: seq<byte>, pos: nat, maxDist: int) {
    && points != [] && points[0] == Point(0, 0)
    && forall k | 0 <= k < |points| :: Since(syms, points[k], input, pos, maxDist)
  }

  /** No point lies behind position `x`. */
  ghost predicate Before(points: seq<Point>, x: int) {
    forall k | 0 <= k < |points| :: points[k].origin <= x
  }

  lemma TellsSpells(syms: seq<Symbol>, points: seq<Point>, input: seq<byte>, pos: nat, maxDist: int)
    requires Tells(syms, points, input, pos, maxDist)
    ensures Spells(syms, input, pos, maxDist)
  {
    hide Spells;
    assert Since(syms, points[0], input, pos, maxDist);
    assert syms[0..] == syms && input[0..] == input;
  }

  lemma TellsLiteral(syms: seq<Symbol>, points: seq<Point>, input: seq<byte>, pos: nat, maxDist: int)
    requires Tells(syms, points, input, pos, maxDist) && pos < |input|
    ensures Tells(syms + [Literal(input[pos])], points, input, pos + 1, maxDist)
  {
    hide Spells;
    var s := syms + [Literal(input[pos])];
    forall k | 0 <= k < |points| ensures Since(s, points[k], input, pos + 1, maxDist) {
      var p := points[k];
      assert Since(syms, p, input, pos, maxDist);
      SpellsLiteral(syms[p.mark..], input[p.origin..], pos - p.origin, maxDist);
      assert s[p.mark..] == syms[p.mark..] + [Literal(input[p.origin..][pos - p.origin])];
    }
  }

  lemma RepeatsFrom(input: seq<byte>, origin: nat, pos: nat, dist: nat, len: nat)
    requires Repeats(input, pos, dist, len) && origin <= pos - dist
    ensures Repeats(input[origin..], pos - origin, dist, len)
  {
    forall a | pos - origin <= a < pos - origin + len ensures input[origin..][a] == input[origin..][a - dist] {
      assert input[origin + a] == input[origin + a - dist];
    }
  }

  lemma TellsMatch(syms: seq<Symbol>, points: seq<Point>, input: seq<byte>, pos: nat, dist: nat, len: nat, maxDist: int)
    requires Tells(syms, points, input, pos, maxDist) && Repeats(input, pos, dist, len) && Before(points, pos - dist)
    requires MIN_MATCH <= len <= MAX_MATCH && dist <= maxDist
    ensures Tells(syms + [Match(dist, len)], points, input, pos + len, maxDist)
  {
    hide Spells;
    var s := syms + [Match(dist, len)];
    forall k | 0 <= k < |points| ensures Since(s, points[k], input, pos + len, maxDist) {
      var p := points[k];
      assert Since(syms, p, input, pos, maxDist);
      RepeatsFrom(input, p.origin, pos, dist, len);
      SpellsMatch(syms[p.mark..], input[p.origin..], pos - p.origin, dist, len, maxDist);
      assert s[p.mark..] == syms[p.mark..] + [Match(dist, len)];
    }
  }

  /** Later input changes nothing that has been said. */
  lemma TellsMore(syms: seq<Symbol>, points: seq<Point>, input: seq<byte>, more: seq<byte>, pos: nat, maxDist: int)
    requires Tells(syms, points, input, pos, maxDist)
    ensures Tells(syms, points, input + more, pos, maxDist)
  {
    hide Spells;
    forall k | 0 <= k < |points| ensures Since(syms, points[k], input + more, pos, maxDist) {
      var p := points[k];
      assert Since(syms, p, input, pos, maxDist);
      SpellsMore(syms[p.mark..], input[p.origin..], more, pos - p.origin, maxDist);
      assert (input + more)[p.origin..] == input[p.origin..] + more;
    }
  }

  lemma HereSince(syms: seq<Symbol>, input: seq<byte>, pos: nat, maxDist: int)
    requires pos <= |input|
    ensures Since(syms, Point(|syms|, pos), input, pos, maxDist)
  {
    assert syms[|syms|..] == [] && input[pos..][..0] == [];
  }

  /** Where the symbols have got to, expansion can be started afresh. */
  lemma TellsPoint(syms: seq<Symbol>, points: seq<Point>, input: seq<byte>, pos: nat, maxDist: int)
    requires Tells(syms, points, input, pos, maxDist)
    ensures Tells(syms, points + [Point(|syms|, pos)], input, pos, maxDist)
  {
    hide Spells;
    assert Since(syms, points[0], input, pos, maxDist);
    var p := Point(|syms|, pos);
    HereSince(syms, input, pos, maxDist);
    forall k | 0 <= k < |points + [p]| ensures Since(syms, (points + [p])[k], input, pos, maxDist) {
      if k < |points| { assert Since(syms, points[k], input, pos, maxDist); }
    }
  }

  lemma TellsNothing(input: seq<byte>, maxDist: int)
    ensures Tells([], [Point(0, 0)], input, 0, maxDist)
  {
    var syms: seq<Symbol> := [];
    assert syms[0..] == [] && input[0..] == input && input[..0] == [];
  }
}
