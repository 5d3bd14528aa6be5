/** Compressing and decompressing with the library, end to end. */
module Bzip2 {
  import opened Bytes
  import opened CanonicalCode
  import opened BitStream
  import opened BlockFormat
  import opened BlockReader
  import opened BlockCrc
  import opened StreamFormat
  import opened RunEncoder
  import opened StreamReader
  import opened StreamCodec

  /** A sequence of bytes cut into chunks of given sizes; what is left over makes up the last one. */
  function Chunks(s: seq<byte>, sizes: seq<nat>): (c: seq<seq<byte>>)
    ensures AllBytes(c) == s
    decreases |sizes|
  {
    if sizes == [] then
      assert AllBytes([s]) == s + AllBytes([]) == s;
      [s]
    else
      var n := if sizes[0] <= |s| then sizes[0] else |s|;
      var rest := Chunks(s[n..], sizes[1..]);
      assert ([s[..n]] + rest)[1..] == rest;
      [s[..n]] + rest
  }

  lemma DoneIs(p: Parsed<seq<byte>>, r: Read<seq<byte>>, rest: seq<bit>)
    requires Agrees(p, r, rest) && p.Ok?
    ensures r == Done(p.value)
  {
  }

  lemma StreamIs(bytes: seq<byte>, t: Table, k: nat, parts: seq<Part>, blocks: seq<Block>, combined: bv32)
      returns (pad: seq<bit>)
    requires 1 <= k <= 9 && Stands(parts, blocks) && PartsOk(parts)
      && (forall j | 0 <= j < |blocks| :: Sound(t, k, blocks[j]))
    requires combined == CombinedOf(blocks) && IsStream(bytes, k, parts, combined)
    ensures |pad| < 8 && Is(BytesToBits(bytes), t, k, parts, blocks, pad)
  {
    hide StreamBits, Stands, PartsOk, Sound, CombinedOf, BytesToBits;
    pad :| |pad| < 8 && BytesToBits(bytes) == StreamBits(k, parts, combined) + pad;
  }

  /**
   * Whatever the input, the block size and the work factor, however the input is cut into calls, whichever of them
   * flush or finish and whatever room they find: once the caller repeats its last request until the stream has ended,
   * which it will, the decompressor, in its FAST and in its SMALL form and under any cutting of the compressed bytes,
   * puts out the input that was accepted.
   */
  method RoundTrip(t: Table, k: nat, factor: nat, calls: seq<Call>, sizes: seq<nat>, small: bool)
      returns (accepted: seq<bool>, r: Read<seq<byte>>, out: seq<byte>)
    requires 1 <= k <= 9 && factor <= 250
    ensures |accepted| == |calls| && forall i | 0 <= i < |calls| && Plainly(calls, i) :: accepted[i]
    ensures r == Done(out) && out == Given(calls, accepted)
  {
    hide *;
    var s;
    s, accepted := Session(t, k, factor, calls);
    Complete(s);
    s.Ended();
    s.Promise();
    var src := new Source(Chunks(s.out, sizes));
    ghost var pad := StreamIs(s.out, t, k, s.parts, s.done, s.combinedCrc);
    StreamRead(src.Rest(), t, k, s.parts, s.done, pad);
    ghost var read := StreamText(src.Rest(), t);
    r, out := Decompress(src, t, small);
    DoneIs(read, r, src.Rest());
  }
}
