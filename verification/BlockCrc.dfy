/** The block check: a table-driven CRC, the most significant octet first, and its combination over blocks. */
module BlockCrc {
  import opened Bytes

  type Table = t: seq<bv32> | |t| == 256 witness seq(256, _ => 0)

  /** Which entry of the table a byte selects. */
  function Index(crc: bv32, ch: byte): bv8 {
    ((crc >> 24) as bv8) ^ (ch as bv8)
  }

  /** `BZ_UPDATE_CRC`. */
  function Update(t: Table, crc: bv32, ch: byte): bv32 {
    (crc << 8) ^ t[Index(crc, ch) as int]
  }

  function Fold(t: Table, crc: bv32, text: seq<byte>): bv32 {
    if text == [] then crc else Update(t, Fold(t, crc, text[..|text| - 1]), text[|text| - 1])
  }

  function Finalise(crc: bv32): bv32 {
    !crc
  }

  const INITIAL: bv32 := 0xffff_ffff

  /** The check of a block is that of the text it stands for. */
  function CheckOf(t: Table, text: seq<byte>): bv32 {
    Finalise(Fold(t, INITIAL, text))
  }

  /** The combined check after one more block. */
  function Combine(combined: bv32, crc: bv32): bv32 {
    ((combined << 1) | (combined >> 31)) ^ crc
  }

  /** A check as the number that is stored in the stream. */
  function Stored(crc: bv32): (n: nat)
    ensures n < 0x1_0000_0000
  {
    crc as nat
  }

  lemma FoldNext(t: Table, crc: bv32, text: seq<byte>, ch: byte)
    ensures Fold(t, crc, text + [ch]) == Update(t, Fold(t, crc, text), ch)
  {
    hide Update;
    assert (text + [ch])[..|text|] == text;
  }
}
