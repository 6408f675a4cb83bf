// The cyclic redundancy check of both directions, over whatever table of 256 words they share.
module Crc {
  import opened Common

  type Word = bv32

  type Table = t: seq<Word> | |t| == 256 witness seq(256, i => 0)

  const INITIAL: Word := 0xffff_ffff

  // BZ_UPDATE_CRC
  function Update(table: Table, crc: Word, c: Byte): Word {
    (crc << 8) ^ table[(((crc >> 24) as bv8) ^ (c as bv8)) as int]
  }

  function UpdateAll(table: Table, crc: Word, s: seq<Byte>): Word {
    if s == [] then crc else Update(table, UpdateAll(table, crc, s[..|s| - 1]), s[|s| - 1])
  }

  // BZ_FINALISE_CRC
  function Finalised(crc: Word): Word {
    !crc
  }

  // The number that goes into the stream.
  function Value(crc: Word): (n: nat)
    ensures n < 0x1_0000_0000
  {
    crc as int
  }

  // A block's check: BZ_INITIALISE_CRC, the bytes, BZ_FINALISE_CRC.
  function CheckOf(table: Table, s: seq<Byte>): Word {
    Finalised(UpdateAll(table, INITIAL, s))
  }

  // The checks of a stream's blocks, combined in order.
  function Combine(combined: Word, crc: Word): Word {
    ((combined << 1) | (combined >> 31)) ^ crc
  }

  lemma UpdateAppend(table: Table, crc: Word, s: seq<Byte>, c: Byte)
    ensures UpdateAll(table, crc, s + [c]) == Update(table, UpdateAll(table, crc, s), c)
  {
    assert (s + [c])[..|s|] == s;
  }

  lemma NothingChecked(table: Table, crc: Word)
    ensures UpdateAll(table, crc, []) == crc
  {
  }

  // In one go or in two, the check is the same.
  lemma {:induction false} UpdateConcat(table: Table, crc: Word, s: seq<Byte>, t: seq<Byte>)
    ensures UpdateAll(table, crc, s + t) == UpdateAll(table, UpdateAll(table, crc, s), t)
  {
    if t == [] {
      assert s + t == s;
    } else {
      UpdateConcat(table, crc, s, t[..|t| - 1]);
      assert (s + t)[..|s + t| - 1] == s + t[..|t| - 1];
    }
  }
}
