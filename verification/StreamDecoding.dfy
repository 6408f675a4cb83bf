// What a whole stream decodes to, block after block, and the theorem that it gives back what was compressed.
module StreamDecoding {
  import opened Common
  import opened Bits
  import opened BitIO
  import opened Crc
  import opened RunLength
  import R = Rotations
  import opened InverseBwt
  import opened Randomising
  import opened BlockFormat
  import opened DecodeMachine
  import opened CompressBlock
  import opened CompressStream
  import U = UnRunLength
  import RK = ReadBlock

  // More input is wanted, the stream is complete, or it is found wrong.
  datatype Decoded = Hungry | Done(out: seq<Byte>, left: seq<bool>) | Bad

  function Prepend(s: seq<Byte>, d: Decoded): Decoded {
    match d
    case Done(out, left) => Done(s + out, left)
    case _ => d
  }

  function AsBytes(col: seq<int>): (r: seq<Byte>)
    ensures |r| == |col| && forall i :: 0 <= i < |r| ==> r[i] == if 0 <= col[i] < 256 then col[i] else 0
  {
    seq(|col|, i requires 0 <= i < |col| => if 0 <= col[i] < 256 then col[i] else 0)
  }

  lemma {:induction false} RunShrinks(c: Core, bits: seq<bool>)
    ensures Run(c, bits).Ready? ==> |Run(c, bits).left| < |bits|
    decreases |bits|
  {
    var w := Width(c);
    if w > 0 && |bits| >= w {
      var o := Next(c, FromBits(bits[..w]));
      if o.More? {
        RunShrinks(o.c, bits[w..]);
      }
    }
  }

  // The block that is ready, walked through from its first rotation, its bits flipped back if it was randomised.
  ghost function BlockOf(c: Core): seq<Byte>
    requires 0 <= c.origPtr < |c.col|
  {
    U.Spelt(AsBytes(c.col), c.origPtr, c.randomised)
  }

  // A block that is ready is expanded and checked before the next is read.
  ghost function Decode(table: Table, c: Core, combined: Word, bits: seq<bool>): Decoded
    decreases |bits|, if c.state == BZ_X_OUTPUT then 1 else 0
  {
    if c.state == BZ_X_OUTPUT then
      if !(0 <= c.origPtr < |c.col|) then Bad
      else
        var crc := CheckOf(table, Content(BlockOf(c)));
        if !Whole(BlockOf(c)) || Value(crc) != c.storedBlockCRC then Bad
        else Prepend(Content(BlockOf(c)), Decode(table, c.(state := BZ_X_BLKHDR_1), Combine(combined, crc), bits))
    else
      RunShrinks(c, bits);
      match Run(c, bits)
      case Waiting(_, _) => Hungry
      case Ready(d, left) => Decode(table, d, combined, left)
      case Ended(d, left) => if Value(combined) == d.storedCombinedCRC then Done([], left) else Bad
      case Failed(_) => Bad
  }

  // ---- one block ----------------------------------------------------------

  // The decoder between blocks.
  ghost predicate Between(c: Core, blockSize100k: nat) {
    c.state == BZ_X_BLKHDR_1 && c.blockSize100k == blockSize100k && RK.Roomy(c)
  }

  lemma BytesAlready(l: seq<Byte>, col: seq<int>)
    requires col == l
    ensures AsBytes(col) == l
  {
  }

  // A finished block comes back out, and its check agrees.
  lemma BlockDecodes(table: Table, c: Core, combined: Word, f: Finished, rest: seq<bool>) returns (d: Core)
    requires 1 <= c.blockSize100k <= 9 && Between(c, c.blockSize100k) && Made(table, c.blockSize100k, f)
    ensures Sendable(f.payload) && Between(d, c.blockSize100k)
    ensures Decode(table, c, combined, BlockBits(f.payload) + rest)
            == Prepend(Content(f.block), Decode(table, d, Combine(combined, CheckOf(table, Content(f.block))), rest))
  {
    hide Run, Sendable, BlockBits, Content, Whole, Value, CheckOf, Combine, RK.DecodesTo, RK.Column, R.SortedRotations,
         U.Walked, LastColumn;
    var e, perm :| EncodesWith(f.payload, f.block, e, perm);
    var c1 := RK.BlockReads(c, f.payload, e, rest);
    PermBounds(f.block, perm);
    assert BlockOf(c1) == f.block by {
      BytesAlready(LastColumn(f.block, perm), c1.col);
      WalkedBack(f.block, perm, f.payload.origPtr);
    }
    d := c1.(state := BZ_X_BLKHDR_1);
  }

  lemma WalkedBack(b: seq<Byte>, perm: seq<int>, orig: nat)
    requires R.SortedRotations(b, perm) && orig < |b| && perm[orig] == 0
    ensures |LastColumn(b, perm)| == |b| && U.Walked(LastColumn(b, perm), orig) == b
  {
    InversionTheorem(b, perm, orig);
  }

  // A randomised block comes back too: the bits an old encoder flipped before it sorted are flipped back.
  lemma RandomisedBack(c: Core, b: seq<Byte>, perm: seq<int>)
    requires c.randomised && 0 <= c.origPtr < |b| && R.SortedRotations(Flipped(b), perm) && perm[c.origPtr] == 0
    requires |perm| == |b| && c.col == LastColumn(Flipped(b), perm)
    ensures |c.col| == |b| && BlockOf(c) == b
  {
    hide Flipped, U.Walked, LastColumn;
    BytesAlready(LastColumn(Flipped(b), perm), c.col);
    WalkedBack(Flipped(b), perm, c.origPtr);
    FlippedTwice(b);
  }

  // ---- the whole stream ---------------------------------------------------

  lemma PrependTwice(s: seq<Byte>, t: seq<Byte>, d: Decoded)
    ensures Prepend(s, Prepend(t, d)) == Prepend(s + t, d)
  {
    if d.Done? {
      assert s + (t + d.out) == s + t + d.out;
    }
  }

  lemma {:induction false} BlocksDecode(table: Table, c: Core, done: seq<Finished>, rest: seq<bool>) returns (d: Core)
    requires 1 <= c.blockSize100k <= 9 && Between(c, c.blockSize100k) && AllMade(table, c.blockSize100k, done)
    ensures AllSendable(done) && Between(d, c.blockSize100k)
    ensures Decode(table, c, 0, BlocksBits(done) + rest)
            == Prepend(Contents(done), Decode(table, d, Combined(table, done), rest))
    decreases |done|
  {
    hide Decode, Made, Sendable, BlockBits, Content, CheckOf, Combine, Value, Between;
    AllMadeSendable(table, c.blockSize100k, done);
    if done == [] {
      d := c;
      assert BlocksBits(done) + rest == rest;
      assert Prepend([], Decode(table, c, 0, rest)) == Decode(table, c, 0, rest) by {
        NothingPrepended(Decode(table, c, 0, rest));
      }
    } else {
      var m := |done| - 1;
      var f := done[m];
      assert BlocksBits(done) + rest == BlocksBits(done[..m]) + (BlockBits(f.payload) + rest);
      var d0 := BlocksDecode(table, c, done[..m], BlockBits(f.payload) + rest);
      assert d0.blockSize100k == c.blockSize100k by {
        SameSize(d0, c.blockSize100k);
      }
      d := BlockDecodes(table, d0, Combined(table, done[..m]), f, rest);
      PrependTwice(Contents(done[..m]), Content(f.block), Decode(table, d, Combined(table, done), rest));
    }
  }

  lemma NothingPrepended(d: Decoded)
    ensures Prepend([], d) == d
  {
  }

  lemma SameSize(c: Core, k: nat)
    requires Between(c, k)
    ensures c.blockSize100k == k
  {
  }

  // Where a decoder begins.
  ghost predicate Starting(c: Core) {
    c.state == BZ_X_MAGIC_1 && RK.Roomy(c)
  }

  lemma TrailerDecodes(table: Table, c: Core, k: nat, combined: Word, rest: seq<bool>)
    requires Between(c, k)
    ensures Decode(table, c, combined, StreamTrailer(Value(combined)) + rest) == Done([], rest)
  {
    hide Run, StreamTrailer, Value;
    RK.TrailerReads(c, Value(combined), rest);
  }

  lemma HeaderDecodes(table: Table, c: Core, k: nat, rest: seq<bool>)
    requires Starting(c) && 1 <= k <= 9
    ensures Decode(table, c, 0, StreamHeader(k) + rest)
            == Decode(table, c.(blockSize100k := k, state := BZ_X_BLKHDR_1), 0, rest)
    ensures Between(c.(blockSize100k := k, state := BZ_X_BLKHDR_1), k)
  {
    hide Run, StreamHeader, Value;
    RK.HeaderReads(c, k, rest);
  }

  // Whatever blocks the encoder made, their stream decodes to what they stand for, and both checks succeed.
  lemma StreamDecodes(table: Table, c: Core, k: nat, done: seq<Finished>, rest: seq<bool>)
    requires Starting(c) && 1 <= k <= 9 && AllMade(table, k, done)
    ensures AllSendable(done)
    ensures Decode(table, c, 0, StreamBits(k, done, true) + StreamTrailer(Value(Combined(table, done))) + rest)
            == Done(Contents(done), rest)
  {
    hide Decode, AllMade, BlocksBits, StreamHeader, StreamTrailer, Value, Combined, Contents, Between;
    AllMadeSendable(table, k, done);
    var trailer := StreamTrailer(Value(Combined(table, done)));
    assert StreamBits(k, done, true) + trailer + rest == StreamHeader(k) + (BlocksBits(done) + (trailer + rest));
    HeaderDecodes(table, c, k, BlocksBits(done) + (trailer + rest));
    var c1 := c.(blockSize100k := k, state := BZ_X_BLKHDR_1);
    var d := BlocksDecode(table, c1, done, trailer + rest);
    TrailerDecodes(table, d, k, Combined(table, done), rest);
    assert Contents(done) + [] == Contents(done);
  }

  // decode(encode(x)) == x: once bzCompress has returned BZ_STREAM_END, all it handed out decodes to all it took in.
  lemma DecodeEncode(s: EState, c: Core)
    requires s.Complete() && Starting(c)
    ensures var d := Decode(s.crcTable, c, 0, BytesBits(s.Emitted())); d.Done? && d.out == s.consumed && |d.left| < 8
  {
    hide Decode, AllMade, BlocksBits, Value, Combined, Contents, StreamTrailer, AllSendable;
    var bits := StreamBits(s.blockSize100k, s.done, s.started) + StreamTrailer(Value(s.combinedCRC));
    var pad: nat :| pad < 8 && BytesBits(s.Emitted()) == bits + Rep(false, pad);
    StreamDecodes(s.crcTable, c, s.blockSize100k, s.done, Rep(false, pad));
  }
}
