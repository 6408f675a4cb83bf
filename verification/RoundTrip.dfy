// Compressing and decompressing are inverse, however input and output of either are cut up.
module RoundTrip {
  import opened Common
  import opened BitIO
  import opened Crc
  import opened RunLength
  import opened DecodeMachine
  import opened DecodeInvariant
  import opened StreamDecoding
  import opened DecompressStream
  import opened UnRunLength
  import E = CompressStream

  // The decoder has been given the first part of what the encoder handed out.
  ghost predicate Fed(s: E.EState, d: DState)
    reads s, s.block, s.w, s.w.zbits, d
  {
    && s.Complete() && Starting(d.start) && d.crcTable == s.crcTable
    && |d.fed| <= |s.Emitted()| && d.fed == s.Emitted()[..|d.fed|]
  }

  lemma FedDecodes(s: E.EState, d: DState) returns (future: seq<bool>, left: seq<bool>)
    requires Fed(s, d)
    ensures Decode(d.crcTable, d.start, 0, BytesBits(d.fed) + future) == Done(s.consumed, left)
    ensures future == BytesBits(s.Emitted()[|d.fed|..])
  {
    hide Decode, BytesBits;
    DecodeEncode(s, d.start);
    future := BytesBits(s.Emitted()[|d.fed|..]);
    BytesBitsConcat(d.fed, s.Emitted()[|d.fed|..]);
    assert s.Emitted() == d.fed + s.Emitted()[|d.fed|..];
    left := Decode(d.crcTable, d.start, 0, BytesBits(s.Emitted())).left;
  }

  // No stream the encoder made is ever found wrong: no byte of it fails a test, and both checks agree.
  lemma NeverWrong(s: E.EState, d: DState)
    requires Fed(s, d)
    ensures !Wrong(d.crcTable, d.start, d.fed)
  {
    hide Decode, BytesBits;
    var future, left := FedDecodes(s, d);
  }

  // At the end of the stream, what was put out is what was compressed.
  lemma AllDelivered(s: E.EState, d: DState)
    requires Fed(s, d) && d.Valid() && d.state == BZ_X_IDLE
    ensures d.put + d.part == s.consumed
  {
    hide Decode, BytesBits;
    var future, left := FedDecodes(s, d);
    assert d.put + [] == d.put;
  }

  // What was put out is the beginning of what any stream that starts so decodes to; while a block is not finished,
  // more is to come.
  lemma BeginningOut(d: DState, rest: seq<Byte>)
    requires d.Valid() && Decode(d.crcTable, d.start, 0, BytesBits(d.fed + rest)).Done?
    ensures d.put + d.part <= Decode(d.crcTable, d.start, 0, BytesBits(d.fed + rest)).out
    ensures d.state == BZ_X_OUTPUT && (d.u.used != d.saveNblock + 1 || d.u.len != 0) ==>
              |d.put + d.part| < |Decode(d.crcTable, d.start, 0, BytesBits(d.fed + rest)).out|
  {
    hide Decode, BytesBits, Live, Spelt, DState.Output;
    var future := BytesBits(rest);
    BytesBitsConcat(d.fed, rest);
    if d.state == BZ_X_IDLE {
      assert d.put + [] == d.put;
    } else {
      assert After(d.crcTable, d.start, d.fed, d.put, d.Restored(), d.calculatedCombinedCRC, d.r.Unread(), future);
      if d.state == BZ_X_OUTPUT {
        BlockBeginning(d, d.r.Unread() + future);
      } else {
        assert d.put + [] == d.put;
      }
    }
  }

  // Before that, it is the beginning of what was compressed, whatever pieces came in and went out.
  lemma BeginningDelivered(s: E.EState, d: DState)
    requires Fed(s, d) && d.Valid()
    ensures d.put + d.part <= s.consumed
  {
    hide Decode, BytesBits, Live, Spelt, DState.Valid;
    var future, left := FedDecodes(s, d);
    BytesBitsConcat(d.fed, s.Emitted()[|d.fed|..]);
    BeginningOut(d, s.Emitted()[|d.fed|..]);
  }

  // What was put out of a block is the beginning of what it stands for.
  lemma BlockBeginning(d: DState, bits: seq<bool>)
    requires d.Output() && Decode(d.crcTable, d.Restored(), d.calculatedCombinedCRC, bits).Done?
    ensures d.part <= Decode(d.crcTable, d.Restored(), d.calculatedCombinedCRC, bits).out
    ensures d.u.used != d.saveNblock + 1 || d.u.len != 0 ==>
              |d.part| < |Decode(d.crcTable, d.Restored(), d.calculatedCombinedCRC, bits).out|
  {
    hide Decode, BlockOf, Spelt, Expanding, DState.Walking, UpdateAll, Whole, Content, AllBytes;
    BlockFirst(d.crcTable, d.Restored(), d.calculatedCombinedCRC, bits);
    ExpandingBegins(BlockOf(d.Restored()), d.u, d.part);
    if !Finished(BlockOf(d.Restored()), d.u) {
      MoreToCome(BlockOf(d.Restored()), d.u, d.part);
    }
    BlockLength(d);
  }

  lemma BlockLength(d: DState)
    requires d.Output()
    ensures ReadyForOutput(d.Restored()) && |BlockOf(d.Restored())| == d.saveNblock
  {
    d.OutputSize();
  }

  lemma BlockFirst(table: Table, c: Core, combined: Word, bits: seq<bool>)
    requires c.state == BZ_X_OUTPUT && 0 <= c.origPtr < |c.col| && Decode(table, c, combined, bits).Done?
    ensures Whole(BlockOf(c)) && Content(BlockOf(c)) <= Decode(table, c, combined, bits).out
  {
    hide BlockOf, Value, CheckOf, Combine, Run, Whole, Content;
  }

  lemma ExpandingBegins(b: seq<Byte>, u: Unpacking, part: seq<Byte>)
    requires Whole(b) && Expanding(b, u, part)
    ensures part <= Content(b)
  {
    hide Fresh, Whole, Expanded;
    ContentGrows(b, u.used - 1);
  }

  // While a block is not finished, more of it is still to come.
  lemma MoreToCome(b: seq<Byte>, u: Unpacking, part: seq<Byte>)
    requires Whole(b) && Expanding(b, u, part) && !Finished(b, u)
    ensures part <= Content(b) && |part| < |Content(b)|
  {
    hide Whole, Expanded;
    ExpandingBegins(b, u, part);
    if u.used <= |b| {
      RunBegins(b, u.used - 1);
      ContentGrows(b, u.used);
    } else {
      assert b[..|b|] == b;
    }
  }

  // A block's content begins with that of its beginning.
  lemma {:induction false} ContentGrows(b: seq<Byte>, i: nat)
    requires i <= |b|
    ensures Content(b[..i]) <= Content(b)
    decreases |b| - i
  {
    if i == |b| {
      assert b[..i] == b;
    } else {
      assert b[..i + 1][..i] == b[..i];
      ContentGrows(b, i + 1);
    }
  }

  // Given the whole stream and room, the decoder gets to its end: it never waits for more.
  lemma NeverStuck(s: E.EState, d: DState)
    requires Fed(s, d) && d.Valid() && d.fed == s.Emitted() && d.state != BZ_X_IDLE && d.state != BZ_X_OUTPUT
    ensures !d.Waiting()
  {
    hide Decode, BytesBits, Live;
    var future, left := FedDecodes(s, d);
    if d.Waiting() {
      assert s.Emitted()[|d.fed|..] == [];
      NothingMore(s.Emitted()[|d.fed|..]);
      assert After(d.crcTable, d.start, d.fed, d.put, d.Restored(), d.calculatedCombinedCRC, d.r.Unread(), future);
      assert d.r.Unread() + future == d.r.Unread();
      WaitingDecodes(d.crcTable, d.Restored(), d.calculatedCombinedCRC, d.r.Unread());
    }
  }

  // Waiting with the whole of a stream read: it is cut off.
  lemma CutShort(d: DState)
    requires d.Valid() && d.state != BZ_X_IDLE && d.state != BZ_X_OUTPUT && d.Waiting()
    ensures Decode(d.crcTable, d.start, 0, BytesBits(d.fed)) == Hungry
  {
    hide Decode, BytesBits, Live;
    assert After(d.crcTable, d.start, d.fed, d.put, d.Restored(), d.calculatedCombinedCRC, d.r.Unread(), []);
    assert d.r.Unread() + [] == d.r.Unread() && BytesBits(d.fed) + [] == BytesBits(d.fed);
    WaitingDecodes(d.crcTable, d.Restored(), d.calculatedCombinedCRC, d.r.Unread());
  }

  lemma NothingMore(s: seq<Byte>)
    requires s == []
    ensures BytesBits(s) == []
  {
  }

  lemma WaitingDecodes(table: Table, c: Core, combined: Word, bits: seq<bool>)
    requires Live(c) && |bits| < Width(c)
    ensures Decode(table, c, combined, bits) == Hungry
  {
    hide Next, Sized, LensChecked;
  }
}
