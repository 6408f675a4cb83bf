// BZ2_bzCompress and what it keeps between calls: input is taken into a block, a full block is compressed,
// its bytes are handed out as room allows.
module CompressStream {
  import opened Common
  import opened BitIO
  import opened BlockFormat
  import opened Crc
  import opened RunLength
  import opened CompressBlock
  import MainCompare
  import D = DecodeMachine

  const BZ_RUN := 0
  const BZ_FLUSH := 1
  const BZ_FINISH := 2

  const BZ_OK := 0
  const BZ_RUN_OK := 1
  const BZ_FLUSH_OK := 2
  const BZ_FINISH_OK := 3
  const BZ_STREAM_END := 4
  const BZ_SEQUENCE_ERROR := -1
  const BZ_PARAM_ERROR := -2

  const BZ_M_IDLE := 1
  const BZ_M_RUNNING := 2
  const BZ_M_FLUSHING := 3
  const BZ_M_FINISHING := 4

  const BZ_S_OUTPUT := 1
  const BZ_S_INPUT := 2

  // ---- finished blocks ----------------------------------------------------

  datatype Finished = Finished(block: seq<Byte>, payload: Payload)

  // A block the encoder makes: not cut off in a run, no longer than the decoder allows, sent with its check.
  ghost predicate Made(table: Table, blockSize100k: nat, f: Finished) {
    && Encodes(f.payload, f.block) && Whole(f.block) && 0 < |f.block| <= 100000 * blockSize100k - 10
    && f.payload.crc == Value(CheckOf(table, Content(f.block)))
  }

  ghost predicate AllMade(table: Table, blockSize100k: nat, done: seq<Finished>) {
    forall i :: 0 <= i < |done| ==> Made(table, blockSize100k, done[i])
  }

  // What finished blocks stand for.
  function Contents(done: seq<Finished>): seq<Byte> {
    if done == [] then [] else Contents(done[..|done| - 1]) + Content(done[|done| - 1].block)
  }

  function Combined(table: Table, done: seq<Finished>): Word {
    if done == [] then 0 else Combine(Combined(table, done[..|done| - 1]),
        CheckOf(table, Content(done[|done| - 1].block)))
  }

  // The record of finished blocks.
  ghost predicate Books(table: Table, blockSize100k: nat, done: seq<Finished>, combinedCRC: Word, started: bool) {
    AllMade(table, blockSize100k, done) && combinedCRC == Combined(table, done) && (!started ==> done == [])
  }

  // The bits that make up the stream so far.
  ghost function StreamBits(blockSize100k: nat, done: seq<Finished>, started: bool): seq<bool>
    requires 1 <= blockSize100k <= 9 && AllSendable(done)
  {
    (if started then StreamHeader(blockSize100k) else []) + BlocksBits(done)
  }

  lemma MadeSendable(table: Table, blockSize100k: nat, f: Finished)
    requires Made(table, blockSize100k, f)
    ensures Sendable(f.payload)
  {
    var e, perm :| EncodesWith(f.payload, f.block, e, perm);
  }

  // The bits of blocks, in order.
  ghost function BlocksBits(done: seq<Finished>): seq<bool>
    requires forall i :: 0 <= i < |done| ==> Sendable(done[i].payload)
  {
    if done == [] then [] else BlocksBits(done[..|done| - 1]) + BlockBits(done[|done| - 1].payload)
  }

  ghost predicate AllSendable(done: seq<Finished>) {
    forall i :: 0 <= i < |done| ==> Sendable(done[i].payload)
  }

  lemma AllMadeSendable(table: Table, blockSize100k: nat, done: seq<Finished>)
    requires AllMade(table, blockSize100k, done)
    ensures AllSendable(done)
  {
    forall i | 0 <= i < |done| ensures Sendable(done[i].payload) {
      MadeSendable(table, blockSize100k, done[i]);
    }
  }

  lemma OneMore(table: Table, blockSize100k: nat, done: seq<Finished>, f: Finished)
    requires AllMade(table, blockSize100k, done) && Made(table, blockSize100k, f)
    ensures AllMade(table, blockSize100k, done + [f]) && AllSendable(done + [f]) && AllSendable(done)
    ensures Sendable(f.payload)
    ensures BlocksBits(done + [f]) == BlocksBits(done) + BlockBits(f.payload)
    ensures Contents(done + [f]) == Contents(done) + Content(f.block)
    ensures Combined(table, done + [f]) == Combine(Combined(table, done), CheckOf(table, Content(f.block)))
  {
    hide Made, Sendable, CheckOf;
    AllMadeSendable(table, blockSize100k, done);
    MadeSendable(table, blockSize100k, f);
    assert (done + [f])[..|done|] == done;
  }

  // ---- the stream's ends --------------------------------------------------

  class BzStream {
    // next_in with avail_in, avail_out, and all that has been put at next_out.
    var nextIn: seq<Byte>
    var availOut: nat
    var nextOut: seq<Byte>

    constructor (input: seq<Byte>, room: nat)
      ensures nextIn == input && availOut == room && nextOut == []
    {
      nextIn, availOut, nextOut := input, room, [];
    }
  }

  // Room in arr2 behind the longest block.
  function ZbitsRoom(blockSize100k: nat): nat
    requires 1 <= blockSize100k <= 9
  {
    4 * (100000 * blockSize100k + MainCompare.BZ_N_OVERSHOOT) - (100000 * blockSize100k - 10)
  }

  lemma RoomEnough(blockSize100k: nat, n: nat)
    requires 1 <= blockSize100k <= 9 && n <= 100000 * blockSize100k - 10
    ensures 8 * ZbitsRoom(blockSize100k) >= 32 + 32 + BlockRoom(n) + 80 + 7
  {
  }

  class EState {
    const crcTable: Table
    const blockSize100k: nat
    const nblockMAX: nat
    const workFactor: int
    const block: array<Byte>
    const inUse: array<bool>
    const w: BitWriter

    var mode: int
    var state: int
    var availInExpect: nat
    var stateInCh: int
    var stateInLen: int
    var nblock: nat
    var stateOutPos: nat
    var blockCRC: Word
    var combinedCRC: Word
    var blockNo: nat

    // All input taken, the blocks finished, the bytes taken away before zbits was last used afresh.
    ghost var consumed: seq<Byte>
    ghost var done: seq<Finished>
    ghost var taken: seq<Byte>
    ghost var started: bool
    ghost var ended: bool

    // BZ2_bzCompressInit, given parameters in range.
    constructor (table: Table, size: nat, factor: nat)
      requires 1 <= size <= 9 && factor <= 250
      ensures crcTable == table && blockSize100k == size && fresh(block) && fresh(inUse) && fresh(w) && fresh(w.zbits)
      ensures Steady() && Owing() && mode == BZ_M_RUNNING && state == BZ_S_INPUT
      ensures consumed == [] && Bounds() && Emitted() == []
    {
      crcTable, blockSize100k, nblockMAX := table, size, 100000 * size - 19;
      workFactor := if factor == 0 then 30 else factor;
      block := new Byte[100000 * size + MainCompare.BZ_N_OVERSHOOT](i => 0);
      inUse := new bool[256](i => false);
      var writer := new BitWriter(ZbitsRoom(size));
      w := writer;
      mode, state, availInExpect, stateInCh, stateInLen := BZ_M_RUNNING, BZ_S_INPUT, 0, NO_CHAR, 0;
      nblock, stateOutPos, blockCRC, combinedCRC, blockNo := 0, 0, INITIAL, 0, 1;
      consumed, done, taken, started, ended := [], [], [], false, false;
      new;
      Begun();
    }

    // Nothing taken in and nothing written.
    ghost predicate AtStart()
      reads this, block, inUse, w, w.zbits
    {
      && Sized() && mode == BZ_M_RUNNING && state == BZ_S_INPUT && stateInCh == NO_CHAR && stateInLen == 0
      && nblock == 0 && stateOutPos == 0 && blockCRC == INITIAL && combinedCRC == 0 && blockNo == 1
      && consumed == [] && done == [] && taken == [] && !started && !ended
      && (forall c :: 0 <= c < 256 ==> !inUse[c]) && w.Valid() && w.Written() == [] && w.numZ == 0
    }

    lemma Begun()
      requires AtStart()
      ensures Steady() && Owing() && Bounds() && Emitted() == []
    {
      NothingCoded();
      assert block[..0] == [] && w.zbits[..0] == [];
      assert Filling() && Writing();
    }

    ghost function Rs(): Runs
      reads this, block
      requires nblock <= block.Length
    {
      Runs(block[..nblock], stateInCh, stateInLen)
    }

    // Objects apart, sizes fixed.
    ghost predicate Sized()
      reads this
    {
      && 1 <= blockSize100k <= 9 && nblockMAX == 100000 * blockSize100k - 19
      && block.Length == 100000 * blockSize100k + MainCompare.BZ_N_OVERSHOOT && inUse.Length == 256
      && w.zbits.Length == ZbitsRoom(blockSize100k) && w.zbits != block
    }

    // The block so far, its bytes in use and its check.
    ghost predicate Filling()
      reads this, block, inUse
    {
      && Sized() && nblock <= block.Length && InUseOf(inUse[..], block[..nblock])
      && blockCRC == UpdateAll(crcTable, INITIAL, Content(block[..nblock]))
    }

    // ---- run-length coding ------------------------------------------------

    method PutByte(c: Byte)
      requires nblock < block.Length
      modifies this`nblock, block
      ensures nblock == old(nblock) + 1 && block[..nblock] == old(block[..nblock]) + [c]
    {
      block[nblock] := c;
      nblock := nblock + 1;
    }

    method PutBytes(c: Byte, n: nat)
      requires nblock + n <= block.Length
      modifies this`nblock, block
      ensures nblock == old(nblock) + n && block[..nblock] == old(block[..nblock]) + Rep(c, n)
    {
      ghost var b := block[..nblock];
      for i := 0 to n
        invariant nblock == old(nblock) + i && block[..nblock] == b + Rep(c, i)
      {
        PutByte(c);
        assert b + Rep(c, i) + [c] == b + (Rep(c, i) + [c]);
        assert Rep(c, i) + [c] == Rep(c, i + 1);
      }
    }

    method CheckRun(ch: Byte)
      requires stateInLen >= 0
      modifies this`blockCRC
      ensures blockCRC == UpdateAll(crcTable, old(blockCRC), Rep(ch, stateInLen))
    {
      for i := 0 to stateInLen
        invariant blockCRC == UpdateAll(crcTable, old(blockCRC), Rep(ch, i))
      {
        UpdateAppend(crcTable, old(blockCRC), Rep(ch, i), ch);
        assert Rep(ch, i) + [ch] == Rep(ch, i + 1);
        blockCRC := Update(crcTable, blockCRC, ch);
      }
    }

    method AddPairToBlock()
      requires Filling() && Coding(Rs()) && stateInCh < NO_CHAR && nblock + 5 <= block.Length
      modifies this`nblock, this`blockCRC, block, inUse
      ensures Filling() && block[..nblock] == old(AddPair(Rs()))
    {
      hide Coding, Content, UpdateAll, InUseOf, AddPair, Pair;
      ghost var r, u := Rs(), inUse[..];
      PairAdded(r);
      var ch: Byte := stateInCh;
      CheckRun(ch);
      UpdateConcat(crcTable, INITIAL, Content(r.block), Rep(ch, r.len));
      MarkInUse(ch);
      if stateInLen < 4 {
        PutBytes(ch, stateInLen);
      } else {
        PutBytes(ch, 4);
        PutByte(stateInLen - 4);
      }
      UsedMore(u, inUse[..], r);
      assert block[..nblock] == AddPair(r);
      assert InUseOf(inUse[..], block[..nblock]);
      assert blockCRC == UpdateAll(crcTable, INITIAL, Content(AddPair(r)));
    }

    method MarkInUse(ch: Byte)
      requires inUse.Length == 256 && 1 <= stateInLen <= MAX_RUN
      modifies inUse
      ensures inUse[..] == if stateInLen < 4 then old(inUse[..])[ch := true]
                           else old(inUse[..])[ch := true][stateInLen - 4 := true]
    {
      inUse[ch] := true;
      if stateInLen >= 4 {
        inUse[stateInLen - 4] := true;
      }
    }

    // ADD_CHAR_TO_BLOCK
    method AddCharToBlock(c: Byte)
      requires Filling() && Coding(Rs()) && nblock + 5 <= block.Length
      modifies this`nblock, this`blockCRC, this`stateInCh, this`stateInLen, block, inUse
      ensures Filling() && Rs() == AddChar(old(Rs()), c)
    {
      if c != stateInCh && stateInLen == 1 {
        // the fast track
        FastTrack();
        stateInCh := c;
      } else if c != stateInCh || stateInLen == 255 {
        if stateInCh < 256 {
          AddPairToBlock();
        }
        stateInCh := c;
        stateInLen := 1;
      } else {
        stateInLen := stateInLen + 1;
      }
    }

    // A run of one byte goes into the block.
    method FastTrack()
      requires Filling() && Coding(Rs()) && stateInLen == 1 && stateInCh < NO_CHAR && nblock < block.Length
      modifies this`nblock, this`blockCRC, block, inUse
      ensures Filling() && block[..nblock] == old(AddPair(Rs()))
    {
      hide Coding, Content, UpdateAll, InUseOf, AddPair, Pair;
      ghost var r, u := Rs(), inUse[..];
      PairAdded(r);
      var ch: Byte := stateInCh;
      blockCRC := Update(crcTable, blockCRC, ch);
      UpdateAppend(crcTable, INITIAL, Content(r.block), ch);
      inUse[stateInCh] := true;
      assert inUse[..] == u[ch := true];
      PutByte(ch);
      assert Rep(ch, 1) == [ch];
      UsedMore(u, inUse[..], r);
      assert block[..nblock] == AddPair(r);
      assert blockCRC == UpdateAll(crcTable, INITIAL, Content(AddPair(r)));
    }

    // flush_RL
    method FlushRL()
      requires Filling() && Coding(Rs()) && nblock + 5 <= block.Length
      modifies this`nblock, this`blockCRC, this`stateInCh, this`stateInLen, block, inUse
      ensures Filling() && Rs() == Flush(old(Rs()))
    {
      if stateInCh < 256 {
        AddPairToBlock();
      }
      stateInCh, stateInLen := NO_CHAR, 0;
    }

    // ---- compressing a block ----------------------------------------------

    ghost predicate Kept()
      reads this
    {
      Books(crcTable, blockSize100k, done, combinedCRC, started) && AllSendable(done)
    }

    // All the bits written are the stream's so far.
    ghost predicate Writing()
      reads this, w, w.zbits
    {
      && Sized() && Kept() && !ended && w.Valid()
      && BytesBits(taken) + w.Written() == StreamBits(blockSize100k, done, started)
    }

    // The stream is complete, filled up to a whole byte.
    ghost predicate Closed()
      reads this, w, w.zbits
    {
      && Sized() && Kept() && started && ended && w.numZ <= w.zbits.Length
      && Filled(StreamBits(blockSize100k, done, started) + StreamTrailer(Value(combinedCRC)),
          BytesBits(taken + w.zbits[..w.numZ]))
    }

    // The first block: the stream header.
    method BeginStream()
      requires Writing() && !started && w.Spare() >= 32
      modifies this`started, w, w.zbits
      ensures Writing() && started && w.Spare() == old(w.Spare()) - 32
    {
      hide BitWriter.Valid, BytesOf, BlocksBits, AllMade, AllSendable, Combined;
      ghost var w0 := w.Written();
      assert BlocksBits([]) == [] by {
        NoBlocks();
      }
      assert w.pending == [] && w0 == [] && BytesBits(taken) == [];
      HeaderSize(blockSize100k);
      w.InitWrite();
      SendBytes(w, [0x42, 0x5a, 0x68, 0x30 + blockSize100k]);
      started := true;
    }

    // What a block with nothing in it leaves out: its check, the sort, its bits.
    method AddBlock()
      requires Filling() && Writing() && started && 0 < nblock <= 100000 * blockSize100k - 10 && Whole(block[..nblock])
      requires w.Spare() >= BlockRoom(nblock)
      modifies this`blockCRC, this`combinedCRC, this`done, w, w.zbits, block
      ensures Writing() && Contents(done) == old(Contents(done)) + old(Content(block[..nblock]))
      ensures w.Spare() >= old(w.Spare()) - BlockRoom(nblock)
    {
      hide BitWriter.Valid, BitWriter.Written, Books, StreamBits, AllSendable, BlocksBits, Contents, Content, Whole,
           UpdateAll, BlockBits, Encodes, Sendable, BlockRoom, InUseOf, Value, Finalised, Combine;
      ghost var b, w0 := block[..nblock], w.Written();
      blockCRC := Finalised(blockCRC);
      ghost var p := SendBlock(w, block, nblock, inUse, workFactor, Value(blockCRC));
      Record(p, b, w0);
    }

    // The finished block is entered into the books.
    method Record(ghost p: Payload, ghost b: seq<Byte>, ghost w0: seq<bool>)
      requires Sized() && Kept() && started && !ended
      requires Encodes(p, b) && Whole(b) && 0 < |b| <= 100000 * blockSize100k - 10
      requires blockCRC == CheckOf(crcTable, Content(b)) && p.crc == Value(blockCRC) && Sendable(p)
      requires BytesBits(taken) + w0 == StreamBits(blockSize100k, done, started) && w.Valid()
      requires w.Written() == w0 + BlockBits(p)
      modifies this`done, this`combinedCRC
      ensures Writing() && Contents(done) == old(Contents(done)) + Content(b)
    {
      hide BitWriter.Valid, BitWriter.Written, BlocksBits, AllMade, AllSendable, Combined, Contents, Content, Whole,
           BlockBits, Encodes, Made, Sendable, CheckOf, StreamHeader, Value, Finalised, Combine;
      ghost var f := Finished(b, p);
      IsMade(crcTable, blockSize100k, f);
      OneMore(crcTable, blockSize100k, done, f);
      combinedCRC := Combine(combinedCRC, blockCRC);
      assert BytesBits(taken) + (w0 + BlockBits(p)) == BytesBits(taken) + w0 + BlockBits(p);
      done := done + [f];
    }

    // The last block: the trailer, filled up to a byte.
    method EndStream()
      requires Writing() && started && w.Spare() >= 87
      modifies this`ended, w, w.zbits
      ensures Closed() && ended && w.numZ > 0
    {
      hide BitWriter.Valid, BitWriter.Written, Books, StreamBits, AllSendable, BytesOf, Bits32, Value;
      ghost var w0, bits := w.Written(), StreamBits(blockSize100k, done, started);
      TrailerSize(Value(combinedCRC));
      SendBytes(w, [0x17, 0x72, 0x45, 0x38, 0x50, 0x90]);
      PutUInt32(w, Value(combinedCRC));
      ghost var w1 := w.Written();
      assert w1 == w0 + StreamTrailer(Value(combinedCRC));
      w.FinishWrite();
      SomeBytes(w.zbits[..w.numZ], w1);
      ended := true;
      FilledUp(taken, w.zbits[..w.numZ], w0, w1, StreamTrailer(Value(combinedCRC)), bits);
    }

    // BZ2_compressBlock
    method CompressBlock(isLastBlock: bool)
      requires Filling() && Writing() && started == (blockNo > 1) && blockNo >= 1 && w.numZ == 0
      requires nblock <= 100000 * blockSize100k - 10 && Whole(block[..nblock])
      modifies this`blockCRC, this`combinedCRC, this`done, this`started, this`ended, w, w.zbits, block
      ensures started && Contents(done) == old(Contents(done)) + old(Content(block[..nblock]))
      ensures if isLastBlock then Closed() else Writing()
      ensures ended == isLastBlock && w.numZ <= w.zbits.Length && (isLastBlock ==> w.numZ > 0)
    {
      hide Writing, Closed, BitWriter.Valid, Contents, Content, Whole, BlockRoom, ZbitsRoom, InUseOf, UpdateAll;
      FreshRoom();
      RoomEnough(blockSize100k, nblock);
      ghost var before := Content(block[..nblock]);
      if blockNo == 1 {
        BeginStream();
      }
      if nblock > 0 {
        AddBlock();
      } else {
        assert Contents(done) + before == Contents(done) by {
          NothingIn(block[..nblock]);
        }
      }
      if isLastBlock {
        EndStream();
      }
      InBounds();
    }

    lemma InBounds()
      requires if ended then Closed() else Writing()
      ensures w.numZ <= w.zbits.Length
    {
    }

    // A word's worth of bits at the most is pending when zbits is used afresh.
    lemma FreshRoom()
      requires Writing() && w.numZ == 0
      ensures !ended && Sized() && w.Valid() && !ended && w.Spare() >= 8 * ZbitsRoom(blockSize100k) - 32
    {
      assert w.zbits[..0] == [];
    }

    // ---- between steps ----------------------------------------------------

    // The run being collected, and the block it will go into.
    ghost function Cur(): Runs
      reads this, block
      requires nblock <= block.Length
    {
      Runs(if state == BZ_S_INPUT then block[..nblock] else [], stateInCh, stateInLen)
    }

    predicate IsEmptyRL()
      reads this
    {
      stateInCh >= NO_CHAR || stateInLen <= 0
    }

    // Taking input: a block is being filled, and nothing waits to be handed out.
    ghost predicate Taking()
      reads this, block, inUse, w, w.zbits
    {
      && Filling() && Coding(Rs()) && nblock <= nblockMAX + 4 && Writing()
      && w.numZ == 0 && stateOutPos == 0 && blockNo >= 1 && started == (blockNo > 1)
    }

    // Handing out: the last block is finished; the stream is complete or its bits so far are right.
    ghost predicate Giving()
      reads this, block, w, w.zbits
    {
      && Sized() && nblock <= block.Length && Coding(Runs([], stateInCh, stateInLen))
      && stateOutPos <= w.numZ <= w.zbits.Length
      && blockNo >= 1 && started && if ended then Closed() && stateInCh == NO_CHAR else Writing()
    }

    // All input taken is in the finished blocks, the block and the run being collected.
    ghost predicate Accounted()
      reads this, block
    {
      nblock <= block.Length && Coding(Cur()) && consumed == Contents(done) + Meaning(Cur())
    }

    // All that has been handed out.
    ghost function Emitted(): seq<Byte>
      reads this, w, w.zbits
      requires stateOutPos <= w.zbits.Length
    {
      taken + w.zbits[..stateOutPos]
    }

    // ---- taking input -----------------------------------------------------

    method TakeByte(strm: BzStream)
      requires Taking() && Accounted() && state == BZ_S_INPUT && nblock < nblockMAX && strm.nextIn != []
      modifies this`nblock, this`blockCRC, this`stateInCh, this`stateInLen, this`consumed, block, inUse, strm`nextIn
      ensures Taking() && Accounted() && consumed == old(consumed) + old(strm.nextIn)[..1]
      ensures strm.nextIn == old(strm.nextIn)[1..]
    {
      hide Coding, Meaning, Contents, BitWriter.Valid, BitWriter.Written, Books, AllSendable, StreamBits, InUseOf,
           UpdateAll, AddChar;
      ghost var c := strm.nextIn[0];
      CharCoded(Rs(), c);
      AddCharToBlock(strm.nextIn[0]);
      consumed := consumed + [c];
      strm.nextIn := strm.nextIn[1..];
    }

    // copy_input_until_stop; running, there is no end of input to look out for.
    method CopyInputUntilStop(strm: BzStream) returns (progressIn: bool)
      requires Taking() && Accounted() && state == BZ_S_INPUT && nblock < nblockMAX
      requires mode != BZ_M_RUNNING ==> availInExpect == |strm.nextIn|
      modifies this`nblock, this`blockCRC, this`stateInCh, this`stateInLen, this`consumed, this`availInExpect, block,
          inUse, strm`nextIn
      ensures Taking() && Accounted() && consumed + strm.nextIn == old(consumed + strm.nextIn)
      ensures mode != BZ_M_RUNNING ==> availInExpect == |strm.nextIn|
      ensures |strm.nextIn| <= old(|strm.nextIn|) && (progressIn <==> |strm.nextIn| < old(|strm.nextIn|))
      ensures !progressIn ==> nblock == old(nblock)
      ensures nblock >= nblockMAX || strm.nextIn == []
      ensures old(strm.nextIn) != [] ==> progressIn
    {
      hide Taking, Accounted;
      progressIn := false;
      if mode == BZ_M_RUNNING {
        while nblock < nblockMAX && strm.nextIn != []
          invariant Taking() && Accounted() && consumed + strm.nextIn == old(consumed + strm.nextIn)
          invariant |strm.nextIn| <= old(|strm.nextIn|) && (progressIn <==> |strm.nextIn| < old(|strm.nextIn|))
          invariant !progressIn ==> nblock == old(nblock) && strm.nextIn == old(strm.nextIn)
          decreases |strm.nextIn|
        {
          progressIn := true;
          assert consumed + strm.nextIn == consumed + strm.nextIn[..1] + strm.nextIn[1..];
          TakeByte(strm);
        }
      } else {
        while nblock < nblockMAX && strm.nextIn != [] && availInExpect != 0
          invariant Taking() && Accounted() && consumed + strm.nextIn == old(consumed + strm.nextIn)
          invariant |strm.nextIn| <= old(|strm.nextIn|) && (progressIn <==> |strm.nextIn| < old(|strm.nextIn|))
          invariant !progressIn ==> nblock == old(nblock) && strm.nextIn == old(strm.nextIn)
          invariant availInExpect == |strm.nextIn|
          decreases |strm.nextIn|
        {
          progressIn := true;
          assert consumed + strm.nextIn == consumed + strm.nextIn[..1] + strm.nextIn[1..];
          TakeByte(strm);
          StepExpect();
        }
      }
    }

    method StepExpect()
      requires availInExpect > 0 && Taking() && Accounted()
      modifies this`availInExpect
      ensures availInExpect == old(availInExpect) - 1 && Taking() && Accounted()
    {
      hide Coding, Meaning, Contents, BitWriter.Valid, BitWriter.Written, Books, AllSendable, StreamBits, InUseOf,
           UpdateAll;
      availInExpect := availInExpect - 1;
    }

    // ---- handing out ------------------------------------------------------

    // copy_output_until_stop
    method CopyOutputUntilStop(strm: BzStream) returns (progressOut: bool)
      requires Giving()
      modifies this`stateOutPos, strm`availOut, strm`nextOut
      ensures Giving() && stateOutPos >= old(stateOutPos) && (progressOut <==> stateOutPos > old(stateOutPos))
      ensures strm.nextOut == old(strm.nextOut) + w.zbits[old(stateOutPos)..stateOutPos]
      ensures strm.availOut == old(strm.availOut) - (stateOutPos - old(stateOutPos))
      ensures strm.availOut == 0 || stateOutPos == w.numZ
    {
      hide Coding, BitWriter.Valid, BitWriter.Written, Books, AllSendable, StreamBits, Filled, StreamTrailer;
      progressOut := false;
      assert w.zbits[stateOutPos..stateOutPos] == [];
      while strm.availOut != 0 && stateOutPos < w.numZ
        invariant Giving() && stateOutPos >= old(stateOutPos) && (progressOut <==> stateOutPos > old(stateOutPos))
        invariant strm.nextOut == old(strm.nextOut) + w.zbits[old(stateOutPos)..stateOutPos]
        invariant strm.availOut == old(strm.availOut) - (stateOutPos - old(stateOutPos))
        decreases w.numZ - stateOutPos
      {
        progressOut := true;
        strm.nextOut := strm.nextOut + [w.zbits[stateOutPos]];
        stateOutPos := stateOutPos + 1;
        strm.availOut := strm.availOut - 1;
      }
    }

    method ClearInUse()
      requires inUse.Length == 256
      modifies inUse
      ensures forall c :: 0 <= c < 256 ==> !inUse[c]
    {
      for i := 0 to 256
        invariant forall c :: 0 <= c < i ==> !inUse[c]
      {
        inUse[i] := false;
      }
    }

    // prepare_new_block
    method PrepareNewBlock()
      requires Giving() && !ended && stateOutPos == w.numZ
      modifies this`nblock, this`stateOutPos, this`blockCRC, this`blockNo, this`taken, inUse, w
      ensures Taking() && nblock == 0 && taken == old(Emitted())
    {
      hide Books, AllSendable, StreamBits, BitWriter.Valid;
      NewBlock(stateInCh, stateInLen);
      TakenAway(taken, w.zbits[..w.numZ], w.pending);
      taken := taken + w.zbits[..w.numZ];
      nblock := 0;
      w.TakeAway();
      stateOutPos := 0;
      blockCRC := INITIAL;
      ClearInUse();
      blockNo := blockNo + 1;
      assert block[..nblock] == [];
      assert InUseOf(inUse[..], block[..nblock]);
      assert Filling();
      assert Coding(Rs());
      assert Writing();
    }

    // ---- finishing a block ------------------------------------------------

    // Input has ended for now: the run being collected goes into the block, which is compressed as it is.
    method FlushBlock()
      requires Taking() && Accounted() && state == BZ_S_INPUT
      modifies this`nblock, this`blockCRC, this`stateInCh, this`stateInLen, this`combinedCRC, this`done, this`started,
          this`ended,
               this`state, block, inUse, w, w.zbits
      ensures state == BZ_S_OUTPUT && Giving() && Accounted() && stateInCh == NO_CHAR && stateOutPos == 0
      ensures ended == (mode == BZ_M_FINISHING) && (ended ==> w.numZ > 0)
    {
      hide Expanded, Contents, Content, Whole, Filled, StreamTrailer, BitWriter.Valid, BitWriter.Written, Books,
           AllSendable, StreamBits, InUseOf,
           UpdateAll, AddPair;
      ghost var r := Rs();
      FlushCoded(r);
      FlushRL();
      assert Rs() == Flush(r);
      CompressBlock(mode == BZ_M_FINISHING);
      state := BZ_S_OUTPUT;
      NoRun();
      assert consumed == Contents(done) + Meaning(Cur());
    }

    // The block is full: the run being collected is left for the next.
    method FullBlock()
      requires Taking() && Accounted() && state == BZ_S_INPUT && nblock >= nblockMAX
      modifies this`blockCRC, this`combinedCRC, this`done, this`started, this`ended, this`state, block, w, w.zbits
      ensures state == BZ_S_OUTPUT && Giving() && Accounted() && stateInCh < NO_CHAR && stateInLen > 0
      ensures stateOutPos == 0 && !ended
    {
      hide Contents, Content, Whole, Closed, BitWriter.Valid, BitWriter.Written, Books, AllSendable, StreamBits,
           InUseOf, UpdateAll;
      ghost var r := Rs();
      RunLeft(r);
      CompressBlock(false);
      state := BZ_S_OUTPUT;
    }

    method StartBlock()
      requires Giving() && Accounted() && state == BZ_S_OUTPUT && !ended && stateOutPos == w.numZ
      modifies this`nblock, this`stateOutPos, this`blockCRC, this`blockNo, this`taken, this`state, inUse, w
      ensures Taking() && Accounted() && state == BZ_S_INPUT && nblock == 0 && Emitted() == old(Emitted())
    {
      hide Books, AllSendable, StreamBits, BitWriter.Valid, BitWriter.Written, UpdateAll, Contents, Expanded, InUseOf;
      PrepareNewBlock();
      state := BZ_S_INPUT;
      assert block[..nblock] == [] && w.zbits[..0] == [];
    }

    // ---- the machine ------------------------------------------------------

    // Whenever bzCompress is entered or left.
    ghost predicate Steady()
      reads this, block, inUse, w, w.zbits
    {
      && Accounted()
      && ((state == BZ_S_INPUT && Taking() && nblock < nblockMAX) || (state == BZ_S_OUTPUT && Giving()))
      && (ended ==> state == BZ_S_OUTPUT && mode in {BZ_M_FINISHING, BZ_M_IDLE} && availInExpect == 0)
      && (mode == BZ_M_FINISHING && state == BZ_S_OUTPUT && availInExpect == 0 && IsEmptyRL() ==> ended)
      && (mode == BZ_M_RUNNING && state == BZ_S_OUTPUT ==> !IsEmptyRL())
    }

    // What is left of the input is as much as was there when the flush or the end was asked for, less what was taken.
    ghost predicate Expecting(strm: BzStream)
      reads this, strm
    {
      mode in {BZ_M_RUNNING, BZ_M_FLUSHING, BZ_M_FINISHING} && (mode != BZ_M_RUNNING ==> availInExpect == |strm.nextIn|)
    }

    // What is still to be done with the input at hand: less after every turn of the loop.
    function Rank(): nat
      reads this
    {
      if state == BZ_S_INPUT then 2 else if IsEmptyRL() then 0 else 1
    }

    // Input into the block; a block that is full, or must go out, is compressed. False if there is nothing more to do.
    method InputStep(strm: BzStream) returns (progressIn: bool, more: bool)
      requires Taking() && Accounted() && state == BZ_S_INPUT && nblock < nblockMAX && Expecting(strm)
      modifies this, block, inUse, w, w.zbits, strm`nextIn
      ensures Steady() && Expecting(strm) && mode == old(mode) && consumed + strm.nextIn == old(consumed + strm.nextIn)
      ensures Emitted() == old(Emitted())
      ensures |strm.nextIn| <= old(|strm.nextIn|) && (progressIn <==> |strm.nextIn| < old(|strm.nextIn|))
      ensures more <==> state == BZ_S_OUTPUT
      ensures more && !progressIn && old(nblock) == 0 ==> mode != BZ_M_RUNNING && availInExpect == 0 && IsEmptyRL()
      ensures !more ==> mode == BZ_M_RUNNING && strm.nextIn == []
      ensures old(strm.nextIn) != [] ==> progressIn
      ensures old(strm.nextIn) == [] && mode == BZ_M_RUNNING ==> !more
      ensures ended ==> stateOutPos < w.numZ
    {
      hide Taking, Giving, Accounted;
      TakingStart();
      progressIn := CopyInputUntilStop(strm);
      TakingStart();
      more := true;
      if mode != BZ_M_RUNNING && availInExpect == 0 {
        FlushBlock();
      } else if nblock >= nblockMAX {
        FullBlock();
      } else {
        more := false;
      }
    }

    lemma TakingStart()
      requires Taking()
      ensures stateOutPos == 0 && !ended && Sized() && Emitted() == taken && nblockMAX > 0
    {
      assert w.zbits[..0] == [];
    }

    // Output while there is room; then, unless the stream or the flush is over, a new block.
    method OutputStep(strm: BzStream) returns (progressOut: bool, more: bool, ghost out: seq<Byte>)
      requires Steady() && state == BZ_S_OUTPUT && Expecting(strm)
      modifies this`nblock, this`stateOutPos, this`blockCRC, this`blockNo, this`taken, this`state, inUse, w,
          strm`availOut, strm`nextOut
      ensures Steady() && Expecting(strm)
      ensures strm.nextOut == old(strm.nextOut) + out && Emitted() == old(Emitted()) + out
      ensures strm.availOut == old(strm.availOut) - |out| && (progressOut <==> out != [])
      ensures more ==> state == BZ_S_INPUT && nblock == 0
      ensures more ==> !(mode == BZ_M_FLUSHING && availInExpect == 0 && IsEmptyRL())
      ensures more ==> !(mode == BZ_M_FINISHING && availInExpect == 0 && IsEmptyRL())
      ensures !more && state == BZ_S_OUTPUT ==>
                (stateOutPos < w.numZ && strm.availOut == 0) || (ended && stateOutPos == w.numZ)
      ensures !more && state == BZ_S_INPUT ==> mode == BZ_M_FLUSHING && availInExpect == 0 && IsEmptyRL() && nblock == 0
      ensures state == BZ_S_OUTPUT ==> w.numZ == old(w.numZ) && stateOutPos == old(stateOutPos) + |out|
      ensures state == BZ_S_INPUT ==> !ended
      ensures old(stateOutPos < w.numZ) ==> (progressOut <==> old(strm.availOut) > 0)
      ensures old(stateOutPos < w.numZ) && old(strm.availOut) == 0 ==> !more && state == BZ_S_OUTPUT
    {
      hide Taking, Kept, Coding, Closed, Writing, Meaning;
      ghost var pos := stateOutPos;
      progressOut := CopyOutputUntilStop(strm);
      out := w.zbits[pos..stateOutPos];
      assert w.zbits[..pos] + out == w.zbits[..stateOutPos];
      assert Emitted() == old(Emitted()) + out;
      more := false;
      if stateOutPos < w.numZ {
        return;
      }
      if mode == BZ_M_FINISHING && availInExpect == 0 && IsEmptyRL() {
        return;
      }
      StartBlock();
      if mode == BZ_M_FLUSHING && availInExpect == 0 && IsEmptyRL() {
        return;
      }
      more := true;
    }

    // The end of the stream has been reached and handed out.
    ghost predicate AllOut()
      reads this, w
    {
      ended && stateOutPos == w.numZ
    }

    // One turn of the loop in handle_compress. Another turn finds less to do.
    method Turn(strm: BzStream) returns (progress: bool, more: bool, ghost out: seq<Byte>)
      requires Steady() && Expecting(strm)
      modifies this, block, inUse, w, w.zbits, strm
      ensures Steady() && Expecting(strm) && mode == old(mode) && consumed + strm.nextIn == old(consumed + strm.nextIn)
      ensures strm.nextOut == old(strm.nextOut) + out && Bounds() && Emitted() == old(Emitted()) + out
      ensures strm.availOut == old(strm.availOut) - |out| && |strm.nextIn| <= old(|strm.nextIn|)
      ensures progress <==> |strm.nextIn| < old(|strm.nextIn|) || out != []
      ensures more ==> |strm.nextIn| < old(|strm.nextIn|) || Rank() < old(Rank())
      ensures !more ==> Stopped(strm)
      ensures old(state == BZ_S_OUTPUT && stateOutPos < w.numZ) ==>
                if old(strm.availOut) > 0 then progress else !more && !progress
      ensures old(state) == BZ_S_INPUT && old(strm.nextIn) != [] ==> progress
      ensures old(state) == BZ_S_INPUT && old(strm.nextIn) == [] && mode == BZ_M_RUNNING ==> !more && !progress
      ensures AllOut() && out == [] ==> old(AllOut())
      ensures !more && state == BZ_S_OUTPUT ==>
                old(state) == BZ_S_OUTPUT && strm.nextIn == old(strm.nextIn) && Rank() == old(Rank())
      ensures !more && state == BZ_S_OUTPUT ==> w.numZ == old(w.numZ) && stateOutPos == old(stateOutPos) + |out|
    {
      hide Steady, Taking, Accounted, Giving;
      Bounded();
      progress, out := false, [];
      assert strm.nextOut + [] == strm.nextOut && Emitted() + [] == Emitted();
      if state == BZ_S_OUTPUT {
        progress, more, out := OutputStep(strm);
        if !more {
          Bounded();
          return;
        }
      }
      InputReady();
      var progressIn;
      progressIn, more := InputStep(strm);
      progress := progress || progressIn;
      Bounded();
    }

    ghost predicate Bounds()
      reads this, w
    {
      stateOutPos <= w.zbits.Length
    }

    // Nothing can be done without more room or more input, or the flush or the stream is over.
    ghost predicate Stopped(strm: BzStream)
      reads this, strm, w
    {
      if state == BZ_S_OUTPUT then (stateOutPos < w.numZ && strm.availOut == 0) || (ended && stateOutPos == w.numZ)
      else (mode == BZ_M_RUNNING && strm.nextIn == []) || (mode == BZ_M_FLUSHING && availInExpect == 0 && IsEmptyRL())
    }

    // What is being handed out has not all been handed out.
    ghost predicate Owing()
      reads this, w
    {
      mode != BZ_M_IDLE && state == BZ_S_OUTPUT ==> stateOutPos < w.numZ
    }

    // With bytes waiting and no room for them, or neither, nor input, a call can do nothing.
    predicate Stuck(strm: BzStream)
      reads this, strm
    {
      if state == BZ_S_OUTPUT then strm.availOut == 0
      else strm.nextIn == [] && (mode == BZ_M_RUNNING || strm.availOut == 0)
    }

    // What is left to do: input, then what Rank says, then bytes waiting.
    ghost predicate Nearer(strm: BzStream, left: nat, rank: nat, waiting: nat)
      reads this, strm, w
    {
      |strm.nextIn| < left || (|strm.nextIn| == left && (Rank() < rank || (Rank() == rank && Waiting() < waiting)))
    }

    ghost function Waiting(): nat
      reads this, w
    {
      if stateOutPos <= w.numZ then w.numZ - stateOutPos else 0
    }

    // handle_compress
    method HandleCompress(strm: BzStream) returns (progress: bool, ghost out: seq<Byte>)
      requires Steady() && Expecting(strm) && Owing()
      modifies this, block, inUse, w, w.zbits, strm
      ensures Steady() && Expecting(strm) && mode == old(mode) && Stopped(strm)
      ensures consumed + strm.nextIn == old(consumed + strm.nextIn)
      ensures strm.nextOut == old(strm.nextOut) + out && Bounds() && Emitted() == old(Emitted()) + out
      ensures |out| + strm.availOut == old(strm.availOut) && |strm.nextIn| <= old(|strm.nextIn|)
      ensures progress <==> |strm.nextIn| < old(|strm.nextIn|) || out != []
      ensures mode != BZ_M_FLUSHING ==> (progress <==> !old(Stuck(strm)))
      ensures progress && state == BZ_S_OUTPUT ==> Nearer(strm, old(|strm.nextIn|), old(Rank()), old(Waiting()))
      ensures mode != BZ_M_FINISHING || !progress ==> Owing()
      ensures !progress ==> strm.nextIn == old(strm.nextIn)
    {
      hide Steady, Expecting, Stopped, Emitted, Rank;
      progress, out := false, [];
      Bounded();
      NotAllOut(strm);
      assert Emitted() + out == Emitted() && strm.nextOut + out == strm.nextOut;
      ghost var sent, put, first := Emitted(), strm.nextOut, true;
      while true
        invariant Steady() && Expecting(strm) && mode == old(mode) && Bounds()
        invariant consumed + strm.nextIn == old(consumed + strm.nextIn) && |strm.nextIn| <= old(|strm.nextIn|)
        invariant strm.nextOut == put + out && Emitted() == sent + out
        invariant |out| + strm.availOut == old(strm.availOut)
        invariant progress <==> |strm.nextIn| < old(|strm.nextIn|) || out != []
        invariant first ==>
                    && out == []
                    && Unturned(strm, old(state), old(stateOutPos), old(w.numZ), old(strm.nextIn), old(Rank()))
        invariant !first ==> Turned(strm, progress, old(state), old(strm.nextIn), old(strm.availOut), old(Rank()))
        invariant AllOut() && out == [] ==> old(AllOut())
        decreases |strm.nextIn|, Rank()
      {
        var progressed, more;
        ghost var part;
        progressed, more, part := Turn(strm);
        progress := progress || progressed;
        assert put + out + part == put + (out + part) && sent + out + part == sent + (out + part);
        out := out + part;
        if !more {
          break;
        }
        first := false;
      }
      EndReached(strm);
      StillOwing(strm);
      SameTail(consumed, strm.nextIn, old(consumed), old(strm.nextIn));
    }

    lemma NotAllOut(strm: BzStream)
      requires Steady() && Expecting(strm) && Owing()
      ensures mode in {BZ_M_RUNNING, BZ_M_FLUSHING, BZ_M_FINISHING} && state in {BZ_S_INPUT, BZ_S_OUTPUT} && !AllOut()
      ensures state == BZ_S_OUTPUT ==> stateOutPos < w.numZ
    {
    }

    lemma StillOwing(strm: BzStream)
      requires Steady() && Stopped(strm)
      ensures mode != BZ_M_FINISHING || !AllOut() ==> Owing()
    {
    }

    // Finishing, only the end of the stream stops the loop with room to spare.
    lemma EndReached(strm: BzStream)
      requires Steady() && Stopped(strm)
      ensures mode == BZ_M_FINISHING && strm.availOut > 0 ==> AllOut()
    {
    }

    // Before the first turn all is as it was.
    ghost predicate Unturned(strm: BzStream, state0: int, pos: nat, numZ: nat, input: seq<Byte>, rank: nat)
      reads this, strm, w
    {
      state == state0 && stateOutPos == pos && w.numZ == numZ && strm.nextIn == input && Rank() == rank
    }

    // After it something has been done, except that the last block may only just have been made.
    ghost predicate Turned(strm: BzStream, progress: bool, state0: int, input: seq<Byte>, room: nat, rank: nat)
      reads this, strm
    {
      && (|strm.nextIn| < |input| || Rank() < rank)
      && (state0 == BZ_S_OUTPUT ==> room > 0) && (state0 == BZ_S_OUTPUT || input != [] ==> progress)
      && (state0 == BZ_S_INPUT && input == [] ==> mode != BZ_M_RUNNING)
    }

    lemma Bounded()
      requires Steady()
      ensures Bounds() && (state == BZ_S_INPUT || state == BZ_S_OUTPUT)
    {
    }

    lemma InputReady()
      requires Steady() && state != BZ_S_OUTPUT
      ensures Taking() && Accounted() && state == BZ_S_INPUT && nblock < nblockMAX
    {
    }

    // All that was taken in is in finished blocks whose bits, but for the last few, have been handed out.
    ghost predicate Flushed()
      reads this, block, w, w.zbits
    {
      && consumed == Contents(done) && Writing() && Bounds()
      && BytesBits(Emitted()) + w.pending == StreamBits(blockSize100k, done, started)
    }

    // The whole stream has been handed out.
    ghost predicate Complete()
      reads this, block, w, w.zbits
    {
      && consumed == Contents(done) && Sized() && Kept() && started && Bounds()
      && Filled(StreamBits(blockSize100k, done, started) + StreamTrailer(Value(combinedCRC)), BytesBits(Emitted()))
    }

    ghost predicate InMode()
      reads this
    {
      mode in {BZ_M_IDLE, BZ_M_RUNNING, BZ_M_FLUSHING, BZ_M_FINISHING}
    }

    lemma FlushDone(strm: BzStream)
      requires Steady() && Stopped(strm) && mode == BZ_M_FLUSHING && IsEmptyRL() && stateOutPos >= w.numZ
      ensures state == BZ_S_INPUT && Flushed()
    {
      hide Expanded, UpdateAll, InUseOf, BlocksBits, Filled, BitWriter.Valid, Books, AllSendable, StreamBits,
           StreamTrailer, Value, Contents;
      assert w.zbits[..0] == [] && taken + [] == taken;
      assert Meaning(Cur()) == [] by {
        NoRunNoBlock();
      }
      assert consumed == Contents(done) + Meaning(Cur());
    }

    lemma NoRunNoBlock()
      requires Accounted() && IsEmptyRL()
      ensures Meaning(Cur()) == []
    {
      assert Content([]) == [];
    }

    lemma FinishDone(strm: BzStream)
      requires Steady() && Stopped(strm) && mode == BZ_M_FINISHING && IsEmptyRL() && stateOutPos >= w.numZ
      ensures state == BZ_S_OUTPUT && ended && Complete()
    {
      hide Expanded, UpdateAll, InUseOf, BlocksBits, Filled, BitWriter.Valid, Books, AllSendable, StreamBits,
           StreamTrailer, Value, Contents;
      NoRunNoBlock();
      assert consumed == Contents(done) + Meaning(Cur());
    }

    // Asking for a flush or the end notes how much input there is.
    method Ask(strm: BzStream, asked: int)
      requires Steady() && Owing() && mode == BZ_M_RUNNING && asked in {BZ_M_FLUSHING, BZ_M_FINISHING}
      modifies this`availInExpect, this`mode
      ensures Steady() && Owing() && Expecting(strm) && mode == asked && Bounds() && Emitted() == old(Emitted())
      ensures availInExpect == |strm.nextIn| && Rank() == old(Rank()) && Waiting() == old(Waiting())
    {
      hide Expanded, UpdateAll, InUseOf, BlocksBits, Filled, BitWriter.Valid, Books, AllSendable, StreamBits,
           StreamTrailer, Value, Contents;
      availInExpect := |strm.nextIn|;
      mode := asked;
    }

    // The case of a stream being flushed.
    method GoOnFlushing(strm: BzStream, action: int) returns (code: int, ghost out: seq<Byte>)
      requires Steady() && Owing() && mode == BZ_M_FLUSHING && Bounds()
      modifies this, block, inUse, w, w.zbits, strm
      ensures Steady() && Owing() && mode in {BZ_M_FLUSHING, BZ_M_RUNNING} && Bounds()
      ensures consumed + strm.nextIn == old(consumed + strm.nextIn)
      ensures strm.nextOut == old(strm.nextOut) + out && Emitted() == old(Emitted()) + out
      ensures |out| + strm.availOut == old(strm.availOut)
      ensures code in {BZ_SEQUENCE_ERROR, BZ_FLUSH_OK, BZ_RUN_OK}
      ensures code == BZ_SEQUENCE_ERROR <==> action != BZ_FLUSH || old(availInExpect != |strm.nextIn|)
      ensures code == BZ_SEQUENCE_ERROR ==> out == [] && strm.nextIn == old(strm.nextIn)
      ensures code == BZ_RUN_OK ==> mode == BZ_M_RUNNING && strm.nextIn == [] && Flushed()
      ensures code == BZ_FLUSH_OK ==> mode == BZ_M_FLUSHING && strm.availOut == 0 && availInExpect == |strm.nextIn|
    {
      hide Steady, Emitted, Stopped, Flushed, Complete, Rank, Waiting, Nearer;
      out := [];
      assert Emitted() + out == Emitted() && strm.nextOut + out == strm.nextOut;
      if action != BZ_FLUSH || availInExpect != |strm.nextIn| {
        return BZ_SEQUENCE_ERROR, out;
      }
      var progress;
      progress, out := HandleCompress(strm);
      OutOfRoom(strm);
      if availInExpect > 0 || !IsEmptyRL() || stateOutPos < w.numZ {
        return BZ_FLUSH_OK, out;
      }
      Resume(strm);
      return BZ_RUN_OK, out;
    }

    // The case of a stream being finished.
    method GoOnFinishing(strm: BzStream, action: int) returns (code: int, ghost out: seq<Byte>)
      requires Steady() && Owing() && mode == BZ_M_FINISHING && Bounds()
      modifies this, block, inUse, w, w.zbits, strm
      ensures Steady() && Owing() && mode in {BZ_M_FINISHING, BZ_M_IDLE} && Bounds()
      ensures consumed + strm.nextIn == old(consumed + strm.nextIn)
      ensures strm.nextOut == old(strm.nextOut) + out && Emitted() == old(Emitted()) + out
      ensures |out| + strm.availOut == old(strm.availOut)
      ensures code in {BZ_SEQUENCE_ERROR, BZ_FINISH_OK, BZ_STREAM_END}
      ensures code == BZ_SEQUENCE_ERROR <==>
                action != BZ_FINISH || old(availInExpect != |strm.nextIn|) || old(NoRoom(strm))
      ensures code == BZ_SEQUENCE_ERROR ==> out == [] && strm.nextIn == old(strm.nextIn)
      ensures code == BZ_FINISH_OK ==> Nearer(strm, old(|strm.nextIn|), old(Rank()), old(Waiting()))
      ensures code == BZ_STREAM_END ==> mode == BZ_M_IDLE && strm.nextIn == [] && Complete()
      ensures code == BZ_FINISH_OK ==> mode == BZ_M_FINISHING && strm.availOut == 0 && availInExpect == |strm.nextIn|
    {
      hide Steady, Emitted, Stopped, Flushed, Complete, Rank, Waiting, Nearer;
      out := [];
      assert Emitted() + out == Emitted() && strm.nextOut + out == strm.nextOut;
      if action != BZ_FINISH || availInExpect != |strm.nextIn| {
        return BZ_SEQUENCE_ERROR, out;
      }
      var progress;
      progress, out := HandleCompress(strm);
      if !progress {
        return BZ_SEQUENCE_ERROR, out;
      }
      OutOfRoom(strm);
      Unended(strm);
      if availInExpect > 0 || !IsEmptyRL() || stateOutPos < w.numZ {
        return BZ_FINISH_OK, out;
      }
      Retire(strm);
      return BZ_STREAM_END, out;
    }

    // Short of the end bytes are waiting.
    lemma Unended(strm: BzStream)
      requires Steady() && Stopped(strm) && mode == BZ_M_FINISHING
      ensures state == BZ_S_OUTPUT
      ensures availInExpect > 0 || !IsEmptyRL() || stateOutPos < w.numZ ==> Owing()
    {
      hide Expanded, UpdateAll, InUseOf, BlocksBits, Filled, BitWriter.Valid, Books, AllSendable, StreamBits,
           StreamTrailer, Value, Contents;
    }

    // The action does not fit the mode, or the input has changed since a flush or the end was asked for.
    predicate Unfitting(strm: BzStream, action: int)
      reads this, strm
    {
      || mode == BZ_M_IDLE
      || (mode == BZ_M_FLUSHING && (action != BZ_FLUSH || availInExpect != |strm.nextIn|))
      || (mode == BZ_M_FINISHING && (action != BZ_FINISH || availInExpect != |strm.nextIn|))
    }

    // No room, and something waiting for it: bytes, or the end of the stream.
    predicate NoRoom(strm: BzStream)
      reads this, strm
    {
      strm.availOut == 0 && (state == BZ_S_OUTPUT || strm.nextIn == [])
    }

    // With more to do, there was no more room.
    lemma OutOfRoom(strm: BzStream)
      requires Steady() && Stopped(strm) && mode in {BZ_M_FLUSHING, BZ_M_FINISHING}
      ensures availInExpect > 0 || !IsEmptyRL() || stateOutPos < w.numZ ==> strm.availOut == 0
    {
      hide Expanded, UpdateAll, InUseOf, BlocksBits, Filled, BitWriter.Valid, Books, AllSendable, StreamBits,
           StreamTrailer, Value, Contents;
    }

    // BZ2_bzCompress
    method BzCompress(strm: BzStream, action: int) returns (code: int, ghost out: seq<Byte>)
      requires Steady() && InMode() && Owing()
      modifies this, block, inUse, w, w.zbits, strm
      ensures Steady() && InMode() && Owing() && Bounds()
      ensures consumed + strm.nextIn == old(consumed + strm.nextIn)
      ensures strm.nextOut == old(strm.nextOut) + out && Emitted() == old(Emitted()) + out
      ensures |out| + strm.availOut == old(strm.availOut)
      ensures code in {BZ_RUN_OK, BZ_FLUSH_OK, BZ_FINISH_OK, BZ_STREAM_END, BZ_SEQUENCE_ERROR, BZ_PARAM_ERROR}
      // The errors, exactly; they leave input and output alone.
      ensures code == BZ_SEQUENCE_ERROR <==>
                old(Unfitting(strm, action)) || (old(mode) != BZ_M_FLUSHING && action == BZ_FINISH && old(NoRoom(strm)))
      ensures code == BZ_PARAM_ERROR <==>
                old(mode) == BZ_M_RUNNING
                && (action !in {BZ_RUN, BZ_FLUSH, BZ_FINISH} || (action == BZ_RUN && old(Stuck(strm))))
      ensures code < 0 ==> out == [] && strm.nextIn == old(strm.nextIn)
      // Running: the input has been taken, or the room is full.
      ensures code == BZ_RUN_OK ==> old(mode) in {BZ_M_RUNNING, BZ_M_FLUSHING} && action in {BZ_RUN, BZ_FLUSH}
      ensures code == BZ_RUN_OK ==> mode == BZ_M_RUNNING && (strm.nextIn == [] || strm.availOut == 0)
      ensures code == BZ_RUN_OK && action == BZ_RUN && strm.nextIn != [] ==>
                Nearer(strm, old(|strm.nextIn|), old(Rank()), old(Waiting()))
      // Flushing and finishing: done, or the room is full and there is less left to do.
      ensures code == BZ_RUN_OK && action == BZ_FLUSH ==> strm.nextIn == [] && Flushed()
      ensures code == BZ_FLUSH_OK ==> action == BZ_FLUSH && mode == BZ_M_FLUSHING && strm.availOut == 0
      ensures code == BZ_FINISH_OK ==> action == BZ_FINISH && mode == BZ_M_FINISHING && strm.availOut == 0
      ensures code == BZ_FINISH_OK ==> Nearer(strm, old(|strm.nextIn|), old(Rank()), old(Waiting()))
      ensures mode in {BZ_M_FLUSHING, BZ_M_FINISHING} && code > 0 ==> availInExpect == |strm.nextIn|
      ensures code == BZ_STREAM_END ==> action == BZ_FINISH && mode == BZ_M_IDLE && strm.nextIn == [] && Complete()
    {
      hide Steady, Emitted, Stopped, Flushed, Complete, Rank, Waiting, Nearer;
      Bounded();
      out := [];
      assert Emitted() + out == Emitted() && strm.nextOut + out == strm.nextOut;
      var progress;
      if mode == BZ_M_IDLE {
        return BZ_SEQUENCE_ERROR, out;
      }
      if mode == BZ_M_RUNNING {
        if action == BZ_RUN {
          progress, out := HandleCompress(strm);
          InputTaken(strm);
          return if progress then BZ_RUN_OK else BZ_PARAM_ERROR, out;
        } else if action == BZ_FLUSH {
          Ask(strm, BZ_M_FLUSHING);
        } else if action == BZ_FINISH {
          Ask(strm, BZ_M_FINISHING);
        } else {
          return BZ_PARAM_ERROR, out;
        }
      }
      if mode == BZ_M_FLUSHING {
        code, out := GoOnFlushing(strm, action);
      } else {
        code, out := GoOnFinishing(strm, action);
      }
    }

    lemma InputTaken(strm: BzStream)
      requires Steady() && Stopped(strm) && mode == BZ_M_RUNNING
      ensures strm.nextIn == [] || (strm.availOut == 0 && state == BZ_S_OUTPUT)
    {
    }

    method Resume(strm: BzStream)
      requires Steady() && Stopped(strm) && mode == BZ_M_FLUSHING && IsEmptyRL() && stateOutPos >= w.numZ
      modifies this`mode
      ensures mode == BZ_M_RUNNING && Steady() && Flushed() && Bounds() && Emitted() == old(Emitted())
      ensures state == BZ_S_INPUT
    {
      hide Expanded, UpdateAll, InUseOf, BlocksBits, Filled, BitWriter.Valid, Books, AllSendable, StreamBits,
           StreamTrailer, Value, Contents;
      FlushDone(strm);
      mode := BZ_M_RUNNING;
    }

    method Retire(strm: BzStream)
      requires Steady() && Stopped(strm) && mode == BZ_M_FINISHING && IsEmptyRL() && stateOutPos >= w.numZ
      modifies this`mode
      ensures mode == BZ_M_IDLE && Steady() && Complete() && Bounds() && Emitted() == old(Emitted())
    {
      hide Expanded, UpdateAll, InUseOf, BlocksBits, Filled, BitWriter.Valid, Books, AllSendable, StreamBits,
           StreamTrailer, Value, Contents;
      hide Coding, Meaning;
      FinishDone(strm);
      mode := BZ_M_IDLE;
    }
  }

  lemma SameTail(a: seq<Byte>, x: seq<Byte>, b: seq<Byte>, y: seq<Byte>)
    requires a + x == b + y
    ensures |x| == |y| ==> x == y
  {
    if |x| == |y| {
      assert x == (a + x)[|a|..] && y == (b + y)[|b|..];
    }
  }

  lemma NoRun()
    ensures Coding(Runs([], NO_CHAR, 0)) && Meaning(Runs([], NO_CHAR, 0)) == []
  {
    NothingCoded();
  }

  lemma RunLeft(r: Runs)
    requires Coding(r) && |r.block| > 0
    ensures r.ch < NO_CHAR && r.len > 0 && Whole(r.block) && Coding(Runs([], r.ch, r.len))
    ensures Meaning(r) == Content(r.block) + Meaning(Runs([], r.ch, r.len))
  {
  }

  lemma NewBlock(ch: int, len: int)
    requires Coding(Runs([], ch, len))
    ensures Content([]) == []
  {
  }

  lemma TakenAway(taken: seq<Byte>, z: seq<Byte>, pending: seq<bool>)
    ensures BytesBits(taken + z) + pending == BytesBits(taken) + (BytesBits(z) + pending)
  {
    BytesBitsConcat(taken, z);
  }

  lemma NothingIn(b: seq<Byte>)
    requires b == []
    ensures Content(b) == []
  {
  }

  lemma TrailerSize(v: nat)
    ensures |StreamTrailer(v)| == 80 && |Bits32(v)| == 32
  {
    BytesOfSize(D.END_MAGIC);
  }

  lemma SomeBytes(z: seq<Byte>, w1: seq<bool>)
    requires |w1| > 0 && exists k: nat :: k < 8 && BytesBits(z) == w1 + Rep(false, k)
    ensures |z| > 0
  {
  }

  lemma FilledUp(taken: seq<Byte>, z: seq<Byte>, w0: seq<bool>, w1: seq<bool>, trailer: seq<bool>, bits: seq<bool>)
    requires w1 == w0 + trailer && bits == BytesBits(taken) + w0
    requires exists k: nat :: k < 8 && BytesBits(z) == w1 + Rep(false, k)
    ensures Filled(bits + trailer, BytesBits(taken + z))
  {
    var k: nat :| k < 8 && BytesBits(z) == w1 + Rep(false, k);
    BytesBitsConcat(taken, z);
    assert BytesBits(taken + z) == bits + trailer + Rep(false, k);
  }

  // Zeros fill the last byte up.
  ghost predicate Filled(bits: seq<bool>, all: seq<bool>) {
    exists pad: nat :: pad < 8 && all == bits + Rep(false, pad)
  }

  lemma NoBlocks()
    ensures BlocksBits([]) == []
  {
  }

  lemma HeaderSize(k: nat)
    requires 1 <= k <= 9
    ensures |StreamHeader(k)| == 32
  {
    BytesOfSize([0x42, 0x5a, 0x68, 0x30 + k]);
  }

  lemma IsMade(table: Table, blockSize100k: nat, f: Finished)
    requires Encodes(f.payload, f.block) && Whole(f.block) && 0 < |f.block| <= 100000 * blockSize100k - 10
    requires f.payload.crc == Value(CheckOf(table, Content(f.block)))
    ensures Made(table, blockSize100k, f)
  {
  }

  lemma UsedMore(u: seq<bool>, v: seq<bool>, r: Runs)
    requires Coding(r) && r.ch < NO_CHAR && InUseOf(u, r.block) && |v| == 256
    requires |u| == 256 && v == if r.len < 4 then u[r.ch := true] else u[r.ch := true][r.len - 4 := true]
    ensures InUseOf(v, AddPair(r))
  {
    hide Whole, Expanded;
    forall c | 0 <= c < 256 ensures v[c] <==> c in AddPair(r) {
      if c == r.ch {
        assert Pair(r.ch, r.len)[0] == c;
      }
      if r.len >= 4 && c == r.len - 4 {
        assert Pair(r.ch, r.len)[4] == c;
      }
    }
  }
  // BZ2_bzCompressInit
  method BzCompressInit(table: Table, blockSize100k: int, workFactor: int) returns (code: int, s: EState?)
    ensures code == BZ_PARAM_ERROR <==> s == null
    ensures s != null <==> 1 <= blockSize100k <= 9 && 0 <= workFactor <= 250
    ensures s != null ==> s.Steady() && s.Owing() && s.mode == BZ_M_RUNNING && s.Bounds()
    ensures s != null ==> s.consumed == [] && s.Emitted() == []
    ensures s != null ==> s.blockSize100k == blockSize100k && s.crcTable == table
  {
    if blockSize100k < 1 || blockSize100k > 9 || workFactor < 0 || workFactor > 250 {
      return BZ_PARAM_ERROR, null;
    }
    s := new EState(table, blockSize100k, workFactor);
    code := BZ_OK;
  }
}
