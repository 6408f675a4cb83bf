// BZ2_bzDecompress and BZ2_decompress over a stream that comes in pieces and goes out in pieces.
module DecompressStream {
  import opened Common
  import opened Bits
  import opened BitIO
  import opened BitReading
  import opened Crc
  import opened RunLength
  import opened GenerateMtf
  import opened InverseVectors
  import opened Randomising
  import opened UnRunLength
  import opened DecodeMachine
  import opened DecodeInvariant
  import opened StreamDecoding
  import opened SymbolReading
  import E = CompressStream

  // ---- where a decoder stands in the stream --------------------------------

  // Whatever comes next: decoding everything from the start is what was put out, and then decoding from here.
  ghost predicate After(table: Table, start: Core, fed: seq<Byte>, put: seq<Byte>, c: Core, combined: Word,
                        unread: seq<bool>, future: seq<bool>) {
    Decode(table, start, 0, BytesBits(fed) + future) == Prepend(put, Decode(table, c, combined, unread + future))
  }

  ghost predicate Level(table: Table, start: Core, fed: seq<Byte>, put: seq<Byte>, c: Core, combined: Word,
                        unread: seq<bool>) {
    forall future :: After(table, start, fed, put, c, combined, unread, future)
  }

  // Whatever comes next, the stream is wrong.
  ghost predicate Wrong(table: Table, start: Core, fed: seq<Byte>) {
    forall future: seq<bool> :: Decode(table, start, 0, BytesBits(fed) + future) == Bad
  }

  // Whatever comes next, the stream has ended and decodes to this.
  ghost predicate Over(table: Table, start: Core, fed: seq<Byte>, put: seq<Byte>, unread: seq<bool>) {
    forall future: seq<bool> :: Decode(table, start, 0, BytesBits(fed) + future) == Done(put, unread + future)
  }

  lemma LevelStart(table: Table, c: Core)
    ensures Level(table, c, [], [], c, 0, [])
  {
    hide Decode;
    forall future ensures After(table, c, [], [], c, 0, [], future) {
      assert BytesBits([]) + future == [] + future == future;
      NothingPrepended(Decode(table, c, 0, future));
    }
  }

  lemma LevelFed(table: Table, start: Core, fed: seq<Byte>, put: seq<Byte>, c: Core, combined: Word, unread: seq<bool>,
                 s: seq<Byte>)
    requires Level(table, start, fed, put, c, combined, unread)
    ensures Level(table, start, fed + s, put, c, combined, unread + BytesBits(s))
  {
    hide Decode, BytesBits;
    BytesBitsConcat(fed, s);
    forall future ensures After(table, start, fed + s, put, c, combined, unread + BytesBits(s), future) {
      assert BytesBits(fed) + BytesBits(s) + future == BytesBits(fed) + (BytesBits(s) + future);
      assert unread + BytesBits(s) + future == unread + (BytesBits(s) + future);
      assert After(table, start, fed, put, c, combined, unread, BytesBits(s) + future);
    }
  }

  // One wait answered.
  lemma LevelNext(table: Table, start: Core, fed: seq<Byte>, put: seq<Byte>, c: Core, combined: Word, unread: seq<bool>)
    requires Level(table, start, fed, put, c, combined, unread) && Live(c) && Width(c) <= |unread|
    ensures var w := Width(c);
            Answered(table, start, fed, put, combined, Next(c, FromBits(unread[..w])), unread[w..])
  {
    hide Next, Decode, Live, Value, BytesBits, Fine;
    LiveWidth(c);
    var w := Width(c);
    var o := Next(c, FromBits(unread[..w]));
    forall future
      ensures StepAgrees(table, start, fed, put, combined, o, unread[w..], future)
    {
      assert After(table, start, fed, put, c, combined, unread, future);
      StepDecodes(table, c, combined, unread, future);
      assert put + [] == put;
    }
    StepLevel(table, start, fed, put, combined, o, unread[w..]);
  }

  // What one wait's answer leads to is what decoding from the start leads to.
  ghost predicate StepAgrees(table: Table, start: Core, fed: seq<Byte>, put: seq<Byte>, combined: Word, o: Outcome,
                             left: seq<bool>, future: seq<bool>) {
    Decode(table, start, 0, BytesBits(fed) + future) == Prepend(put, StepResult(table, combined, o, left + future))
  }

  ghost function StepResult(table: Table, combined: Word, o: Outcome, bits: seq<bool>): Decoded {
    match o
    case More(d) => Decode(table, d, combined, bits)
    case BlockReady(d) => Decode(table, d, combined, bits)
    case StreamEnd(d) => if Value(combined) == d.storedCombinedCRC then Done([], bits) else Bad
    case Error(_) => Bad
  }

  lemma StepDecodes(table: Table, c: Core, combined: Word, unread: seq<bool>, future: seq<bool>)
    requires Live(c) && Width(c) <= |unread|
    ensures var w := Width(c);
            Decode(table, c, combined, unread + future)
            == StepResult(table, combined, Next(c, FromBits(unread[..w])), unread[w..] + future)
  {
    hide Next, Value, Whole, Content, CheckOf, Sized, LensChecked, Width;
    LiveWidth(c);
    var w := Width(c);
    var bits := unread + future;
    assert bits[..w] == unread[..w] && bits[w..] == unread[w..] + future;
    ToFromBits(unread[..w]);
    NextFine(c, FromBits(unread[..w]));
  }

  lemma StepLevel(table: Table, start: Core, fed: seq<Byte>, put: seq<Byte>, combined: Word, o: Outcome,
                  left: seq<bool>)
    requires forall future :: StepAgrees(table, start, fed, put, combined, o, left, future)
    ensures Answered(table, start, fed, put, combined, o, left)
  {
    hide Decode, Value, BytesBits;
    forall future: seq<bool>
      ensures Decode(table, start, 0, BytesBits(fed) + future)
              == Prepend(put, StepResult(table, combined, o, left + future))
    {
      assert StepAgrees(table, start, fed, put, combined, o, left, future);
    }
    assert put + [] == put;
    if o.More? || o.BlockReady? {
      forall future ensures After(table, start, fed, put, o.c, combined, left, future) {
        assert StepAgrees(table, start, fed, put, combined, o, left, future);
      }
    }
  }

  // A block put out whole and found right.
  lemma LevelBlock(table: Table, start: Core, fed: seq<Byte>, put: seq<Byte>, c: Core, combined: Word,
                   unread: seq<bool>)
    requires Level(table, start, fed, put, c, combined, unread) && c.state == BZ_X_OUTPUT && 0 <= c.origPtr < |c.col|
    requires Whole(BlockOf(c))
    ensures var crc := CheckOf(table, Content(BlockOf(c)));
            if Value(crc) == c.storedBlockCRC
            then Level(table, start, fed, put + Content(BlockOf(c)), c.(state := BZ_X_BLKHDR_1),
                Combine(combined, crc), unread)
            else Wrong(table, start, fed)
  {
    hide Value, Whole, Content, CheckOf, Combine, BytesBits, Spelt, Run;
    var crc := CheckOf(table, Content(BlockOf(c)));
    var d := c.(state := BZ_X_BLKHDR_1);
    forall future: seq<bool>
      ensures Decode(table, start, 0, BytesBits(fed) + future)
              == if Value(crc) == c.storedBlockCRC
                 then Prepend(put + Content(BlockOf(c)), Decode(table, d, Combine(combined, crc),
                     unread + future)) else Bad
    {
      assert After(table, start, fed, put, c, combined, unread, future);
      PrependTwice(put, Content(BlockOf(c)), Decode(table, d, Combine(combined, crc), unread + future));
    }
    if Value(crc) == c.storedBlockCRC {
      forall future ensures After(table, start, fed, put + Content(BlockOf(c)), d, Combine(combined, crc), unread,
          future) {
        assert Decode(table, start, 0, BytesBits(fed) + future)
               == Prepend(put + Content(BlockOf(c)), Decode(table, d, Combine(combined, crc), unread + future));
      }
    }
  }

  lemma LevelCutOff(table: Table, start: Core, fed: seq<Byte>, put: seq<Byte>, c: Core, combined: Word,
                    unread: seq<bool>)
    requires Level(table, start, fed, put, c, combined, unread) && c.state == BZ_X_OUTPUT && 0 <= c.origPtr < |c.col|
    requires !Whole(BlockOf(c))
    ensures Wrong(table, start, fed)
  {
    hide Value, Whole, Content, CheckOf, Combine, BytesBits, Spelt, Run;
    forall future: seq<bool> ensures Decode(table, start, 0, BytesBits(fed) + future) == Bad {
      assert After(table, start, fed, put, c, combined, unread, future);
    }
  }

  // What DState keeps of the stream's and the block's headers.
  datatype StreamFields = StreamFields(blockSize100k: int, storedBlockCRC: int, storedCombinedCRC: int, origPtr: int,
                                       blockRandomised: bool)

  // What it keeps of the maps, selectors, lengths and tables, of the list, and of the column read so far.
  datatype BlockFields = BlockFields(inUse16: seq<bool>, inUse: seq<bool>, selectorMtf: seq<int>, selector: seq<int>,
                                     len: seq<seq<int>>, perm: seq<seq<int>>, list: seq<int>, col: seq<int>)

  // The local variables of BZ2_decompress while it is left.
  datatype SaveArea = SaveArea(i: int, j: int, t: int, nGroups: int, nSelectors: int, groupNo: int, groupPos: int,
      es: int, n: int,
                               curr: int, zn: int, zvec: int)

  const ZEROS := SaveArea(0, 0, 0, 0, 0, 0, 0, 0, 0, 0, 0, 0)

  // Kept fields and local variables together.
  function CoreOf(state: int, s: StreamFields, b: BlockFields, v: SaveArea): Core {
    Core(state, s.blockSize100k, s.storedBlockCRC, s.storedCombinedCRC, s.origPtr, s.blockRandomised,
         v.i, v.j, v.t, v.nGroups, v.nSelectors, v.groupNo, v.groupPos, v.es, v.n, v.curr, v.zn, v.zvec,
         b.inUse16, b.inUse, b.selectorMtf, b.selector, b.len, b.perm, b.list, b.col)
  }

  function StreamOf(c: Core): StreamFields {
    StreamFields(c.blockSize100k, c.storedBlockCRC, c.storedCombinedCRC, c.origPtr, c.randomised)
  }

  function BlockFieldsOf(c: Core): BlockFields {
    BlockFields(c.inUse16, c.inUse, c.selectorMtf, c.selector, c.len, c.perm, c.list, c.col)
  }

  function SavedOf(c: Core): SaveArea {
    SaveArea(c.i, c.j, c.t, c.nGroups, c.nSelectors, c.groupNo, c.groupPos, c.es, c.weight, c.curr, c.zn, c.zvec)
  }

  const NO_STREAM := StreamFields(0, 0, 0, 0, false)

  function NoBlock(): BlockFields {
    BlockFields([], [], [], [], [], seq(6, t => Rep(0, BZ_MAX_ALPHA_SIZE)), [], [])
  }

  // A decoder that has read nothing.
  function Start(): Core {
    CoreOf(BZ_X_MAGIC_1, NO_STREAM, NoBlock(), ZEROS)
  }

  // Saving and restoring lose nothing.
  lemma SavedRestored(c: Core)
    ensures CoreOf(c.state, StreamOf(c), BlockFieldsOf(c), SavedOf(c)) == c
  {
  }

  lemma FirstSaved(c: Core, s: StreamFields, b: BlockFields)
    requires c == CoreOf(BZ_X_MAGIC_1, s, b, ZEROS)
    ensures StreamOf(c) == s && BlockFieldsOf(c) == b && SavedOf(c) == ZEROS
  {
  }

  // The fields read while a block is put out.
  lemma CoreParts(state: int, s: StreamFields, b: BlockFields, v: SaveArea)
    ensures var c := CoreOf(state, s, b, v);
            c.state == state && c.origPtr == s.origPtr && c.col == b.col && c.storedBlockCRC == s.storedBlockCRC
            && c.storedCombinedCRC == s.storedCombinedCRC && c.randomised == s.blockRandomised
  {
  }

  lemma NextBlock(state: int, s: StreamFields, b: BlockFields, v: SaveArea)
    ensures CoreOf(BZ_X_BLKHDR_1, s, b, v) == CoreOf(state, s, b, v).(state := BZ_X_BLKHDR_1)
  {
  }

  class DState {
    const crcTable: Table
    const smallDecompress: bool
    const r: BitReader
    const m: SymbolReader

    // The label waited at, what is kept of the stream and of the block, and the save area.
    var state: int
    var stream: StreamFields
    var block: BlockFields
    var save: SaveArea

    // The block being put out.
    var tt: array<int>
    var ll16: array<int>
    var ll4: array<int>
    var cftab: array<int>
    var tPos: nat
    var saveNblock: nat
    var u: Unpacking
    var calculatedCombinedCRC: Word

    // The decoder at the start, all input taken, all finished blocks put out, and what was put out of this one.
    ghost var start: Core
    ghost var fed: seq<Byte>
    ghost var put: seq<Byte>
    ghost var part: seq<Byte>
    ghost var cycle: set<int>

    // BZ2_bzDecompressInit
    constructor (table: Table, small: bool)
      ensures crcTable == table && Valid() && start == Start() && Starting(start) && state == BZ_X_MAGIC_1
      ensures fed == [] && put == [] && part == []
      ensures fresh(r) && fresh(m) && fresh(m.Parts())
    {
      crcTable, smallDecompress := table, small;
      r := new BitReader();
      m := new SymbolReader();
      state, stream, block := BZ_X_MAGIC_1, NO_STREAM, NoBlock();
      save := ZEROS;
      var none := new int[0];
      tt, ll16, ll4, cftab := none, none, none, none;
      tPos, saveNblock, u, calculatedCombinedCRC := 0, 0, Unpacking(0, 0, 0, 0, RAND_START, INITIAL), 0;
      start := Start();
      fed, put, part, cycle := [], [], [], {};
      new;
      LevelStart(crcTable, start);
    }

    // ---- the save area ----------------------------------------------------

    // What BZ2_decompress goes on with: at the first label its local variables begin at zero.
    function Restored(): Core
      reads this`state, this`stream, this`block, this`save
    {
      CoreOf(state, stream, block, if state == BZ_X_MAGIC_1 then ZEROS else save)
    }

    // save_state_and_return: what is restored next time is what is left now.
    method Save(c: Core)
      requires c.state == BZ_X_MAGIC_1 ==> c == Restored()
      modifies this`state, this`stream, this`block, this`save
      ensures Restored() == c && state == c.state
    {
      hide CoreOf;
      Fields();
      SavedRestored(c);
      if c.state == BZ_X_MAGIC_1 {
        FirstSaved(c, stream, block);
      }
      state, stream, block, save := c.state, StreamOf(c), BlockFieldsOf(c), SavedOf(c);
    }

    // The fields read while a block is put out.
    lemma Fields()
      ensures Restored().state == state && Restored().origPtr == stream.origPtr && Restored().col == block.col
      ensures Restored().storedBlockCRC == stream.storedBlockCRC
      ensures Restored().storedCombinedCRC == stream.storedCombinedCRC
      ensures Restored().randomised == stream.blockRandomised
    {
      CoreParts(state, stream, block, if state == BZ_X_MAGIC_1 then ZEROS else save);
    }

    // ---- what holds between calls -----------------------------------------

    function InUse(): Vector
      reads this
    {
      if smallDecompress then Small(ll16, ll4, cftab) else Fast(tt)
    }

    // The vector in use and the walk through it.
    ghost predicate Walking()
      reads this, tt, ll16, ll4, cftab
    {
      && 0 <= stream.origPtr
      && Walks(InUse(), stream.blockRandomised, AsBytes(block.col), stream.origPtr, tPos, u, cycle)
    }

    ghost predicate Output()
      reads this, tt, ll16, ll4, cftab
    {
      && ReadyForOutput(Restored()) && saveNblock == |block.col| && Walking()
      && Expanding(BlockOf(Restored()), u, part) && u.crc == UpdateAll(crcTable, INITIAL, part)
    }

    // A decoder whose variables are those of c stands where what came in and went out leave it.
    ghost predicate Standing(c: Core)
      reads this, r
    {
      r.Valid() && Level(crcTable, start, fed, put, c, calculatedCombinedCRC, r.Unread())
    }

    // Between two waits.
    ghost predicate Running(c: Core)
      reads m, m.Parts()
    {
      Live(c) && m.Laid() && (AmongSymbols(c) ==> m.For(c))
    }

    ghost predicate Valid()
      reads this, r, m, m.Parts(), tt, ll16, ll4, cftab
    {
      && r.Valid() && m.Laid()
      && if state == BZ_X_IDLE then Over(crcTable, start, fed, put, r.Unread()) && part == []
         else Standing(Restored()) && if state == BZ_X_OUTPUT then Output() else Running(Restored()) && part == []
    }

    // There are too few bits to go on with.
    ghost predicate Waiting()
      reads this, r
      requires r.Valid()
    {
      Live(Restored()) && |r.Unread()| < Width(Restored())
    }

    // ---- reading a block --------------------------------------------------

    method MakeVector(l: seq<Byte>, origPtr: nat)
      requires origPtr < |l| <= 900000
      modifies this`tt, this`ll16, this`ll4, this`cftab, this`tPos, this`cycle
      ensures WalkingIn(InUse(), l, origPtr, tPos, 0, cycle)
    {
      hide IsFastVector, IsSmallVector, IsCftab, WalkingFast, WalkingSmall;
      if smallDecompress {
        ll16, ll4, cftab, tPos, cycle := SetUpSmall(l, origPtr);
      } else {
        tt, tPos := SetUpFast(l, origPtr);
      }
    }

    // A block is ready: its vector is made, and its first byte fetched.
    method SetUpOutput()
      requires ReadyForOutput(Restored()) && part == []
      modifies this`tt, this`ll16, this`ll4, this`cftab, this`tPos, this`saveNblock, this`u, this`cycle
      ensures Output()
    {
      hide WalkingIn, Spelt, Content, Fresh, Whole, PermRoom, CoreOf, Expanding, Updated;
      Fields();
      var l: seq<Byte>, origPtr := block.col, stream.origPtr;
      assert l == AsBytes(block.col);
      saveNblock := |l|;
      MakeVector(l, origPtr);
      u := Unpacking(0, 0, 0, 0, RAND_START, INITIAL);
      var k0;
      k0, tPos, u := Fetch(InUse(), stream.blockRandomised, tPos, u, l, origPtr, cycle);
      u := u.(k0 := k0);
      BlockBegins(BlockOf(Restored()), u);
    }

    // BZ2_decompress: on to the next wait for which there is no input, the end of a block, of the stream, or an error.
    method Decompress(strm: E.BzStream) returns (code: int)
      requires Standing(Restored()) && Running(Restored()) && part == []
      modifies this, r, m, m.Parts(), strm`nextIn
      ensures part == [] && start == old(start) && put == old(put) && r.Valid() && m.Laid()
      ensures fed + strm.nextIn == old(fed + strm.nextIn)
      ensures calculatedCombinedCRC == old(calculatedCombinedCRC)
      ensures code == BZ_OK && state == BZ_X_OUTPUT ==>
                8 * |strm.nextIn| + |r.Unread()| < old(8 * |strm.nextIn| + |r.Unread()|)
      ensures code == BZ_OK ==> state != BZ_X_IDLE && Standing(Restored())
      ensures code == BZ_OK && state == BZ_X_OUTPUT ==> Output()
      ensures code == BZ_OK && state != BZ_X_OUTPUT ==> Running(Restored()) && Waiting() && strm.nextIn == []
      ensures code == BZ_STREAM_END && Value(calculatedCombinedCRC) == stream.storedCombinedCRC ==>
                Over(crcTable, start, fed, put, r.Unread())
      ensures code == BZ_STREAM_END && Value(calculatedCombinedCRC) != stream.storedCombinedCRC ==>
                Wrong(crcTable, start, fed)
      ensures code == BZ_STREAM_END ==> state == BZ_X_IDLE
      ensures code != BZ_OK && code != BZ_STREAM_END ==>
                DataError(code) && Wrong(crcTable, start, fed) && state >= BZ_X_MAGIC_1
    {
      hide Next, Level, Value, Over, Wrong, InWord, Sized, LensChecked, Width, Output, SymbolReader.For, CoreOf;
      var c := Restored();
      while true
        invariant Standing(c) && Running(c) && part == [] && start == old(start) && put == old(put)
        invariant c.state == BZ_X_MAGIC_1 ==> c == Restored()
        invariant fed + strm.nextIn == old(fed + strm.nextIn) && calculatedCombinedCRC == old(calculatedCombinedCRC)
        invariant 8 * |strm.nextIn| + |r.Unread()| <= old(8 * |strm.nextIn| + |r.Unread()|)
        decreases 8 * |strm.nextIn| + |r.Unread()|
      {
        var got, o := Advance(c, strm);
        if !got {
          Save(c);
          return BZ_OK;
        }
        if !o.More? {
          code := Leave(c, o);
          return;
        }
        c := o.c;
      }
    }

    // One wait, if there are bits enough, and what they lead to.
    method Advance(c: Core, strm: E.BzStream) returns (got: bool, o: Outcome)
      requires Standing(c) && Running(c) && part == []
      modifies this`fed, r, m, m.Parts(), strm`nextIn
      ensures r.Valid() && fed + strm.nextIn == old(fed + strm.nextIn)
      ensures !got ==> Standing(c) && Running(c) && strm.nextIn == [] && |r.Unread()| < Width(c)
      ensures got ==> Answered(crcTable, start, fed, put, calculatedCombinedCRC, o, r.Unread()) && Fine(o) && m.Laid()
      ensures got && o.More? ==> Running(o.c)
      ensures got ==> 8 * |strm.nextIn| + |r.Unread()| < old(8 * |strm.nextIn| + |r.Unread()|)
    {
      hide Next, Level, Value, Over, Wrong, InWord, Sized, LensChecked, Width, SymbolReader.For, Answered;
      LiveWidth(c);
      var v;
      got, v := Get(c, strm, Width(c));
      o := Error(BZ_OK);
      if got {
        NextFine(c, v);
        o := m.Answer(c, v);
      }
    }

    // save_state_and_return, once a block is ready, the stream is over, or it is wrong.
    method Leave(c: Core, o: Outcome) returns (code: int)
      requires r.Valid() && Answered(crcTable, start, fed, put, calculatedCombinedCRC, o, r.Unread()) && Fine(o)
      requires !o.More?
      requires c.state >= BZ_X_MAGIC_1 && part == [] && (c.state == BZ_X_MAGIC_1 ==> c == Restored())
      modifies this`state, this`stream, this`block, this`save,
               this`tt, this`ll16, this`ll4, this`cftab, this`tPos, this`saveNblock, this`u, this`cycle
      ensures code == BZ_OK ==> state == BZ_X_OUTPUT && Standing(Restored()) && Output()
      ensures code == BZ_STREAM_END && Value(calculatedCombinedCRC) == stream.storedCombinedCRC ==>
                Over(crcTable, start, fed, put, r.Unread())
      ensures code == BZ_STREAM_END && Value(calculatedCombinedCRC) != stream.storedCombinedCRC ==>
                Wrong(crcTable, start, fed)
      ensures code == BZ_STREAM_END ==> state == BZ_X_IDLE
      ensures code != BZ_OK && code != BZ_STREAM_END ==>
                DataError(code) && Wrong(crcTable, start, fed) && state >= BZ_X_MAGIC_1
    {
      hide Level, Value, Over, Wrong, InWord, Sized, Output, CoreOf;
      match o {
        case BlockReady(d) =>
          Save(d);
          SetUpOutput();
          code := BZ_OK;
        case StreamEnd(d) =>
          Save(d);
          Fields();
          code := BZ_STREAM_END;
        case Error(e) =>
          Save(c);
          code := e;
      }
    }

    // GET_BITS, and what its bits lead to.
    method Get(c: Core, strm: E.BzStream, n: nat) returns (got: bool, v: nat)
      requires Standing(c) && Live(c) && n == Width(c) && part == []
      modifies this`fed, r, strm`nextIn
      ensures r.Valid() && fed + strm.nextIn == old(fed + strm.nextIn)
      ensures !got ==> Standing(c) && strm.nextIn == [] && |r.Unread()| < n
      ensures got ==> v < Pow2(n) && Answered(crcTable, start, fed, put, calculatedCombinedCRC, Next(c, v), r.Unread())
      ensures got ==> 8 * |strm.nextIn| + |r.Unread()| < old(8 * |strm.nextIn| + |r.Unread()|)
    {
      hide Next, Live, Level, Value, InWord, Width, BytesBits, FromBits;
      LiveWidth(c);
      ghost var unread, s := r.Unread(), strm.nextIn;
      var used;
      got, v, used := r.GetBits(n, strm.nextIn);
      LevelFed(crcTable, start, fed, put, c, calculatedCombinedCRC, unread, s[..used]);
      ghost var all := unread + BytesBits(s[..used]);
      fed := fed + s[..used];
      strm.nextIn := strm.nextIn[used..];
      assert s == s[..used] + s[used..];
      if got {
        LevelNext(crcTable, start, fed, put, c, calculatedCombinedCRC, all);
        ToFromBits(all[..n]);
      } else {
        assert s[..used] == s;
      }
    }

    // ---- putting a block out ----------------------------------------------

    // unRLE_obuf_to_output, through whichever vector there is.
    method Unpack(availOut: nat) returns (corrupt: bool, bytes: seq<Byte>)
      requires Output() && state == BZ_X_OUTPUT
      modifies this`tPos, this`u
      ensures |bytes| <= availOut && u.crc == UpdateAll(crcTable, old(u.crc), bytes)
      ensures corrupt ==> !Whole(BlockOf(Restored()))
      ensures corrupt && !smallDecompress && !stream.blockRandomised ==> bytes == [] && u == old(u) && tPos == old(tPos)
      ensures !corrupt ==> Walking() && Expanding(BlockOf(Restored()), u, part + bytes)
      ensures !corrupt ==> |bytes| == availOut || Finished(BlockOf(Restored()), u)
    {
      hide WalkingIn, Spelt, Whole, Expanding, AllBytes, UpdateAll, PermRoom, CoreOf;
      Fields();
      ghost var l, origPtr := AsBytes(block.col), stream.origPtr;
      if smallDecompress || stream.blockRandomised {
        corrupt, tPos, u, bytes := UnRle(crcTable, InUse(), stream.blockRandomised, tPos, u, availOut, saveNblock, l,
            origPtr, cycle, part);
      } else {
        corrupt, bytes := UnpackFast(availOut, l, origPtr);
      }
    }

    // The fast form works on copies, and gives up without putting them back.
    method UnpackFast(availOut: nat, ghost l: seq<Byte>, ghost origPtr: nat) returns (corrupt: bool, bytes: seq<Byte>)
      requires !smallDecompress && !stream.blockRandomised && origPtr < |l| == saveNblock
      requires Walks(InUse(), false, l, origPtr, tPos, u, cycle) && Expanding(Spelt(l, origPtr, false), u, part)
      modifies this`tPos, this`u
      ensures |bytes| <= availOut && u.crc == UpdateAll(crcTable, old(u.crc), bytes)
      ensures corrupt ==> !Whole(Spelt(l, origPtr, false)) && bytes == [] && u == old(u) && tPos == old(tPos)
      ensures !corrupt ==> Walks(InUse(), false, l, origPtr, tPos, u, cycle)
      ensures !corrupt ==> Expanding(Spelt(l, origPtr, false), u, part + bytes)
      ensures !corrupt ==> |bytes| == availOut || Finished(Spelt(l, origPtr, false), u)
    {
      hide IsFastVector, WalkingFast, Walked, Whole, Expanding, UpdateAll;
      var cTPos, cU, cBytes;
      corrupt, cTPos, cU, cBytes := UnRleFast(crcTable, tt, tPos, u, availOut, saveNblock, l, origPtr, part);
      bytes := [];
      NothingChecked(crcTable, u.crc);
      if !corrupt {
        tPos, u, bytes := cTPos, cU, cBytes;
      }
    }

    // As much of the block as there is room for.
    method PutOutput(strm: E.BzStream) returns (corrupt: bool, ghost out: seq<Byte>)
      requires Standing(Restored()) && Output() && state == BZ_X_OUTPUT
      modifies this`tPos, this`u, this`part, strm`availOut, strm`nextOut
      ensures strm.nextOut == old(strm.nextOut) + out && strm.availOut == old(strm.availOut) - |out|
      ensures part == old(part) + out
      ensures corrupt ==> Wrong(crcTable, start, fed)
      ensures !corrupt ==> Standing(Restored()) && Output() && (strm.availOut == 0 || Finished(BlockOf(Restored()), u))
    {
      hide WalkingIn, Spelt, Whole, Expanding, Level, Wrong, InWord, AllBytes, UpdateAll, PermRoom, CoreOf;
      ghost var part0 := part;
      var bytes;
      corrupt, bytes := Unpack(strm.availOut);
      if corrupt {
        LevelCutOff(crcTable, start, fed, put, Restored(), calculatedCombinedCRC, r.Unread());
      }
      UpdateConcat(crcTable, INITIAL, part0, bytes);
      out := bytes;
      part := part + bytes;
      strm.nextOut := strm.nextOut + bytes;
      strm.availOut := strm.availOut - |bytes|;
    }

    lemma OutputSize()
      requires Output()
      ensures 0 <= stream.origPtr < |block.col| && |BlockOf(Restored())| == saveNblock && state == BZ_X_OUTPUT
    {
    }

    // A block is out: its check, and on to the next.
    method FinishBlock() returns (ok: bool)
      requires Standing(Restored()) && Output() && state == BZ_X_OUTPUT && Finished(BlockOf(Restored()), u) && m.Laid()
      modifies this`u, this`state, this`calculatedCombinedCRC, this`put, this`part
      ensures !ok ==> Wrong(crcTable, start, fed) && put == old(put) && part == old(part)
      ensures ok ==> Standing(Restored()) && Running(Restored()) && part == [] && put == old(put) + old(part)
      ensures ok ==> state == BZ_X_BLKHDR_1
    {
      hide Spelt, Content, Fresh, Whole, Expanding, Level, Wrong, InWord, AllBytes, Value, Finalised, Combine,
           Walking, PermRoom, CoreOf;
      Fields();
      ghost var c := Restored();
      AllPutOut(BlockOf(c), u, part);
      LevelBlock(crcTable, start, fed, put, c, calculatedCombinedCRC, r.Unread());
      u := u.(crc := Finalised(u.crc));
      if Value(u.crc) != stream.storedBlockCRC {
        return false;
      }
      calculatedCombinedCRC := Combine(calculatedCombinedCRC, u.crc);
      put := put + part;
      part := [];
      state := BZ_X_BLKHDR_1;
      NextBlock(old(state), stream, block, save);
      ok := true;
    }

    // The part of the loop in BZ2_bzDecompress that puts a block out: the room is full, the block is found wrong, or
    // it is finished.
    method OutputPart(strm: E.BzStream) returns (stop: bool, code: int, ghost out: seq<Byte>)
      requires Valid() && state == BZ_X_OUTPUT
      modifies this, strm`availOut, strm`nextOut
      ensures fed == old(fed) && start == old(start) && r.Valid()
      ensures strm.nextOut == old(strm.nextOut) + out && strm.availOut == old(strm.availOut) - |out|
      ensures stop ==> code == BZ_OK || DataError(code)
      ensures stop && code == BZ_OK ==> Valid() && state == BZ_X_OUTPUT && strm.availOut == 0
      ensures stop && code == BZ_OK ==> u.used != saveNblock + 1 || u.len != 0
      ensures stop && code < 0 ==> Wrong(crcTable, start, fed)
      ensures !stop ==> Valid() && state != BZ_X_OUTPUT && state != BZ_X_IDLE && part == []
      ensures !stop || code == BZ_OK ==> put + part == old(put + part) + out
    {
      hide Standing, Running, Level, Wrong, Over, Output, Live, Value, SymbolReader.For, CoreOf, BlockOf;
      var corrupt;
      corrupt, out := PutOutput(strm);
      assert old(put) + (old(part) + out) == old(put) + old(part) + out;
      if corrupt {
        return true, BZ_DATA_ERROR, out;
      }
      OutputSize();
      if u.used != saveNblock + 1 || u.len != 0 {
        return true, BZ_OK, out;
      }
      var ok := FinishBlock();
      assert put + [] == put;
      return !ok, BZ_DATA_ERROR, out;
    }

    // BZ2_bzDecompress
    method BzDecompress(strm: E.BzStream) returns (code: int, ghost out: seq<Byte>)
      requires Valid()
      modifies this, r, m, m.Parts(), strm
      ensures fed + strm.nextIn == old(fed + strm.nextIn) && start == old(start)
      ensures strm.nextOut == old(strm.nextOut) + out && |out| + strm.availOut == old(strm.availOut)
      ensures code >= 0 ==> Valid() && put + part == old(put + part) + out
      ensures code in {BZ_OK, BZ_STREAM_END, E.BZ_SEQUENCE_ERROR} || DataError(code)
      ensures code == BZ_OK ==>
                Valid() && if state == BZ_X_OUTPUT then strm.availOut == 0 else strm.nextIn == [] && Waiting()
      ensures code >= 0 ==> r.Valid()
      ensures code == BZ_OK ==> state != BZ_X_IDLE
      ensures code == BZ_OK && state == BZ_X_OUTPUT ==> u.used != saveNblock + 1 || u.len != 0
      ensures code == BZ_STREAM_END ==> state == BZ_X_IDLE && Over(crcTable, start, fed, put + part, r.Unread())
      ensures code == E.BZ_SEQUENCE_ERROR <==> old(state) == BZ_X_IDLE
      ensures code == E.BZ_SEQUENCE_ERROR ==> out == []
      ensures DataError(code) ==> Wrong(crcTable, start, fed)
    {
      hide Standing, Running, Level, Wrong, Over, Output, Live, Value, Width, SymbolReader.For, CoreOf, BlockOf;
      out := [];
      assert put + part + [] == put + part;
      if state == BZ_X_IDLE {
        return E.BZ_SEQUENCE_ERROR, out;
      }
      ghost var sent := put + part;
      while true
        invariant Valid() && state != BZ_X_IDLE && start == old(start)
        invariant fed + strm.nextIn == old(fed + strm.nextIn)
        invariant strm.nextOut == old(strm.nextOut) + out && |out| + strm.availOut == old(strm.availOut)
        invariant put + part == sent + out
        decreases 8 * |strm.nextIn| + |r.Unread()|
      {
        if state == BZ_X_OUTPUT {
          var stop;
          ghost var more;
          stop, code, more := OutputPart(strm);
          assert sent + out + more == sent + (out + more);
          assert old(strm.nextOut) + out + more == old(strm.nextOut) + (out + more);
          out := out + more;
          if stop {
            return code, out;
          }
        }
        code := Decompress(strm);
        if code == BZ_STREAM_END {
          assert put + [] == put;
          if Value(calculatedCombinedCRC) != stream.storedCombinedCRC {
            return BZ_DATA_ERROR, out;
          }
          return code, out;
        }
        if state != BZ_X_OUTPUT {
          return code, out;
        }
      }
    }
  }

  // What the answer to a wait leads to.
  ghost predicate Answered(table: Table, start: Core, fed: seq<Byte>, put: seq<Byte>, combined: Word, o: Outcome,
                           left: seq<bool>) {
    match o
    case More(d) => Level(table, start, fed, put, d, combined, left)
    case BlockReady(d) => Level(table, start, fed, put, d, combined, left)
    case StreamEnd(d) => if Value(combined) == d.storedCombinedCRC then Over(table, start, fed, put,
        left) else Wrong(table, start, fed)
    case Error(code) => Wrong(table, start, fed)
  }

  lemma BlockBegins(b: seq<Byte>, u: Unpacking)
    requires |b| > 0 && u.len == 0 && u.used == 1 && u.k0 == b[0]
    ensures Expanding(b, u, [])
  {
    assert b[..0] == [];
  }
}
