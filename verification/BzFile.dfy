// The library's own callers: a file written and read piece by piece, and a buffer compressed or decompressed in one
// call. Compressing always comes to its end, and decompressing what it made gives everything back.
module BzFile {
  import opened Common
  import opened BitIO
  import opened Crc
  import opened DecodeMachine
  import opened DecodeInvariant
  import opened StreamDecoding
  import opened DecompressStream
  import opened RoundTrip
  import E = CompressStream

  const BZ_MAX_UNUSED := 5000

  const BZ_UNEXPECTED_EOF := -7
  const BZ_OUTBUFF_FULL := -8

  // ---- calls with room ----------------------------------------------------

  // Running or finishing, with nothing the caller has to put right.
  ghost predicate InOrder(s: E.EState, strm: E.BzStream)
    reads s, s.block, s.inUse, s.w, s.w.zbits, strm
  {
    && s.Steady() && s.Owing() && s.Bounds()
    && (s.mode == E.BZ_M_RUNNING || (s.mode == E.BZ_M_FINISHING && s.availInExpect == |strm.nextIn|))
  }

  // One call with an output buffer of its own: running, with input to take, it cannot fail.
  method RunCall(s: E.EState, strm: E.BzStream, room: nat) returns (ghost out: seq<Byte>)
    requires InOrder(s, strm) && s.mode == E.BZ_M_RUNNING && strm.nextIn != [] && room > 0
    modifies s, s.block, s.inUse, s.w, s.w.zbits, strm
    ensures InOrder(s, strm) && s.mode == E.BZ_M_RUNNING
    ensures s.consumed + strm.nextIn == old(s.consumed + strm.nextIn)
    ensures strm.nextOut == out && |out| + strm.availOut == room && s.Emitted() == old(s.Emitted()) + out
    ensures strm.nextIn != [] ==> s.Nearer(strm, old(|strm.nextIn|), old(s.Rank()), old(s.Waiting()))
  {
    hide E.EState.Steady, E.EState.Emitted, E.EState.Owing, E.EState.Rank, E.EState.Waiting, E.EState.Nearer,
         E.EState.Complete, E.EState.Flushed;
    strm.availOut, strm.nextOut := room, [];
    var ret;
    ret, out := s.BzCompress(strm, E.BZ_RUN);
    assert ret == E.BZ_RUN_OK;
  }

  // Finishing, it ends the stream or fills the room.
  method FinishCall(s: E.EState, strm: E.BzStream, room: nat) returns (ret: int, ghost out: seq<Byte>)
    requires InOrder(s, strm) && room > 0
    modifies s, s.block, s.inUse, s.w, s.w.zbits, strm
    ensures ret == E.BZ_FINISH_OK || ret == E.BZ_STREAM_END
    ensures s.consumed + strm.nextIn == old(s.consumed + strm.nextIn)
    ensures s.Bounds() && strm.nextOut == out && |out| + strm.availOut == room && s.Emitted() == old(s.Emitted()) + out
    ensures ret == E.BZ_STREAM_END ==> s.Complete() && strm.nextIn == []
    ensures ret == E.BZ_FINISH_OK ==> InOrder(s, strm)
    ensures ret == E.BZ_FINISH_OK ==> s.Nearer(strm, old(|strm.nextIn|), old(s.Rank()), old(s.Waiting()))
  {
    hide E.EState.Steady, E.EState.Emitted, E.EState.Owing, E.EState.Rank, E.EState.Waiting, E.EState.Nearer,
         E.EState.Complete;
    strm.availOut, strm.nextOut := room, [];
    ret, out := s.BzCompress(strm, E.BZ_FINISH);
  }

  // ---- all of it, with whatever room there is at each call -----------------

  // Takes all input in, with room(k) for output at call k.
  method TakeAll(s: E.EState, strm: E.BzStream, room: nat -> nat, k0: nat, z0: seq<Byte>) returns (k: nat, z: seq<Byte>)
    requires InOrder(s, strm) && s.mode == E.BZ_M_RUNNING && s.Emitted() == z0 && forall i: nat :: room(i) > 0
    modifies s, s.block, s.inUse, s.w, s.w.zbits, strm
    ensures InOrder(s, strm) && s.mode == E.BZ_M_RUNNING && strm.nextIn == [] && s.Emitted() == z
    ensures s.consumed == old(s.consumed + strm.nextIn)
  {
    hide E.EState.Steady, E.EState.Owing, E.EState.Emitted, E.EState.Rank, E.EState.Waiting;
    k, z := k0, z0;
    while strm.nextIn != []
      invariant InOrder(s, strm) && s.mode == E.BZ_M_RUNNING && s.Emitted() == z
      invariant s.consumed + strm.nextIn == old(s.consumed + strm.nextIn)
      decreases |strm.nextIn|, s.Rank(), s.Waiting()
    {
      ghost var out := RunCall(s, strm, room(k));
      z := z + strm.nextOut;
      k := k + 1;
    }
    assert s.consumed + [] == s.consumed;
  }

  // Finishes the stream.
  method FinishAll(s: E.EState, strm: E.BzStream, room: nat -> nat, k0: nat, z0: seq<Byte>) returns (z: seq<Byte>)
    requires InOrder(s, strm) && strm.nextIn == [] && s.Emitted() == z0 && forall i: nat :: room(i) > 0
    modifies s, s.block, s.inUse, s.w, s.w.zbits, strm
    ensures s.Complete() && s.Bounds() && s.Emitted() == z && s.consumed == old(s.consumed)
  {
    hide E.EState.Steady, E.EState.Owing, E.EState.Emitted, E.EState.Rank, E.EState.Waiting, E.EState.Complete;
    z := z0;
    var k, ret := k0, E.BZ_FINISH_OK;
    while ret != E.BZ_STREAM_END
      invariant ret == E.BZ_FINISH_OK ==> InOrder(s, strm)
      invariant ret == E.BZ_FINISH_OK || (ret == E.BZ_STREAM_END && s.Complete())
      invariant s.Bounds() && s.Emitted() == z && s.consumed + strm.nextIn == old(s.consumed + strm.nextIn)
      invariant strm.nextIn == []
      decreases if ret == E.BZ_STREAM_END then 0 else 1, |strm.nextIn|, s.Rank(), s.Waiting()
    {
      ghost var out;
      ret, out := FinishCall(s, strm, room(k));
      z := z + strm.nextOut;
      k := k + 1;
    }
    assert s.consumed + [] == s.consumed;
  }

  function Flat(pieces: seq<seq<Byte>>): seq<Byte> {
    if pieces == [] then [] else Flat(pieces[..|pieces| - 1]) + pieces[|pieces| - 1]
  }

  // Any input, in any pieces, with any room at each call: the stream comes to its end, and decodes to the input.
  method CompressAll(table: Table, blockSize100k: nat, workFactor: nat, pieces: seq<seq<Byte>>, room: nat -> nat)
    returns (z: seq<Byte>, ghost s: E.EState)
    requires 1 <= blockSize100k <= 9 && workFactor <= 250 && forall i: nat :: room(i) > 0
    ensures fresh(s) && s.Complete() && s.crcTable == table && s.consumed == Flat(pieces) && s.Emitted() == z
    ensures forall c :: Starting(c) ==> Decodes(table, c, z, Flat(pieces))
  {
    hide E.EState.Steady, E.EState.Owing, E.EState.Emitted, E.EState.Complete, Decodes;
    var st := new E.EState(table, blockSize100k, workFactor);
    var strm := new E.BzStream([], 0);
    var k := 0;
    z := [];
    for i := 0 to |pieces|
      invariant InOrder(st, strm) && st.mode == E.BZ_M_RUNNING && st.Emitted() == z && st.consumed == Flat(pieces[..i])
    {
      strm.nextIn := pieces[i];
      assert pieces[..i + 1][..i] == pieces[..i];
      k, z := TakeAll(st, strm, room, k, z);
    }
    assert pieces[..|pieces|] == pieces;
    strm.nextIn := [];
    z := FinishAll(st, strm, room, k, z);
    s := st;
    forall c | Starting(c) ensures Decodes(table, c, z, Flat(pieces)) {
      DecodesAll(s, c);
    }
  }

  // These bytes are a stream that stands for x, with less than a byte left over.
  ghost predicate Decodes(table: Table, c: Core, z: seq<Byte>, x: seq<Byte>) {
    var d := Decode(table, c, 0, BytesBits(z));
    d.Done? && d.out == x && |d.left| < 8
  }

  lemma DecodesAll(s: E.EState, c: Core)
    requires s.Complete() && Starting(c)
    ensures Decodes(s.crcTable, c, s.Emitted(), s.consumed)
  {
    DecodeEncode(s, c);
  }

  // ---- a file being written -----------------------------------------------

  class WriteFile {
    const s: E.EState
    const strm: E.BzStream
    var handle: seq<Byte>
    var lastErr: int

    // All that was given to be written.
    ghost var given: seq<Byte>

    ghost function Parts(): set<object> {
      {s, s.block, s.inUse, s.w, s.w.zbits, strm}
    }

    ghost predicate Open()
      reads this, Parts()
    {
      && InOrder(s, strm) && s.mode == E.BZ_M_RUNNING && lastErr == E.BZ_OK
      && s.Emitted() == handle && s.consumed == given
    }

    // BZ2_bzWriteOpen, given parameters in range.
    constructor (table: Table, blockSize100k: nat, workFactor: nat)
      requires 1 <= blockSize100k <= 9 && workFactor <= 250
      ensures Open() && given == [] && handle == [] && s.crcTable == table && fresh(Parts())
    {
      hide E.EState.Steady, E.EState.Owing, E.EState.Emitted;
      s := new E.EState(table, blockSize100k, workFactor);
      strm := new E.BzStream([], 0);
      handle, lastErr, given := [], E.BZ_OK, [];
    }

    method BzWrite(buf: seq<Byte>)
      requires Open()
      modifies this, Parts()
      ensures Open() && given == old(given) + buf && old(handle) <= handle
    {
      hide E.EState.Steady, E.EState.Owing, E.EState.Emitted, E.EState.Rank, E.EState.Waiting;
      if buf == [] {
        assert given + buf == given;
        return;
      }
      strm.nextIn := buf;
      given := given + buf;
      while true
        invariant InOrder(s, strm) && s.mode == E.BZ_M_RUNNING && lastErr == E.BZ_OK && strm.nextIn != []
        invariant given == old(given) + buf
        invariant s.Emitted() == handle && old(handle) <= handle && s.consumed + strm.nextIn == given
        decreases |strm.nextIn|, s.Rank(), s.Waiting()
      {
        ghost var out := RunCall(s, strm, BZ_MAX_UNUSED);
        if strm.availOut < BZ_MAX_UNUSED {
          handle := handle + strm.nextOut;
        }
        if strm.nextIn == [] {
          assert s.consumed + [] == s.consumed;
          return;
        }
      }
    }

    // BZ2_bzWriteClose64, the file not abandoned: what it then holds decodes to all that was given.
    method BzWriteClose()
      requires Open()
      modifies this, Parts()
      ensures s.Complete() && s.Bounds() && s.Emitted() == handle && s.consumed == given == old(given)
      ensures lastErr == E.BZ_OK && old(handle) <= handle
      ensures forall c :: Starting(c) ==> Decodes(s.crcTable, c, handle, given)
    {
      hide E.EState.Steady, E.EState.Owing, E.EState.Emitted, E.EState.Rank, E.EState.Waiting, E.EState.Complete,
           Decodes;
      strm.nextIn := [];
      assert s.consumed + [] == given;
      while true
        invariant InOrder(s, strm) && lastErr == E.BZ_OK && strm.nextIn == [] && given == old(given)
        invariant s.Emitted() == handle && old(handle) <= handle && s.consumed + strm.nextIn == given
        decreases |strm.nextIn|, s.Rank(), s.Waiting()
      {
        var ret;
        ghost var out;
        ret, out := FinishCall(s, strm, BZ_MAX_UNUSED);
        if strm.availOut < BZ_MAX_UNUSED {
          handle := handle + strm.nextOut;
        }
        if ret == E.BZ_STREAM_END {
          break;
        }
      }
      assert s.consumed + [] == s.consumed;
      assert s.Emitted() == handle && s.consumed == given;
      forall c | Starting(c) ensures Decodes(s.crcTable, c, handle, given) {
        DecodesAll(s, c);
      }
    }
  }

  // ---- what a decoder's return codes say of the whole input -----------------

  lemma EndMeans(d: DState, rest: seq<Byte>, x: seq<Byte>, unread: seq<bool>)
    requires Over(d.crcTable, d.start, d.fed, x, unread)
    ensures Decode(d.crcTable, d.start, 0, BytesBits(d.fed + rest)) == Done(x, unread + BytesBits(rest))
  {
    hide Decode, BytesBits;
    BytesBitsConcat(d.fed, rest);
  }

  lemma WrongMeans(d: DState, rest: seq<Byte>)
    requires Wrong(d.crcTable, d.start, d.fed)
    ensures Decode(d.crcTable, d.start, 0, BytesBits(d.fed + rest)) == Bad
  {
    hide Decode, BytesBits;
    BytesBitsConcat(d.fed, rest);
  }

  // ---- a file being read --------------------------------------------------

  class ReadFile {
    const d: DState
    const strm: E.BzStream
    // What has not been read of the file.
    var handle: seq<Byte>
    var lastErr: int

    // The bytes handed over at the start and the file; all that has been returned.
    ghost const whole: seq<Byte>
    ghost var got: seq<Byte>

    ghost predicate Open()
      reads this, strm, d, d.r, d.m, d.m.Parts(), d.tt, d.ll16, d.ll4, d.cftab
    {
      && d.Valid() && d.state != BZ_X_IDLE && d.start == Start() && lastErr == E.BZ_OK
      && d.fed + strm.nextIn + handle == whole && d.put + d.part == got
    }

    // What the whole of it stands for.
    ghost function Stands(): Decoded {
      Decode(d.crcTable, Start(), 0, BytesBits(whole))
    }

    // BZ2_bzReadOpen, given bytes left over from the stream before.
    constructor (table: Table, small: bool, unused: seq<Byte>, file: seq<Byte>)
      requires |unused| <= BZ_MAX_UNUSED
      ensures Open() && whole == unused + file && got == [] && d.crcTable == table
      ensures fresh(d) && fresh(strm) && fresh(d.r) && fresh(d.m) && fresh(d.m.Parts())
    {
      hide DState.Valid, Starting;
      d := new DState(table, small);
      strm := new E.BzStream(unused, 0);
      handle, lastErr, got := file, E.BZ_OK, [];
      whole := unused + file;
      new;
      assert [] + unused + file == whole;
    }

    // The buffer is empty and the file is not.
    method Refill()
      requires strm.nextIn == []
      modifies this`handle, strm`nextIn
      ensures strm.nextIn + handle == old(handle) && (old(handle) != [] ==> strm.nextIn != [])
    {
      var n := if |handle| < BZ_MAX_UNUSED then |handle| else BZ_MAX_UNUSED;
      strm.nextIn := handle[..n];
      handle := handle[n..];
    }

    // The buffer is filled if need be, and BZ2_bzDecompress is called.
    method ReadCall() returns (ret: int, ghost out: seq<Byte>)
      requires Open() && strm.availOut > 0
      modifies this`handle, this`got, strm, d, d.r, d.m, d.m.Parts()
      ensures ret in {E.BZ_OK, E.BZ_STREAM_END} || DataError(ret)
      ensures strm.nextOut == old(strm.nextOut) + out && |out| + strm.availOut == old(strm.availOut)
      ensures got == old(got) + out
      ensures ret == E.BZ_OK ==> Open()
      ensures ret == E.BZ_OK && strm.availOut > 0 ==> strm.nextIn == [] && (handle == [] ==> Stands() == Hungry)
      ensures ret == E.BZ_OK && strm.availOut > 0 && handle != [] ==> |handle| < old(|handle| + |strm.nextIn|)
      ensures ret == E.BZ_STREAM_END ==> Stands().Done? && Stands().out == got
      ensures DataError(ret) ==> Stands() == Bad
    {
      hide DState.Valid, DState.Waiting, DState.Restored, Decode, Over, Wrong, BytesBits, CoreOf, NoBlock, Width, Live;
      assert d.fed + strm.nextIn + handle == d.fed + (strm.nextIn + handle);
      if strm.nextIn == [] && handle != [] {
        Refill();
      }
      assert d.fed + strm.nextIn + handle == d.fed + (strm.nextIn + handle) == whole;
      ret, out := d.BzDecompress(strm);
      got := got + out;
      assert d.fed + strm.nextIn + handle == whole;
      assert d.fed + strm.nextIn + handle == d.fed + (strm.nextIn + handle);
      if DataError(ret) {
        WrongMeans(d, strm.nextIn + handle);
      } else if ret == E.BZ_STREAM_END {
        EndMeans(d, strm.nextIn + handle, d.put + d.part, d.r.Unread());
      } else if strm.availOut > 0 && handle == [] {
        assert d.fed + ([] + []) == d.fed;
        CutShort(d);
      }
    }

    // BZ2_bzRead. Each code says what the whole of the file stands for, but BZ_OK, which says that the buffer is full.
    method BzRead(len: nat) returns (buf: seq<Byte>)
      requires Open()
      modifies this, strm, d, d.r, d.m, d.m.Parts()
      ensures lastErr in {E.BZ_OK, E.BZ_STREAM_END, BZ_UNEXPECTED_EOF} || DataError(lastErr)
      ensures lastErr == E.BZ_OK ==> Open() && |buf| == len && got == old(got) + buf
      ensures lastErr == E.BZ_OK && Stands().Done? ==> got <= Stands().out
      ensures lastErr == E.BZ_STREAM_END ==> |buf| <= len && got == old(got) + buf
      ensures lastErr == E.BZ_STREAM_END ==> Stands().Done? && Stands().out == got
      ensures lastErr == BZ_UNEXPECTED_EOF ==> Stands() == Hungry
      ensures DataError(lastErr) ==> Stands() == Bad
    {
      hide DState.Valid, Decode, BytesBits;
      assert got + [] == got;
      if len == 0 {
        BeginningRead();
        return [];
      }
      strm.availOut, strm.nextOut := len, [];
      ghost var sent := got;
      while true
        invariant Open() && strm.availOut > 0 && got == sent + strm.nextOut && |strm.nextOut| + strm.availOut == len
        decreases |handle| + |strm.nextIn|
      {
        var ret;
        ghost var out;
        ghost var before := strm.nextOut;
        ret, out := ReadCall();
        assert sent + before + out == sent + (before + out);
        if ret != E.BZ_OK && ret != E.BZ_STREAM_END {
          lastErr := ret;
          return [];
        }
        if ret == E.BZ_OK && handle == [] && strm.nextIn == [] && strm.availOut > 0 {
          lastErr := BZ_UNEXPECTED_EOF;
          return [];
        }
        if ret == E.BZ_STREAM_END {
          lastErr := E.BZ_STREAM_END;
          return strm.nextOut;
        }
        if strm.availOut == 0 {
          BeginningRead();
          return strm.nextOut;
        }
      }
    }

    lemma BeginningRead()
      requires Open()
      ensures Stands().Done? ==> got <= Stands().out
    {
      hide DState.Valid, Decode, BytesBits;
      if Stands().Done? {
        assert d.fed + (strm.nextIn + handle) == whole;
        BeginningOut(d, strm.nextIn + handle);
      }
    }
  }

  // Reads until the stream ends, asking for len(k) bytes in call k.
  method ReadAll(f: ReadFile, len: nat -> nat) returns (x: seq<Byte>)
    requires f.Open() && f.got == [] && f.Stands().Done? && forall i: nat :: len(i) > 0
    modifies f, f.strm, f.d, f.d.r, f.d.m, f.d.m.Parts()
    ensures f.lastErr == E.BZ_STREAM_END && x == f.Stands().out
  {
    hide DState.Valid, ReadFile.Stands;
    x := [];
    var k := 0;
    while f.lastErr == E.BZ_OK
      invariant f.lastErr == E.BZ_OK || f.lastErr == E.BZ_STREAM_END
      invariant if f.lastErr == E.BZ_OK then f.Open() && x == f.got && |x| <= |f.Stands().out| else x == f.Stands().out
      decreases if f.lastErr == E.BZ_OK then 1 else 0, |f.Stands().out| - |x|
    {
      var buf := f.BzRead(len(k));
      x := x + buf;
      k := k + 1;
    }
  }

  // A file written in any pieces and read in any pieces, through either decoder, gives back what was written.
  method ThereAndBack(table: Table, blockSize100k: nat, workFactor: nat, small: bool, pieces: seq<seq<Byte>>,
                      len: nat -> nat) returns (x: seq<Byte>)
    requires 1 <= blockSize100k <= 9 && workFactor <= 250 && forall i: nat :: len(i) > 0
    ensures x == Flat(pieces)
  {
    hide WriteFile.Open, ReadFile.Open, Decode, Start, Starting, E.EState.Complete, BytesBits;
    var f := new WriteFile(table, blockSize100k, workFactor);
    for i := 0 to |pieces|
      invariant f.Open() && f.given == Flat(pieces[..i]) && fresh(f) && fresh(f.Parts())
    {
      assert pieces[..i + 1][..i] == pieces[..i];
      f.BzWrite(pieces[i]);
    }
    assert pieces[..|pieces|] == pieces;
    f.BzWriteClose();
    ghost var z := f.handle;
    var g := new ReadFile(table, small, [], f.handle);
    assert [] + z == z;
    StartStarts();
    assert Decodes(table, Start(), z, Flat(pieces));
    x := ReadAll(g, len);
  }

  lemma StartStarts()
    ensures Starting(Start())
  {
  }

  // ---- one call -----------------------------------------------------------

  // BZ2_bzBuffToBuffCompress. Nothing compressed into no room is the one input the encoder itself turns away.
  method BuffToBuffCompress(table: Table, source: seq<Byte>, destLen: nat, blockSize100k: int, workFactor: int)
    returns (code: int, dest: seq<Byte>)
    ensures code in {E.BZ_OK, E.BZ_PARAM_ERROR, E.BZ_SEQUENCE_ERROR, BZ_OUTBUFF_FULL}
    ensures code == E.BZ_PARAM_ERROR <==> !(1 <= blockSize100k <= 9 && 0 <= workFactor <= 250)
    ensures code == E.BZ_SEQUENCE_ERROR <==> code != E.BZ_PARAM_ERROR && source == [] && destLen == 0
    ensures code == BZ_OUTBUFF_FULL ==> |dest| == destLen
    ensures code == E.BZ_OK ==> |dest| <= destLen && forall c :: Starting(c) ==> Decodes(table, c, dest, source)
  {
    hide E.EState.Steady, E.EState.Emitted, E.EState.Rank, E.EState.Waiting, E.EState.Nearer, E.EState.Complete,
         E.EState.Flushed, Decodes;
    dest := [];
    if !(1 <= blockSize100k <= 9 && 0 <= workFactor <= 250) {
      return E.BZ_PARAM_ERROR, dest;
    }
    var s := new E.EState(table, blockSize100k, workFactor);
    var strm := new E.BzStream(source, destLen);
    var ret;
    ghost var out;
    ret, out := s.BzCompress(strm, E.BZ_FINISH);
    dest := strm.nextOut;
    if ret == E.BZ_FINISH_OK {
      return BZ_OUTBUFF_FULL, dest;
    }
    if ret != E.BZ_STREAM_END {
      return ret, dest;
    }
    assert s.consumed == s.consumed + strm.nextIn == [] + source == source;
    assert s.Emitted() == [] + out == dest;
    forall c | Starting(c) ensures Decodes(table, c, dest, source) {
      DecodesAll(s, c);
    }
    code := E.BZ_OK;
  }

  // BZ2_bzBuffToBuffDecompress: each code says what the source stands for, and BZ_OK is returned whenever the source
  // is a stream and the room is enough.
  method BuffToBuffDecompress(table: Table, source: seq<Byte>, destLen: nat, small: bool)
    returns (code: int, dest: seq<Byte>)
    ensures code in {E.BZ_OK, BZ_UNEXPECTED_EOF, BZ_OUTBUFF_FULL} || DataError(code)
    ensures var d := Decode(table, Start(), 0, BytesBits(source));
            && (code == E.BZ_OK <==> d.Done? && |d.out| <= destLen)
            && (code == E.BZ_OK ==> dest == d.out)
            && (code == BZ_UNEXPECTED_EOF ==> d == Hungry) && (DataError(code) ==> d == Bad)
            && (code == BZ_OUTBUFF_FULL && d.Done? ==> |dest| == destLen && dest <= d.out)
  {
    hide DState.Valid, DState.Waiting, DState.Restored, Decode, Over, Wrong, BytesBits, CoreOf, NoBlock, Width, Live,
         Start, Starting;
    var d := new DState(table, small);
    var strm := new E.BzStream(source, destLen);
    ghost var out;
    code, out := d.BzDecompress(strm);
    dest := strm.nextOut;
    ghost var rest := strm.nextIn;
    assert d.fed + rest == [] + source == source && [] + out == out;
    if code == E.BZ_OK {
      if d.state != BZ_X_OUTPUT {
        assert d.fed + [] == d.fed;
        CutShort(d);
      }
      if strm.availOut > 0 {
        return BZ_UNEXPECTED_EOF, dest;
      }
      if Decode(table, Start(), 0, BytesBits(source)).Done? {
        BeginningOut(d, rest);
      }
      return BZ_OUTBUFF_FULL, dest;
    }
    if code == BZ_STREAM_END {
      EndMeans(d, rest, d.put + d.part, d.r.Unread());
      return E.BZ_OK, dest;
    }
    WrongMeans(d, rest);
  }
}
