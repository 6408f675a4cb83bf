// A whole block, and the ends of the stream, as BZ2_decompress reads them.
module ReadBlock {
  import opened Common
  import opened Counting
  import opened Bits
  import opened MoveToFront
  import opened GenerateMtf
  import opened HuffmanCodes
  import opened DecodeMachine
  import opened BlockFormat
  import opened ReadBack
  import opened ReadSymbols

  // ---- perm ---------------------------------------------------------------

  lemma {:induction false} OfSizeAt(len: seq<int>, n: int, m: nat, j: nat)
    requires j < m <= |len| && len[j] == n
    ensures Count(len, n, j) < |OfSize(len, n, m)| && OfSize(len, n, m)[Count(len, n, j)] == j
  {
    CountGrows(len, n, j, m);
    if j < m - 1 {
      OfSizeAt(len, n, m - 1, j);
    }
  }

  lemma {:induction false} BySizeCount(len: seq<int>, lo: int, n: int)
    requires lo <= n && forall i :: 0 <= i < |len| ==> lo <= len[i] <= 20
    ensures |BySize(len, lo, n)| == CountBelow(len, n, |len|)
    decreases n - lo
  {
    if lo < n {
      BySizeCount(len, lo, n - 1);
      CountSplit(len, n - 1, n, |len|);
    } else {
      CountBelowEnds(len, lo, 21, |len|);
    }
  }

  lemma {:induction false} BySizeAt(len: seq<int>, lo: int, hi: int, j: nat)
    requires j < |len| && lo <= len[j] < hi && forall i :: 0 <= i < |len| ==> lo <= len[i] <= 20
    ensures Place(len, j) < |BySize(len, lo, hi)| && BySize(len, lo, hi)[Place(len, j)] == j
    decreases hi - lo
  {
    hide OfSize, Count, CountBelow;
    if len[j] == hi - 1 {
      BySizeCount(len, lo, hi - 1);
      OfSizeAt(len, hi - 1, |len|, j);
    } else {
      BySizeAt(len, lo, hi - 1, j);
    }
  }

  // The rewritten front of perm gives every symbol's place.
  lemma PermFront(len: seq<int>, was: seq<int>)
    requires (forall i :: 0 <= i < |len| ==> 1 <= len[i] <= 20) && |len| <= |was|
    ensures Permuted(len, Overwritten(was, BySize(len, MinOf(len), MaxOf(len) + 1)))
  {
    hide BySize, MinOf, MaxOf, Place, Count, CountBelow;
    var lo, hi := MinOf(len), MaxOf(len) + 1;
    var front := BySize(len, lo, hi);
    forall i | 0 <= i < |len| ensures lo <= len[i] < hi {
      MinMax(len, i);
    }
    if len == [] {
    } else {
      MinMax(len, 0);
      BySizeCount(len, lo, hi);
      CountBelowEnds(len, lo, hi, |len|);
      forall j | 0 <= j < |len| ensures Place(len, j) < |len| && front[Place(len, j)] == j {
        BySizeAt(len, lo, hi, j);
      }
    }
  }

  lemma NewPermsPermuted(perm: seq<seq<int>>, p: Payload)
    requires Sendable(p) && |perm| >= 6 && forall t :: 0 <= t < |perm| ==> |perm[t]| >= Alpha(p)
    ensures forall t :: 0 <= t < |p.lens| ==> Permuted(p.lens[t], NewPerms(perm, p.lens)[t])
  {
    hide Permuted, BySize, MinOf, MaxOf;
    forall t | 0 <= t < |p.lens| ensures Permuted(p.lens[t], NewPerms(perm, p.lens)[t]) {
      assert IsTable(p.lens[t], Alpha(p));
      PermFront(p.lens[t], perm[t]);
    }
  }

  // ---- a longer list decodes alike ----------------------------------------

  lemma {:induction false} DecodeLonger(d: Decoder, tail: seq<int>, syms: seq<int>, e: Decoder)
    requires DecodeAll(d, syms) == Some(e) && |d.list| > 0
    ensures |e.list| == |d.list| && DecodeAll(d.(list := d.list + tail), syms) == Some(e.(list := e.list + tail))
  {
    if syms != [] {
      var m := |syms| - 1;
      var f := DecodeAll(d, syms[..m]).value;
      DecodeLonger(d, tail, syms[..m], f);
      var sym := syms[m];
      if sym != BZ_RUNA && sym != BZ_RUNB {
        MovedTail(f.list, tail, sym - 1);
      }
    }
  }

  // ---- the payload --------------------------------------------------------

  // What a block decodes to, as the decoder's move-to-front list makes it.
  ghost predicate DecodesTo(p: Payload, e: Decoder) {
    && Terminated(p.syms, Alpha(p)) && |e.list| == 256
    && DecodeAll(Decoder(FirstList(256), 0, 1, []), p.syms[..|p.syms| - 1]) == Some(e)
  }

  function Column(p: Payload, e: Decoder): seq<int>
    requires |e.list| > 0
  {
    ColumnBytes(p.inUse, e.col + Rep(e.list[0], e.run))
  }

  // From the tables on: the first symbol is waited for.
  lemma SymbolsBegin(c: Core, p: Payload) returns (d: Core)
    requires Sendable(p) && Alpha(p) <= BZ_MAX_ALPHA_SIZE && |p.syms| > 0
    requires c.inUse == p.inUse && c.selector == p.selector && c.nSelectors == |p.selector| && c.len == p.lens
    requires |c.perm| >= 6 && forall t :: 0 <= t < |c.perm| ==> |c.perm[t]| >= BZ_MAX_ALPHA_SIZE
    ensures TablesReady(c) == More(d) && AtCode(d, p, 0) && LevelWith(d, false, Decoder(FirstList(256), 0, 1, []))
    ensures !InRun(d) && SameBlock(c, d.(perm := c.perm)) && |d.perm| == |c.perm|
    ensures forall t :: 0 <= t < |d.perm| ==> |d.perm[t]| >= BZ_MAX_ALPHA_SIZE
  {
    hide BeginSymbol, Permuted, Sendable, MinOf, MaxOf, BySize;
    NewPermsPermuted(c.perm, p);
    Revealed(p);
    var c1 := c.(perm := NewPerms(c.perm, c.len), groupNo := -1, groupPos := 0, list := FirstList(256), col := []);
    LoadedNow(c1, p);
    BeginReads(c1, p, 0, BZ_X_MTF_1);
    d := BeginSymbol(c1, BZ_X_MTF_1).c;
    forall t | 0 <= t < |c.perm| ensures |NewPerms(c.perm, c.len)[t]| >= BZ_MAX_ALPHA_SIZE {
    }
  }

  lemma LoadedNow(c: Core, p: Payload)
    requires Sendable(p) && Alpha(p) <= BZ_MAX_ALPHA_SIZE
    requires c.inUse == p.inUse && c.selector == p.selector && c.nSelectors == |p.selector| && c.len == p.lens
    requires |c.perm| >= |p.lens| && forall t :: 0 <= t < |p.lens| ==> Permuted(p.lens[t], c.perm[t])
    ensures Loaded(c, p)
  {
  }

  // ---- a block ------------------------------------------------------------

  lemma PayloadParts(p: Payload, rest: seq<bool>)
    requires Sendable(p)
    ensures Selectors(p.selector, p.nGroups)
    ensures (forall k :: 0 <= k < |p.selector| ==> p.selector[k] in FirstList(p.nGroups))
            && PayloadBits(p) + rest
               == GroupBits(p.inUse)
                  + (MapBits(p.inUse, 0)
                     + (ToBits(p.nGroups, 3) + (ToBits(|p.selector|, 15)
                         + (UnaryAll(DoMtf(FirstList(p.nGroups), p.selector))
                        + (TablesBits(p.lens, 0) + (SymbolBits(p, 0) + rest))))))
  {
    hide GroupBits, MapBits, ToBits, UnaryAll, DoMtf, TablesBits, SymbolBits;
    SelectorsListed(p.selector, p.nGroups);
    Append7(GroupBits(p.inUse), MapBits(p.inUse, 0), ToBits(p.nGroups, 3), ToBits(|p.selector|, 15),
            UnaryAll(DoMtf(FirstList(p.nGroups), p.selector)), TablesBits(p.lens, 0), SymbolBits(p, 0), rest);
  }

  lemma Append7<T>(a: seq<T>, b: seq<T>, c: seq<T>, d: seq<T>, e: seq<T>, f: seq<T>, g: seq<T>, rest: seq<T>)
    ensures a + b + c + d + e + f + g + rest == a + (b + (c + (d + (e + (f + (g + rest))))))
  {
  }

  // The tables of lengths, from the selectors' end to the first symbol.
  lemma LensRead(c: Core, p: Payload, rest: seq<bool>) returns (d: Core)
    requires Sendable(p) && Alpha(p) <= BZ_MAX_ALPHA_SIZE && |p.syms| > 0
    requires c.state == BZ_X_CODING_1 && c.t == 0 && c.len == [] && c.inUse == p.inUse && c.nGroups == p.nGroups
    requires c.selector == p.selector && c.nSelectors == |p.selector|
    requires |c.perm| >= 6 && forall t :: 0 <= t < |c.perm| ==> |c.perm[t]| >= BZ_MAX_ALPHA_SIZE
    ensures (forall u :: 0 <= u < |p.lens| ==> |p.lens[u]| > 0 && p.lens[u][0] >= 0)
            && Run(c, TablesBits(p.lens, 0) + rest) == Run(d, rest)
    ensures AtCode(d, p, 0) && LevelWith(d, false, Decoder(FirstList(256), 0, 1, [])) && !InRun(d)
    ensures SameBlock(c, d.(perm := c.perm, len := c.len)) && |d.perm| == |c.perm|
    ensures forall t :: 0 <= t < |d.perm| ==> |d.perm[t]| >= BZ_MAX_ALPHA_SIZE
  {
    hide Run, TablesReady, Used, TablesBits, Permuted, Sendable, MinOf, MaxOf, AtCode, LevelWith;
    Revealed(p);
    forall u | 0 <= u < |p.lens| ensures |p.lens[u]| == AlphaSize(c)
        && forall k :: 0 <= k < |p.lens[u]| ==> 1 <= p.lens[u][k] <= 20 {
      assert IsTable(p.lens[u], Alpha(p));
    }
    assert p.lens[..0] == [];
    TablesRead(c, p.lens, 0, rest);
    var c1 := c.(curr := LastLength(p.lens), i := AlphaSize(c), t := |p.lens| - 1, len := p.lens,
        state := BZ_X_CODING_2);
    d := SymbolsBegin(c1, p);
  }

  // A fresh block's variables that matter: its room, and perm.
  ghost predicate Roomy(c: Core) {
    |c.perm| == 6 && forall t :: 0 <= t < |c.perm| ==> |c.perm[t]| >= BZ_MAX_ALPHA_SIZE
  }

  lemma PayloadReads(c: Core, p: Payload, e: Decoder, rest: seq<bool>) returns (c': Core)
    requires Sendable(p) && Alpha(p) <= BZ_MAX_ALPHA_SIZE && DecodesTo(p, e)
    requires c.state == BZ_X_MAPPING_1 && c.i == 0 && c.inUse16 == [] && c.origPtr == p.origPtr && Roomy(c)
    requires 0 <= p.origPtr < |e.col| + e.run <= NblockMAX(c)
    ensures Selectors(p.selector, p.nGroups) && (forall u :: 0 <= u < |p.lens| ==> |p.lens[u]| > 0 && p.lens[u][0] >= 0)
            && Run(c, PayloadBits(p) + rest) == Ready(c', rest)
    ensures c'.state == BZ_X_OUTPUT && c'.col == Column(p, e) && c'.origPtr == p.origPtr && c'.inUse == p.inUse
    ensures c'.blockSize100k == c.blockSize100k && c'.storedBlockCRC == c.storedBlockCRC
    ensures c'.randomised == c.randomised
    ensures Roomy(c')
  {
    hide Run, Used, TablesBits, Permuted, Sendable, MinOf, MaxOf, MapBits, GroupBits, SymbolBits, UnaryAll, DoMtf,
         ToBits, PayloadBits;
    hide AtCode, LevelWith, DecodeAll, ColumnBytes, Mapping2From;
    Revealed(p);
    PayloadParts(p, rest);
    var after6 := SymbolBits(p, 0) + rest;
    var after5 := TablesBits(p.lens, 0) + after6;
    var pos := DoMtf(FirstList(p.nGroups), p.selector);
    var after2 := ToBits(p.nGroups, 3) + (ToBits(|p.selector|, 15) + (UnaryAll(pos) + after5));
    assert GroupBits(p.inUse)[0..] == GroupBits(p.inUse) && GroupBits(p.inUse)[..0] == [];
    GroupsRead(c, p.inUse, 0, MapBits(p.inUse, 0) + after2);
    var c1 := c.(inUse16 := GroupBits(p.inUse), i := 0, inUse := Rep(false, 256));
    assert Known(p.inUse, 0) == Rep(false, 256);
    var c2 := MapReads(c1, p.inUse, 0, after2);
    SelectorsRead(c2, p.nGroups, p.selector, after5);
    var c3 := c2.(nGroups := p.nGroups, nSelectors := |p.selector|, i := |p.selector|, j := 0, selectorMtf := pos,
                  selector := p.selector, t := 0, len := [], state := BZ_X_CODING_1);
    var c4 := LensRead(c3, p, after6);
    assert p.syms[0..|p.syms| - 1] == p.syms[..|p.syms| - 1];
    c' := SymbolsRead(c4, p, 0, Decoder(FirstList(256), 0, 1, []), e, rest);
  }

  // The decoder, waiting for a block, reads the whole of it and has its last column, its CRC and origPtr.
  lemma BlockReads(c: Core, p: Payload, e: Decoder, rest: seq<bool>) returns (c': Core)
    requires Sendable(p) && Alpha(p) <= BZ_MAX_ALPHA_SIZE && DecodesTo(p, e)
    requires c.state == BZ_X_BLKHDR_1 && Roomy(c)
    requires 0 <= p.origPtr < |e.col| + e.run <= NblockMAX(c)
    ensures Run(c, BlockBits(p) + rest) == Ready(c', rest)
    ensures c'.state == BZ_X_OUTPUT && c'.col == Column(p, e) && c'.origPtr == p.origPtr && c'.storedBlockCRC == p.crc
    ensures c'.blockSize100k == c.blockSize100k && !c'.randomised && c'.inUse == p.inUse && Roomy(c')
  {
    hide Run, Used, Sendable, PayloadBits, ToBits, DecodeAll, ColumnBytes, DecodesTo, Bits32, Bits24, BytesOf;
    assert 0 <= p.crc < 0x1_0000_0000 && 0 <= p.origPtr < 0x100_0000 && |p.inUse| == 256 by {
      Numbers(p);
    }
    Tables(p);
    var after4 := PayloadBits(p) + rest;
    var after3 := Bits24(p.origPtr) + after4;
    assert BlockBits(p) + rest == BytesOf(BLOCK_MAGIC) + (Bits32(p.crc) + ([false] + after3));
    assert BLOCK_MAGIC[0..] == BLOCK_MAGIC;
    BlockMagicReads(c, 0, Bits32(p.crc) + ([false] + after3));
    var c1 := c.(storedBlockCRC := 0, state := BZ_X_BCRC_1);
    CrcReads(c1, p.crc, [false] + after3);
    var c2 := c1.(storedBlockCRC := p.crc, state := BZ_X_RANDBIT);
    RunBit(c2, false, after3);
    var c3 := c2.(randomised := false, origPtr := 0, state := BZ_X_ORIGPTR_1);
    OrigPtrReads(c3, p.origPtr, after4);
    c' := PayloadReads(c3.(origPtr := p.origPtr, i := 0, inUse16 := [], state := BZ_X_MAPPING_1), p, e, rest);
  }

  lemma Numbers(p: Payload)
    requires Sendable(p)
    ensures 0 <= p.crc < 0x1_0000_0000 && 0 <= p.origPtr < 0x100_0000 && |p.inUse| == 256
  {
  }

  lemma Tables(p: Payload)
    requires Sendable(p)
    ensures 0 <= p.nGroups && Selectors(p.selector, p.nGroups)
    ensures forall u :: 0 <= u < |p.lens| ==> |p.lens[u]| > 0 && p.lens[u][0] >= 0
  {
    TablesListed(p);
  }

  // ---- the ends of the stream ---------------------------------------------

  lemma ByteFirst(b: Byte, t: seq<Byte>, rest: seq<bool>)
    ensures BytesOf([b] + t) + rest == ToBits(b, 8) + (BytesOf(t) + rest)
  {
    hide ToBits;
    assert ([b] + t)[1..] == t;
  }

  lemma FourBytes(w: Byte, x: Byte, y: Byte, z: Byte, rest: seq<bool>)
    ensures BytesOf([w, x, y, z]) + rest == ToBits(w, 8) + (ToBits(x, 8) + (ToBits(y, 8) + (ToBits(z, 8) + rest)))
  {
    hide ToBits;
    assert BytesOf([]) + rest == rest;
    hide BytesOf;
    ByteFirst(w, [x, y, z], rest);
    ByteFirst(x, [y, z], rest);
    ByteFirst(y, [z], rest);
    ByteFirst(z, [], rest);
    assert [w, x, y, z] == [w] + [x, y, z] && [x, y, z] == [x] + [y, z] && [y, z] == [y] + [z] && [z] == [z] + [];
  }

  lemma HeaderReads(c: Core, blockSize100k: int, rest: seq<bool>)
    requires c.state == BZ_X_MAGIC_1 && 1 <= blockSize100k <= 9
    ensures Run(c, StreamHeader(blockSize100k) + rest)
            == Run(c.(blockSize100k := blockSize100k, state := BZ_X_BLKHDR_1), rest)
  {
    hide Run, ToBits, BytesOf;
    var w, x, y, z := 0x42, 0x5a, 0x68, 0x30 + blockSize100k;
    FourBytes(w, x, y, z, rest);
    var r1 := ToBits(z, 8) + rest;
    var r2 := ToBits(y, 8) + r1;
    RunByte(c, w, ToBits(x, 8) + r2);
    RunByte(c.(state := BZ_X_MAGIC_2), x, r2);
    RunByte(c.(state := BZ_X_MAGIC_3), y, r1);
    RunByte(c.(state := BZ_X_MAGIC_4), z, rest);
  }

  lemma TrailerReads(c: Core, crc: nat, rest: seq<bool>)
    requires c.state == BZ_X_BLKHDR_1 && crc < 0x1_0000_0000
    ensures Run(c, StreamTrailer(crc) + rest) == Ended(c.(storedCombinedCRC := crc, state := BZ_X_IDLE), rest)
  {
    hide Run, ToBits, Bits32;
    assert END_MAGIC[0..] == END_MAGIC;
    assert StreamTrailer(crc) + rest == BytesOf(END_MAGIC) + (Bits32(crc) + rest);
    BytesOfFront(END_MAGIC, 0, Bits32(crc) + rest);
    RunByte(c, END_MAGIC[0], BytesOf(END_MAGIC[1..]) + (Bits32(crc) + rest));
    var c1 := c.(state := BZ_X_ENDHDR_2);
    EndMagicReads(c1, 1, Bits32(crc) + rest);
    CombinedCrcReads(c1.(storedCombinedCRC := 0, state := BZ_X_CCRC_1), crc, rest);
  }
}
