// BZ2_compressBlock: a block is sorted, coded and written, and a payload so written decodes to its last column.
module CompressBlock {
  import opened Common
  import opened Counting
  import opened Bits
  import opened BitIO
  import opened Rotations
  import opened InverseBwt
  import opened MoveToFront
  import opened GenerateMtf
  import opened BlockFormat
  import opened MainCompare
  import opened MainProgress
  import BlockSort
  import D = DecodeMachine
  import RB = ReadBack
  import RS = ReadSymbols
  import RK = ReadBlock
  import S = SendMtf

  // ---- what a payload stands for ------------------------------------------

  // The payload's symbols decode to the last column of a sort of the block, and origPtr is its first rotation's row.
  ghost predicate EncodesWith(p: Payload, b: seq<Byte>, e: Decoder, perm: seq<int>) {
    && Sendable(p) && Alpha(p) <= BZ_MAX_ALPHA_SIZE && RK.DecodesTo(p, e) && |e.col| + e.run == |b|
    && SortedRotations(b, perm) && 0 <= p.origPtr < |b| && perm[p.origPtr] == 0
    && RK.Column(p, e) == LastColumn(b, perm)
  }

  ghost predicate Encodes(p: Payload, b: seq<Byte>) {
    exists e, perm :: EncodesWith(p, b, e, perm)
  }

  // ---- the symbols --------------------------------------------------------

  lemma {:induction false} DecodedRange(d: Decoder, syms: seq<int>)
    requires DecodeAll(d, syms).Some? && |d.list| >= 1
    ensures |DecodeAll(d, syms).value.list| == |d.list|
    ensures forall k :: 0 <= k < |syms| ==> 0 <= syms[k] <= |d.list|
  {
    if syms != [] {
      DecodedRange(d, syms[..|syms| - 1]);
      assert forall k :: 0 <= k < |syms| - 1 ==> syms[k] == syms[..|syms| - 1][k];
    }
  }

  lemma Ranked(inUse: seq<bool>, rank: seq<int>, c: int)
    requires |inUse| == 256 && Ranks(inUse, rank, 256) && 0 <= c < 256 && inUse[c]
    ensures 0 <= rank[c] < |Used(inUse, 256)| && RS.UsedByte(inUse, rank[c]) == c
  {
  }

  // The ranks in the column stand for the bytes of the last column.
  lemma ColumnBack(b: seq<Byte>, perm: seq<int>, inUse: seq<bool>, rank: seq<int>, col: seq<int>)
    requires |inUse| == 256 && Ranks(inUse, rank, 256) && Column(b, perm, rank, col, |Used(inUse, 256)|)
    requires forall x :: 0 <= x < |b| ==> inUse[b[x]]
    ensures RS.ColumnBytes(inUse, col) == LastColumn(b, perm)
  {
    forall x | 0 <= x < |b| ensures RS.ColumnBytes(inUse, col)[x] == LastColumn(b, perm)[x] {
      Ranked(inUse, rank, b[Prev(|b|, perm[x])]);
    }
  }

  lemma ColumnRanked(b: seq<Byte>, perm: seq<int>, inUse: seq<bool>, rank: seq<int>) returns (col: seq<int>)
    requires |inUse| == 256 && Ranks(inUse, rank, 256) && |perm| == |b|
             && forall x :: 0 <= x < |b| ==> 0 <= perm[x] < |b|
    requires forall x :: 0 <= x < |b| ==> inUse[b[x]]
    ensures Column(b, perm, rank, col, |Used(inUse, 256)|)
  {
    col := seq(|b|, x requires 0 <= x < |b| => rank[b[Prev(|b|, perm[x])]]);
    forall x | 0 <= x < |b| ensures 0 <= col[x] < |Used(inUse, 256)| {
      Ranked(inUse, rank, b[Prev(|b|, perm[x])]);
    }
  }

  lemma FirstListSplit(m: nat, n: nat)
    requires m <= n
    ensures FirstList(n) == FirstList(m) + FirstList(n)[m..]
  {
  }

  // Coded symbols decode to the column they were made from.
  lemma SymbolsEncode(p: Payload, b: seq<Byte>, perm: seq<int>, rank: seq<int>, col: seq<int>)
    requires Sendable(p) && SortedRotations(b, perm) && 0 <= p.origPtr < |b| && perm[p.origPtr] == 0
    requires Ranks(p.inUse, rank, 256) && Column(b, perm, rank, col, |Used(p.inUse, 256)|)
    requires forall x :: 0 <= x < |b| ==> p.inUse[b[x]]
    requires AllIn(col, FirstList(|Used(p.inUse, 256)|))
    requires p.syms == Symbols(FirstList(|Used(p.inUse, 256)|), col, |Used(p.inUse, 256)| + 1)
    ensures Encodes(p, b)
  {
    hide SortedRotations, Ranks, Sendable, Used, CodeAll;
    assert |p.inUse| == 256 && Alpha(p) > 2 && Alpha(p) == |Used(p.inUse, 256)| + 2 by {
      Revealed(p);
    }
    var n := |Used(p.inUse, 256)|;
    MtfRoundTrip(FirstList(n), col, n + 1);
    var short := p.syms[..|p.syms| - 1];
    var d := Decoder(FirstList(n), 0, 1, []);
    var e := DecodeAll(d, short).value;
    DecodedRange(d, short);
    assert RS.Terminated(p.syms, Alpha(p)) by {
      assert forall k :: 0 <= k < |p.syms| - 1 ==> p.syms[k] == short[k];
    }
    FirstListSplit(n, 256);
    var tail := FirstList(256)[n..];
    RK.DecodeLonger(d, tail, short, e);
    var e' := e.(list := e.list + tail);
    assert d.(list := d.list + tail) == Decoder(FirstList(256), 0, 1, []);
    assert e'.list[0] == e.list[0];
    ColumnBack(b, perm, p.inUse, rank, col);
    assert |e'.col| + e'.run == |e'.col + Rep(e'.list[0], e'.run)| == |b|;
    assert EncodesWith(p, b, e', perm);
  }

  lemma Revealed(p: Payload)
    requires Sendable(p)
    ensures |p.inUse| == 256 && Alpha(p) > 2 && Alpha(p) == |Used(p.inUse, 256)| + 2
  {
  }

  // ---- the counts ---------------------------------------------------------

  // Symbol counts add up to the number of symbols.
  lemma {:induction false} CountsBelow(freq: seq<int>, out: seq<int>, v: nat)
    requires FreqIs(freq, out) && v <= BZ_MAX_ALPHA_SIZE && forall k :: 0 <= k < |out| ==> 0 <= out[k]
    ensures Sum(freq[..v]) == CountBelow(out, v, |out|)
  {
    if v == 0 {
      NoneBelow(out, |out|);
    } else {
      CountsBelow(freq, out, v - 1);
      CountSplit(out, v - 1, v, |out|);
      assert freq[..v][..v - 1] == freq[..v - 1];
    }
  }

  lemma {:induction false} NoneBelow(out: seq<int>, i: nat)
    requires i <= |out| && forall k :: 0 <= k < |out| ==> 0 <= out[k]
    ensures CountBelow(out, 0, i) == 0
  {
    if i > 0 {
      NoneBelow(out, i - 1);
    }
  }

  lemma CountsAll(freq: seq<int>, out: seq<int>, alpha: nat)
    requires FreqIs(freq, out) && alpha <= BZ_MAX_ALPHA_SIZE && forall k :: 0 <= k < |out| ==> 0 <= out[k] < alpha
    ensures Sum(freq[..alpha]) == |out| && forall v :: 0 <= v < alpha ==> freq[v] >= 0
  {
    CountsBelow(freq, out, alpha);
    CountBelowEnds(out, 0, alpha, |out|);
  }

  lemma SymbolsRange(list: seq<int>, col: seq<int>)
    requires AllIn(col, list) && |list| >= 1
    ensures var syms := Symbols(list, col, |list| + 1);
            |syms| > 0 && forall k :: 0 <= k < |syms| ==> 0 <= syms[k] < |list| + 2
  {
    var syms := Symbols(list, col, |list| + 1);
    MtfRoundTrip(list, col, |list| + 1);
    DecodedRange(Decoder(list, 0, 1, []), syms[..|syms| - 1]);
    assert forall k :: 0 <= k < |syms| - 1 ==> syms[k] == syms[..|syms| - 1][k];
  }
  // ---- sorting and coding -------------------------------------------------

  // Bytes in use are those of the block.
  ghost predicate InUseOf(inUse: seq<bool>, b: seq<Byte>) {
    |inUse| == 256 && forall c :: 0 <= c < 256 ==> (inUse[c] <==> c in b)
  }

  // What generateMTFValues leaves for sendMTFValues.
  ghost predicate Coded(mtfv: seq<int>, mtfFreq: seq<int>, nInUse: nat, inUse: seq<bool>, b: seq<Byte>, perm: seq<int>,
                        rank: seq<int>, col: seq<int>) {
    && |inUse| == 256 && nInUse == |Used(inUse, 256)| > 0 && Ranks(inUse, rank, 256)
    && Column(b, perm, rank, col, nInUse)
    && AllIn(col, FirstList(nInUse)) && mtfv == Symbols(FirstList(nInUse), col, nInUse + 1) && FreqIs(mtfFreq, mtfv)
  }

  lemma SomeInUse(inUse: seq<bool>, b: seq<Byte>, rank: seq<int>)
    requires InUseOf(inUse, b) && |b| > 0 && Ranks(inUse, rank, 256)
    ensures 0 < |Used(inUse, 256)| <= 256 && forall x :: 0 <= x < |b| ==> inUse[b[x]]
  {
    assert b[0] in b;
    Ranked(inUse, rank, b[0]);
  }

  method SortBlock(block: array<Byte>, n: nat, workFactor: int) returns (ptr: array<int>, origPtr: int)
    requires 0 < n < SETMASK && n + BZ_N_OVERSHOOT <= block.Length
    modifies block
    ensures fresh(ptr) && block[..n] == old(block[..n]) && n == ptr.Length && SortedRotations(block[..n], ptr[..n])
    ensures 0 <= origPtr < n && ptr[origPtr] == 0
  {
    ptr := new int[n];
    var eclass, quadrant, ftab := new int[n], new int[n + BZ_N_OVERSHOOT], new int[65537];
    var bhtab := new nat[n / 32 + 3];
    origPtr := BlockSort.BlockSort(ptr, eclass, block, quadrant, ftab, bhtab, n, workFactor);
  }

  method CodeBlock(ptr: array<int>, block: array<Byte>, n: nat, inUse: array<bool>, ghost b: seq<Byte>,
                   ghost perm: seq<int>)
    returns (mtfv: array<int>, nMTF: nat, mtfFreq: array<int>, nInUse: nat, ghost rank: seq<int>, ghost col: seq<int>)
    requires 0 < n == ptr.Length <= block.Length && inUse.Length == 256 && InUseOf(inUse[..], b)
    requires block[..n] == b && ptr[..n] == perm && SortedRotations(b, perm)
    ensures fresh(mtfv) && fresh(mtfFreq) && mtfv != mtfFreq && mtfFreq.Length == BZ_MAX_ALPHA_SIZE
    ensures nMTF <= n + 1 <= mtfv.Length && Coded(mtfv[..nMTF], mtfFreq[..], nInUse, inUse[..], b, perm, rank, col)
  {
    hide SortedRotations, Used, Ranks, CodeAll, Symbols, FreqIs, Column, AllIn;
    var unseqToSeq := new int[256];
    ghost var u := inUse[..];
    nInUse := MakeMapsE(inUse, unseqToSeq);
    rank := unseqToSeq[..];
    SomeInUse(u, b, rank);
    assert forall x :: 0 <= x < |b| ==> 0 <= perm[x] < |b| by {
      PermBounds(b, perm);
    }
    assert |perm| == |b|;
    col := ColumnRanked(b, perm, u, rank);
    mtfv, mtfFreq := new int[n + 1], new int[BZ_MAX_ALPHA_SIZE];
    nMTF := GenerateMtfValues(ptr, block, unseqToSeq, mtfv, mtfFreq, n, nInUse, col);
  }

  lemma PermBounds(b: seq<Byte>, perm: seq<int>)
    requires SortedRotations(b, perm)
    ensures |perm| == |b| && forall x :: 0 <= x < |b| ==> 0 <= perm[x] < |b|
  {
  }

  // ---- bytes --------------------------------------------------------------

  // bsPutUChar
  method PutUChar(w: BitWriter, c: Byte)
    requires w.Valid() && w.Spare() >= 8
    modifies w, w.zbits
    ensures w.Valid() && w.Written() == old(w.Written()) + ToBits(c, 8)
  {
    Pow2Of32();
    w.W(8, c);
  }

  method SendBytes(w: BitWriter, s: seq<Byte>)
    requires w.Valid() && w.Spare() >= 8 * |s|
    modifies w, w.zbits
    ensures w.Valid() && w.Written() == old(w.Written()) + BytesOf(s)
  {
    hide BitWriter.Valid, BitWriter.Written, ToBits;
    ghost var w0 := w.Written();
    assert s[0..] == s;
    BytesOfSize(s);
    for i := 0 to |s|
      invariant w.Valid() && S.Sent(w0, BytesOf(s), w.Written(), BytesOf(s[i..]))
    {
      assert s[i..][0] == s[i] && s[i..][1..] == s[i + 1..];
      S.SentPart(w0, BytesOf(s), w.Written(), ToBits(s[i], 8), BytesOf(s[i + 1..]));
      PutUChar(w, s[i]);
    }
    assert s[|s|..] == [];
    S.SentAll(w0, BytesOf(s), w.Written());
  }

  lemma {:induction false} BytesOfSize(s: seq<int>)
    requires forall i :: 0 <= i < |s| ==> 0 <= s[i] < 256
    ensures |BytesOf(s)| == 8 * |s|
  {
    if s != [] {
      BytesOfSize(s[1..]);
    }
  }

  // bsPutUInt32
  method PutUInt32(w: BitWriter, v: nat)
    requires w.Valid() && w.Spare() >= 32
    modifies w, w.zbits
    ensures w.Valid() && w.Written() == old(w.Written()) + Bits32(v)
  {
    hide BitWriter.Valid, BitWriter.Written, ToBits;
    ghost var w0 := w.Written();
    PutUChar(w, v / 0x100_0000 % 256);
    PutUChar(w, v / 65536 % 256);
    PutUChar(w, v / 256 % 256);
    PutUChar(w, v % 256);
    assert w.Written() == w0 + Bits32(v);
  }

  // ---- a block ------------------------------------------------------------

  function BlockRoom(n: nat): nat {
    48 + 32 + 1 + 24 + S.PayloadRoom(n + 1)
  }

  method SendBlockHead(w: BitWriter, crc: nat, origPtr: nat)
    requires w.Valid() && w.Spare() >= 48 + 32 + 1 + 24 && origPtr < 0x100_0000
    modifies w, w.zbits
    ensures w.Valid()
    ensures w.Written() == old(w.Written()) + (BytesOf(D.BLOCK_MAGIC) + Bits32(crc) + [false] + Bits24(origPtr))
    ensures w.Spare() == old(w.Spare()) - 105
  {
    hide BitWriter.Valid, BitWriter.Written, ToBits, Bits32, Bits24, BytesOf;
    ghost var w0, magic := w.Written(), BytesOf([0x31, 0x41, 0x59, 0x26, 0x53, 0x59]);
    NumberSizes(crc, origPtr);
    SendBytes(w, [0x31, 0x41, 0x59, 0x26, 0x53, 0x59]);
    PutUInt32(w, crc);
    S.SendBit(w, false);
    RB.Bits24Is(origPtr);
    Pow2Of24();
    w.W(24, origPtr);
    assert BytesOf(D.BLOCK_MAGIC) == magic;
    BlockHeadJoined(w0, magic, Bits32(crc), [false], Bits24(origPtr));
  }

  lemma BlockHeadJoined<T>(w: seq<T>, a: seq<T>, b: seq<T>, c: seq<T>, d: seq<T>)
    ensures w + a + b + c + d == w + (a + b + c + d)
  {
  }

  lemma NumberSizes(a: nat, b: nat)
    ensures |Bits32(a)| == 32 && |Bits24(b)| == 24 && |BytesOf(D.BLOCK_MAGIC)| == 48
  {
    BytesOfSize(D.BLOCK_MAGIC);
  }

  lemma RoomGrows(m: nat, n: nat)
    requires m <= n
    ensures S.PayloadRoom(m) <= S.PayloadRoom(n)
  {
  }

  lemma Pow2Of24()
    ensures Pow2(24) == 0x100_0000
  {
    Pow2Of32();
    Pow2Add(16, 8);
  }

  lemma CodedFits(mtfv: seq<int>, mtfFreq: seq<int>, nInUse: nat, inUse: seq<bool>, b: seq<Byte>, perm: seq<int>,
                  rank: seq<int>, col: seq<int>)
    requires Coded(mtfv, mtfFreq, nInUse, inUse, b, perm, rank, col)
    ensures |inUse| == 256 && 0 < nInUse == |Used(inUse, 256)| <= 256 && |mtfv| > 0 && |mtfFreq| == BZ_MAX_ALPHA_SIZE
    ensures forall k :: 0 <= k < |mtfv| ==> 0 <= mtfv[k] < nInUse + 2
    ensures |mtfv| == Sum(mtfFreq[..nInUse + 2]) && forall v :: 0 <= v < nInUse + 2 ==> mtfFreq[v] >= 0
  {
    hide Ranks, Column, AllIn, Used, FreqIs, Symbols;
    assert |mtfFreq| == BZ_MAX_ALPHA_SIZE by {
      FreqSize(mtfFreq, mtfv);
    }
    SymbolsRange(FirstList(nInUse), col);
    CountsAll(mtfFreq, mtfv, nInUse + 2);
  }

  lemma FreqSize(freq: seq<int>, out: seq<int>)
    requires FreqIs(freq, out)
    ensures |freq| == BZ_MAX_ALPHA_SIZE
  {
  }

  lemma CodedEncodes(p: Payload, mtfFreq: seq<int>, nInUse: nat, b: seq<Byte>, perm: seq<int>, rank: seq<int>,
                     col: seq<int>)
    requires Sendable(p) && Coded(p.syms, mtfFreq, nInUse, p.inUse, b, perm, rank, col) && InUseOf(p.inUse, b)
    requires SortedRotations(b, perm) && 0 <= p.origPtr < |b| && perm[p.origPtr] == 0
    ensures Encodes(p, b)
  {
    hide Ranks, Column, AllIn, Used, FreqIs, Symbols, SortedRotations, Sendable, Encodes;
    assert |b| > 0;
    SomeInUse(p.inUse, b, rank);
    SymbolsEncode(p, b, perm, rank, col);
  }

  lemma BlockBitsParts(p: Payload)
    requires Sendable(p)
    ensures Selectors(p.selector, p.nGroups) && (forall u :: 0 <= u < |p.lens| ==> |p.lens[u]| > 0 && p.lens[u][0] >= 0)
    ensures 0 <= p.nGroups && |p.inUse| == 256 && 0 <= p.crc && 0 <= p.origPtr
    ensures BlockBits(p) == BytesOf(D.BLOCK_MAGIC) + Bits32(p.crc) + [false] + Bits24(p.origPtr) + PayloadBits(p)
  {
    hide PayloadBits, BytesOf, Bits32, Bits24;
    TablesListed(p);
  }

  method SendBlock(w: BitWriter, block: array<Byte>, n: nat, inUse: array<bool>, workFactor: int, crc: nat)
    returns (ghost p: Payload)
    requires w.Valid() && w.zbits != block && 0 < n <= 900000 && n + BZ_N_OVERSHOOT <= block.Length
    requires crc < 0x1_0000_0000
    requires inUse.Length == 256 && InUseOf(inUse[..], block[..n]) && w.Spare() >= BlockRoom(n)
    modifies w, w.zbits, block
    ensures block[..n] == old(block[..n]) && Encodes(p, block[..n]) && p.crc == crc
    ensures Sendable(p) && w.Valid() && w.Written() == old(w.Written()) + BlockBits(p) && |BlockBits(p)| <= BlockRoom(n)
  {
    hide BitWriter.Valid, BitWriter.Written, S.PayloadRoom, InUseOf, SortedRotations, Coded, Sendable, PayloadBits,
         BlockBits, BytesOf, Bits32, Bits24, Encodes, Sum, Used;
    var u := inUse[..];
    ghost var w0, b := w.Written(), block[..n];
    var ptr, origPtr := SortBlock(block, n, workFactor);
    SendBlockHead(w, crc, origPtr);
    ghost var perm := ptr[..n];
    var mtfv, nMTF, mtfFreq, nInUse;
    ghost var rank, col;
    mtfv, nMTF, mtfFreq, nInUse, rank, col := CodeBlock(ptr, block, n, inUse, b, perm);
    CodedFits(mtfv[..nMTF], mtfFreq[..], nInUse, u, b, perm, rank, col);
    RoomGrows(nMTF, n + 1);
    p := S.SendMtfValues(w, mtfv, nMTF, mtfFreq, u, nInUse, crc, origPtr);
    CodedEncodes(p, mtfFreq[..], nInUse, b, perm, rank, col);
    BlockBitsParts(p);
    assert w.Written() == w0 + BlockBits(p);
    BlockFits(p, n);
  }

  lemma BlockFits(p: Payload, n: nat)
    requires Sendable(p) && Alpha(p) <= BZ_MAX_ALPHA_SIZE && |p.syms| <= n + 1
    ensures |BlockBits(p)| <= BlockRoom(n)
  {
    hide PayloadBits, Sendable, Used, S.PayloadRoom;
    BlockBitsParts(p);
    S.PayloadFits(p);
    NumberSizes(p.crc, p.origPtr);
    RoomGrows(|p.syms|, n + 1);
  }
}
