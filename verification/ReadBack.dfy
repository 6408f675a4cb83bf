// BZ2_decompress reads back every section BZ2_compressBlock writes, whatever follows it.
module ReadBack {
  import opened Common
  import opened Counting
  import opened Bits
  import opened GenerateMtf
  import opened HuffmanCodes
  import opened DecodeMachine
  import opened BlockFormat

  // ---- bytes --------------------------------------------------------------

  // A number below 2^24 written at once is its three bytes in turn.
  lemma Bits24Is(v: nat)
    requires v < 0x100_0000
    ensures ToBits(v, 24) == Bits24(v)
  {
    hide ToBits, Bits24;
    var b2, b1, b0 := ThreeParts(v);
    JoinByte(b2, b1, 8);
    JoinByte(256 * b2 + b1, b0, 16);
  }

  lemma ThreeBytes(v: nat)
    requires v < 0x100_0000
    ensures v == 256 * (256 * (v / 65536) + v / 256 % 256) + v % 256
    ensures v / 65536 % 256 == v / 65536
  {
    QuotientTwice(v);
  }

  lemma QuotientTwice(v: nat)
    ensures v / 256 / 256 == v / 65536
  {
  }

  lemma JoinByte(a: nat, b: nat, n: nat)
    requires b < 256
    ensures ToBits(256 * a + b, n + 8) == ToBits(a, n) + ToBits(b, 8)
  {
    Pow2Of32();
    Shl8(a);
    ToBitsJoin(a, b, n, 8);
  }

  // ---- the block header ---------------------------------------------------

  lemma BytesOfFront(s: seq<int>, k: nat, rest: seq<bool>)
    requires k < |s| && forall i :: 0 <= i < |s| ==> 0 <= s[i] < 256
    ensures BytesOf(s[k..]) + rest == ToBits(s[k], 8) + (BytesOf(s[k + 1..]) + rest)
  {
    assert s[k..][0] == s[k] && s[k..][1..] == s[k + 1..];
  }

  lemma NoBytes(s: seq<int>, rest: seq<bool>)
    requires s == []
    ensures BytesOf(s) + rest == rest
  {
  }

  lemma {:induction false} BlockMagicReads(c: Core, k: nat, rest: seq<bool>)
    requires k < 6 && c.state == BZ_X_BLKHDR_1 + k
    ensures Run(c, BytesOf(BLOCK_MAGIC[k..]) + rest) == Run(c.(storedBlockCRC := 0, state := BZ_X_BCRC_1), rest)
    decreases 6 - k
  {
    hide Run, ToBits, BytesOf;
    BytesOfFront(BLOCK_MAGIC, k, rest);
    RunByte(c, BLOCK_MAGIC[k], BytesOf(BLOCK_MAGIC[k + 1..]) + rest);
    if k < 5 {
      BlockMagicReads(c.(state := c.state + 1), k + 1, rest);
    } else {
      NoBytes(BLOCK_MAGIC[6..], rest);
    }
  }

  lemma {:induction false} EndMagicReads(c: Core, k: nat, rest: seq<bool>)
    requires 1 <= k < 6 && c.state == BZ_X_ENDHDR_2 + k - 1
    ensures Run(c, BytesOf(END_MAGIC[k..]) + rest) == Run(c.(storedCombinedCRC := 0, state := BZ_X_CCRC_1), rest)
    decreases 6 - k
  {
    hide Run, ToBits, BytesOf;
    BytesOfFront(END_MAGIC, k, rest);
    RunByte(c, END_MAGIC[k], BytesOf(END_MAGIC[k + 1..]) + rest);
    if k < 5 {
      EndMagicReads(c.(state := c.state + 1), k + 1, rest);
    } else {
      NoBytes(END_MAGIC[6..], rest);
    }
  }

  // The bytes of a number, and what is written for it.
  lemma ThreeParts(v: nat) returns (b2: nat, b1: nat, b0: nat)
    requires v < 0x100_0000
    ensures b2 < 256 && b1 < 256 && b0 < 256 && v == 256 * (256 * b2 + b1) + b0
    ensures Bits24(v) == ToBits(b2, 8) + ToBits(b1, 8) + ToBits(b0, 8)
  {
    hide ToBits;
    ThreeBytes(v);
    b2, b1, b0 := v / 65536, v / 256 % 256, v % 256;
  }

  lemma FourParts(v: nat) returns (b3: nat, b2: nat, b1: nat, b0: nat)
    requires v < 0x1_0000_0000
    ensures b3 < 256 && b2 < 256 && b1 < 256 && b0 < 256 && v == 256 * (256 * (256 * b3 + b2) + b1) + b0
    ensures Bits32(v) == ToBits(b3, 8) + (ToBits(b2, 8) + ToBits(b1, 8) + ToBits(b0, 8))
  {
    hide ToBits;
    QuotientTwice(v);
    QuotientThrice(v);
    b3, b2, b1, b0 := v / 0x100_0000, v / 65536 % 256, v / 256 % 256, v % 256;
    assert v == 256 * (v / 256) + b0;
    assert v / 256 == 256 * (v / 65536) + b1;
    assert v / 65536 == 256 * b3 + b2;
  }

  lemma QuotientThrice(v: nat)
    ensures v / 65536 / 256 == v / 0x100_0000
  {
  }

  // A number below 2^24 keeps all its bits when a byte is shifted in.
  lemma ShiftedIn(x: int)
    requires 0 <= x < 0x100_0000
    ensures x * 256 % 0x1_0000_0000 == 256 * x
  {
  }

  lemma CrcByte(c: Core, b: Byte, rest: seq<bool>)
    requires BZ_X_BCRC_1 <= c.state <= BZ_X_BCRC_4 && 0 <= c.storedBlockCRC < 0x100_0000
    ensures Run(c, ToBits(b, 8) + rest) == Run(c.(storedBlockCRC := 256 * c.storedBlockCRC + b, state := c.state + 1),
            rest)
  {
    hide Run, ToBits;
    ShiftedIn(c.storedBlockCRC);
    RunByte(c, b, rest);
  }

  lemma CrcReads(c: Core, v: nat, rest: seq<bool>)
    requires c.state == BZ_X_BCRC_1 && c.storedBlockCRC == 0 && v < 0x1_0000_0000
    ensures Run(c, Bits32(v) + rest) == Run(c.(storedBlockCRC := v, state := BZ_X_RANDBIT), rest)
  {
    hide Run, ToBits, Bits32;
    var b3, b2, b1, b0 := FourParts(v);
    Append4(ToBits(b3, 8), ToBits(b2, 8), ToBits(b1, 8), ToBits(b0, 8), rest);
    CrcByte(c, b3, ToBits(b2, 8) + (ToBits(b1, 8) + (ToBits(b0, 8) + rest)));
    var c1 := c.(storedBlockCRC := b3, state := BZ_X_BCRC_1 + 1);
    CrcByte(c1, b2, ToBits(b1, 8) + (ToBits(b0, 8) + rest));
    var c2 := c.(storedBlockCRC := 256 * b3 + b2, state := BZ_X_BCRC_1 + 2);
    CrcByte(c2, b1, ToBits(b0, 8) + rest);
    CrcByte(c.(storedBlockCRC := 256 * (256 * b3 + b2) + b1, state := BZ_X_BCRC_1 + 3), b0, rest);
  }

  lemma Append4<T>(a: seq<T>, b: seq<T>, c: seq<T>, d: seq<T>, rest: seq<T>)
    ensures a + (b + c + d) + rest == a + (b + (c + (d + rest)))
  {
  }

  lemma CombinedCrcByte(c: Core, b: Byte, rest: seq<bool>)
    requires BZ_X_CCRC_1 <= c.state <= BZ_X_CCRC_4 && 0 <= c.storedCombinedCRC < 0x100_0000
    ensures Run(c, ToBits(b, 8) + rest)
            == var d := c.(storedCombinedCRC := 256 * c.storedCombinedCRC + b);
               if c.state < BZ_X_CCRC_4 then Run(d.(state := c.state + 1), rest) else Ended(d.(state := BZ_X_IDLE),
                   rest)
  {
    hide Run, ToBits;
    ShiftedIn(c.storedCombinedCRC);
    RunByte(c, b, rest);
  }

  lemma CombinedCrcReads(c: Core, v: nat, rest: seq<bool>)
    requires c.state == BZ_X_CCRC_1 && c.storedCombinedCRC == 0 && v < 0x1_0000_0000
    ensures Run(c, Bits32(v) + rest) == Ended(c.(storedCombinedCRC := v, state := BZ_X_IDLE), rest)
  {
    hide Run, ToBits, Bits32;
    var b3, b2, b1, b0 := FourParts(v);
    Append4(ToBits(b3, 8), ToBits(b2, 8), ToBits(b1, 8), ToBits(b0, 8), rest);
    CombinedCrcByte(c, b3, ToBits(b2, 8) + (ToBits(b1, 8) + (ToBits(b0, 8) + rest)));
    var c1 := c.(storedCombinedCRC := b3, state := BZ_X_CCRC_1 + 1);
    CombinedCrcByte(c1, b2, ToBits(b1, 8) + (ToBits(b0, 8) + rest));
    var c2 := c.(storedCombinedCRC := 256 * b3 + b2, state := BZ_X_CCRC_1 + 2);
    CombinedCrcByte(c2, b1, ToBits(b0, 8) + rest);
    CombinedCrcByte(c.(storedCombinedCRC := 256 * (256 * b3 + b2) + b1, state := BZ_X_CCRC_1 + 3), b0, rest);
  }

  lemma OrigPtrByte(c: Core, b: Byte, rest: seq<bool>)
    requires BZ_X_ORIGPTR_1 <= c.state < BZ_X_ORIGPTR_3
    ensures Run(c, ToBits(b, 8) + rest) == Run(c.(origPtr := 256 * c.origPtr + b, state := c.state + 1), rest)
  {
    hide Run, ToBits;
    RunByte(c, b, rest);
  }

  lemma OrigPtrReads(c: Core, v: nat, rest: seq<bool>)
    requires c.state == BZ_X_ORIGPTR_1 && c.origPtr == 0 && v < 0x100_0000 && v <= 10 + 100000 * c.blockSize100k
    ensures Run(c, Bits24(v) + rest) == Run(c.(origPtr := v, i := 0, inUse16 := [], state := BZ_X_MAPPING_1), rest)
  {
    hide Run, ToBits, Bits24;
    var b2, b1, b0 := ThreeParts(v);
    assert Bits24(v) + rest == ToBits(b2, 8) + (ToBits(b1, 8) + (ToBits(b0, 8) + rest));
    OrigPtrByte(c, b2, ToBits(b1, 8) + (ToBits(b0, 8) + rest));
    var c1 := c.(origPtr := b2, state := BZ_X_ORIGPTR_1 + 1);
    OrigPtrByte(c1, b1, ToBits(b0, 8) + rest);
    RunByte(c.(origPtr := 256 * b2 + b1, state := BZ_X_ORIGPTR_3), b0, rest);
  }

  // ---- the used-byte map --------------------------------------------------

  lemma {:induction false} GroupsRead(c: Core, inUse: seq<bool>, i: nat, rest: seq<bool>)
    requires |inUse| == 256 && i < 16 && c.state == BZ_X_MAPPING_1 && c.i == i && c.inUse16 == GroupBits(inUse)[..i]
    ensures Run(c, GroupBits(inUse)[i..] + rest)
            == RunFrom(Mapping2From(c.(inUse16 := GroupBits(inUse), i := 0, inUse := Rep(false, 256))), rest)
    decreases 16 - i
  {
    hide Run;
    var g := GroupBits(inUse);
    assert g[i..] + rest == [g[i]] + (g[i + 1..] + rest);
    RunBit(c, g[i], g[i + 1..] + rest);
    assert g[..i] + [g[i]] == g[..i + 1];
    var d := c.(inUse16 := g[..i + 1], i := i + 1);
    if i + 1 < 16 {
      GroupsRead(d, inUse, i + 1, rest);
    } else {
      assert g[..16] == g && g[16..] + rest == rest;
    }
  }

  // Bytes from place n on are still unset.
  function Known(inUse: seq<bool>, n: nat): (r: seq<bool>)
    requires n <= |inUse|
    ensures |r| == |inUse| && forall k :: 0 <= k < |r| ==> r[k] == (k < n && inUse[k])
  {
    inUse[..n] + Rep(false, |inUse| - n)
  }

  lemma {:induction false} GroupReads(c: Core, inUse: seq<bool>, i: nat, j: nat, rest: seq<bool>)
    requires |inUse| == 256 && i < 16 && j < 16 && c.state == BZ_X_MAPPING_2 && c.i == i && c.j == j
    requires c.inUse == Known(inUse, i * 16 + j)
    ensures Run(c, inUse[i * 16 + j..i * 16 + 16] + rest)
            == RunFrom(Mapping2From(c.(inUse := Known(inUse, i * 16 + 16), j := 15, i := i + 1)), rest)
    decreases 16 - j
  {
    hide Run, Known;
    var at := i * 16 + j;
    assert inUse[at..i * 16 + 16] + rest == [inUse[at]] + (inUse[at + 1..i * 16 + 16] + rest);
    RunBit(c, inUse[at], inUse[at + 1..i * 16 + 16] + rest);
    var d := c.(inUse := Known(inUse, at + 1));
    KnownNext(inUse, at);
    if j + 1 < 16 {
      GroupReads(d.(j := j + 1), inUse, i, j + 1, rest);
    } else {
      assert inUse[at + 1..i * 16 + 16] + rest == rest;
    }
  }

  lemma KnownNext(inUse: seq<bool>, at: nat)
    requires at < |inUse|
    ensures Known(inUse, at + 1) == if inUse[at] then Known(inUse, at)[at := true] else Known(inUse, at)
  {
  }

  lemma GroupUsed(c: Core, inUse: seq<bool>, i: nat, rest: seq<bool>)
    requires |inUse| == 256 && i < 16 && c.i == i && c.inUse16 == GroupBits(inUse) && c.inUse == Known(inUse, i * 16)
    requires GroupInUse(inUse, i)
    ensures RunFrom(Mapping2From(c), MapBits(inUse, i) + rest)
            == RunFrom(Mapping2From(c.(inUse := Known(inUse, i * 16 + 16), i := i + 1, j := 15,
                                       state := BZ_X_MAPPING_2)),
                       MapBits(inUse, i + 1) + rest)
  {
    hide Run, Used, Known, GroupBits;
    assert MapBits(inUse, i) + rest == inUse[i * 16..i * 16 + 16] + (MapBits(inUse, i + 1) + rest);
    GroupReads(c.(j := 0, state := BZ_X_MAPPING_2), inUse, i, 0, MapBits(inUse, i + 1) + rest);
  }

  // What the map leaves: the bytes in use, the loop variables at their ends.
  lemma {:induction false} MapReads(c: Core, inUse: seq<bool>, i: nat, rest: seq<bool>) returns (d: Core)
    requires |inUse| == 256 && i <= 16 && c.i == i && c.inUse16 == GroupBits(inUse) && c.inUse == Known(inUse, i * 16)
    requires |Used(inUse, 256)| > 0
    ensures RunFrom(Mapping2From(c), MapBits(inUse, i) + rest) == Run(d, rest)
    ensures d == c.(inUse := inUse, i := 16, j := d.j, state := BZ_X_SELECTOR_1)
    decreases 16 - i
  {
    hide Run, Used;
    if i == 16 {
      assert Known(inUse, 256) == inUse;
      assert MapBits(inUse, 16) + rest == rest;
      d := c.(state := BZ_X_SELECTOR_1);
    } else if GroupInUse(inUse, i) {
      GroupUsed(c, inUse, i, rest);
      d := MapReads(c.(inUse := Known(inUse, i * 16 + 16), i := i + 1, j := 15, state := BZ_X_MAPPING_2), inUse, i + 1,
          rest);
    } else {
      assert MapBits(inUse, i) == MapBits(inUse, i + 1);
      GroupUnused(inUse, i);
      d := MapReads(c.(i := i + 1), inUse, i + 1, rest);
    }
  }

  lemma GroupUnused(inUse: seq<bool>, i: nat)
    requires |inUse| == 256 && i < 16 && !GroupInUse(inUse, i)
    ensures Known(inUse, i * 16 + 16) == Known(inUse, i * 16)
  {
    forall k | i * 16 <= k < i * 16 + 16 ensures !inUse[k] {
      assert inUse[i * 16..i * 16 + 16][k - i * 16] == inUse[k];
    }
  }

  // ---- selectors ----------------------------------------------------------

  lemma {:induction false} UnaryReads(c: Core, p: int, j: nat, rest: seq<bool>)
    requires c.state == BZ_X_SELECTOR_3 && c.j == j <= p < c.nGroups
    ensures Run(c, Rep(true, p - j) + [false] + rest)
            == RunFrom(Selector3(c.(j := p), 0), rest)
    decreases p - j
  {
    hide Run, UndoMtf;
    if j == p {
      assert Rep(true, 0) + [false] + rest == [false] + rest;
      RunBit(c, false, rest);
    } else {
      var tail := Rep(true, p - j - 1) + [false] + rest;
      assert Rep(true, p - j) == [true] + Rep(true, p - j - 1);
      assert Rep(true, p - j) + [false] + rest == [true] + tail;
      RunBit(c, true, tail);
      UnaryReads(c.(j := j + 1), p, j + 1, rest);
    }
  }

  lemma {:induction false} UnaryAllReads(c: Core, pos: seq<int>, k: nat, rest: seq<bool>)
    requires c.state == BZ_X_SELECTOR_3 && c.j == 0 && c.i == k < |pos| == c.nSelectors && c.selectorMtf == pos[..k]
    requires forall i :: 0 <= i < |pos| ==> 0 <= pos[i] < c.nGroups
    ensures Run(c, UnaryAll(pos[k..]) + rest)
            == Run(c.(i := |pos|, selectorMtf := pos, selector := UndoMtf(FirstList(c.nGroups), pos),
                      t := 0, len := [], state := BZ_X_CODING_1), rest)
    decreases |pos| - k
  {
    hide Run, UndoMtf;
    assert pos[k..][0] == pos[k] && pos[k..][1..] == pos[k + 1..];
    assert UnaryAll(pos[k..]) + rest == Rep(true, pos[k]) + [false] + (UnaryAll(pos[k + 1..]) + rest);
    UnaryReads(c, pos[k], 0, UnaryAll(pos[k + 1..]) + rest);
    assert pos[..k] + [pos[k]] == pos[..k + 1];
    if k + 1 < |pos| {
      UnaryAllReads(c.(selectorMtf := pos[..k + 1], i := k + 1), pos, k + 1, rest);
    } else {
      assert pos[..|pos|] == pos;
      assert pos[|pos|..] == [];
      assert UnaryAll([]) + rest == rest;
    }
  }

  lemma SelectorsRead(c: Core, nGroups: int, sel: seq<int>, rest: seq<bool>)
    requires c.state == BZ_X_SELECTOR_1 && 2 <= nGroups <= 6 && 0 < |sel| <= BZ_MAX_SELECTORS && Selectors(sel, nGroups)
    ensures (forall k :: 0 <= k < |sel| ==> sel[k] in FirstList(nGroups))
            && Run(c, ToBits(nGroups, 3) + (ToBits(|sel|, 15) + (UnaryAll(DoMtf(FirstList(nGroups), sel)) + rest)))
               == Run(c.(nGroups := nGroups, nSelectors := |sel|, i := |sel|, j := 0,
                   selectorMtf := DoMtf(FirstList(nGroups), sel),
                         selector := sel, t := 0, len := [], state := BZ_X_CODING_1), rest)
  {
    hide Run, UndoMtf, DoMtf;
    SelectorsListed(sel, nGroups);
    var pos := DoMtf(FirstList(nGroups), sel);
    Pow2Small();
    RunNext(c, nGroups, ToBits(|sel|, 15) + (UnaryAll(pos) + rest));
    var c1 := c.(nGroups := nGroups, state := BZ_X_SELECTOR_2);
    RunNext(c1, |sel|, UnaryAll(pos) + rest);
    var c2 := c1.(nSelectors := |sel|, i := 0, j := 0, selectorMtf := [], state := BZ_X_SELECTOR_3);
    assert pos[0..] == pos && pos[..0] == [];
    UnaryAllReads(c2, pos, 0, rest);
    MtfUndone(FirstList(nGroups), sel);
  }

  lemma Pow2Small()
    ensures Pow2(3) == 8 && Pow2(5) == 32 && Pow2(15) == 32768
  {
    assert Pow2(2) == 4 && Pow2(4) == 16;
    Pow2Add(4, 4);
    Pow2Add(8, 7);
    assert Pow2(7) == 128 by {
      Pow2Add(4, 3);
    }
  }

  // ---- code lengths -------------------------------------------------------

  // The lengths in place when entry i of a table is being adjusted.
  ghost predicate InTable(c: Core, done: seq<seq<int>>, len: seq<int>, i: nat) {
    && i <= |len| && c.i == i && c.len == done + [len[..i]] && AlphaSize(c) == |len|
    && forall k :: 0 <= k < |len| ==> 1 <= len[k] <= 20
  }

  // One step up or down in a length.
  lemma OneAdjusted(c: Core, up: bool, tail: seq<bool>)
    requires c.state == BZ_X_CODING_2 && 1 <= (if up then c.curr + 1 else c.curr - 1) <= 20
    ensures Run(c, [true] + ([!up] + tail)) == Run(c.(curr := if up then c.curr + 1 else c.curr - 1), tail)
  {
    hide Run, TablesReady, AlphaSize;
    RunBit(c, true, [!up] + tail);
    RunBit(c.(state := BZ_X_CODING_3), !up, tail);
  }

  lemma {:induction false} AdjustReads(c: Core, target: int, rest: seq<bool>)
    requires c.state == BZ_X_CODING_2 && 1 <= c.curr <= 20 && 1 <= target <= 20
    ensures Run(c, Adjust(c.curr, target) + rest) == RunFrom(Coding2(c.(curr := target), 0), rest)
    decreases if c.curr < target then target - c.curr else c.curr - target
  {
    hide Run, TablesReady, AlphaSize;
    if c.curr == target {
      RunBit(c, false, rest);
    } else {
      var up := c.curr < target;
      var next := if up then c.curr + 1 else c.curr - 1;
      var tail := Adjust(next, target) + rest;
      assert Adjust(c.curr, target) + rest == [true] + ([!up] + tail);
      OneAdjusted(c, up, tail);
      AdjustReads(c.(curr := next), target, rest);
    }
  }

  // What follows the last length of a table: the next table, or the end of the tables.
  function TableEnd(c: Core): Outcome {
    if c.t + 1 < c.nGroups then More(c.(t := c.t + 1, state := BZ_X_CODING_1)) else TablesReady(c)
  }

  lemma {:induction false} LengthsRead(c: Core, done: seq<seq<int>>, len: seq<int>, i: nat, rest: seq<bool>)
    requires i < |len| && InTable(c, done, len, i) && c.state == BZ_X_CODING_2 && 1 <= c.curr <= 20
    ensures Run(c, LengthBits(len, i, c.curr) + rest)
            == RunFrom(TableEnd(c.(curr := len[|len| - 1], i := |len|, len := done + [len])), rest)
    decreases |len| - i
  {
    hide Run, TablesReady, Adjust, Used;
    var tail := LengthBits(len, i + 1, len[i]) + rest;
    assert LengthBits(len, i, c.curr) + rest == Adjust(c.curr, len[i]) + tail;
    AdjustReads(c, len[i], tail);
    var d := c.(curr := len[i], len := done + [len[..i + 1]], i := i + 1);
    assert len[..i] + [len[i]] == len[..i + 1];
    assert c.len[|done| := c.len[|done|] + [len[i]]] == d.len;
    if i + 1 < |len| {
      LengthsRead(d, done, len, i + 1, rest);
    } else {
      assert len[..|len|] == len && tail == rest;
    }
  }

  function LastLength(lens: seq<seq<int>>): int
    requires |lens| > 0 && |lens[|lens| - 1]| > 0
  {
    lens[|lens| - 1][|lens[|lens| - 1]| - 1]
  }

  lemma {:induction false} TablesRead(c: Core, lens: seq<seq<int>>, t: nat, rest: seq<bool>)
    requires t < |lens| == c.nGroups && c.t == t && c.state == BZ_X_CODING_1 && c.len == lens[..t]
    requires forall u :: 0 <= u < |lens| ==>
               |lens[u]| == AlphaSize(c) && forall k :: 0 <= k < |lens[u]| ==> 1 <= lens[u][k] <= 20
    ensures (forall u :: 0 <= u < |lens| ==> |lens[u]| > 0 && lens[u][0] >= 0)
            && Run(c, TablesBits(lens, t) + rest)
               == RunFrom(TablesReady(c.(curr := LastLength(lens), i := AlphaSize(c), t := |lens| - 1, len := lens,
                                         state := BZ_X_CODING_2)), rest)
    decreases |lens| - t
  {
    hide Run, TablesReady, Used, LengthBits;
    var len := lens[t];
    var tail := TablesBits(lens, t + 1) + rest;
    assert TablesBits(lens, t) + rest == ToBits(len[0], 5) + (LengthBits(len, 0, len[0]) + tail);
    Pow2Small();
    RunNext(c, len[0], LengthBits(len, 0, len[0]) + tail);
    var c1 := c.(curr := len[0], i := 0, len := lens[..t] + [[]], state := BZ_X_CODING_2);
    assert len[..0] == [];
    LengthsRead(c1, lens[..t], len, 0, tail);
    assert lens[..t] + [len] == lens[..t + 1];
    var c2 := c1.(curr := len[|len| - 1], i := |len|, len := lens[..t + 1]);
    if t + 1 < |lens| {
      TablesRead(c2.(t := t + 1, state := BZ_X_CODING_1), lens, t + 1, rest);
    } else {
      assert lens[..|lens|] == lens && tail == rest;
    }
  }

  // ---- symbols ------------------------------------------------------------

  // Which of the two labels of a GET_MTF_VAL is waited at makes no difference once the symbol is known.
  function SymbolFound(c: Core, inRun: bool, sym: int): Outcome {
    if inRun then RunContinues(c, sym) else Dispatch(c, sym)
  }

  predicate AtSymbol(c: Core) {
    c.state in {BZ_X_MTF_1, BZ_X_MTF_2, BZ_X_MTF_3, BZ_X_MTF_4, BZ_X_MTF_5, BZ_X_MTF_6}
  }

  predicate InRun(c: Core) {
    c.state == BZ_X_MTF_3 || c.state == BZ_X_MTF_4
  }

  lemma {:induction false} MinMax(len: seq<int>, i: nat)
    requires i < |len|
    ensures MinOf(len) <= len[i] <= MaxOf(len)
  {
    var m := |len| - 1;
    if i < m {
      MinMax(len[..m], i);
    }
  }

  lemma {:induction false} MinMaxRange(len: seq<int>, lo: int, hi: int)
    requires forall i :: 0 <= i < |len| ==> lo <= len[i] <= hi
    ensures lo <= MinOf(len) || MinOf(len) == 32
    ensures MaxOf(len) <= hi || MaxOf(len) == 0
  {
    if len != [] {
      MinMaxRange(len[..|len| - 1], lo, hi);
    }
  }

  // Where codes can lie, base turns a code into its place.
  lemma BaseIs(len: seq<int>, n: nat)
    requires CodeLengths(len, 20) && MinOf(len) <= n <= MaxOf(len)
    ensures Base(len, n) == FirstCode(len, n) - CountBelow(len, n, |len|)
  {
    forall i | 0 <= i < |len| ensures MinOf(len) <= len[i] {
      MinMax(len, i);
    }
    if n == MinOf(len) {
      NothingBelow(len, n);
      CountBelowEnds(len, n, 21, |len|);
    }
  }

  // At its own length a code is within the limit and leads to its symbol.
  lemma CodeFound(c: Core, len: seq<int>, sym: nat)
    requires AtSymbol(c) && GLen(c) == len && CodeLengths(len, 20) && sym < |len| <= BZ_MAX_ALPHA_SIZE
    requires c.zn == len[sym] && MinOf(len) <= len[sym] <= MaxOf(len) && c.zvec == Code(len, sym)
    requires Permuted(len, GPerm(c))
    ensures Symbol(c) == SymbolFound(c, InRun(c), sym)
  {
    hide RunContinues, Dispatch, MinOf, MaxOf, FirstCode, Count, CountBelow;
    CodeFits(len, 20, sym);
    BaseIs(len, len[sym]);
    assert Place(len, sym) < |len| && GPerm(c)[Place(len, sym)] == sym;
  }

  // Short of its own length a code is past the limit.
  lemma CodeUnfinished(c: Core, len: seq<int>, sym: nat)
    requires AtSymbol(c) && GLen(c) == len && CodeLengths(len, 20) && sym < |len|
    requires 0 <= c.zn < len[sym] <= MaxOf(len) && MinOf(len) <= c.zn && c.zvec == Shr(Code(len, sym), len[sym] - c.zn)
    ensures Symbol(c) == More(c.(zn := c.zn + 1, state := if c.state % 2 == 0 then c.state + 1 else c.state))
  {
    hide RunContinues, Dispatch, MinOf, MaxOf;
    LongerAbove(len, 20, sym, c.zn);
  }

  // The code read so far is the start of the symbol's.
  lemma {:induction false} ScanReads(c: Core, len: seq<int>, sym: nat, zn: nat, rest: seq<bool>) returns (d: Core)
    requires AtSymbol(c) && GLen(c) == len && CodeLengths(len, 20) && sym < |len| && |len| <= BZ_MAX_ALPHA_SIZE
    requires c.zn == zn <= len[sym] && MinOf(len) <= zn && len[sym] <= MaxOf(len)
    requires c.zvec == Shr(Code(len, sym), len[sym] - zn)
    requires Permuted(len, GPerm(c))
    ensures RunFrom(Symbol(c), ToBits(Code(len, sym), len[sym])[zn..] + rest)
            == RunFrom(SymbolFound(d, InRun(c), sym), rest)
    ensures d == c.(zn := d.zn, zvec := d.zvec, state := d.state)
    decreases len[sym] - zn
  {
    hide Run, Symbol, SymbolFound, MinOf, MaxOf, ToBits, Code, CodeLengths, Permuted;
    var code, n := Code(len, sym), len[sym];
    CodeFits(len, 20, sym);
    var bits := ToBits(code, n);
    if zn == n {
      assert bits[n..] + rest == rest;
      d := c;
      CodeFound(c, len, sym);
    } else {
      CodeUnfinished(c, len, sym);
      ShrBit(code, n, n - zn);
      var c1 := c.(zn := zn + 1, state := if c.state % 2 == 0 then c.state + 1 else c.state);
      assert bits[zn..] + rest == [bits[zn]] + (bits[zn + 1..] + rest);
      RunBit(c1, bits[zn], bits[zn + 1..] + rest);
      d := ScanReads(c1.(zvec := c1.zvec * 2 + (if bits[zn] then 1 else 0)), len, sym, zn + 1, rest);
    }
  }
}
