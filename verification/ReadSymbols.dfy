// BZ2_decompress reads back the symbols of a block, undoing the move-to-front stage as it goes.
module ReadSymbols {
  import opened Common
  import opened Bits
  import opened MoveToFront
  import opened GenerateMtf
  import opened HuffmanTree
  import opened HuffmanCodes
  import opened DecodeMachine
  import opened BlockFormat
  import opened ReadBack

  // The decoder has the block's tables.
  ghost predicate Loaded(c: Core, p: Payload) {
    && Sendable(p) && Alpha(p) <= BZ_MAX_ALPHA_SIZE
    && c.inUse == p.inUse && c.selector == p.selector && c.nSelectors == |p.selector| && c.len == p.lens
    && |c.perm| >= |p.lens| && forall t :: 0 <= t < |p.lens| ==> Permuted(p.lens[t], c.perm[t])
  }

  // k symbols have been begun.
  ghost predicate Begun(c: Core, k: int) {
    0 <= c.groupPos < BZ_G_SIZE && BZ_G_SIZE * c.groupNo + BZ_G_SIZE - c.groupPos == k
  }

  // Symbol k is waited for, with the table chosen for its group.
  ghost predicate AtCode(c: Core, p: Payload, k: nat) {
    && Loaded(c, p) && k < |p.syms| && Begun(c, k + 1) && c.groupNo == k / BZ_G_SIZE < |p.selector|
    && c.zn == MinOf(p.lens[p.selector[c.groupNo]])
    && c.state in {BZ_X_MTF_1, BZ_X_MTF_3, BZ_X_MTF_5}
  }

  lemma BeginReads(c: Core, p: Payload, k: nat, site: int)
    requires Loaded(c, p) && k < |p.syms| && Begun(c, k) && site in {BZ_X_MTF_1, BZ_X_MTF_3, BZ_X_MTF_5}
    ensures BeginSymbol(c, site).More?
    ensures var d := BeginSymbol(c, site).c;
            AtCode(d, p, k) && d == c.(groupNo := d.groupNo, groupPos := d.groupPos, zn := d.zn, state := site)
  {
    hide Sendable, MinOf;
    assert |p.syms| <= BZ_G_SIZE * |p.selector| && Selectors(p.selector, p.nGroups) && |p.lens| == p.nGroups by {
      Revealed(p);
    }
    var no := if c.groupPos == 0 then c.groupNo + 1 else c.groupNo;
    assert no == k / BZ_G_SIZE;
  }

  lemma Revealed(p: Payload)
    requires Sendable(p)
    ensures |p.syms| <= BZ_G_SIZE * |p.selector| && Selectors(p.selector, p.nGroups) && 2 <= |p.lens| == p.nGroups <= 6
    ensures |p.inUse| == 256 && 0 < |p.selector| <= BZ_MAX_SELECTORS
    ensures Alpha(p) > 2 && forall t :: 0 <= t < |p.lens| ==> IsTable(p.lens[t], Alpha(p))
    ensures forall k :: 0 <= k < |p.syms| ==> 0 <= p.syms[k] < Alpha(p)
  {
  }

  lemma {:induction false} SharesMore(len: seq<int>, m: nat)
    requires CodeLengths(len, m)
    ensures CodeLengths(len, m + 1)
  {
    SumScale2(Shares(len, m + 1), Shares(len, m));
  }

  lemma {:induction false} SumScale2(s: seq<int>, t: seq<int>)
    requires |s| == |t| && forall i :: 0 <= i < |s| ==> s[i] == 2 * t[i]
    ensures Sum(s) == 2 * Sum(t)
  {
    if s != [] {
      SumScale2(s[..|s| - 1], t[..|t| - 1]);
    }
  }

  lemma LongerCodes(len: seq<int>)
    requires CodeLengths(len, 17)
    ensures CodeLengths(len, 20)
  {
    SharesMore(len, 17);
    SharesMore(len, 18);
    SharesMore(len, 19);
  }

  // The code of symbol k is read off and leaves the symbol.
  lemma CodeReads(c: Core, p: Payload, k: nat, rest: seq<bool>) returns (d: Core)
    requires AtCode(c, p, k)
    ensures Run(c, CodeBits(TableFor(p, k), p.syms[k]) + rest) == RunFrom(SymbolFound(d, InRun(c), p.syms[k]), rest)
    ensures d == c.(zn := d.zn, zvec := d.zvec, state := d.state)
  {
    hide Run, Symbol, SymbolFound, MinOf, MaxOf, Sendable, ToBits, Permuted;
    Revealed(p);
    var len, sym := p.lens[p.selector[k / BZ_G_SIZE]], p.syms[k];
    assert TableFor(p, k) == len && GLen(c) == len;
    assert IsTable(len, Alpha(p));
    LongerCodes(len);
    d := OneCodeReads(c, len, sym, rest);
  }

  // The first lo bits of a code, and the others.
  lemma CodeInTwo(len: seq<int>, sym: nat, lo: nat, rest: seq<bool>)
    requires CodeLengths(len, 20) && sym < |len| && lo <= len[sym]
    ensures var code, n := Code(len, sym), len[sym];
            CodeBits(len, sym) + rest == ToBits(Shr(code, n - lo), lo) + (ToBits(code, n)[lo..] + rest)
            && Shr(code, n - lo) < Pow2(lo)
  {
    hide CodeLengths, Code;
    var code, n := Code(len, sym), len[sym];
    CodeFits(len, 20, sym);
    var bits := ToBits(code, n);
    ToBitsPrefix(code, n, n - lo);
    assert bits == bits[..lo] + bits[lo..];
    ShrSmall(code, lo, n - lo);
  }

  lemma OneCodeReads(c: Core, len: seq<int>, sym: nat, rest: seq<bool>) returns (d: Core)
    requires c.state in {BZ_X_MTF_1, BZ_X_MTF_3, BZ_X_MTF_5} && GLen(c) == len && Permuted(len, GPerm(c))
    requires CodeLengths(len, 17) && CodeLengths(len, 20) && sym < |len| <= BZ_MAX_ALPHA_SIZE && c.zn == MinOf(len)
    ensures Run(c, CodeBits(len, sym) + rest) == RunFrom(SymbolFound(d, InRun(c), sym), rest)
    ensures d == c.(zn := d.zn, zvec := d.zvec, state := d.state)
  {
    hide Run, Symbol, SymbolFound, MinOf, MaxOf, ToBits, Permuted, CodeBits, GLen, GPerm;
    var code, n, lo := Code(len, sym), len[sym], MinOf(len);
    MinMax(len, sym);
    MinMaxRange(len, 1, 17);
    CodeInTwo(len, sym, lo, rest);
    var c1 := c.(zvec := Shr(code, n - lo));
    SameTables(c, c1);
    RunNext(c, Shr(code, n - lo), ToBits(code, n)[lo..] + rest);
    d := ScanReads(c1, len, sym, lo, rest);
  }

  lemma SameTables(c: Core, d: Core)
    requires d == c.(zvec := d.zvec)
    ensures GLen(d) == GLen(c) && GPerm(d) == GPerm(c)
  {
  }

  // ---- the move-to-front state --------------------------------------------

  // What entry x of the list stands for.
  function UsedByte(inUse: seq<bool>, x: int): int {
    var used := Used(inUse, |inUse|);
    if 0 <= x < |used| then used[x] else 0
  }

  function ColumnBytes(inUse: seq<bool>, col: seq<int>): (r: seq<int>)
    ensures |r| == |col| && forall i :: 0 <= i < |r| ==> r[i] == UsedByte(inUse, col[i])
  {
    seq(|col|, i requires 0 <= i < |col| => UsedByte(inUse, col[i]))
  }

  // The decoder's variables are level with the move-to-front decoder d.
  ghost predicate LevelWith(c: Core, inRun: bool, d: Decoder) {
    && c.list == d.list && |d.list| == 256 && c.col == ColumnBytes(c.inUse, d.col)
    && (inRun ==> c.es + 1 == d.run && c.weight == d.weight)
    && (!inRun ==> d.run == 0 && d.weight == 1)
  }

  // Fields a symbol leaves alone.
  ghost predicate SameBlock(c: Core, d: Core) {
    && d.inUse == c.inUse && d.selector == c.selector && d.nSelectors == c.nSelectors && d.len == c.len
    && d.perm == c.perm
    && d.blockSize100k == c.blockSize100k && d.storedBlockCRC == c.storedBlockCRC && d.origPtr == c.origPtr
    && d.nGroups == c.nGroups && d.randomised == c.randomised && d.storedCombinedCRC == c.storedCombinedCRC
  }

  lemma ColumnMore(inUse: seq<bool>, col: seq<int>, x: int, n: nat)
    ensures ColumnBytes(inUse, col + Rep(x, n)) == ColumnBytes(inUse, col) + Rep(UsedByte(inUse, x), n)
  {
  }

  lemma DigitFound(c: Core, inRun: bool, p: Payload, k: nat, d: Decoder, sym: int)
    requires Loaded(c, p) && k < |p.syms| && Begun(c, k) && LevelWith(c, inRun, d)
    requires sym == BZ_RUNA || sym == BZ_RUNB
    ensures SymbolFound(c, inRun, sym).More? && DecodeOne(d, sym).Some?
    ensures var e := SymbolFound(c, inRun, sym).c;
            AtCode(e, p, k) && InRun(e) && LevelWith(e, true, DecodeOne(d, sym).value) && SameBlock(c, e)
  {
    hide BeginSymbol, ColumnBytes, Sendable, MinOf, Permuted, Used;
    Revealed(p);
    var b := if inRun then c else c.(es := -1, weight := 1);
    var next := b.(es := b.es + (if sym == BZ_RUNA then b.weight else b.weight + b.weight),
        weight := b.weight + b.weight);
    BeginReads(next, p, k, BZ_X_MTF_3);
  }

  lemma MoveFound(c: Core, inRun: bool, p: Payload, k: nat, d: Decoder, sym: int)
    requires Loaded(c, p) && k < |p.syms| && Begun(c, k) && LevelWith(c, inRun, d)
    requires 2 <= sym <= 256 && sym != Alpha(p) - 1 && |d.col| + d.run + 1 <= NblockMAX(c)
    ensures SymbolFound(c, inRun, sym).More? && DecodeOne(d, sym).Some?
    ensures var e := SymbolFound(c, inRun, sym).c;
            AtCode(e, p, k) && !InRun(e) && LevelWith(e, false, DecodeOne(d, sym).value) && SameBlock(c, e)
  {
    hide BeginSymbol, Sendable, MinOf, Permuted, Used, Moved, ColumnBytes;
    Revealed(p);
    var n: nat := if inRun then d.run else 0;
    var x, y := d.list[0], d.list[sym - 1];
    assert ByteAt(c, 0) == UsedByte(c.inUse, x) && ByteAt(c, sym - 1) == UsedByte(c.inUse, y);
    ColumnMore(c.inUse, d.col, x, n);
    ColumnMore(c.inUse, d.col + Rep(x, n), y, 1);
    assert Rep(y, 1) == [y] && Rep(UsedByte(c.inUse, y), 1) == [UsedByte(c.inUse, y)];
    assert Rep(x, 0) == [] && d.col + [] == d.col;
    var b := c.(col := ColumnBytes(c.inUse, d.col + Rep(x, n)));
    var next := b.(col := b.col + [ByteAt(b, sym - 1)], list := Moved(b.list, sym - 1));
    BeginReads(next, p, k, BZ_X_MTF_5);
  }

  // The end marker: the last run is written out and the block is ready.
  lemma EndFound(c: Core, inRun: bool, p: Payload, k: nat, d: Decoder)
    requires Loaded(c, p) && k <= |p.syms| && LevelWith(c, inRun, d)
    requires |d.col| + d.run <= NblockMAX(c) && 0 <= c.origPtr < |d.col| + d.run
    ensures SymbolFound(c, inRun, Alpha(p) - 1).BlockReady?
    ensures var e := SymbolFound(c, inRun, Alpha(p) - 1).c;
            SameBlock(c, e) && e.state == BZ_X_OUTPUT && e.col == ColumnBytes(c.inUse, d.col + Rep(d.list[0], d.run))
  {
    hide BeginSymbol, Sendable, MinOf, Permuted, Used, Moved;
    Revealed(p);
    var x := d.list[0];
    var n: nat := if inRun then d.run else 0;
    assert ByteAt(c, 0) == UsedByte(c.inUse, x);
    ColumnMore(c.inUse, d.col, x, n);
    assert Rep(x, 0) == [] && d.col + [] == d.col;
  }

  // ---- all the symbols ----------------------------------------------------

  // The end marker stands at the end and nowhere else.
  ghost predicate Terminated(syms: seq<int>, alpha: int) {
    && |syms| > 0 && syms[|syms| - 1] == alpha - 1
    && forall k :: 0 <= k < |syms| - 1 ==> 0 <= syms[k] < alpha - 1
  }

  // Decoding never shrinks the column, nor the list.
  lemma {:induction false} DecodeGrows(d: Decoder, syms: seq<int>, e: Decoder)
    requires DecodeAll(d, syms) == Some(e)
    ensures |d.col| + d.run <= |e.col| + e.run && |e.list| == |d.list|
  {
    if syms != [] {
      var m := |syms| - 1;
      DecodeGrows(d, syms[..m], DecodeAll(d, syms[..m]).value);
    }
  }

  lemma DecodeFront(d: Decoder, syms: seq<int>, e: Decoder)
    requires |syms| > 0 && DecodeAll(d, syms) == Some(e)
    ensures DecodeOne(d, syms[0]).Some? && DecodeAll(DecodeOne(d, syms[0]).value, syms[1..]) == Some(e)
  {
    assert syms == [syms[0]] + syms[1..];
    DecodeConcat(d, [syms[0]], syms[1..]);
    DecodeSnoc(d, [], syms[0]);
    assert [] + [syms[0]] == [syms[0]];
  }

  lemma NextDecodes(p: Payload, k: nat, d: Decoder, e: Decoder)
    requires k + 1 < |p.syms| && DecodeAll(d, p.syms[k..|p.syms| - 1]) == Some(e)
    ensures DecodeOne(d, p.syms[k]).Some?
    ensures var d' := DecodeOne(d, p.syms[k]).value;
            DecodeAll(d', p.syms[k + 1..|p.syms| - 1]) == Some(e) && |d'.col| + d'.run <= |e.col| + e.run
                && |d'.list| == |d.list|
  {
    var s := p.syms[k..|p.syms| - 1];
    DecodeFront(d, s, e);
    assert s[1..] == p.syms[k + 1..|p.syms| - 1];
    var d' := DecodeOne(d, p.syms[k]).value;
    DecodeGrows(d', s[1..], e);
  }

  lemma OneSymbolReads(c: Core, p: Payload, k: nat, d: Decoder, rest: seq<bool>) returns (c': Core)
    requires AtCode(c, p, k) && k + 1 < |p.syms| && LevelWith(c, InRun(c), d) && Terminated(p.syms, Alpha(p))
    requires DecodeOne(d, p.syms[k]).Some?
    requires var d' := DecodeOne(d, p.syms[k]).value; |d'.col| + d'.run <= NblockMAX(c)
    ensures Run(c, CodeBits(TableFor(p, k), p.syms[k]) + rest) == Run(c', rest)
    ensures AtCode(c', p, k + 1) && LevelWith(c', InRun(c'), DecodeOne(d, p.syms[k]).value) && SameBlock(c, c')
  {
    hide Run, Sendable, MinOf, Permuted, SymbolFound, ColumnBytes, CodeBits, TableFor, Moved;
    var f := CodeReads(c, p, k, rest);
    var sym := p.syms[k];
    if sym == BZ_RUNA || sym == BZ_RUNB {
      DigitFound(f, InRun(c), p, k + 1, d, sym);
    } else {
      MoveFound(f, InRun(c), p, k + 1, d, sym);
    }
    c' := SymbolFound(f, InRun(c), sym).c;
  }

  lemma {:induction false} SymbolsRead(c: Core, p: Payload, k: nat, d: Decoder, e: Decoder, rest: seq<bool>)
    returns (c': Core)
    requires AtCode(c, p, k) && LevelWith(c, InRun(c), d) && Terminated(p.syms, Alpha(p))
    requires DecodeAll(d, p.syms[k..|p.syms| - 1]) == Some(e) && |e.col| + e.run <= NblockMAX(c)
    requires 0 <= c.origPtr < |e.col| + e.run
    ensures Run(c, SymbolBits(p, k) + rest) == Ready(c', rest) && SameBlock(c, c') && c'.state == BZ_X_OUTPUT
    ensures |e.list| > 0 && c'.col == ColumnBytes(c.inUse, e.col + Rep(e.list[0], e.run))
    decreases |p.syms| - k
  {
    hide Run, Sendable, MinOf, Permuted, SymbolFound, ColumnBytes, CodeBits, TableFor, Loaded, DecodeOne;
    var tail := SymbolBits(p, k + 1) + rest;
    assert SymbolBits(p, k) + rest == CodeBits(TableFor(p, k), p.syms[k]) + tail;
    if k + 1 < |p.syms| {
      NextDecodes(p, k, d, e);
      var c1 := OneSymbolReads(c, p, k, d, tail);
      c' := SymbolsRead(c1, p, k + 1, DecodeOne(d, p.syms[k]).value, e, rest);
    } else {
      assert p.syms[k..|p.syms| - 1] == [] && tail == rest;
      var f := CodeReads(c, p, k, rest);
      LoadedKept(c, f, p);
      EndFound(f, InRun(c), p, k, d);
      c' := SymbolFound(f, InRun(c), Alpha(p) - 1).c;
    }
  }

  lemma LoadedKept(c: Core, f: Core, p: Payload)
    requires Loaded(c, p) && SameBlock(c, f)
    ensures Loaded(f, p)
  {
  }
}
