// The vectors BZ2_decompress reads symbols with: limit, base and perm of each table, the move-to-front windows
// and the bytes in use. A symbol read through them leads where the machine says.
module SymbolReading {
  import opened Common
  import opened MoveToFront
  import opened GenerateMtf
  import opened HuffmanCodes
  import opened MtfWindows
  import opened DecodeInvariant
  import D = DecodeMachine

  // ---- decoding tables ----------------------------------------------------

  // The limit and base vectors of one table, and the length of its shortest code.
  datatype Vectors = Vectors(limit: seq<int>, base: seq<int>, minLen: int)

  ghost predicate TableFor(len: seq<int>, v: Vectors) {
    && |v.limit| == BZ_MAX_CODE_LEN == |v.base| && v.minLen == D.MinOf(len)
    && forall n: nat :: n < BZ_MAX_CODE_LEN ==> v.limit[n] == D.Limit(len, n) && v.base[n] == D.Base(len, n)
  }

  ghost predicate TablesFor(lens: seq<seq<int>>, vs: seq<Vectors>) {
    |vs| == |lens| && forall t :: 0 <= t < |lens| ==> TableFor(lens[t], vs[t])
  }

  method LengthRange(len: seq<int>) returns (minLen: int, maxLen: int)
    ensures minLen == D.MinOf(len) && maxLen == D.MaxOf(len)
  {
    minLen, maxLen := 32, 0;
    for i := 0 to |len|
      invariant minLen == D.MinOf(len[..i]) && maxLen == D.MaxOf(len[..i])
    {
      assert len[..i + 1][..i] == len[..i];
      if len[i] > maxLen {
        maxLen := len[i];
      }
      if len[i] < minLen {
        minLen := len[i];
      }
    }
    assert len[..|len|] == len;
  }

  // The whole vectors are those the machine reads.
  lemma VectorsAgree(len: seq<int>, limit: seq<int>, base: seq<int>)
    requires |limit| == BZ_MAX_CODE_LEN == |base|
    requires LimitsAll(len, D.MinOf(len), D.MaxOf(len), limit) && BasesAll(len, D.MinOf(len), D.MaxOf(len), base)
    ensures TableFor(len, Vectors(limit, base, D.MinOf(len)))
  {
    hide FirstCode, EndCode, D.MinOf, D.MaxOf;
  }

  lemma Rewritten(was: seq<int>, now: seq<int>, front: seq<int>)
    requires Listed(was, now, front)
    ensures now == D.Overwritten(was, front)
  {
    assert now == now[..|front|] + now[|front|..];
  }

  method CreateTable(len: seq<int>, was: seq<int>, ghost alpha: nat) returns (v: Vectors, perm: seq<int>)
    requires CheckedRow(len, alpha) && 2 <= alpha <= BZ_MAX_ALPHA_SIZE <= |was|
    ensures TableFor(len, v) && perm == D.Overwritten(was, BySize(len, D.MinOf(len), D.MaxOf(len) + 1))
  {
    hide TableFor, LimitsAll, BasesAll, Listed, BySize, D.Overwritten, D.MinOf, D.MaxOf, Permuted, Limits, Bases;
    var minLen, maxLen := LengthRange(len);
    MinChecked(len);
    var limit, base, length := new int[BZ_MAX_CODE_LEN], new int[BZ_MAX_CODE_LEN],
        new int[|len|](i requires 0 <= i < |len| => len[i]);
    var row := new int[|was|](i requires 0 <= i < |was| => was[i]);
    assert row[..] == was && length[..|len|] == len;
    CreateDecodeTables(limit, base, row, length, minLen, maxLen, |len|, len);
    VectorsAgree(len, limit[..], base[..]);
    Rewritten(was, row[..], BySize(len, minLen, maxLen + 1));
    v, perm := Vectors(limit[..], base[..], minLen), row[..];
  }

  // Every table's vectors; the front of each perm is rewritten.
  method CreateTables(lens: seq<seq<int>>, perm0: seq<seq<int>>, ghost alpha: nat)
    returns (vs: seq<Vectors>, perm: seq<seq<int>>)
    requires Checked(lens, alpha) && 2 <= alpha <= BZ_MAX_ALPHA_SIZE && PermRoom(perm0) && |lens| <= |perm0|
    ensures TablesFor(lens, vs) && perm == D.NewPerms(perm0, lens)
  {
    hide TableFor, CheckedRow, BySize, D.Overwritten, D.MinOf, D.MaxOf;
    vs, perm := [], perm0;
    for t := 0 to |lens|
      invariant |vs| == t && (forall u :: 0 <= u < t ==> TableFor(lens[u], vs[u]))
      invariant |perm| == |perm0| && (forall u :: 0 <= u < t ==> perm[u] == D.NewPerms(perm0, lens)[u])
      invariant forall u :: t <= u < |perm| ==> perm[u] == perm0[u]
    {
      assert CheckedRow(lens[t], alpha);
      var v, p := CreateTable(lens[t], perm[t], alpha);
      vs := vs + [v];
      perm := perm[t := p];
    }
  }

  // ---- symbols ------------------------------------------------------------

  // seqToUnseq takes ranks back to bytes, and to zero past the last.
  ghost predicate Unmaps(seqToUnseq: seq<Byte>, inUse: seq<bool>) {
    && |seqToUnseq| == 256 && |inUse| == 256
    && forall k :: 0 <= k < 256 ==> seqToUnseq[k] == if k < |Used(inUse, 256)| then Used(inUse, 256)[k] else 0
  }

  class SymbolReader {
    var vs: seq<Vectors>
    const mtf: Windows
    const seqToUnseq: array<Byte>

    // The windows and maps.
    ghost function Parts(): set<object> {
      {mtf, mtf.mtfa, mtf.mtfbase, seqToUnseq}
    }

    // The vectors are those of a block whose symbols are being read.
    ghost predicate For(c: D.Core)
      reads this, mtf, mtf.mtfa, mtf.mtfbase, seqToUnseq
    {
      && Laid() && TablesFor(c.len, vs) && mtf.Valid() && mtf.list == c.list && Unmaps(seqToUnseq[..], c.inUse)
    }

    predicate Laid() {
      seqToUnseq.Length == 256 && mtf.Laid() && seqToUnseq != mtf.mtfa && seqToUnseq as object != mtf.mtfbase
    }

    constructor ()
      ensures Laid() && fresh(mtf) && fresh(mtf.mtfa) && fresh(mtf.mtfbase) && fresh(seqToUnseq)
    {
      var windows := new Windows();
      mtf, seqToUnseq, vs := windows, new Byte[256](i => 0), [];
    }

    // The tables are read: their vectors are made, and the move-to-front list starts afresh.
    method Start(c: D.Core) returns (perm: seq<seq<int>>)
      requires Laid() && Sized(c) && Checked(c.len, D.AlphaSize(c)) && |c.len| <= 6 && |c.inUse| == 256
      modifies this, mtf, mtf.mtfa, mtf.mtfbase, seqToUnseq
      ensures perm == D.NewPerms(c.perm, c.len)
      ensures For(c.(list := FirstList(256)))
    {
      hide AllBytes, Checked, D.NewPerms, TableFor, Holds;
      var tables;
      tables, perm := CreateTables(c.len, c.perm, D.AlphaSize(c));
      vs := tables;
      mtf.Init();
      assert mtf.list == FirstList(256);
      MakeMaps(c.inUse);
    }

    method MakeMaps(inUse: seq<bool>)
      requires Laid() && |inUse| == 256
      modifies seqToUnseq
      ensures Unmaps(seqToUnseq[..], inUse)
    {
      var used := new bool[256](i requires 0 <= i < 256 == |inUse| => inUse[i]);
      assert used[..] == inUse;
      for i := 0 to 256
        invariant used[..] == inUse && forall k :: 0 <= k < i ==> seqToUnseq[k] == 0
      {
        seqToUnseq[i] := 0;
      }
      var nInUse := MakeMapsD(used, seqToUnseq);
      assert used[..] == inUse;
    }

    // The start of a symbol, with the next group's table if the last group is used up.
    method Begin(c: D.Core, site: int) returns (o: D.Outcome)
      requires TablesFor(c.len, vs)
      ensures o == D.BeginSymbol(c, site)
    {
      hide D.MinOf;
      var d := if c.groupPos == 0 then c.(groupNo := c.groupNo + 1, groupPos := D.BZ_G_SIZE) else c;
      if c.groupPos == 0 && d.groupNo >= d.nSelectors {
        return D.Error(D.BZ_DATA_ERROR);
      }
      if !(0 <= d.groupNo < |d.selector|) || !(0 <= d.selector[d.groupNo] < |d.len|) {
        return D.Error(D.BZ_DATA_ERROR);
      }
      var gSel := d.selector[d.groupNo];
      assert TableFor(d.len[gSel], vs[gSel]);
      o := D.More(d.(groupPos := d.groupPos - 1, zn := vs[gSel].minLen, state := site));
    }

    // A digit of a run.
    method ReadDigit(c: D.Core, sym: int) returns (o: D.Outcome)
      requires TablesFor(c.len, vs)
      ensures o == D.RunDigit(c, sym)
    {
      hide D.BeginSymbol, TablesFor;
      o := Begin(c.(es := c.es + (if sym == BZ_RUNA then c.weight else c.weight + c.weight),
          weight := c.weight + c.weight), D.BZ_X_MTF_3);
    }

    // What the front of the windows stands for.
    method FrontByte(c: D.Core) returns (uc: int)
      requires For(c)
      ensures uc == D.ByteAt(c, 0)
    {
      hide TablesFor;
      var front := mtf.First();
      FrontSize();
      uc := seqToUnseq[front];
      assert seqToUnseq[..][front] == uc;
    }

    lemma FrontSize()
      requires mtf.Valid()
      ensures |mtf.list| == 256
    {
    }

    // A symbol that ends the block, begins a run, or moves a byte to the front.
    method Dispatch(c: D.Core, sym: int) returns (o: D.Outcome)
      requires For(c) && |c.list| == 256
      modifies mtf, mtf.mtfa, mtf.mtfbase
      ensures o == D.Dispatch(c, sym) && (o.More? ==> For(o.c))
    {
      hide TablesFor, Used, Moved, Holds;
      if sym == D.NInUse(c) + 1 {
        return D.BlockDone(c);
      }
      if sym == BZ_RUNA || sym == BZ_RUNB {
        o := ReadDigit(c.(es := -1, weight := 1), sym);
      } else if |c.col| >= D.NblockMAX(c) {
        o := D.Error(D.BZ_DATA_ERROR);
      } else if !(0 <= sym - 1 < |c.list|) {
        o := D.Error(D.BZ_DATA_ERROR);
      } else {
        var uc := mtf.MoveToFront(sym - 1);
        assert seqToUnseq[..][uc] == seqToUnseq[uc];
        o := Begin(c.(col := c.col + [seqToUnseq[uc]], list := Moved(c.list, sym - 1)), D.BZ_X_MTF_5);
      }
    }

    // A symbol in a run: another digit, or the run's end and then what ended it.
    method GoOnRun(c: D.Core, sym: int) returns (o: D.Outcome)
      requires For(c) && |c.list| == 256
      modifies mtf, mtf.mtfa, mtf.mtfbase
      ensures o == D.RunContinues(c, sym) && (o.More? ==> For(o.c))
    {
      hide TablesFor, Used, D.Dispatch, D.MinOf, Holds;
      if sym == BZ_RUNA || sym == BZ_RUNB {
        o := ReadDigit(c, sym);
        return;
      }
      if c.es + 1 > 0 && |c.col| + (c.es + 1) > D.NblockMAX(c) {
        return D.Error(D.BZ_DATA_ERROR);
      }
      var uc := FrontByte(c);
      o := Dispatch(c.(col := c.col + Rep(uc, if c.es + 1 >= 0 then c.es + 1 else 0)), sym);
    }

    // Bits so far against the limit of their length.
    method ReadOn(c: D.Core) returns (o: D.Outcome)
      requires For(c) && |c.list| == 256 && Grouped(c) && |c.len| <= 6 && PermRoom(c.perm)
      modifies mtf, mtf.mtfa, mtf.mtfbase
      ensures o == D.Symbol(c) && (o.More? ==> For(o.c))
    {
      hide Used, D.Dispatch, D.RunContinues, Holds, D.Limit, D.Base, D.MinOf;
      if c.zn > 20 || c.zn < 0 {
        return D.Error(D.BZ_DATA_ERROR);
      }
      var gSel := c.selector[c.groupNo];
      assert TableFor(c.len[gSel], vs[gSel]) && |c.perm[gSel]| >= BZ_MAX_ALPHA_SIZE;
      if c.zvec > vs[gSel].limit[c.zn] {
        return D.More(c.(zn := c.zn + 1, state := if c.state % 2 == 0 then c.state + 1 else c.state));
      }
      var k := c.zvec - vs[gSel].base[c.zn];
      if k < 0 || k >= BZ_MAX_ALPHA_SIZE {
        return D.Error(D.BZ_DATA_ERROR);
      }
      var sym := c.perm[gSel][k];
      if c.state == D.BZ_X_MTF_3 || c.state == D.BZ_X_MTF_4 {
        o := GoOnRun(c, sym);
      } else {
        o := Dispatch(c, sym);
      }
    }

    // The end of a length; after the last, the tables are made.
    method ReadLength(c: D.Core) returns (o: D.Outcome)
      requires Live(c) && c.state == D.BZ_X_CODING_2 && Laid()
      modifies this, mtf, mtf.mtfa, mtf.mtfbase, seqToUnseq
      ensures o == D.Coding2(c, 0) && (o.More? && AmongSymbols(o.c) ==> For(o.c))
    {
      hide Used, Checked, Reading, AllBytes, PermRoom, D.NewPerms, Unmaps, TablesFor, Holds, D.MinOf;
      SomeRow(c.len, c.i, D.AlphaSize(c));
      RowGrows(c.len, c.i, D.AlphaSize(c), c.curr);
      var m := |c.len| - 1;
      var d := c.(len := c.len[m := c.len[m] + [c.curr]], i := c.i + 1);
      if d.i < D.AlphaSize(d) {
        return D.LengthStep(d);
      }
      if d.t + 1 < d.nGroups {
        return D.More(d.(t := d.t + 1, state := D.BZ_X_CODING_1));
      }
      var perm := Start(d);
      o := Begin(d.(perm := perm, groupNo := -1, groupPos := 0, list := FirstList(256), col := []), D.BZ_X_MTF_1);
    }

    // What the bits waited for lead to.
    method Answer(c: D.Core, v: nat) returns (o: D.Outcome)
      requires Live(c) && Laid() && (AmongSymbols(c) ==> For(c))
      modifies this, mtf, mtf.mtfa, mtf.mtfbase, seqToUnseq
      ensures o == D.Next(c, v) && (o.More? && AmongSymbols(o.c) ==> For(o.c))
    {
      hide Sized, Checked, Reading, TablesFor, Unmaps, Used, D.Coding2, D.Symbol, Holds;
      if c.state == D.BZ_X_CODING_2 && v == 0 {
        o := ReadLength(c);
      } else if AmongSymbols(c) {
        assert PermRoom(c.perm) by {
          PermsSized(c);
        }
        if c.state in {D.BZ_X_MTF_1, D.BZ_X_MTF_3, D.BZ_X_MTF_5} {
          o := ReadOn(c.(zvec := v));
        } else {
          o := ReadOn(c.(zvec := c.zvec * 2 + v));
        }
      } else {
        NoSymbolsYet(c, v);
        o := D.Next(c, v);
      }
    }
  }

  // Symbols are being read.
  predicate AmongSymbols(c: D.Core) {
    D.BZ_X_MTF_1 <= c.state <= D.BZ_X_MTF_6
  }

  lemma PermsSized(c: D.Core)
    requires Sized(c)
    ensures PermRoom(c.perm)
  {
  }

  lemma {:induction false} NoSymbolsInMaps(c: D.Core)
    ensures D.Mapping2From(c).More? ==> !AmongSymbols(D.Mapping2From(c).c)
    decreases 16 - c.i
  {
    hide Used;
    if !(c.i < 0 || c.i >= |c.inUse16| || c.i >= 16) && !c.inUse16[c.i] {
      NoSymbolsInMaps(c.(i := c.i + 1));
    }
  }

  // Symbols are only come to through the last of the lengths.
  lemma NoSymbolsYet(c: D.Core, v: nat)
    requires !AmongSymbols(c) && !(c.state == D.BZ_X_CODING_2 && v == 0) && D.BZ_X_MAGIC_1 <= c.state <= D.BZ_X_CCRC_4
    ensures D.Next(c, v).More? ==> !AmongSymbols(D.Next(c, v).c)
  {
    hide Used, D.Mapping2From, D.UndoMtf;
    if c.state == D.BZ_X_MAPPING_1 {
      NoSymbolsInMaps(c.(inUse16 := c.inUse16 + [v == 1], i := 0, inUse := Rep(false, 256)));
    } else if c.state == D.BZ_X_MAPPING_2 {
      var at := c.i * 16 + c.j;
      var d := if v == 1 && 0 <= at < |c.inUse| then c.(inUse := c.inUse[at := true]) else c;
      NoSymbolsInMaps(d.(i := d.i + 1));
    }
  }
}
