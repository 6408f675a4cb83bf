// What every label of BZ2_decompress can rely on, whatever the input: the next wait is for one to 20 bits, the
// tables have their sizes, the column holds bytes and fits its array, and a block is ready only with origPtr in it.
module DecodeInvariant {
  import opened Common
  import opened MoveToFront
  import opened GenerateMtf
  import opened HuffmanCodes
  import opened Bits
  import opened DecodeMachine

  // Code lengths that passed the check.
  ghost predicate InRange(row: seq<int>) {
    forall k :: 0 <= k < |row| ==> 1 <= row[k] <= 20
  }

  ghost predicate CheckedRow(row: seq<int>, alpha: nat) {
    |row| == alpha && InRange(row)
  }

  ghost predicate Checked(len: seq<seq<int>>, alpha: nat) {
    forall t :: 0 <= t < |len| ==> CheckedRow(len[t], alpha)
  }

  ghost predicate AllBytes(col: seq<int>) {
    forall k :: 0 <= k < |col| ==> 0 <= col[k] < 256
  }

  ghost predicate PermRoom(perm: seq<seq<int>>) {
    |perm| == 6 && forall t :: 0 <= t < |perm| ==> |perm[t]| >= BZ_MAX_ALPHA_SIZE
  }

  ghost predicate Sized(c: Core) {
    && |c.inUse| <= 256 && AllBytes(c.col) && PermRoom(c.perm)
    && (c.state >= BZ_X_BLKHDR_1 || c.state == BZ_X_OUTPUT ==> 1 <= c.blockSize100k <= 9 && |c.col| <= NblockMAX(c))
    && (c.state < BZ_X_BLKHDR_1 && c.state != BZ_X_OUTPUT ==> c.col == [])
  }

  // The last row of lengths is being read, up to entry i.
  ghost predicate Reading(len: seq<seq<int>>, i: int, alpha: nat) {
    |len| > 0 && Checked(len[..|len| - 1], alpha) && |len[|len| - 1]| == i < alpha && InRange(len[|len| - 1])
  }

  ghost predicate Grouped(c: Core) {
    0 <= c.groupNo < |c.selector| && 0 <= c.selector[c.groupNo] < |c.len|
  }

  // Selectors are being read: as many as are counted. Afterwards there are as many as were announced.
  ghost predicate SelectorsCounted(c: Core) {
    && (c.state == BZ_X_SELECTOR_3 ==> |c.selectorMtf| == c.i < c.nSelectors)
    && (BZ_X_CODING_1 <= c.state <= BZ_X_MTF_6 ==> |c.selectorMtf| == c.nSelectors && |c.selector| <= c.nSelectors)
  }

  ghost predicate LensChecked(c: Core) {
    && SelectorsCounted(c)
    && (BZ_X_MAPPING_2 <= c.state <= BZ_X_MTF_6 ==> |c.inUse| == 256)
    && (BZ_X_SELECTOR_2 <= c.state <= BZ_X_MTF_6 ==> 2 <= c.nGroups <= 6)
    && (c.state == BZ_X_CODING_1 ==> Checked(c.len, AlphaSize(c)) && |c.len| == c.t < c.nGroups)
    && (c.state == BZ_X_CODING_2 || c.state == BZ_X_CODING_3 ==>
          1 <= c.curr <= 20 && Reading(c.len, c.i, AlphaSize(c)) && |c.len| == c.t + 1 <= c.nGroups)
    && (BZ_X_MTF_1 <= c.state <= BZ_X_MTF_6 ==>
          Checked(c.len, AlphaSize(c)) && |c.len| == c.nGroups && Grouped(c) && |c.list| == 256)
    && (c.state in {BZ_X_MTF_1, BZ_X_MTF_3, BZ_X_MTF_5} ==> 1 <= c.zn <= 20)
    && (c.state in {BZ_X_MTF_2, BZ_X_MTF_4, BZ_X_MTF_6} ==> 1 <= c.zn <= 21)
  }

  ghost predicate Live(c: Core) {
    BZ_X_MAGIC_1 <= c.state <= BZ_X_CCRC_4 && Sized(c) && LensChecked(c)
  }

  ghost predicate ReadyForOutput(c: Core) {
    c.state == BZ_X_OUTPUT && Sized(c) && 0 <= c.origPtr < |c.col|
  }

  // The first label is never gone back to.
  ghost predicate Fine(o: Outcome) {
    match o
    case More(d) => Live(d) && d.state != BZ_X_MAGIC_1
    case BlockReady(d) => ReadyForOutput(d)
    case StreamEnd(d) => d.state == BZ_X_IDLE && Sized(d.(state := BZ_X_BLKHDR_1))
    case Error(code) => DataError(code)
  }

  lemma LiveWidth(c: Core)
    requires Live(c)
    ensures 1 <= Width(c) <= 20
  {
    hide Checked, Reading, AllBytes, PermRoom, Used;
  }

  lemma {:induction false} MinChecked(row: seq<int>)
    requires InRange(row)
    ensures |row| > 0 ==> 1 <= MinOf(row) <= 20 && MinOf(row) <= MaxOf(row) <= 20
    ensures forall k :: 0 <= k < |row| ==> MinOf(row) <= row[k] <= MaxOf(row)
    ensures |row| == 0 ==> MinOf(row) == 32 && MaxOf(row) == 0
  {
    if row != [] {
      MinChecked(row[..|row| - 1]);
      assert forall k :: 0 <= k < |row| - 1 ==> row[k] == row[..|row| - 1][k];
    }
  }

  // What a symbol's start relies on.
  ghost predicate Symbolic(c: Core) {
    && |c.selectorMtf| == c.nSelectors && |c.selector| <= c.nSelectors
    && Sized(c) && Checked(c.len, AlphaSize(c)) && |c.len| == c.nGroups && |c.list| == 256 && 2 <= c.nGroups <= 6
    && c.state >= BZ_X_BLKHDR_1 && |c.inUse| == 256
  }

  lemma BeginFine(c: Core, site: int)
    requires Symbolic(c) && site in {BZ_X_MTF_1, BZ_X_MTF_3, BZ_X_MTF_5}
    ensures Fine(BeginSymbol(c, site))
  {
    hide Used, MinOf, AllBytes, PermRoom, InRange;
    var d := if c.groupPos == 0 then c.(groupNo := c.groupNo + 1, groupPos := BZ_G_SIZE) else c;
    if 0 <= d.groupNo < |d.selector| && 0 <= d.selector[d.groupNo] < |d.len| {
      assert CheckedRow(d.len[d.selector[d.groupNo]], AlphaSize(c));
      MinChecked(d.len[d.selector[d.groupNo]]);
    }
  }

  // ---- label by label -----------------------------------------------------

  lemma HeadersFine(c: Core, v: nat)
    requires Live(c) && v < 256 && (c.state <= BZ_X_ORIGPTR_3 || c.state > BZ_X_MTF_6)
    ensures Fine(Next(c, v))
  {
    hide Checked, AllBytes, PermRoom, Reading, Used;
  }

  lemma {:induction false} MappingFine(c: Core)
    requires Live(c) && c.state in {BZ_X_MAPPING_1, BZ_X_MAPPING_2} && |c.inUse| == 256
    ensures Fine(Mapping2From(c))
    decreases 16 - c.i
  {
    hide Checked, AllBytes, PermRoom, Reading, Used;
    if !(c.i < 0 || c.i >= |c.inUse16| || c.i >= 16) && !c.inUse16[c.i] {
      MappingFine(c.(i := c.i + 1));
    }
  }

  lemma MapsFine(c: Core, v: nat)
    requires Live(c) && c.state in {BZ_X_MAPPING_1, BZ_X_MAPPING_2}
    ensures Fine(Next(c, v))
  {
    hide Checked, AllBytes, PermRoom, Reading, Used, Mapping2From, MappingDone;
    if c.state == BZ_X_MAPPING_1 {
      if c.i + 1 >= 16 {
        MappingFine(c.(inUse16 := c.inUse16 + [v == 1], i := 0, inUse := Rep(false, 256)));
      }
    } else {
      var at := c.i * 16 + c.j;
      var d := if v == 1 && 0 <= at < |c.inUse| then c.(inUse := c.inUse[at := true]) else c;
      if d.j + 1 >= 16 {
        MappingFine(d.(i := d.i + 1));
      }
    }
  }

  lemma SelectorsFine(c: Core, v: nat)
    requires Live(c) && BZ_X_SELECTOR_1 <= c.state <= BZ_X_SELECTOR_3
    ensures Fine(Next(c, v))
  {
    hide AllBytes, PermRoom, Reading, Used, UndoMtf;
    UndoNoMore(FirstList(if c.nGroups >= 0 then c.nGroups else 0), c.selectorMtf + [c.j]);
  }

  lemma {:induction false} UndoNoMore(list: seq<int>, pos: seq<int>)
    ensures |UndoMtf(list, pos)| <= |pos|
    decreases |pos|
  {
    if pos != [] && 0 <= pos[0] < |list| {
      UndoNoMore(Moved(list, pos[0]), pos[1..]);
    }
  }

  // The arrays for selectors hold BZ_MAX_SELECTORS.
  ghost predicate SelectorsFit(c: Core) {
    |c.selectorMtf| <= BZ_MAX_SELECTORS && |c.selector| <= BZ_MAX_SELECTORS
  }

  // They are large enough exactly for the streams that announce no more.
  lemma SelectorRoom(c: Core)
    requires Live(c) && BZ_X_CODING_1 <= c.state <= BZ_X_MTF_6
    ensures SelectorsFit(c) <==> c.nSelectors <= BZ_MAX_SELECTORS
  {
    hide Sized, Checked, Reading;
  }

  // Any number that fifteen bits can announce is taken: n zero bits are n selectors.
  lemma {:induction false} SelectorsTaken(c: Core, n: nat, rest: seq<bool>) returns (d: Core)
    requires c.state == BZ_X_SELECTOR_3 && c.j == 0 && 0 <= c.i && c.nSelectors == c.i + n && n > 0
    ensures Run(c, Rep(false, n) + rest) == Run(d, rest) && d.state == BZ_X_CODING_1
    ensures |d.selectorMtf| == |c.selectorMtf| + n && d.nSelectors == c.nSelectors
    decreases n
  {
    hide Run, UndoMtf;
    assert Rep(false, n) + rest == [false] + (Rep(false, n - 1) + rest);
    RunBit(c, false, Rep(false, n - 1) + rest);
    if n == 1 {
      assert Rep(false, 0) + rest == rest;
      d := c.(selectorMtf := c.selectorMtf + [c.j], i := c.i + 1, j := 0);
      d := d.(selector := UndoMtf(FirstList(if d.nGroups >= 0 then d.nGroups else 0), d.selectorMtf),
              t := 0, len := [], state := BZ_X_CODING_1);
    } else {
      d := SelectorsTaken(c.(selectorMtf := c.selectorMtf + [0], i := c.i + 1), n - 1, rest);
    }
  }

  // So 18003 of them, one more than the source's arrays hold, are not turned away.
  lemma SelectorsUnfit(c: Core, rest: seq<bool>) returns (d: Core)
    requires c.state == BZ_X_SELECTOR_2
    ensures Run(c, ToBits(18003, 15) + (Rep(false, 18003) + rest)) == Run(d, rest)
    ensures d.state == BZ_X_CODING_1 && !SelectorsFit(d)
  {
    hide Run, ToBits, FromBits;
    Pow2Of32();
    assert Pow2(16) == 2 * Pow2(15);
    RunNext(c, 18003, Rep(false, 18003) + rest);
    var c1 := c.(nSelectors := 18003, i := 0, j := 0, selectorMtf := [], state := BZ_X_SELECTOR_3);
    assert Next(c, 18003) == More(c1);
    d := SelectorsTaken(c1, 18003, rest);
  }

  // ---- code lengths -------------------------------------------------------

  lemma RowBegun(len: seq<seq<int>>, alpha: nat)
    requires Checked(len, alpha) && alpha > 0
    ensures Reading(len + [[]], 0, alpha)
  {
    assert (len + [[]])[..|len|] == len;
  }

  // One length more in the row being read.
  lemma RowGrows(len: seq<seq<int>>, i: int, alpha: nat, x: int)
    requires Reading(len, i, alpha) && 1 <= x <= 20
    ensures var m := |len| - 1; var len' := len[m := len[m] + [x]];
            if i + 1 < alpha then Reading(len', i + 1, alpha) else Checked(len', alpha)
  {
    var m := |len| - 1;
    var len' := len[m := len[m] + [x]];
    assert len'[..m] == len[..m] && InRange(len'[m]);
    if i + 1 >= alpha {
      forall t | 0 <= t < |len'| ensures CheckedRow(len'[t], alpha) {
        if t < m {
          assert CheckedRow(len[..m][t], alpha);
        }
      }
    }
  }

  lemma PermRoomKept(perm: seq<seq<int>>, len: seq<seq<int>>)
    requires PermRoom(perm)
    ensures PermRoom(NewPerms(perm, len))
  {
    hide BySize, MinOf, MaxOf;
  }

  lemma TablesFine(c: Core)
    requires Sized(c) && Checked(c.len, AlphaSize(c)) && |c.len| == c.nGroups && 2 <= c.nGroups <= 6
    requires |c.selectorMtf| == c.nSelectors && |c.selector| <= c.nSelectors
    requires c.state >= BZ_X_BLKHDR_1 && |c.inUse| == 256
    ensures Fine(TablesReady(c))
  {
    hide NewPerms, Checked, PermRoom, BeginSymbol, Used;
    PermRoomKept(c.perm, c.len);
    BeginFine(c.(perm := NewPerms(c.perm, c.len), groupNo := -1, groupPos := 0, list := FirstList(256), col := []),
        BZ_X_MTF_1);
  }

  lemma TableBegunFine(c: Core, v: nat)
    requires Live(c) && c.state == BZ_X_CODING_1
    ensures Fine(Next(c, v))
  {
    hide AllBytes, PermRoom, Used, Checked, Reading;
    RowBegun(c.len, AlphaSize(c));
  }

  lemma LengthFine(c: Core)
    requires Live(c) && c.state == BZ_X_CODING_2
    ensures Fine(Coding2(c, 0))
  {
    hide AllBytes, PermRoom, Used, Checked, Reading, TablesReady;
    assert c.len != [] by {
      SomeRow(c.len, c.i, AlphaSize(c));
    }
    RowGrows(c.len, c.i, AlphaSize(c), c.curr);
    var m := |c.len| - 1;
    var d := c.(len := c.len[m := c.len[m] + [c.curr]], i := c.i + 1);
    if !(d.i < AlphaSize(d)) && !(d.t + 1 < d.nGroups) {
      TablesFine(d);
    }
  }

  lemma SomeRow(len: seq<seq<int>>, i: int, alpha: nat)
    requires Reading(len, i, alpha)
    ensures len != []
  {
  }

  lemma AdjustFine(c: Core, v: nat)
    requires Live(c) && (c.state == BZ_X_CODING_3 || (c.state == BZ_X_CODING_2 && v != 0))
    ensures Fine(Next(c, v))
  {
    hide AllBytes, PermRoom, Used, Checked, Reading;
  }

  lemma LengthsFine(c: Core, v: nat)
    requires Live(c) && BZ_X_CODING_1 <= c.state <= BZ_X_CODING_3
    ensures Fine(Next(c, v))
  {
    hide Live, Fine, Coding1, Coding2, Coding3;
    if c.state == BZ_X_CODING_1 {
      TableBegunFine(c, v);
    } else if c.state == BZ_X_CODING_2 && v == 0 {
      LengthFine(c);
    } else {
      AdjustFine(c, v);
    }
  }

  // ---- symbols ------------------------------------------------------------

  lemma DispatchFine(c: Core, sym: int)
    requires Symbolic(c) && BZ_X_MTF_1 <= c.state <= BZ_X_MTF_6
    ensures Fine(Dispatch(c, sym))
  {
    hide Checked, BeginSymbol, Used, Moved, PermRoom;
    if sym == NInUse(c) + 1 {
    } else if sym == BZ_RUNA || sym == BZ_RUNB {
      DigitFine(c.(es := -1, weight := 1), sym);
    } else if |c.col| < NblockMAX(c) && 0 <= sym - 1 < |c.list| {
      BeginFine(c.(col := c.col + [ByteAt(c, sym - 1)], list := Moved(c.list, sym - 1)), BZ_X_MTF_5);
    }
  }

  lemma DigitFine(c: Core, sym: int)
    requires Symbolic(c) && BZ_X_MTF_1 <= c.state <= BZ_X_MTF_6
    ensures Fine(RunDigit(c, sym))
  {
    hide Checked, BeginSymbol, AllBytes, PermRoom, Used;
    BeginFine(c.(es := c.es + (if sym == BZ_RUNA then c.weight else c.weight + c.weight),
        weight := c.weight + c.weight), BZ_X_MTF_3);
  }

  lemma RunFine(c: Core, sym: int)
    requires Symbolic(c) && BZ_X_MTF_1 <= c.state <= BZ_X_MTF_6
    ensures Fine(RunContinues(c, sym))
  {
    hide Checked, Dispatch, RunDigit, Used, PermRoom;
    if sym == BZ_RUNA || sym == BZ_RUNB {
      DigitFine(c, sym);
    } else if !(c.es + 1 > 0 && |c.col| + (c.es + 1) > NblockMAX(c)) {
      DispatchFine(c.(col := c.col + Rep(ByteAt(c, 0), if c.es + 1 >= 0 then c.es + 1 else 0)), sym);
    }
  }

  lemma SymbolFine(c: Core)
    requires Symbolic(c) && BZ_X_MTF_1 <= c.state <= BZ_X_MTF_6 && Grouped(c) && 1 <= c.zn
    ensures Fine(Symbol(c))
  {
    hide Checked, Dispatch, RunContinues, AllBytes, Limit, Base, PermRoom, Used;
    var len := GLen(c);
    if !(c.zn > 20 || c.zn < 0) && c.zvec <= Limit(len, c.zn) {
      var k := c.zvec - Base(len, c.zn);
      if 0 <= k < |GPerm(c)| {
        RunFine(c, GPerm(c)[k]);
        DispatchFine(c, GPerm(c)[k]);
      }
    }
  }

  lemma SymbolsFine(c: Core, v: nat)
    requires Live(c) && BZ_X_MTF_1 <= c.state <= BZ_X_MTF_6
    ensures Fine(Next(c, v))
  {
    hide Checked, Symbol, AllBytes, PermRoom, Used, Reading;
    SymbolFine(c.(zvec := v));
    SymbolFine(c.(zvec := c.zvec * 2 + v));
  }

  // Every step from a live state ends as it should.
  lemma NextFine(c: Core, v: nat)
    requires Live(c) && v < Pow2(Width(c))
    ensures Fine(Next(c, v))
  {
    hide Next, Sized, LensChecked;
    if c.state <= BZ_X_ORIGPTR_3 || c.state > BZ_X_MTF_6 {
      assert v < 256 by {
        NoWider(c, v);
      }
      HeadersFine(c, v);
    } else if c.state <= BZ_X_MAPPING_2 {
      MapsFine(c, v);
    } else if c.state <= BZ_X_SELECTOR_3 {
      SelectorsFine(c, v);
    } else if c.state <= BZ_X_CODING_3 {
      LengthsFine(c, v);
    } else {
      SymbolsFine(c, v);
    }
  }

  lemma NoWider(c: Core, v: nat)
    requires Live(c) && v < Pow2(Width(c)) && (c.state <= BZ_X_ORIGPTR_3 || c.state > BZ_X_MTF_6)
    ensures v < 256
  {
    hide Sized, LensChecked;
    Pow2Of32();
    assert Width(c) == 8 || Width(c) == 1;
  }
}
