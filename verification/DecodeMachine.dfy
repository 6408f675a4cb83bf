// BZ2_decompress as a machine: between two GET_BITS it computes, at a GET_BITS it waits for its bits.
// A label is what s->state holds there; the other fields are the variables of its save area and of
// DState that the code reads later.
module DecodeMachine {
  import opened Common
  import opened Counting
  import opened Bits
  import opened MoveToFront
  import opened GenerateMtf
  import opened HuffmanCodes

  const BZ_X_IDLE := 1
  const BZ_X_OUTPUT := 2
  const BZ_X_MAGIC_1 := 10
  const BZ_X_MAGIC_2 := 11
  const BZ_X_MAGIC_3 := 12
  const BZ_X_MAGIC_4 := 13
  const BZ_X_BLKHDR_1 := 14
  const BZ_X_BLKHDR_6 := 19
  const BZ_X_BCRC_1 := 20
  const BZ_X_BCRC_4 := 23
  const BZ_X_RANDBIT := 24
  const BZ_X_ORIGPTR_1 := 25
  const BZ_X_ORIGPTR_3 := 27
  const BZ_X_MAPPING_1 := 28
  const BZ_X_MAPPING_2 := 29
  const BZ_X_SELECTOR_1 := 30
  const BZ_X_SELECTOR_2 := 31
  const BZ_X_SELECTOR_3 := 32
  const BZ_X_CODING_1 := 33
  const BZ_X_CODING_2 := 34
  const BZ_X_CODING_3 := 35
  const BZ_X_MTF_1 := 36
  const BZ_X_MTF_2 := 37
  const BZ_X_MTF_3 := 38
  const BZ_X_MTF_4 := 39
  const BZ_X_MTF_5 := 40
  const BZ_X_MTF_6 := 41
  const BZ_X_ENDHDR_2 := 42
  const BZ_X_ENDHDR_6 := 46
  const BZ_X_CCRC_1 := 47
  const BZ_X_CCRC_4 := 50

  const BZ_G_SIZE := 50
  const BZ_MAX_SELECTORS := 18002

  const BZ_OK := 0
  const BZ_STREAM_END := 4
  const BZ_DATA_ERROR := -4
  const BZ_DATA_ERROR_MAGIC := -5

  const BLOCK_MAGIC: seq<int> := [0x31, 0x41, 0x59, 0x26, 0x53, 0x59]
  const END_MAGIC: seq<int> := [0x17, 0x72, 0x45, 0x38, 0x50, 0x90]

  datatype Core = Core(
    state: int,
    blockSize100k: int, storedBlockCRC: int, storedCombinedCRC: int, origPtr: int, randomised: bool,
    i: int, j: int, t: int, nGroups: int, nSelectors: int, groupNo: int, groupPos: int,
    es: int, weight: int, curr: int, zn: int, zvec: int,
    inUse16: seq<bool>, inUse: seq<bool>, selectorMtf: seq<int>, selector: seq<int>,
    len: seq<seq<int>>, perm: seq<seq<int>>, list: seq<int>, col: seq<int>)

  // What the code between two waits ends in: another wait, a block ready for output, the end of the
  // stream, or an error return.
  datatype Outcome = More(c: Core) | BlockReady(c: Core) | StreamEnd(c: Core) | Error(code: int)

  predicate DataError(code: int) {
    code == BZ_DATA_ERROR || code == BZ_DATA_ERROR_MAGIC
  }

  // ---- how many bits each label waits for ---------------------------------

  function Width(c: Core): nat {
    if c.state == BZ_X_SELECTOR_1 then 3
    else if c.state == BZ_X_SELECTOR_2 then 15
    else if c.state == BZ_X_CODING_1 then 5
    else if c.state == BZ_X_MTF_1 || c.state == BZ_X_MTF_3 || c.state == BZ_X_MTF_5 then (if c.zn >= 0 then c.zn else 0)
    else if c.state in {BZ_X_RANDBIT, BZ_X_MAPPING_1, BZ_X_MAPPING_2, BZ_X_SELECTOR_3, BZ_X_CODING_2, BZ_X_CODING_3,
                        BZ_X_MTF_2, BZ_X_MTF_4, BZ_X_MTF_6} then 1
    else 8
  }

  // ---- headers ------------------------------------------------------------

  function Magic(c: Core, v: nat): Outcome {
    if c.state == BZ_X_MAGIC_1 then
      if v != 0x42 then Error(BZ_DATA_ERROR_MAGIC) else More(c.(state := BZ_X_MAGIC_2))
    else if c.state == BZ_X_MAGIC_2 then
      if v != 0x5a then Error(BZ_DATA_ERROR_MAGIC) else More(c.(state := BZ_X_MAGIC_3))
    else if c.state == BZ_X_MAGIC_3 then
      if v != 0x68 then Error(BZ_DATA_ERROR_MAGIC) else More(c.(state := BZ_X_MAGIC_4))
    else if v < 0x30 + 1 || v > 0x30 + 9 then
      Error(BZ_DATA_ERROR_MAGIC)
    else
      More(c.(blockSize100k := v - 0x30, state := BZ_X_BLKHDR_1))
  }

  // The six bytes that open a block; the first may open the trailer instead.
  function BlockHeader(c: Core, v: nat): Outcome
    requires BZ_X_BLKHDR_1 <= c.state <= BZ_X_BLKHDR_6
  {
    var k := c.state - BZ_X_BLKHDR_1;
    if k == 0 && v == END_MAGIC[0] then More(c.(state := BZ_X_ENDHDR_2))
    else if v != BLOCK_MAGIC[k] then Error(BZ_DATA_ERROR)
    else if k < 5 then More(c.(state := c.state + 1))
    else More(c.(storedBlockCRC := 0, state := BZ_X_BCRC_1))
  }

  function BlockCRC(c: Core, v: nat): Outcome {
    var d := c.(storedBlockCRC := c.storedBlockCRC * 256 % 0x1_0000_0000 + v);
    More(d.(state := c.state + 1))
  }

  function RandBit(c: Core, v: nat): Outcome {
    More(c.(randomised := v == 1, origPtr := 0, state := BZ_X_ORIGPTR_1))
  }

  function OrigPtr(c: Core, v: nat): Outcome {
    var d := c.(origPtr := c.origPtr * 256 + v);
    if c.state < BZ_X_ORIGPTR_3 then More(d.(state := c.state + 1))
    else if d.origPtr < 0 || d.origPtr > 10 + 100000 * d.blockSize100k then Error(BZ_DATA_ERROR)
    else More(d.(i := 0, inUse16 := [], state := BZ_X_MAPPING_1))
  }

  // ---- the used-byte map --------------------------------------------------

  function Mapping1(c: Core, v: nat): Outcome {
    var d := c.(inUse16 := c.inUse16 + [v == 1], i := c.i + 1);
    if d.i < 16 then More(d) else Mapping2From(d.(i := 0, inUse := Rep(false, 256)))
  }

  // The next group of sixteen that has any byte in use.
  function Mapping2From(c: Core): Outcome
    decreases 16 - c.i
  {
    if c.i < 0 || c.i >= |c.inUse16| || c.i >= 16 then MappingDone(c)
    else if c.inUse16[c.i] then More(c.(j := 0, state := BZ_X_MAPPING_2))
    else Mapping2From(c.(i := c.i + 1))
  }

  function Mapping2(c: Core, v: nat): Outcome {
    var at := c.i * 16 + c.j;
    var d := if v == 1 && 0 <= at < |c.inUse| then c.(inUse := c.inUse[at := true]) else c;
    if d.j + 1 < 16 then More(d.(j := d.j + 1)) else Mapping2From(d.(i := d.i + 1))
  }

  function NInUse(c: Core): nat {
    |Used(c.inUse, |c.inUse|)|
  }

  function AlphaSize(c: Core): nat {
    NInUse(c) + 2
  }

  function MappingDone(c: Core): Outcome {
    if NInUse(c) == 0 then Error(BZ_DATA_ERROR) else More(c.(state := BZ_X_SELECTOR_1))
  }

  // ---- selectors ----------------------------------------------------------

  function Selector1(c: Core, v: nat): Outcome {
    if v < 2 || v > 6 then Error(BZ_DATA_ERROR) else More(c.(nGroups := v, state := BZ_X_SELECTOR_2))
  }

  function Selector2(c: Core, v: nat): Outcome {
    if v < 1 then Error(BZ_DATA_ERROR)
    else More(c.(nSelectors := v, i := 0, j := 0, selectorMtf := [], state := BZ_X_SELECTOR_3))
  }

  function Selector3(c: Core, v: nat): Outcome {
    if v != 0 then
      if c.j + 1 >= c.nGroups then Error(BZ_DATA_ERROR) else More(c.(j := c.j + 1))
    else
      var d := c.(selectorMtf := c.selectorMtf + [c.j], i := c.i + 1, j := 0);
      if d.i < d.nSelectors then More(d)
      else More(d.(selector := UndoMtf(FirstList(if d.nGroups >= 0 then d.nGroups else 0), d.selectorMtf),
                   t := 0, len := [], state := BZ_X_CODING_1))
  }

  // Positions in a move-to-front list back to what they stood for.
  function UndoMtf(list: seq<int>, pos: seq<int>): seq<int>
    decreases |pos|
  {
    if pos == [] then []
    else if !(0 <= pos[0] < |list|) then []
    else [list[pos[0]]] + UndoMtf(Moved(list, pos[0]), pos[1..])
  }

  // ---- code lengths -------------------------------------------------------

  function Coding1(c: Core, v: nat): Outcome {
    LengthStep(c.(curr := v, i := 0, len := c.len + [[]]))
  }

  // The top of the loop that adjusts one length: it must be in range before the next bit is asked for.
  function LengthStep(c: Core): Outcome {
    if c.curr < 1 || c.curr > 20 then Error(BZ_DATA_ERROR) else More(c.(state := BZ_X_CODING_2))
  }

  function Coding2(c: Core, v: nat): Outcome {
    if v != 0 then More(c.(state := BZ_X_CODING_3))
    else if c.len == [] then Error(BZ_DATA_ERROR)
    else
      var m := |c.len| - 1;
      var d := c.(len := c.len[m := c.len[m] + [c.curr]], i := c.i + 1);
      if d.i < AlphaSize(d) then LengthStep(d)
      else if d.t + 1 < d.nGroups then More(d.(t := d.t + 1, state := BZ_X_CODING_1))
      else TablesReady(d)
  }

  function Coding3(c: Core, v: nat): Outcome {
    LengthStep(c.(curr := if v == 0 then c.curr + 1 else c.curr - 1))
  }

  // ---- decoding tables ----------------------------------------------------

  function MinOf(len: seq<int>): int {
    if len == [] then 32
    else if len[|len| - 1] < MinOf(len[..|len| - 1]) then len[|len| - 1]
    else MinOf(len[..|len| - 1])
  }

  function MaxOf(len: seq<int>): int {
    if len == [] then 0
    else if len[|len| - 1] > MaxOf(len[..|len| - 1]) then len[|len| - 1]
    else MaxOf(len[..|len| - 1])
  }

  // What BZ2_hbCreateDecodeTables leaves in limit and base at the lengths a symbol can reach.
  function Limit(len: seq<int>, n: nat): int {
    if MinOf(len) <= n <= MaxOf(len) then EndCode(len, n) - 1 else 0
  }

  function Base(len: seq<int>, n: nat): int {
    if MinOf(len) < n <= MaxOf(len) then FirstCode(len, n) - CountBelow(len, n, |len|) else CountBelow(len, n, |len|)
  }

  // The front of perm is rewritten for each table; what lies after it stays.
  function Overwritten(was: seq<int>, front: seq<int>): seq<int> {
    if |front| <= |was| then front + was[|front|..] else front
  }

  function NewPerms(perm: seq<seq<int>>, len: seq<seq<int>>): (r: seq<seq<int>>)
  {
    seq(|perm|, t requires 0 <= t < |perm| =>
      if t < |len| then Overwritten(perm[t], BySize(len[t], MinOf(len[t]), MaxOf(len[t]) + 1)) else perm[t])
  }

  function TablesReady(c: Core): Outcome {
    BeginSymbol(c.(perm := NewPerms(c.perm, c.len), groupNo := -1, groupPos := 0, list := FirstList(256), col := []),
        BZ_X_MTF_1)
  }

  // ---- symbols ------------------------------------------------------------

  // GET_MTF_VAL up to its first wait; site is the label of that wait.
  function BeginSymbol(c: Core, site: int): Outcome {
    var d := if c.groupPos == 0 then c.(groupNo := c.groupNo + 1, groupPos := BZ_G_SIZE) else c;
    if c.groupPos == 0 && d.groupNo >= d.nSelectors then Error(BZ_DATA_ERROR)
    else if !(0 <= d.groupNo < |d.selector|) || !(0 <= d.selector[d.groupNo] < |d.len|) then Error(BZ_DATA_ERROR)
    else More(d.(groupPos := d.groupPos - 1, zn := MinOf(d.len[d.selector[d.groupNo]]), state := site))
  }

  function GLen(c: Core): seq<int> {
    if 0 <= c.groupNo < |c.selector| && 0 <= c.selector[c.groupNo] < |c.len| then c.len[c.selector[c.groupNo]] else []
  }

  function GPerm(c: Core): seq<int> {
    if 0 <= c.groupNo < |c.selector| && 0 <= c.selector[c.groupNo] < |c.perm| then c.perm[c.selector[c.groupNo]] else []
  }

  // Further bits are asked for until the code is within its length's limit.
  function Symbol(c: Core): Outcome {
    var len := GLen(c);
    if c.zn > 20 || c.zn < 0 then Error(BZ_DATA_ERROR)
    else if c.zvec > Limit(len, c.zn) then
      More(c.(zn := c.zn + 1, state := if c.state % 2 == 0 then c.state + 1 else c.state))
    else
      var k := c.zvec - Base(len, c.zn);
      if k < 0 || k >= BZ_MAX_ALPHA_SIZE || k >= |GPerm(c)| then Error(BZ_DATA_ERROR)
      else
        var sym := GPerm(c)[k];
        if c.state == BZ_X_MTF_3 || c.state == BZ_X_MTF_4 then RunContinues(c, sym) else Dispatch(c, sym)
  }

  function FirstBits(c: Core, v: nat): Outcome {
    Symbol(c.(zvec := v))
  }

  function MoreBit(c: Core, v: nat): Outcome {
    Symbol(c.(zvec := c.zvec * 2 + v))
  }

  function NblockMAX(c: Core): int {
    100000 * c.blockSize100k
  }

  // The byte that position k of the list stands for.
  function ByteAt(c: Core, k: nat): int {
    var used := Used(c.inUse, |c.inUse|);
    if k < |c.list| && 0 <= c.list[k] < |used| then used[c.list[k]] else 0
  }

  function RunDigit(c: Core, sym: int): Outcome {
    BeginSymbol(c.(es := c.es + (if sym == BZ_RUNA then c.weight else c.weight + c.weight),
        weight := c.weight + c.weight),
                BZ_X_MTF_3)
  }

  // The top of the main loop.
  function Dispatch(c: Core, sym: int): Outcome {
    if sym == NInUse(c) + 1 then BlockDone(c)
    else if sym == BZ_RUNA || sym == BZ_RUNB then RunDigit(c.(es := -1, weight := 1), sym)
    else if |c.col| >= NblockMAX(c) then Error(BZ_DATA_ERROR)
    else if !(0 <= sym - 1 < |c.list|) then Error(BZ_DATA_ERROR)
    else
      BeginSymbol(c.(col := c.col + [ByteAt(c, sym - 1)], list := Moved(c.list, sym - 1)), BZ_X_MTF_5)
  }

  // In a run: another digit, or its end and the symbol that ended it.
  function RunContinues(c: Core, sym: int): Outcome {
    if sym == BZ_RUNA || sym == BZ_RUNB then RunDigit(c, sym)
    else if c.es + 1 > 0 && |c.col| + (c.es + 1) > NblockMAX(c) then Error(BZ_DATA_ERROR)
    else Dispatch(c.(col := c.col + Rep(ByteAt(c, 0), if c.es + 1 >= 0 then c.es + 1 else 0)), sym)
  }

  function BlockDone(c: Core): Outcome {
    if c.origPtr < 0 || c.origPtr >= |c.col| then Error(BZ_DATA_ERROR) else BlockReady(c.(state := BZ_X_OUTPUT))
  }

  // ---- the trailer --------------------------------------------------------

  function EndHeader(c: Core, v: nat): Outcome
    requires BZ_X_ENDHDR_2 <= c.state <= BZ_X_ENDHDR_6
  {
    if v != END_MAGIC[c.state - BZ_X_ENDHDR_2 + 1] then Error(BZ_DATA_ERROR)
    else if c.state < BZ_X_ENDHDR_6 then More(c.(state := c.state + 1))
    else More(c.(storedCombinedCRC := 0, state := BZ_X_CCRC_1))
  }

  function CombinedCRC(c: Core, v: nat): Outcome {
    var d := c.(storedCombinedCRC := c.storedCombinedCRC * 256 % 0x1_0000_0000 + v);
    if d.state < BZ_X_CCRC_4 then More(d.(state := d.state + 1)) else StreamEnd(d.(state := BZ_X_IDLE))
  }

  // ---- the machine --------------------------------------------------------

  // What the bits waited for lead to.
  function Next(c: Core, v: nat): Outcome {
    if c.state <= BZ_X_MAGIC_4 then Magic(c, v)
    else if c.state <= BZ_X_BLKHDR_6 then BlockHeader(c, v)
    else if c.state <= BZ_X_BCRC_4 then BlockCRC(c, v)
    else if c.state == BZ_X_RANDBIT then RandBit(c, v)
    else if c.state <= BZ_X_ORIGPTR_3 then OrigPtr(c, v)
    else if c.state == BZ_X_MAPPING_1 then Mapping1(c, v)
    else if c.state == BZ_X_MAPPING_2 then Mapping2(c, v)
    else if c.state == BZ_X_SELECTOR_1 then Selector1(c, v)
    else if c.state == BZ_X_SELECTOR_2 then Selector2(c, v)
    else if c.state == BZ_X_SELECTOR_3 then Selector3(c, v)
    else if c.state == BZ_X_CODING_1 then Coding1(c, v)
    else if c.state == BZ_X_CODING_2 then Coding2(c, v)
    else if c.state == BZ_X_CODING_3 then Coding3(c, v)
    else if c.state in {BZ_X_MTF_1, BZ_X_MTF_3, BZ_X_MTF_5} then FirstBits(c, v)
    else if c.state in {BZ_X_MTF_2, BZ_X_MTF_4, BZ_X_MTF_6} then MoreBit(c, v)
    else if c.state <= BZ_X_ENDHDR_6 then EndHeader(c, v)
    else CombinedCRC(c, v)
  }

  // Running on the bits at hand: until they run out, or a block or the stream is complete.
  datatype Ran =
    | Waiting(c: Core, left: seq<bool>)
    | Ready(c: Core, left: seq<bool>)
    | Ended(c: Core, left: seq<bool>)
    | Failed(code: int)

  function Run(c: Core, bits: seq<bool>): Ran
    decreases |bits|
  {
    var w := Width(c);
    if w == 0 || |bits| < w then Waiting(c, bits)
    else match Next(c, FromBits(bits[..w]))
      case More(d) => Run(d, bits[w..])
      case BlockReady(d) => Ready(d, bits[w..])
      case StreamEnd(d) => Ended(d, bits[w..])
      case Error(code) => Failed(code)
  }

  // Going on from what one wait led to.
  function RunFrom(o: Outcome, bits: seq<bool>): Ran {
    match o
    case More(d) => Run(d, bits)
    case BlockReady(d) => Ready(d, bits)
    case StreamEnd(d) => Ended(d, bits)
    case Error(code) => Failed(code)
  }

  lemma RunNext(c: Core, v: nat, rest: seq<bool>)
    requires Width(c) > 0 && v < Pow2(Width(c))
    ensures Run(c, ToBits(v, Width(c)) + rest) == RunFrom(Next(c, v), rest)
  {
    var w := Width(c);
    var bits := ToBits(v, w) + rest;
    FromToBits(v, w);
    assert bits[..w] == ToBits(v, w) && bits[w..] == rest;
  }

  lemma RunBit(c: Core, b: bool, rest: seq<bool>)
    requires Width(c) == 1
    ensures Run(c, [b] + rest) == RunFrom(Next(c, if b then 1 else 0), rest)
  {
    assert Pow2(1) == 2 && ToBits(if b then 1 else 0, 1) == [b];
    RunNext(c, if b then 1 else 0, rest);
  }

  lemma RunByte(c: Core, v: nat, rest: seq<bool>)
    requires Width(c) == 8 && v < 256
    ensures Run(c, ToBits(v, 8) + rest) == RunFrom(Next(c, v), rest)
  {
    Pow2Of32();
    RunNext(c, v, rest);
  }
}
