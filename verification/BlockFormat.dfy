// What BZ2_compressBlock writes for one block, and for the ends of the stream, as bit strings.
module BlockFormat {
  import opened Common
  import opened Bits
  import opened MoveToFront
  import opened GenerateMtf
  import opened HuffmanCodes
  import opened DecodeMachine

  datatype Payload = Payload(crc: int, origPtr: int, inUse: seq<bool>, nGroups: int, selector: seq<int>,
                             lens: seq<seq<int>>, syms: seq<int>)

  // ---- numbers in bytes ---------------------------------------------------

  function Bits24(v: nat): seq<bool> {
    ToBits(v / 65536 % 256, 8) + ToBits(v / 256 % 256, 8) + ToBits(v % 256, 8)
  }

  // bsPutUInt32
  function Bits32(v: nat): seq<bool> {
    ToBits(v / 0x100_0000 % 256, 8) + Bits24(v)
  }

  function BytesOf(s: seq<int>): seq<bool>
    requires forall i :: 0 <= i < |s| ==> 0 <= s[i] < 256
  {
    if s == [] then [] else ToBits(s[0], 8) + BytesOf(s[1..])
  }

  // ---- the used-byte map --------------------------------------------------

  // Some byte of group i of sixteen is in use.
  predicate GroupInUse(inUse: seq<bool>, i: nat)
    requires i < 16 && |inUse| == 256
  {
    true in inUse[i * 16..i * 16 + 16]
  }

  function GroupBits(inUse: seq<bool>): (r: seq<bool>)
    requires |inUse| == 256
    ensures |r| == 16 && forall i :: 0 <= i < 16 ==> r[i] == GroupInUse(inUse, i)
  {
    seq(16, i requires 0 <= i < 16 => GroupInUse(inUse, i))
  }

  // The map of each group in use, from group i on.
  function MapBits(inUse: seq<bool>, i: nat): seq<bool>
    requires i <= 16 && |inUse| == 256
    decreases 16 - i
  {
    if i == 16 then []
    else (if GroupInUse(inUse, i) then inUse[i * 16..i * 16 + 16] else []) + MapBits(inUse, i + 1)
  }

  // ---- selectors ----------------------------------------------------------

  ghost predicate Selectors(sel: seq<int>, nGroups: int) {
    forall k :: 0 <= k < |sel| ==> 0 <= sel[k] < nGroups
  }

  // Positions of the selectors in a list that moves each to the front.
  function DoMtf(list: seq<int>, sel: seq<int>): (pos: seq<int>)
    requires forall k :: 0 <= k < |sel| ==> sel[k] in list
    ensures |pos| == |sel| && forall k :: 0 <= k < |pos| ==> 0 <= pos[k] < |list|
    decreases |sel|
  {
    if sel == [] then []
    else
      var k := IndexOf(list, sel[0]);
      MovedKeeps(list, k);
      [k] + DoMtf(Moved(list, k), sel[1..])
  }

  lemma MovedKeeps(list: seq<int>, k: nat)
    requires k < |list|
    ensures forall c :: c in Moved(list, k) <==> c in list
  {
    forall c ensures c in Moved(list, k) <==> c in list {
      MovedMembers(list, k, c);
    }
  }

  lemma {:induction false} MtfUndone(list: seq<int>, sel: seq<int>)
    requires forall k :: 0 <= k < |sel| ==> sel[k] in list
    ensures UndoMtf(list, DoMtf(list, sel)) == sel
    decreases |sel|
  {
    if sel != [] {
      var k := IndexOf(list, sel[0]);
      MovedKeeps(list, k);
      MtfUndone(Moved(list, k), sel[1..]);
      var pos := DoMtf(list, sel);
      assert pos[1..] == DoMtf(Moved(list, k), sel[1..]);
    }
  }

  function Unary(j: int): seq<bool> {
    Rep(true, if j >= 0 then j else 0) + [false]
  }

  function UnaryAll(pos: seq<int>): seq<bool> {
    if pos == [] then [] else Unary(pos[0]) + UnaryAll(pos[1..])
  }

  // ---- code lengths -------------------------------------------------------

  // From one length to the next: 10 for one more, 11 for one less, 0 when it is reached.
  function Adjust(curr: int, target: int): seq<bool>
    decreases if curr < target then target - curr else curr - target
  {
    if curr < target then [true, false] + Adjust(curr + 1, target)
    else if curr > target then [true, true] + Adjust(curr - 1, target)
    else [false]
  }

  // Lengths from entry i on, the current length being curr.
  function LengthBits(len: seq<int>, i: nat, curr: int): seq<bool>
    requires i <= |len|
    decreases |len| - i
  {
    if i == |len| then [] else Adjust(curr, len[i]) + LengthBits(len, i + 1, len[i])
  }

  function TableBits(len: seq<int>): seq<bool>
    requires |len| > 0 && len[0] >= 0
  {
    ToBits(len[0], 5) + LengthBits(len, 0, len[0])
  }

  function TablesBits(lens: seq<seq<int>>, t: nat): seq<bool>
    requires t <= |lens| && forall u :: 0 <= u < |lens| ==> |lens[u]| > 0 && lens[u][0] >= 0
    decreases |lens| - t
  {
    if t == |lens| then [] else TableBits(lens[t]) + TablesBits(lens, t + 1)
  }

  // ---- symbols ------------------------------------------------------------

  // The table used for symbol k.
  function TableFor(p: Payload, k: nat): seq<int> {
    if k / BZ_G_SIZE < |p.selector|
        && 0 <= p.selector[k / BZ_G_SIZE] < |p.lens| then p.lens[p.selector[k / BZ_G_SIZE]] else []
  }

  function CodeBits(len: seq<int>, sym: int): seq<bool> {
    if 0 <= sym < |len| && len[sym] >= 0 then ToBits(Code(len, sym), len[sym]) else []
  }

  function SymbolBits(p: Payload, k: nat): seq<bool>
    requires k <= |p.syms|
    decreases |p.syms| - k
  {
    if k == |p.syms| then [] else CodeBits(TableFor(p, k), p.syms[k]) + SymbolBits(p, k + 1)
  }

  // ---- a block ------------------------------------------------------------

  ghost predicate IsTable(len: seq<int>, alpha: nat) {
    |len| == alpha && CodeLengths(len, 17)
  }

  function Alpha(p: Payload): nat {
    |Used(p.inUse, |p.inUse|)| + 2
  }

  // What sendMTFValues sends: bytes used, tables for two to six groups, a selector for every fifty symbols.
  ghost predicate Sendable(p: Payload) {
    && |p.inUse| == 256 && Alpha(p) > 2
    && 2 <= p.nGroups <= 6 && |p.lens| == p.nGroups
    && (forall t :: 0 <= t < |p.lens| ==> IsTable(p.lens[t], Alpha(p)))
    && 0 < |p.selector| <= BZ_MAX_SELECTORS && Selectors(p.selector, p.nGroups)
    && |p.syms| <= BZ_G_SIZE * |p.selector| < |p.syms| + BZ_G_SIZE
    && (forall k :: 0 <= k < |p.syms| ==> 0 <= p.syms[k] < Alpha(p))
    && 0 <= p.crc < 0x1_0000_0000 && 0 <= p.origPtr < 0x100_0000
  }

  function PayloadBits(p: Payload): seq<bool>
    requires |p.inUse| == 256 && 0 <= p.nGroups
             && (forall u :: 0 <= u < |p.lens| ==> |p.lens[u]| > 0 && p.lens[u][0] >= 0)
    requires forall k :: 0 <= k < |p.selector| ==> 0 <= p.selector[k] < p.nGroups
  {
    SelectorsListed(p.selector, p.nGroups);
    GroupBits(p.inUse) + MapBits(p.inUse, 0)
    + ToBits(p.nGroups, 3) + ToBits(|p.selector|, 15) + UnaryAll(DoMtf(FirstList(p.nGroups), p.selector))
    + TablesBits(p.lens, 0) + SymbolBits(p, 0)
  }

  lemma SelectorsListed(sel: seq<int>, n: nat)
    requires Selectors(sel, n)
    ensures forall k :: 0 <= k < |sel| ==> sel[k] in FirstList(n)
  {
    forall k | 0 <= k < |sel| ensures sel[k] in FirstList(n) {
      assert FirstList(n)[sel[k]] == sel[k];
    }
  }

  lemma TablesListed(p: Payload)
    requires Sendable(p)
    ensures forall u :: 0 <= u < |p.lens| ==> |p.lens[u]| > 0 && p.lens[u][0] >= 0
  {
    forall u | 0 <= u < |p.lens| ensures |p.lens[u]| > 0 && p.lens[u][0] >= 0 {
      assert IsTable(p.lens[u], Alpha(p));
    }
  }

  ghost function BlockBits(p: Payload): seq<bool>
    requires Sendable(p)
  {
    TablesListed(p);
    BytesOf(BLOCK_MAGIC) + Bits32(p.crc) + [false] + Bits24(p.origPtr) + PayloadBits(p)
  }

  function StreamHeader(blockSize100k: int): seq<bool>
    requires 1 <= blockSize100k <= 9
  {
    BytesOf([0x42, 0x5a, 0x68, 0x30 + blockSize100k])
  }

  function StreamTrailer(combinedCRC: nat): seq<bool> {
    BytesOf(END_MAGIC) + Bits32(combinedCRC)
  }
}
