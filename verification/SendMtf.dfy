// The second half of sendMTFValues: the map of bytes in use, the selectors, the tables and the symbols go out.
module SendMtf {
  import opened Common
  import opened Bits
  import opened BitIO
  import opened MoveToFront
  import opened GenerateMtf
  import opened HuffmanCodes
  import opened BlockFormat
  import C = ChooseTables
  import D = DecodeMachine

  // What is written and what is still to come make up what was there and all that was to come.
  ghost predicate Sent(w0: seq<bool>, all: seq<bool>, now: seq<bool>, rest: seq<bool>) {
    now + rest == w0 + all
  }

  lemma SentNone(w0: seq<bool>, all: seq<bool>)
    ensures Sent(w0, all, w0, all)
  {
  }

  lemma SentPart(w0: seq<bool>, all: seq<bool>, now: seq<bool>, part: seq<bool>, rest: seq<bool>)
    requires Sent(w0, all, now, part + rest)
    ensures Sent(w0, all, now + part, rest) && |now| + |part| <= |w0| + |all|
  {
    assert now + part + rest == now + (part + rest);
    assert |now + (part + rest)| == |w0 + all|;
  }

  lemma SentAll(w0: seq<bool>, all: seq<bool>, now: seq<bool>)
    requires Sent(w0, all, now, [])
    ensures now == w0 + all
  {
    assert now + [] == now;
  }

  // ---- single bits --------------------------------------------------------

  method SendBit(w: BitWriter, b: bool)
    requires w.Valid() && w.Spare() >= 1
    modifies w, w.zbits
    ensures w.Valid() && w.Written() == old(w.Written()) + [b]
  {
    assert ToBits(if b then 1 else 0, 1) == [b] && Pow2(1) == 2;
    w.W(1, if b then 1 else 0);
  }

  // ---- the map of bytes in use --------------------------------------------

  method SendGroups(w: BitWriter, inUse: seq<bool>)
    requires w.Valid() && |inUse| == 256 && w.Spare() >= 16
    modifies w, w.zbits
    ensures w.Valid() && w.Written() == old(w.Written()) + GroupBits(inUse)
  {
    ghost var w0 := w.Written();
    for i := 0 to 16
      invariant w.Valid() && w.Written() == w0 + GroupBits(inUse)[..i]
    {
      var used := false;
      for j := 0 to 16
        invariant used == (true in inUse[i * 16..i * 16 + j])
        invariant w.Valid() && w.Written() == w0 + GroupBits(inUse)[..i]
      {
        assert inUse[i * 16..i * 16 + j + 1] == inUse[i * 16..i * 16 + j] + [inUse[i * 16 + j]];
        if inUse[i * 16 + j] {
          used := true;
        }
      }
      SendBit(w, used);
      assert GroupBits(inUse)[..i] + [used] == GroupBits(inUse)[..i + 1];
      assert w0 + GroupBits(inUse)[..i] + [used] == w0 + (GroupBits(inUse)[..i] + [used]);
    }
    assert GroupBits(inUse)[..16] == GroupBits(inUse);
  }

  method SendSixteen(w: BitWriter, inUse: seq<bool>, i: nat)
    requires w.Valid() && |inUse| == 256 && i < 16 && w.Spare() >= 16
    modifies w, w.zbits
    ensures w.Valid() && w.Written() == old(w.Written()) + inUse[i * 16..i * 16 + 16]
  {
    ghost var w0 := w.Written();
    for j := 0 to 16
      invariant w.Valid() && w.Written() == w0 + inUse[i * 16..i * 16 + j]
    {
      SendBit(w, inUse[i * 16 + j]);
      assert inUse[i * 16..i * 16 + j + 1] == inUse[i * 16..i * 16 + j] + [inUse[i * 16 + j]];
    }
  }

  lemma MapStep(inUse: seq<bool>, i: nat)
    requires |inUse| == 256 && i <= 16
    ensures MapBits(inUse, i) == if i == 16 then []
                                 else if true in inUse[i * 16..i * 16 + 16] then inUse[i * 16..i * 16 + 16]
                                     + MapBits(inUse, i + 1)
                                 else MapBits(inUse, i + 1)
  {
    if i < 16 {
      assert [] + MapBits(inUse, i + 1) == MapBits(inUse, i + 1);
    }
  }

  method SendMap(w: BitWriter, inUse: seq<bool>)
    requires w.Valid() && |inUse| == 256 && w.Spare() >= |MapBits(inUse, 0)|
    modifies w, w.zbits
    ensures w.Valid() && w.Written() == old(w.Written()) + MapBits(inUse, 0)
  {
    hide BitWriter.Valid, BitWriter.Written, MapBits, ToBits;
    ghost var w0 := w.Written();
    MapStep(inUse, 16);
    assert w0 + MapBits(inUse, 0) == w.Written() + MapBits(inUse, 0);
    for i := 0 to 16
      invariant w.Valid() && Sent(w0, MapBits(inUse, 0), w.Written(), MapBits(inUse, i))
    {
      MapStep(inUse, i);
      if true in inUse[i * 16..i * 16 + 16] {
        SentPart(w0, MapBits(inUse, 0), w.Written(), inUse[i * 16..i * 16 + 16], MapBits(inUse, i + 1));
        SendSixteen(w, inUse, i);
      }
    }
    SentAll(w0, MapBits(inUse, 0), w.Written());
  }

  // ---- selectors ----------------------------------------------------------

  // Positions of the selectors in a list that moves each to the front.
  method SelectorPositions(nGroups: int, selector: seq<int>) returns (selectorMtf: seq<int>)
    requires 0 <= nGroups && forall k :: 0 <= k < |selector| ==> selector[k] in FirstList(nGroups)
    ensures selectorMtf == DoMtf(FirstList(nGroups), selector)
  {
    hide Moved;
    var pos := new int[nGroups](i => i);
    ghost var list := pos[..];
    assert list == FirstList(nGroups);
    selectorMtf := [];
    for i := 0 to |selector|
      invariant pos[..] == list && forall k :: i <= k < |selector| ==> selector[k] in list
      invariant selectorMtf + DoMtf(list, selector[i..]) == DoMtf(FirstList(nGroups), selector)
    {
      assert selector[i..][0] == selector[i] && selector[i..][1..] == selector[i + 1..];
      MovedKeeps(list, IndexOf(list, selector[i]));
      var j := FrontPosition(pos, selector[i], list);
      selectorMtf := selectorMtf + [j];
      list := Moved(list, j);
    }
    assert selector[|selector|..] == [];
  }

  // Finds a value in the list and moves it to the front.
  method FrontPosition(pos: array<int>, ll: int, ghost list: seq<int>) returns (j: nat)
    requires pos[..] == list && ll in list
    modifies pos
    ensures j == IndexOf(list, ll) && pos[..] == Moved(list, j)
  {
    j := 0;
    var tmp := pos[0];
    ghost var y := list;
    while ll != tmp
      invariant 0 <= j <= IndexOf(list, ll) && j < pos.Length && pos[..] == y && tmp == list[j]
      invariant |y| == |list| && (forall x :: 0 < x <= j ==> y[x] == list[x - 1])
                && forall x :: j < x < |y| ==> y[x] == list[x]
      decreases pos.Length - j
    {
      j := j + 1;
      var tmp2 := tmp;
      tmp := pos[j];
      assert tmp == y[j];
      pos[j] := tmp2;
      y := y[j := tmp2];
    }
    pos[0] := tmp;
    forall x | 0 <= x < pos.Length ensures pos[..][x] == Moved(list, j)[x] {
      MovedAt(list, j, x);
    }
    assert pos[..] == Moved(list, j);
  }

  method SendUnary(w: BitWriter, j: nat)
    requires w.Valid() && w.Spare() >= j + 1
    modifies w, w.zbits
    ensures w.Valid() && w.Written() == old(w.Written()) + Unary(j)
  {
    ghost var w0 := w.Written();
    for k := 0 to j
      invariant w.Valid() && w.Written() == w0 + Rep(true, k)
    {
      SendBit(w, true);
      assert Rep(true, k + 1) == Rep(true, k) + [true];
    }
    SendBit(w, false);
    assert w0 + Rep(true, j) + [false] == w0 + Unary(j);
  }

  method SendPositions(w: BitWriter, pos: seq<int>)
    requires w.Valid() && w.Spare() >= |UnaryAll(pos)| && forall k :: 0 <= k < |pos| ==> pos[k] >= 0
    modifies w, w.zbits
    ensures w.Valid() && w.Written() == old(w.Written()) + UnaryAll(pos)
  {
    ghost var w0 := w.Written();
    assert pos[0..] == pos;
    for i := 0 to |pos|
      invariant w.Valid() && Sent(w0, UnaryAll(pos), w.Written(), UnaryAll(pos[i..]))
    {
      assert pos[i..][0] == pos[i] && pos[i..][1..] == pos[i + 1..];
      SentPart(w0, UnaryAll(pos), w.Written(), Unary(pos[i]), UnaryAll(pos[i + 1..]));
      SendUnary(w, pos[i]);
    }
    assert pos[|pos|..] == [];
    SentAll(w0, UnaryAll(pos), w.Written());
  }

  // ---- code lengths -------------------------------------------------------

  method SendAdjust(w: BitWriter, curr0: int, target: int)
    requires w.Valid() && w.Spare() >= |Adjust(curr0, target)|
    modifies w, w.zbits
    ensures w.Valid() && w.Written() == old(w.Written()) + Adjust(curr0, target)
  {
    hide BitWriter.Valid, BitWriter.Written, ToBits;
    ghost var w0 := w.Written();
    ghost var all := Adjust(curr0, target);
    var curr := curr0;
    while curr < target
      invariant w.Valid() && Sent(w0, all, w.Written(), Adjust(curr, target))
      invariant curr <= target || curr == curr0
      decreases target - curr
    {
      SentPart(w0, all, w.Written(), [true, false], Adjust(curr + 1, target));
      TwoBits(true, false);
      w.W(2, 2);
      curr := curr + 1;
    }
    while curr > target
      invariant w.Valid() && Sent(w0, all, w.Written(), Adjust(curr, target)) && curr >= target
      decreases curr - target
    {
      SentPart(w0, all, w.Written(), [true, true], Adjust(curr - 1, target));
      TwoBits(true, true);
      w.W(2, 3);
      curr := curr - 1;
    }
    assert [false] + [] == [false];
    SentPart(w0, all, w.Written(), [false], []);
    SendBit(w, false);
    SentAll(w0, all, w.Written());
  }

  lemma TwoBits(a: bool, b: bool)
    ensures ToBits((if a then 2 else 0) + (if b then 1 else 0), 2) == [a, b] && Pow2(2) == 4
  {
    assert ToBits(if a then 1 else 0, 1) == [a];
  }

  method SendTable(w: BitWriter, len: seq<int>)
    requires w.Valid() && |len| > 0 && 0 <= len[0] < 32 && w.Spare() >= |TableBits(len)|
    modifies w, w.zbits
    ensures w.Valid() && w.Written() == old(w.Written()) + TableBits(len)
  {
    ghost var w0 := w.Written();
    var curr := len[0];
    assert Pow2(5) == 32 by {
      assert Pow2(2) == 4 && Pow2(4) == 16;
    }
    ghost var all := TableBits(len);
    SentPart(w0, all, w0, ToBits(curr, 5), LengthBits(len, 0, curr));
    w.W(5, curr);
    for i := 0 to |len|
      invariant w.Valid() && Sent(w0, all, w.Written(), LengthBits(len, i, curr))
    {
      SentPart(w0, all, w.Written(), Adjust(curr, len[i]), LengthBits(len, i + 1, len[i]));
      SendAdjust(w, curr, len[i]);
      curr := len[i];
    }
    SentAll(w0, all, w.Written());
  }

  method SendTables(w: BitWriter, lens: seq<seq<int>>)
    requires w.Valid() && (forall u :: 0 <= u < |lens| ==> |lens[u]| > 0 && 0 <= lens[u][0] < 32)
    requires w.Spare() >= |TablesBits(lens, 0)|
    modifies w, w.zbits
    ensures w.Valid() && w.Written() == old(w.Written()) + TablesBits(lens, 0)
  {
    ghost var w0 := w.Written();
    for t := 0 to |lens|
      invariant w.Valid() && Sent(w0, TablesBits(lens, 0), w.Written(), TablesBits(lens, t))
    {
      SentPart(w0, TablesBits(lens, 0), w.Written(), TableBits(lens[t]), TablesBits(lens, t + 1));
      SendTable(w, lens[t]);
    }
    SentAll(w0, TablesBits(lens, 0), w.Written());
  }

  // ---- codes --------------------------------------------------------------

  // All codes of a table.
  function CodesOf(len: seq<int>): (r: seq<int>)
    requires forall i :: 0 <= i < |len| ==> len[i] >= 0
    ensures |r| == |len| && forall i :: 0 <= i < |len| ==> r[i] == Code(len, i)
  {
    seq(|len|, i requires 0 <= i < |len| => Code(len, i))
  }

  method AssignTable(len: seq<int>, alphaSize: int) returns (code: seq<int>)
    requires 0 < alphaSize == |len| && forall i :: 0 <= i < |len| ==> 1 <= len[i] <= 17
    ensures code == CodesOf(len)
  {
    var minLen, maxLen := 32, 0;
    for i := 0 to alphaSize
      invariant forall j :: 0 <= j < i ==> minLen <= len[j] <= maxLen
      invariant 0 <= maxLen <= 17 && 1 <= minLen <= 32 && (i > 0 ==> minLen <= maxLen)
    {
      if len[i] > maxLen {
        maxLen := len[i];
      }
      if len[i] < minLen {
        minLen := len[i];
      }
    }
    var length, row := new int[alphaSize](i requires 0 <= i < alphaSize => len[i]), new int[alphaSize];
    assert length[..alphaSize] == len;
    AssignCodes(row, length, minLen, maxLen, alphaSize, len);
    code := row[..alphaSize];
  }

  // Tables fit to be sent, as one round after another leaves them.
  ghost predicate SendTablesOk(lens: seq<seq<int>>, nGroups: int, alphaSize: nat) {
    |lens| == nGroups && forall t :: 0 <= t < nGroups ==> IsTable(lens[t], alphaSize)
  }

  method AssignAll(lens: seq<seq<int>>, nGroups: int, alphaSize: nat) returns (codes: seq<seq<int>>)
    requires 0 <= nGroups && 0 < alphaSize && SendTablesOk(lens, nGroups, alphaSize)
    ensures |codes| == nGroups && forall t :: 0 <= t < nGroups ==>
              IsTable(lens[t], alphaSize) && codes[t] == CodesOf(lens[t])
  {
    codes := [];
    for t := 0 to nGroups
      invariant |codes| == t && forall u :: 0 <= u < t ==> IsTable(lens[u], alphaSize) && codes[u] == CodesOf(lens[u])
    {
      assert IsTable(lens[t], alphaSize);
      var row := AssignTable(lens[t], alphaSize);
      codes := codes + [row];
    }
  }

  // ---- symbols ------------------------------------------------------------

  // Symbol k goes out with the code of its group's table.
  method SendSymbol(w: BitWriter, lens: seq<seq<int>>, codes: seq<seq<int>>, sel: int, sym: int, ghost p: Payload,
                    ghost k: nat, ghost alphaSize: nat)
    requires w.Valid() && 0 <= sel < |lens| == |codes| && IsTable(lens[sel], alphaSize)
    requires codes[sel] == CodesOf(lens[sel])
    requires 0 <= sym < alphaSize && k < |p.syms| && p.lens == lens && TableFor(p, k) == lens[sel] && p.syms[k] == sym
    requires w.Spare() >= |CodeBits(lens[sel], sym)|
    modifies w, w.zbits
    ensures w.Valid() && w.Written() == old(w.Written()) + CodeBits(TableFor(p, k), p.syms[k])
  {
    CodeFits(lens[sel], 17, sym);
    w.W(lens[sel][sym], codes[sel][sym]);
  }

  // Codes and selectors ready for the symbols.
  ghost predicate ReadyToSend(p: Payload, codes: seq<seq<int>>, nGroups: int, alphaSize: nat) {
    && |codes| == |p.lens| == nGroups
    && (forall t :: 0 <= t < nGroups ==> IsTable(p.lens[t], alphaSize) && codes[t] == CodesOf(p.lens[t]))
    && |p.syms| <= D.BZ_G_SIZE * |p.selector| < |p.syms| + D.BZ_G_SIZE && Selectors(p.selector, nGroups)
    && forall k :: 0 <= k < |p.syms| ==> 0 <= p.syms[k] < alphaSize
  }

  method SendGroup(w: BitWriter, mtfv: array<int>, gs: nat, end: nat, lens: seq<seq<int>>, codes: seq<seq<int>>,
                   sel: int, selCtr: nat, ghost p: Payload, ghost alphaSize: nat, ghost w0: seq<bool>)
    requires w.Valid() && w.zbits as object != mtfv && |p.syms| <= mtfv.Length && p.syms == mtfv[..|p.syms|]
    requires p.lens == lens
    requires ReadyToSend(p, codes, |lens|, alphaSize) && gs <= end <= |p.syms| && selCtr < |p.selector|
    requires sel == p.selector[selCtr]
    requires gs == D.BZ_G_SIZE * selCtr && end <= gs + D.BZ_G_SIZE
    requires Sent(w0, SymbolBits(p, 0), w.Written(), SymbolBits(p, gs))
    requires 8 * w.zbits.Length >= |w0| + |SymbolBits(p, 0)|
    modifies w, w.zbits
    ensures w.Valid() && Sent(w0, SymbolBits(p, 0), w.Written(), SymbolBits(p, end))
  {
    hide BitWriter.Valid, BitWriter.Written, IsTable, CodesOf, CodeBits, TableFor;
    ghost var all, syms := SymbolBits(p, 0), p.syms;
    for i := gs to end
      invariant w.Valid() && Sent(w0, all, w.Written(), SymbolBits(p, i)) && mtfv[..|syms|] == syms
    {
      assert mtfv[i] == syms[i];
      GroupTable(p, codes, |lens|, alphaSize, i, selCtr);
      SentPart(w0, all, w.Written(), CodeBits(TableFor(p, i), p.syms[i]), SymbolBits(p, i + 1));
      SendSymbol(w, lens, codes, sel, mtfv[i], p, i, alphaSize);
    }
  }

  // The table that goes with symbol i of a group.
  lemma GroupTable(p: Payload, codes: seq<seq<int>>, nGroups: int, alphaSize: nat, i: nat, selCtr: nat)
    requires ReadyToSend(p, codes, nGroups, alphaSize) && D.BZ_G_SIZE * selCtr <= i < D.BZ_G_SIZE * selCtr + D.BZ_G_SIZE
    requires selCtr < |p.selector| && i < |p.syms|
    ensures 0 <= p.selector[selCtr] < nGroups && IsTable(p.lens[p.selector[selCtr]], alphaSize)
    ensures codes[p.selector[selCtr]] == CodesOf(p.lens[p.selector[selCtr]])
    ensures TableFor(p, i) == p.lens[p.selector[selCtr]] && 0 <= p.syms[i] < alphaSize
  {
    hide CodesOf, IsTable;
    assert i / D.BZ_G_SIZE == selCtr;
  }

  lemma NoSymbols(p: Payload)
    ensures SymbolBits(p, |p.syms|) == []
  {
  }

  // Assertions 3006 and 3007 of the source: every selector names a table, and all are used up.
  method SendSymbols(w: BitWriter, mtfv: array<int>, nMTF: int, lens: seq<seq<int>>, codes: seq<seq<int>>,
                     selector: seq<int>, ghost p: Payload, ghost alphaSize: nat)
    requires w.Valid() && w.zbits as object != mtfv && 0 <= nMTF <= mtfv.Length && p.syms == mtfv[..nMTF]
    requires p.lens == lens && p.selector == selector && ReadyToSend(p, codes, |lens|, alphaSize)
    requires w.Spare() >= |SymbolBits(p, 0)|
    modifies w, w.zbits
    ensures w.Valid() && w.Written() == old(w.Written()) + SymbolBits(p, 0)
  {
    hide BitWriter.Valid, BitWriter.Written, SymbolBits, Sent, IsTable, CodesOf;
    ghost var w0, all := w.Written(), SymbolBits(p, 0);
    ghost var syms := mtfv[..nMTF];
    SentNone(w0, all);
    NoSymbols(p);
    var selCtr, gs := 0, 0;
    while gs < nMTF
      invariant w.Valid() && 0 <= gs <= nMTF && Sent(w0, all, w.Written(), SymbolBits(p, gs)) && mtfv[..nMTF] == syms
      invariant 0 <= selCtr <= |selector| && gs <= D.BZ_G_SIZE * selCtr < gs + D.BZ_G_SIZE
      invariant gs < nMTF ==> gs == D.BZ_G_SIZE * selCtr
    {
      var ge := gs + D.BZ_G_SIZE - 1;
      if ge >= nMTF {
        ge := nMTF - 1;
      }
      assert selector[selCtr] < |lens|;
      SendGroup(w, mtfv, gs, ge + 1, lens, codes, selector[selCtr], selCtr, p, alphaSize, w0);
      gs := ge + 1;
      selCtr := selCtr + 1;
    }
    assert selCtr == |selector|;
    SentAll(w0, all, w.Written());
  }

  // ---- the whole ----------------------------------------------------------

  lemma RebuiltOk(lens: seq<seq<int>>, rfreq: seq<seq<int>>, nGroups: int, alphaSize: nat)
    requires C.Rebuilt(lens, rfreq, nGroups, alphaSize)
    ensures SendTablesOk(lens, nGroups, alphaSize)
  {
    forall t | 0 <= t < nGroups ensures IsTable(lens[t], alphaSize) {
      assert C.RebuiltTable(lens[t], rfreq[t], alphaSize);
    }
  }

  // How many tables and selectors there are, and the selectors.
  method SendSelectors(w: BitWriter, nGroups: int, selector: seq<int>)
    requires w.Valid() && 2 <= nGroups <= 6 && |selector| < 32768 && Selectors(selector, nGroups)
    requires forall k :: 0 <= k < |selector| ==> selector[k] in FirstList(nGroups)
    requires w.Spare() >= 18 + |UnaryAll(DoMtf(FirstList(nGroups), selector))|
    modifies w, w.zbits
    ensures w.Valid()
    ensures w.Written() == old(w.Written()) + ToBits(nGroups, 3) + ToBits(|selector|, 15)
                           + UnaryAll(DoMtf(FirstList(nGroups), selector))
  {
    hide BitWriter.Valid, BitWriter.Written, ToBits, UnaryAll, DoMtf, FirstList;
    var pos := SelectorPositions(nGroups, selector);
    SmallPowers();
    w.W(3, nGroups);
    w.W(15, |selector|);
    SendPositions(w, pos);
  }

  // Everything before the symbols.
  method SendHead(w: BitWriter, inUse: seq<bool>, nGroups: int, selector: seq<int>, lens: seq<seq<int>>)
    requires w.Valid() && |inUse| == 256 && 2 <= nGroups <= 6 && |selector| < 32768 && Selectors(selector, nGroups)
    requires forall u :: 0 <= u < |lens| ==> |lens[u]| > 0 && 0 <= lens[u][0] < 32
    requires forall k :: 0 <= k < |selector| ==> selector[k] in FirstList(nGroups)
    requires w.Spare() >= |HeadBits(inUse, nGroups, selector, lens)|
    modifies w, w.zbits
    ensures w.Valid() && w.Written() == old(w.Written()) + HeadBits(inUse, nGroups, selector, lens)
  {
    hide BitWriter.Valid, BitWriter.Written, ToBits, UnaryAll, MapBits, GroupBits, TablesBits, DoMtf, FirstList,
         Selectors;
    ghost var w0 := w.Written();
    ghost var a, b, c, d := GroupBits(inUse), MapBits(inUse, 0), ToBits(nGroups, 3), ToBits(|selector|, 15);
    ghost var e, f := UnaryAll(DoMtf(FirstList(nGroups), selector)), TablesBits(lens, 0);
    SendGroups(w, inUse);
    SendMap(w, inUse);
    SendSelectors(w, nGroups, selector);
    SendTables(w, lens);
    HeadJoined(w0, a, b, c, d, e, f);
  }

  lemma HeadJoined<T>(w: seq<T>, a: seq<T>, b: seq<T>, c: seq<T>, d: seq<T>, e: seq<T>, f: seq<T>)
    ensures w + a + b + c + d + e + f == w + (a + b + c + d + e + f)
  {
  }

  function HeadBits(inUse: seq<bool>, nGroups: nat, selector: seq<int>, lens: seq<seq<int>>): seq<bool>
    requires |inUse| == 256 && (forall u :: 0 <= u < |lens| ==> |lens[u]| > 0 && lens[u][0] >= 0)
    requires forall k :: 0 <= k < |selector| ==> selector[k] in FirstList(nGroups)
  {
    GroupBits(inUse) + MapBits(inUse, 0) + ToBits(nGroups, 3) + ToBits(|selector|, 15)
    + UnaryAll(DoMtf(FirstList(nGroups), selector)) + TablesBits(lens, 0)
  }

  lemma SmallPowers()
    ensures Pow2(3) == 8 && Pow2(15) == 32768
  {
    assert Pow2(2) == 4 && Pow2(4) == 16;
    Pow2Add(4, 4);
    Pow2Add(4, 3);
    Pow2Add(8, 7);
  }

  // sendMTFValues, given how much room its output needs.
  method SendMtfValues(w: BitWriter, mtfv: array<int>, nMTF: int, mtfFreq: array<int>, inUse: seq<bool>, nInUse: nat,
                       ghost crc: int, ghost origPtr: int) returns (ghost p: Payload)
    requires w.Valid() && w.zbits as object != mtfv && 0 < nMTF <= mtfv.Length && nMTF <= 900001
    requires |inUse| == 256 && 0 < nInUse == |Used(inUse, 256)| && BZ_MAX_ALPHA_SIZE <= mtfFreq.Length
    requires forall k :: 0 <= k < nMTF ==> 0 <= mtfv[k] < nInUse + 2
    requires nMTF == Sum(mtfFreq[..nInUse + 2]) && forall v :: 0 <= v < nInUse + 2 ==> mtfFreq[v] >= 0
    requires 0 <= crc < 0x1_0000_0000 && 0 <= origPtr < 0x100_0000
    requires w.Spare() >= PayloadRoom(nMTF)
    modifies w, w.zbits
    ensures Sendable(p) && p.crc == crc && p.origPtr == origPtr && p.inUse == inUse && p.syms == mtfv[..nMTF]
    ensures Selectors(p.selector, p.nGroups) && (forall u :: 0 <= u < |p.lens| ==> |p.lens[u]| > 0 && p.lens[u][0] >= 0)
    ensures w.Valid() && w.Written() == old(w.Written()) + PayloadBits(p)
  {
    hide BitWriter.Valid, BitWriter.Written, HeadBits, SymbolBits, PayloadRoom, C.Tables, C.ChosenBest, C.UsesAre,
         C.Rebuilt, Used, Sum;
    hide PayloadBits, Sendable, SendTablesOk, ReadyToSend;
    var alphaSize := nInUse + 2;
    ghost var syms := mtfv[..nMTF];
    ghost var before, rfreq;
    var nGroups, lens, selector;
    nGroups, lens, selector, before, rfreq := C.ChooseAll(mtfv, mtfFreq, nMTF, alphaSize, syms);
    RebuiltOk(lens, rfreq, nGroups, alphaSize);
    var codes := AssignAll(lens, nGroups, alphaSize);
    p := Payload(crc, origPtr, inUse, nGroups, selector, lens, syms);
    PayloadReady(p, codes, alphaSize);
    PayloadFits(p);
    PayloadParts(p);
    SendHead(w, inUse, nGroups, selector, lens);
    SendSymbols(w, mtfv, nMTF, lens, codes, selector, p, alphaSize);
  }

  lemma PayloadReady(p: Payload, codes: seq<seq<int>>, alphaSize: nat)
    requires |p.inUse| == 256 && alphaSize == Alpha(p) > 2 && 2 <= p.nGroups <= 6
    requires SendTablesOk(p.lens, p.nGroups, alphaSize)
    requires |codes| == p.nGroups && forall t :: 0 <= t < p.nGroups ==>
               IsTable(p.lens[t], alphaSize) && codes[t] == CodesOf(p.lens[t])
    requires 0 < |p.selector| <= D.BZ_MAX_SELECTORS && Selectors(p.selector, p.nGroups)
    requires |p.syms| <= D.BZ_G_SIZE * |p.selector| < |p.syms| + D.BZ_G_SIZE
    requires forall k :: 0 <= k < |p.syms| ==> 0 <= p.syms[k] < alphaSize
    requires 0 <= p.crc < 0x1_0000_0000 && 0 <= p.origPtr < 0x100_0000
    ensures Sendable(p) && ReadyToSend(p, codes, |p.lens|, alphaSize)
  {
    hide CodesOf, CodeLengths;
  }

  lemma PayloadParts(p: Payload)
    requires Sendable(p)
    ensures Selectors(p.selector, p.nGroups)
            && (forall k :: 0 <= k < |p.selector| ==> p.selector[k] in FirstList(p.nGroups))
    ensures forall u :: 0 <= u < |p.lens| ==> |p.lens[u]| > 0 && 0 <= p.lens[u][0] < 32
    ensures PayloadBits(p) == HeadBits(p.inUse, p.nGroups, p.selector, p.lens) + SymbolBits(p, 0)
  {
    SelectorsListed(p.selector, p.nGroups);
    forall u | 0 <= u < |p.lens| ensures |p.lens[u]| > 0 && 0 <= p.lens[u][0] < 32 {
      assert IsTable(p.lens[u], Alpha(p));
    }
  }

  // ---- room ---------------------------------------------------------------

  // Enough bits for any payload of n symbols: the map, six tables at most, a selector for every fifty
  // symbols, and 17 bits for each.
  function PayloadRoom(n: nat): nat {
    16 + 256 + 18 + 6 * (n / 50 + 1) + 6 * 8519 + 17 * n
  }

  lemma {:induction false} UnaryRoom(pos: seq<int>, n: nat)
    requires forall k :: 0 <= k < |pos| ==> 0 <= pos[k] < n
    ensures |UnaryAll(pos)| <= n * |pos|
    decreases |pos|
  {
    if pos != [] {
      UnaryRoom(pos[1..], n);
      assert n * |pos| == n * |pos[1..]| + n;
    }
  }

  lemma {:induction false} MapRoom(inUse: seq<bool>, i: nat)
    requires i <= 16 && |inUse| == 256
    ensures |MapBits(inUse, i)| <= 16 * (16 - i)
    decreases 16 - i
  {
    if i < 16 {
      MapRoom(inUse, i + 1);
    }
  }

  lemma {:induction false} AdjustRoom(curr: int, target: int)
    requires 1 <= curr <= 17 && 1 <= target <= 17
    ensures |Adjust(curr, target)| == 1 + 2 * (if curr < target then target - curr else curr - target)
    decreases if curr < target then target - curr else curr - target
  {
    if curr < target {
      AdjustRoom(curr + 1, target);
    } else if curr > target {
      AdjustRoom(curr - 1, target);
    }
  }

  lemma {:induction false} LengthRoom(len: seq<int>, i: nat, curr: int)
    requires i <= |len| && 1 <= curr <= 17 && forall k :: 0 <= k < |len| ==> 1 <= len[k] <= 17
    ensures |LengthBits(len, i, curr)| <= 33 * (|len| - i)
    decreases |len| - i
  {
    if i < |len| {
      AdjustRoom(curr, len[i]);
      LengthRoom(len, i + 1, len[i]);
    }
  }

  lemma OneTableRoom(len: seq<int>, alphaSize: nat)
    requires 0 < alphaSize <= 258 && IsTable(len, alphaSize)
    ensures |len| > 0 && len[0] >= 0 && |TableBits(len)| <= 8519
  {
    LengthRoom(len, 0, len[0]);
  }

  lemma {:induction false} TablesRoom(lens: seq<seq<int>>, t: nat, alphaSize: nat)
    requires t <= |lens| && 0 < alphaSize <= 258 && SendTablesOk(lens, |lens|, alphaSize)
    requires forall u :: 0 <= u < |lens| ==> |lens[u]| > 0 && lens[u][0] >= 0
    ensures |TablesBits(lens, t)| <= 8519 * (|lens| - t)
    decreases |lens| - t
  {
    hide IsTable, TableBits;
    if t < |lens| {
      assert IsTable(lens[t], alphaSize);
      OneTableRoom(lens[t], alphaSize);
      TablesRoom(lens, t + 1, alphaSize);
    }
  }

  lemma OneSymbolRoom(p: Payload, k: nat)
    requires Sendable(p) && k < |p.syms|
    ensures |CodeBits(TableFor(p, k), p.syms[k])| <= 17
  {
    if TableFor(p, k) != [] {
      assert IsTable(TableFor(p, k), Alpha(p));
    }
  }

  lemma {:induction false} SymbolRoom(p: Payload, k: nat)
    requires Sendable(p) && k <= |p.syms|
    ensures |SymbolBits(p, k)| <= 17 * (|p.syms| - k)
    decreases |p.syms| - k
  {
    hide Sendable, CodeBits, TableFor;
    if k < |p.syms| {
      SymbolRoom(p, k + 1);
      OneSymbolRoom(p, k);
    }
  }

  lemma PayloadFits(p: Payload)
    requires Sendable(p) && Alpha(p) <= 258
    ensures Selectors(p.selector, p.nGroups) && (forall u :: 0 <= u < |p.lens| ==> |p.lens[u]| > 0 && p.lens[u][0] >= 0)
            && |PayloadBits(p)| <= PayloadRoom(|p.syms|)
  {
    PayloadParts(p);
    HeadFits(p.inUse, p.nGroups, p.selector, p.lens, Alpha(p));
    SymbolRoom(p, 0);
    SelectorRoom(|p.selector|, |p.syms|);
  }

  lemma SelectorRoom(s: nat, n: nat)
    requires 50 * s < n + 50
    ensures s <= n / 50 + 1
  {
  }

  lemma HeadFits(inUse: seq<bool>, nGroups: nat, selector: seq<int>, lens: seq<seq<int>>, alphaSize: nat)
    requires |inUse| == 256 && 2 <= nGroups <= 6 && |lens| == nGroups && 0 < alphaSize <= 258
    requires SendTablesOk(lens, nGroups, alphaSize)
    requires forall u :: 0 <= u < |lens| ==> |lens[u]| > 0 && lens[u][0] >= 0
    requires forall k :: 0 <= k < |selector| ==> selector[k] in FirstList(nGroups)
    ensures |HeadBits(inUse, nGroups, selector, lens)| <= 16 + 256 + 18 + 6 * |selector| + 6 * 8519
  {
    hide MapBits, UnaryAll, TablesBits, SendTablesOk;
    MapRoom(inUse, 0);
    UnaryRoom(DoMtf(FirstList(nGroups), selector), 6);
    TablesRoom(lens, 0, alphaSize);
  }
}
