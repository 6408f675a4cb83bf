// The first half of sendMTFValues: initial tables, then four rounds of choosing a table for every
// fifty symbols and rebuilding each table from the symbols that chose it.
module ChooseTables {
  import opened Common
  import opened GenerateMtf
  import opened HuffmanTree
  import opened MakeCodeLengths

  const BZ_LESSER_ICOST := 0
  const BZ_GREATER_ICOST := 15
  const BZ_N_GROUPS := 6
  const BZ_N_ITERS := 4
  const BZ_G_SIZE := 50

  // ---- initial tables -----------------------------------------------------

  function GroupsFor(nMTF: int): int {
    if nMTF < 200 then 2 else if nMTF < 600 then 3 else if nMTF < 1200 then 4 else if nMTF < 2400 then 5 else 6
  }

  // Symbols gs to ge are cheap, the others dear.
  function Stretch(alphaSize: nat, gs: int, ge: int): (r: seq<int>)
    ensures |r| == alphaSize
    ensures forall v :: 0 <= v < alphaSize ==> r[v] == if gs <= v <= ge then BZ_LESSER_ICOST else BZ_GREATER_ICOST
  {
    seq(alphaSize, v => if gs <= v <= ge then BZ_LESSER_ICOST else BZ_GREATER_ICOST)
  }

  // Some table from number lo on has symbol v cheap.
  ghost predicate Cheap(len: seq<seq<int>>, lo: int, v: int) {
    exists t :: 0 <= t < |len| && lo <= t && 0 <= v < |len[t]| && len[t][v] == BZ_LESSER_ICOST
  }

  lemma CheapStays(len: seq<seq<int>>, lo: int, row: seq<int>, v: int)
    requires 0 < lo <= |len| && Cheap(len, lo, v)
    ensures Cheap(len[lo - 1 := row], lo - 1, v)
  {
    var t :| 0 <= t < |len| && lo <= t && 0 <= v < |len[t]| && len[t][v] == BZ_LESSER_ICOST;
    assert len[lo - 1 := row][t] == len[t];
  }

  ghost function FreqSum(freq: seq<int>, lo: int, hi: int): int
    requires 0 <= lo <= hi <= |freq|
  {
    Sum(freq[lo..hi])
  }

  lemma FreqSumMore(freq: seq<int>, lo: int, hi: int)
    requires 0 <= lo <= hi < |freq|
    ensures FreqSum(freq, lo, hi + 1) == FreqSum(freq, lo, hi) + freq[hi]
  {
    assert freq[lo..hi + 1][..hi - lo] == freq[lo..hi];
  }

  lemma FreqSumSplit(freq: seq<int>, lo: int, mid: int, hi: int)
    requires 0 <= lo <= mid <= hi <= |freq|
    ensures FreqSum(freq, lo, hi) == FreqSum(freq, lo, mid) + FreqSum(freq, mid, hi)
  {
    assert freq[lo..hi] == freq[lo..mid] + freq[mid..hi];
    SumConcat(freq[lo..mid], freq[mid..hi]);
  }

  lemma FreqSumNonNegative(freq: seq<int>, lo: int, hi: int)
    requires 0 <= lo <= hi <= |freq| && forall v :: 0 <= v < |freq| ==> freq[v] >= 0
    ensures FreqSum(freq, lo, hi) >= 0
  {
    SumNonNegative(freq[lo..hi]);
  }

  // An equal part of what is left, rounded down.
  ghost function Share(freq: seq<int>, gs: int, nPart: int): int
    requires 0 <= gs <= |freq| && nPart > 0
  {
    FreqSum(freq, gs, |freq|) / nPart
  }

  lemma ShareBounds(freq: seq<int>, gs: int, nPart: int)
    requires 0 <= gs <= |freq| && nPart > 0 && forall v :: 0 <= v < |freq| ==> freq[v] >= 0
    ensures 0 <= Share(freq, gs, nPart) <= FreqSum(freq, gs, |freq|)
    ensures nPart == 1 ==> Share(freq, gs, nPart) == FreqSum(freq, gs, |freq|)
  {
    hide FreqSum;
    FreqSumNonNegative(freq, gs, |freq|);
    QuotientBounds(FreqSum(freq, gs, |freq|), nPart);
  }

  lemma QuotientBounds(x: nat, n: int)
    requires n > 0
    ensures 0 <= x / n <= x
  {
    var q := x / n;
    assert x == n * q + x % n;
    TimesAtLeast(n, q);
  }

  lemma TimesAtLeast(n: nat, q: nat)
    requires n > 0
    ensures n * q >= q
  {
  }

  // From gs to end the frequencies first come to the share.
  ghost predicate Reaches(freq: seq<int>, gs: int, end: int, share: int) {
    && 0 <= gs <= end <= |freq| && FreqSum(freq, gs, end) >= share
    && (end > gs ==> FreqSum(freq, gs, end - 1) < share)
  }

  // In every second part but the last the symbol that reaches the share is left for the next, unless it is alone.
  predicate LeavesLast(gs: int, end: int, nPart: int, nGroups: int) {
    end - 1 > gs && nPart != nGroups && nPart != 1 && (nGroups - nPart) % 2 == 1
  }

  // Symbols gs to next - 1 are the part that is due when nPart parts are left.
  ghost predicate IsPart(freq: seq<int>, gs: int, next: int, nPart: int, nGroups: int) {
    && 0 <= gs <= |freq| && nPart > 0
    && exists end :: Reaches(freq, gs, end, Share(freq, gs, nPart))
         && next == if LeavesLast(gs, end, nPart, nGroups) then end - 1 else end
  }

  // A part differs from its share by no more than the largest frequency.
  lemma PartNearShare(freq: seq<int>, gs: int, next: int, nPart: int, nGroups: int, most: int)
    requires IsPart(freq, gs, next, nPart, nGroups) && most >= 0
    requires forall v :: 0 <= v < |freq| ==> 0 <= freq[v] <= most
    ensures gs <= next <= |freq|
    ensures Share(freq, gs, nPart) - most <= FreqSum(freq, gs, next) <= Share(freq, gs, nPart) + most
  {
    hide Share, FreqSum;
    var share := Share(freq, gs, nPart);
    ShareBounds(freq, gs, nPart);
    var end :| Reaches(freq, gs, end, share) && next == if LeavesLast(gs, end, nPart, nGroups) then end - 1 else end;
    if end > gs {
      FreqSumMore(freq, gs, end - 1);
    } else {
      NothingBetween(freq, gs);
    }
  }

  lemma NothingBetween(freq: seq<int>, gs: int)
    requires 0 <= gs <= |freq|
    ensures FreqSum(freq, gs, gs) == 0
  {
    assert freq[gs..gs] == [];
  }

  // The tables of the parts, the first part's last: the symbols of a part are cheap in its table, all others dear.
  ghost predicate Parts(len: seq<seq<int>>, freq: seq<int>, bounds: seq<int>, nGroups: int, n: nat) {
    && n <= nGroups == |len| && |bounds| == n + 1 && bounds[0] == 0
    && forall i :: 0 <= i < n ==>
         && IsPart(freq, bounds[i], bounds[i + 1], nGroups - i, nGroups)
         && len[nGroups - 1 - i] == Stretch(|freq|, bounds[i], bounds[i + 1] - 1)
  }

  lemma PartAdded(len: seq<seq<int>>, freq: seq<int>, bounds: seq<int>, nGroups: int, n: nat, next: int)
    requires Parts(len, freq, bounds, nGroups, n) && n < nGroups && IsPart(freq, bounds[n], next, nGroups - n, nGroups)
    ensures Parts(len[nGroups - 1 - n := Stretch(|freq|, bounds[n], next - 1)], freq, bounds + [next], nGroups, n + 1)
  {
    var len', bounds' := len[nGroups - 1 - n := Stretch(|freq|, bounds[n], next - 1)], bounds + [next];
    forall i | 0 <= i < n + 1
      ensures IsPart(freq, bounds'[i], bounds'[i + 1], nGroups - i, nGroups)
      ensures len'[nGroups - 1 - i] == Stretch(|freq|, bounds'[i], bounds'[i + 1] - 1)
    {
      if i < n {
        assert bounds'[i] == bounds[i] && bounds'[i + 1] == bounds[i + 1];
      }
    }
  }

  // One part of the alphabet: from gs until its share of what is left is used up, or one symbol less.
  method NextPart(mtfFreq: array<int>, alphaSize: int, gs: int, remF: int, nPart: int, nGroups: int,
                  ghost freq: seq<int>) returns (ge: int, aFreq: int)
    requires 0 < alphaSize <= mtfFreq.Length && mtfFreq[..alphaSize] == freq && 0 <= gs <= alphaSize
    requires 0 < nPart <= nGroups
    requires remF == FreqSum(freq, gs, alphaSize) && forall v :: 0 <= v < alphaSize ==> freq[v] >= 0
    ensures gs - 1 <= ge < alphaSize && aFreq == FreqSum(freq, gs, ge + 1)
    ensures nPart == 1 ==> FreqSum(freq, ge + 1, alphaSize) == 0
    ensures IsPart(freq, gs, ge + 1, nPart, nGroups)
  {
    hide FreqSum;
    ShareBounds(freq, gs, nPart);
    NothingBetween(freq, gs);
    var tFreq := remF / nPart;
    assert tFreq == Share(freq, gs, nPart);
    ge := gs - 1;
    aFreq := 0;
    while aFreq < tFreq && ge < alphaSize - 1
      invariant gs - 1 <= ge < alphaSize && aFreq == FreqSum(freq, gs, ge + 1)
      invariant ge >= gs ==> FreqSum(freq, gs, ge) < tFreq
    {
      ge := ge + 1;
      FreqSumMore(freq, gs, ge);
      assert mtfFreq[ge] == freq[ge];
      aFreq := aFreq + mtfFreq[ge];
    }
    ghost var end := ge + 1;
    assert Reaches(freq, gs, end, tFreq);
    FreqSumSplit(freq, gs, ge + 1, alphaSize);
    FreqSumNonNegative(freq, ge + 1, alphaSize);
    NothingBetween(freq, alphaSize);
    if ge > gs && nPart != nGroups && nPart != 1 && (nGroups - nPart) % 2 == 1 {
      FreqSumMore(freq, gs, ge);
      assert mtfFreq[ge] == freq[ge];
      aFreq := aFreq - mtfFreq[ge];
      ge := ge - 1;
    }
    assert ge + 1 == if LeavesLast(gs, end, nPart, nGroups) then end - 1 else end;
  }

  // Parts of about equal weight, one table for each, later tables for earlier symbols; every symbol of
  // positive frequency is cheap in some table.
  method InitialTables(mtfFreq: array<int>, alphaSize: int, nMTF: int, nGroups: int)
    returns (len: seq<seq<int>>, ghost bounds: seq<int>)
    requires 0 < alphaSize <= mtfFreq.Length && 2 <= nGroups <= BZ_N_GROUPS && nMTF == Sum(mtfFreq[..alphaSize])
    requires forall v :: 0 <= v < alphaSize ==> mtfFreq[v] >= 0
    ensures |len| == nGroups && forall t :: 0 <= t < nGroups ==> |len[t]| == alphaSize
    ensures forall t, v :: 0 <= t < nGroups && 0 <= v < alphaSize ==>
              len[t][v] == BZ_LESSER_ICOST || len[t][v] == BZ_GREATER_ICOST
    ensures forall v :: 0 <= v < alphaSize && mtfFreq[v] > 0 ==> Cheap(len, 0, v)
    ensures Parts(len, mtfFreq[..alphaSize], bounds, nGroups, nGroups)
  {
    hide IsPart;
    ghost var freq := mtfFreq[..alphaSize];
    bounds := [0];
    len := seq(nGroups, t => Stretch(alphaSize, 0, -1));
    var nPart, remF, gs := nGroups, nMTF, 0;
    assert freq[0..] == freq && freq[0..alphaSize] == freq;
    while nPart > 0
      invariant 0 <= nPart <= nGroups && 0 <= gs <= alphaSize && remF == FreqSum(freq, gs, alphaSize)
      invariant |len| == nGroups && forall t :: 0 <= t < nGroups ==> |len[t]| == alphaSize
      invariant forall t, v :: 0 <= t < nGroups && 0 <= v < alphaSize ==>
                  len[t][v] == BZ_LESSER_ICOST || len[t][v] == BZ_GREATER_ICOST
      invariant forall v :: 0 <= v < gs ==> Cheap(len, nPart, v)
      invariant nPart == 0 ==> FreqSum(freq, gs, alphaSize) == 0
      invariant Parts(len, freq, bounds, nGroups, nGroups - nPart) && bounds[nGroups - nPart] == gs
    {
      ghost var before, len0 := gs, len;
      var ge, aFreq := NextPart(mtfFreq, alphaSize, gs, remF, nPart, nGroups, freq);
      FreqSumSplit(freq, gs, ge + 1, alphaSize);
      PartAdded(len, freq, bounds, nGroups, nGroups - nPart, ge + 1);
      bounds := bounds + [ge + 1];
      len := len[nPart - 1 := Stretch(alphaSize, gs, ge)];
      nPart := nPart - 1;
      gs := ge + 1;
      remF := remF - aFreq;
      forall v | 0 <= v < gs ensures Cheap(len, nPart, v) {
        if v >= before {
          assert len[nPart][v] == BZ_LESSER_ICOST;
        } else {
          CheapStays(len0, nPart + 1, len[nPart], v);
        }
      }
    }
    forall v | gs <= v < alphaSize ensures mtfFreq[v] == 0 {
      SumAtLeastTerm(freq[gs..alphaSize], v - gs);
    }
  }

  // ---- the cost of fifty symbols ------------------------------------------

  // Bits that symbols gs to end - 1 would take with a table.
  ghost function CostOf(len: seq<int>, syms: seq<int>, gs: int, end: int): (c: int)
    requires 0 <= gs && end <= |syms| && forall k :: 0 <= k < |syms| ==> 0 <= syms[k] < |len|
    decreases end - gs
  {
    if end <= gs then 0 else CostOf(len, syms, gs, end - 1) + len[syms[end - 1]]
  }

  ghost predicate Symbols(syms: seq<int>, alphaSize: int) {
    forall k :: 0 <= k < |syms| ==> 0 <= syms[k] < alphaSize
  }

  // Tables of the alphabet's size, their lengths small.
  ghost predicate Tables(len: seq<seq<int>>, nGroups: int, alphaSize: int) {
    && |len| == nGroups
    && forall t :: 0 <= t < nGroups ==> |len[t]| == alphaSize && forall v :: 0 <= v < alphaSize ==> 0 <= len[t][v] <= 20
  }

  lemma {:induction false} CostBounds(len: seq<int>, syms: seq<int>, gs: int, end: int)
    requires 0 <= gs <= end <= |syms| && Symbols(syms, |len|) && forall v :: 0 <= v < |len| ==> 0 <= len[v] <= 20
    ensures 0 <= CostOf(len, syms, gs, end) <= 20 * (end - gs)
    decreases end - gs
  {
    if gs < end {
      CostBounds(len, syms, gs, end - 1);
    }
  }

  // Two 16-bit lanes in one word.
  function Pack(high: seq<int>, low: seq<int>): (r: seq<int>)
    requires |high| == |low|
    ensures |r| == |low| && forall v :: 0 <= v < |r| ==> r[v] == high[v] * 0x1_0000 + low[v]
  {
    seq(|low|, v requires 0 <= v < |low| => high[v] * 0x1_0000 + low[v])
  }

  // A packed sum never carries from one lane into the other, nor out of the word.
  lemma LanesApart(high: seq<int>, low: seq<int>, syms: seq<int>, gs: int, end: int, sum: int)
    requires |high| == |low| && 0 <= gs <= end <= |syms| && end - gs <= BZ_G_SIZE && Symbols(syms, |low|)
    requires (forall v :: 0 <= v < |high| ==> 0 <= high[v] <= 20) && forall v :: 0 <= v < |low| ==> 0 <= low[v] <= 20
    requires sum == CostOf(high, syms, gs, end) * 0x1_0000 + CostOf(low, syms, gs, end)
    ensures 0 <= sum < 0x1_0000_0000
    ensures sum % 0x1_0000 == CostOf(low, syms, gs, end) && sum / 0x1_0000 == CostOf(high, syms, gs, end)
  {
    CostBounds(high, syms, gs, end);
    CostBounds(low, syms, gs, end);
  }

  // Fifty symbols, six tables: three packed sums.
  method FastCosts(mtfv: array<int>, len: seq<seq<int>>, gs: int, ghost syms: seq<int>, ghost alphaSize: int)
    returns (cost: seq<int>)
    requires Tables(len, 6, alphaSize) && Symbols(syms, alphaSize) && |syms| <= mtfv.Length && mtfv[..|syms|] == syms
    requires 0 <= gs && gs + BZ_G_SIZE <= |syms|
    ensures |cost| == 6 && forall t :: 0 <= t < 6 ==> cost[t] == CostOf(len[t], syms, gs, gs + BZ_G_SIZE)
  {
    var pack01, pack23, pack45 := Pack(len[1], len[0]), Pack(len[3], len[2]), Pack(len[5], len[4]);
    var cost01, cost23, cost45 := 0, 0, 0;
    for nn := 0 to BZ_G_SIZE
      invariant cost01 == CostOf(len[1], syms, gs, gs + nn) * 0x1_0000 + CostOf(len[0], syms, gs, gs + nn)
      invariant cost23 == CostOf(len[3], syms, gs, gs + nn) * 0x1_0000 + CostOf(len[2], syms, gs, gs + nn)
      invariant cost45 == CostOf(len[5], syms, gs, gs + nn) * 0x1_0000 + CostOf(len[4], syms, gs, gs + nn)
    {
      var icv := mtfv[gs + nn];
      assert icv == syms[gs + nn];
      cost01 := cost01 + pack01[icv];
      cost23 := cost23 + pack23[icv];
      cost45 := cost45 + pack45[icv];
    }
    LanesApart(len[1], len[0], syms, gs, gs + BZ_G_SIZE, cost01);
    LanesApart(len[3], len[2], syms, gs, gs + BZ_G_SIZE, cost23);
    LanesApart(len[5], len[4], syms, gs, gs + BZ_G_SIZE, cost45);
    cost := [cost01 % 0x1_0000, cost01 / 0x1_0000, cost23 % 0x1_0000, cost23 / 0x1_0000, cost45 % 0x1_0000,
        cost45 / 0x1_0000];
  }

  method SlowCosts(mtfv: array<int>, len: seq<seq<int>>, nGroups: int, gs: int, end: int, ghost syms: seq<int>,
                   ghost alphaSize: int) returns (cost: seq<int>)
    requires Tables(len, nGroups, alphaSize) && Symbols(syms, alphaSize) && |syms| <= mtfv.Length
    requires mtfv[..|syms|] == syms
    requires 0 <= gs <= end <= |syms| && 0 < nGroups
    ensures |cost| == nGroups && forall t :: 0 <= t < nGroups ==> cost[t] == CostOf(len[t], syms, gs, end)
  {
    cost := seq(nGroups, t => 0);
    for i := gs to end
      invariant |cost| == nGroups && forall t :: 0 <= t < nGroups ==> cost[t] == CostOf(len[t], syms, gs, i)
    {
      var icv := mtfv[i];
      assert icv == syms[i];
      for t := 0 to nGroups
        invariant |cost| == nGroups
        invariant forall u :: 0 <= u < nGroups ==> cost[u] == CostOf(len[u], syms, gs, if u < t then i + 1 else i)
      {
        cost := cost[t := cost[t] + len[t][icv]];
      }
    }
  }

  // The first table of least cost.
  ghost predicate FirstBest(cost: seq<int>, bt: int) {
    && 0 <= bt < |cost|
    && (forall t :: 0 <= t < |cost| ==> cost[bt] <= cost[t])
    && forall t :: 0 <= t < bt ==> cost[bt] < cost[t]
  }

  method Best(cost: seq<int>, nGroups: int) returns (bt: int)
    requires 0 < nGroups == |cost| && forall t :: 0 <= t < nGroups ==> cost[t] < 999999999
    ensures FirstBest(cost, bt)
  {
    var bc := 999999999;
    bt := -1;
    for t := 0 to nGroups
      invariant -1 <= bt < t && (t > 0 ==> bt >= 0)
      invariant bt >= 0 ==> bc == cost[bt] && FirstBest(cost[..t], bt)
      invariant bt < 0 ==> bc == 999999999
    {
      if cost[t] < bc {
        bc := cost[t];
        bt := t;
      }
    }
    assert cost[..nGroups] == cost;
  }

  // ---- one round ----------------------------------------------------------

  // Where group k ends.
  function GroupEnd(n: int, k: int): int {
    if BZ_G_SIZE * k + BZ_G_SIZE <= n then BZ_G_SIZE * k + BZ_G_SIZE else n
  }

  ghost function AllCosts(len: seq<seq<int>>, syms: seq<int>, gs: int, end: int, alphaSize: int): (cost: seq<int>)
    requires Tables(len, |len|, alphaSize) && Symbols(syms, alphaSize) && 0 <= gs && end <= |syms|
    ensures |cost| == |len| && forall t :: 0 <= t < |len| ==> cost[t] == CostOf(len[t], syms, gs, end)
  {
    seq(|len|, t requires 0 <= t < |len| => CostOf(len[t], syms, gs, end))
  }

  // Every group so far has the first table of least cost.
  ghost predicate ChosenBest(len: seq<seq<int>>, syms: seq<int>, selector: seq<int>, alphaSize: int)
    requires Tables(len, |len|, alphaSize) && Symbols(syms, alphaSize)
  {
    forall k :: 0 <= k < |selector| ==>
      BZ_G_SIZE * k <= |syms| && FirstBest(AllCosts(len, syms, BZ_G_SIZE * k, GroupEnd(|syms|, k), alphaSize),
          selector[k])
  }

  // How often symbol v occurs among the first n in groups that chose table t.
  function Uses(syms: seq<int>, selector: seq<int>, t: int, v: int, n: nat): nat
    requires n <= |syms| && n <= BZ_G_SIZE * |selector|
  {
    if n == 0 then 0
    else Uses(syms, selector, t, v, n - 1) + (if syms[n - 1] == v && selector[(n - 1) / BZ_G_SIZE] == t then 1 else 0)
  }

  ghost predicate UsesAre(rfreq: seq<seq<int>>, syms: seq<int>, selector: seq<int>, nGroups: int, alphaSize: int,
                          n: nat) {
    && n <= |syms| && n <= BZ_G_SIZE * |selector| && |rfreq| == nGroups
    && (forall t :: 0 <= t < nGroups ==> |rfreq[t]| == alphaSize && Sum(rfreq[t]) <= n)
    && forall t, v :: 0 <= t < nGroups && 0 <= v < alphaSize ==> rfreq[t][v] == Uses(syms, selector, t, v, n)
  }

  lemma {:induction false} UsesLonger(syms: seq<int>, selector: seq<int>, more: seq<int>, t: int, v: int, n: nat)
    requires n <= |syms| && n <= BZ_G_SIZE * |selector|
    ensures Uses(syms, selector + more, t, v, n) == Uses(syms, selector, t, v, n)
  {
    if n > 0 {
      UsesLonger(syms, selector, more, t, v, n - 1);
    }
  }

  lemma CountOne(rfreq: seq<seq<int>>, syms: seq<int>, selector: seq<int>, nGroups: int, alphaSize: int, n: nat,
                 bt: int)
    requires UsesAre(rfreq, syms, selector, nGroups, alphaSize, n) && n < |syms| && n < BZ_G_SIZE * |selector|
    requires 0 <= bt == selector[n / BZ_G_SIZE] < nGroups && Symbols(syms, alphaSize)
    ensures UsesAre(rfreq[bt := rfreq[bt][syms[n] := rfreq[bt][syms[n]] + 1]], syms, selector, nGroups, alphaSize,
            n + 1)
  {
    var v := syms[n];
    SumUpdate(rfreq[bt], v, rfreq[bt][v] + 1);
    assert n + 1 - 1 == n;
  }

  lemma UsesMore(rfreq: seq<seq<int>>, syms: seq<int>, selector: seq<int>, nGroups: int, alphaSize: int, n: nat,
                 bt: int)
    requires UsesAre(rfreq, syms, selector, nGroups, alphaSize, n)
    ensures UsesAre(rfreq, syms, selector + [bt], nGroups, alphaSize, n)
  {
    forall t, v | 0 <= t < nGroups && 0 <= v < alphaSize ensures rfreq[t][v] == Uses(syms, selector + [bt], t, v, n) {
      UsesLonger(syms, selector, [bt], t, v, n);
    }
  }

  // The table that codes symbols gs to end - 1 in fewest bits.
  method BestFor(mtfv: array<int>, len: seq<seq<int>>, nGroups: int, gs: int, end: int, ghost syms: seq<int>,
                 ghost alphaSize: int) returns (bt: int)
    requires 0 < nGroups && Tables(len, nGroups, alphaSize) && Symbols(syms, alphaSize) && |syms| <= mtfv.Length
    requires mtfv[..|syms|] == syms
    requires 0 <= gs <= end <= |syms| && end - gs <= BZ_G_SIZE
    ensures FirstBest(AllCosts(len, syms, gs, end, alphaSize), bt) && 0 <= bt < nGroups
  {
    var cost;
    if nGroups == 6 && end - gs == BZ_G_SIZE {
      cost := FastCosts(mtfv, len, gs, syms, alphaSize);
    } else {
      cost := SlowCosts(mtfv, len, nGroups, gs, end, syms, alphaSize);
    }
    assert cost == AllCosts(len, syms, gs, end, alphaSize);
    forall t | 0 <= t < nGroups ensures cost[t] < 999999999 {
      CostBounds(len[t], syms, gs, end);
    }
    bt := Best(cost, nGroups);
  }

  method CountGroup(mtfv: array<int>, rfreq0: seq<seq<int>>, gs: int, end: int, bt: int, ghost syms: seq<int>,
                    ghost selector: seq<int>, ghost nGroups: int, ghost alphaSize: int) returns (rfreq: seq<seq<int>>)
    requires |syms| <= mtfv.Length && mtfv[..|syms|] == syms && 0 <= gs <= end <= |syms|
    requires UsesAre(rfreq0, syms, selector, nGroups, alphaSize, gs) && Symbols(syms, alphaSize) && 0 <= bt < nGroups
    requires |selector| > 0 && selector[|selector| - 1] == bt
    requires gs == BZ_G_SIZE * (|selector| - 1) && end <= BZ_G_SIZE * |selector|
    ensures UsesAre(rfreq, syms, selector, nGroups, alphaSize, end)
  {
    rfreq := rfreq0;
    for i := gs to end
      invariant UsesAre(rfreq, syms, selector, nGroups, alphaSize, i)
    {
      assert i / BZ_G_SIZE == |selector| - 1;
      CountOne(rfreq, syms, selector, nGroups, alphaSize, i, bt);
      var v := mtfv[i];
      assert v == syms[i];
      rfreq := rfreq[bt := rfreq[bt][v := rfreq[bt][v] + 1]];
    }
  }

  // Groups before gs have their selectors, and their symbols are counted.
  ghost predicate RoundUpto(len: seq<seq<int>>, syms: seq<int>, selector: seq<int>, rfreq: seq<seq<int>>, nGroups: int,
                            alphaSize: int, gs: int)
    requires Tables(len, |len|, alphaSize) && Symbols(syms, alphaSize)
  {
    && 0 <= gs <= |syms| && gs <= BZ_G_SIZE * |selector| < gs + BZ_G_SIZE
    && (gs < |syms| ==> gs == BZ_G_SIZE * |selector|)
    && UsesAre(rfreq, syms, selector, nGroups, alphaSize, gs) && ChosenBest(len, syms, selector, alphaSize)
    && forall k :: 0 <= k < |selector| ==> 0 <= selector[k] < nGroups
  }

  method OneGroup(mtfv: array<int>, nMTF: int, len: seq<seq<int>>, nGroups: int, alphaSize: int, gs: int,
                  selector: seq<int>, rfreq: seq<seq<int>>, ghost syms: seq<int>)
    returns (gs': int, selector': seq<int>, rfreq': seq<seq<int>>)
    requires 0 < nGroups && Tables(len, nGroups, alphaSize) && 0 < alphaSize
    requires 0 <= nMTF == |syms| <= mtfv.Length && mtfv[..nMTF] == syms && Symbols(syms, alphaSize)
    requires gs < nMTF && RoundUpto(len, syms, selector, rfreq, nGroups, alphaSize, gs)
    ensures gs < gs' && RoundUpto(len, syms, selector', rfreq', nGroups, alphaSize, gs')
  {
    var ge := gs + BZ_G_SIZE - 1;
    if ge >= nMTF {
      ge := nMTF - 1;
    }
    assert ge + 1 == GroupEnd(nMTF, |selector|);
    var bt := BestFor(mtfv, len, nGroups, gs, ge + 1, syms, alphaSize);
    UsesMore(rfreq, syms, selector, nGroups, alphaSize, gs, bt);
    selector' := selector + [bt];
    rfreq' := CountGroup(mtfv, rfreq, gs, ge + 1, bt, syms, selector', nGroups, alphaSize);
    gs' := ge + 1;
  }

  // A selector for every group, and how often each table meets each symbol.
  method Round(mtfv: array<int>, nMTF: int, len: seq<seq<int>>, nGroups: int, alphaSize: int, ghost syms: seq<int>)
    returns (selector: seq<int>, rfreq: seq<seq<int>>)
    requires 0 < nGroups && Tables(len, nGroups, alphaSize) && 0 < alphaSize
    requires 0 <= nMTF == |syms| <= mtfv.Length && mtfv[..nMTF] == syms && Symbols(syms, alphaSize)
    ensures ChosenBest(len, syms, selector, alphaSize) && UsesAre(rfreq, syms, selector, nGroups, alphaSize, nMTF)
    ensures nMTF <= BZ_G_SIZE * |selector| < nMTF + BZ_G_SIZE
    ensures forall k :: 0 <= k < |selector| ==> 0 <= selector[k] < nGroups
  {
    selector := [];
    rfreq := seq(nGroups, t => seq(alphaSize, v => 0));
    SumZeroRow(alphaSize);
    var gs := 0;
    while gs < nMTF
      invariant RoundUpto(len, syms, selector, rfreq, nGroups, alphaSize, gs)
    {
      gs, selector, rfreq := OneGroup(mtfv, nMTF, len, nGroups, alphaSize, gs, selector, rfreq, syms);
    }
  }

  lemma SumZeroRow(n: nat)
    ensures Sum(seq(n, v => 0)) == 0
  {
    SumZero(seq(n, v => 0));
  }

  // ---- the rounds ---------------------------------------------------------

  // Each table is complete and, for the symbols of its groups, optimal: outright if they are few, otherwise up to
  // scalings that were each needed.
  ghost predicate Rebuilt(len: seq<seq<int>>, rfreq: seq<seq<int>>, nGroups: int, alphaSize: int) {
    && |len| == |rfreq| == nGroups
    && forall t :: 0 <= t < nGroups ==> RebuiltTable(len[t], rfreq[t], alphaSize)
  }

  ghost predicate RebuiltTable(len: seq<int>, freq: seq<int>, alphaSize: int) {
    && |len| == |freq| == alphaSize && CompleteLengths(len, 17)
    && (exists k: nat :: BestAfter(AtLeastOne(freq), k, 17, len))
    && (Sum(AtLeastOne(freq)) < 6765 ==> IsOptimal(AtLeastOne(freq), len))
  }

  method RebuildTable(freq: seq<int>, alphaSize: int) returns (len: seq<int>)
    requires 2 <= alphaSize <= BZ_MAX_ALPHA_SIZE && |freq| == alphaSize && Sum(freq) <= 1000000
    requires forall v :: 0 <= v < alphaSize ==> freq[v] >= 0
    ensures RebuiltTable(len, freq, alphaSize)
  {
    var row, f := new int[alphaSize], new int[alphaSize](v requires 0 <= v < alphaSize => freq[v]);
    assert f[..alphaSize] == freq;
    AtLeastOneSum(freq);
    ghost var scalings := MakeCodeLengths.MakeCodeLengths(row, f, alphaSize, 17);
    len := row[..alphaSize];
    assert BestAfter(AtLeastOne(freq), scalings, 17, len);
  }

  lemma {:induction false} AtLeastOneSum(freq: seq<int>)
    requires forall v :: 0 <= v < |freq| ==> freq[v] >= 0
    ensures Sum(AtLeastOne(freq)) <= Sum(freq) + |freq|
  {
    if freq != [] {
      var m := |freq| - 1;
      AtLeastOneSum(freq[..m]);
      assert AtLeastOne(freq)[..m] == AtLeastOne(freq[..m]);
    }
  }

  lemma RebuiltTables(len: seq<seq<int>>, rfreq: seq<seq<int>>, nGroups: int, alphaSize: int)
    requires Rebuilt(len, rfreq, nGroups, alphaSize)
    ensures Tables(len, nGroups, alphaSize)
  {
    forall t | 0 <= t < nGroups ensures |len[t]| == alphaSize
        && forall v :: 0 <= v < alphaSize ==> 0 <= len[t][v] <= 20 {
      assert RebuiltTable(len[t], rfreq[t], alphaSize);
    }
  }

  method Rebuild(rfreq: seq<seq<int>>, nGroups: int, alphaSize: int, ghost syms: seq<int>, ghost selector: seq<int>)
    returns (len: seq<seq<int>>)
    requires 0 <= nGroups && 2 <= alphaSize <= BZ_MAX_ALPHA_SIZE && |syms| <= 1000000
    requires UsesAre(rfreq, syms, selector, nGroups, alphaSize, |syms|)
    ensures Rebuilt(len, rfreq, nGroups, alphaSize)
  {
    len := [];
    for t := 0 to nGroups
      invariant |len| == t && forall u :: 0 <= u < t ==> RebuiltTable(len[u], rfreq[u], alphaSize)
    {
      var row := RebuildTable(rfreq[t], alphaSize);
      len := len + [row];
    }
  }

  // The tables and selectors that are sent: after four rounds, every selector was the best choice among
  // the tables of the round before, and every table is built for the symbols whose groups chose it.
  method ChooseAll(mtfv: array<int>, mtfFreq: array<int>, nMTF: int, alphaSize: int, ghost syms: seq<int>)
    returns (nGroups: int, len: seq<seq<int>>, selector: seq<int>, ghost before: seq<seq<int>>,
             ghost rfreq: seq<seq<int>>)
    requires 0 < nMTF == |syms| <= mtfv.Length && mtfv[..nMTF] == syms && nMTF <= 900001
    requires 2 <= alphaSize <= BZ_MAX_ALPHA_SIZE <= mtfFreq.Length && Symbols(syms, alphaSize)
    requires nMTF == Sum(mtfFreq[..alphaSize]) && forall v :: 0 <= v < alphaSize ==> mtfFreq[v] >= 0
    ensures nGroups == GroupsFor(nMTF) && 2 <= nGroups <= 6
    ensures Tables(before, nGroups, alphaSize) && ChosenBest(before, syms, selector, alphaSize)
    ensures UsesAre(rfreq, syms, selector, nGroups, alphaSize, nMTF) && Rebuilt(len, rfreq, nGroups, alphaSize)
    ensures nMTF <= BZ_G_SIZE * |selector| < nMTF + BZ_G_SIZE && |selector| <= 18002
    ensures forall k :: 0 <= k < |selector| ==> 0 <= selector[k] < nGroups
  {
    nGroups := GroupsFor(nMTF);
    ghost var bounds;
    len, bounds := InitialTables(mtfFreq, alphaSize, nMTF, nGroups);
    selector, before, rfreq := [], len, [];
    for iter := 0 to BZ_N_ITERS
      invariant Tables(len, nGroups, alphaSize)
      invariant iter > 0 ==> Tables(before, nGroups, alphaSize) && ChosenBest(before, syms, selector, alphaSize)
      invariant iter > 0 ==>
                  UsesAre(rfreq, syms, selector, nGroups, alphaSize, nMTF) && Rebuilt(len, rfreq, nGroups, alphaSize)
      invariant iter > 0 ==> nMTF <= BZ_G_SIZE * |selector| < nMTF + BZ_G_SIZE
      invariant iter > 0 ==> forall k :: 0 <= k < |selector| ==> 0 <= selector[k] < nGroups
    {
      before := len;
      var rf;
      selector, rf := Round(mtfv, nMTF, len, nGroups, alphaSize, syms);
      rfreq := rf;
      len := Rebuild(rf, nGroups, alphaSize, syms, selector);
      RebuiltTables(len, rfreq, nGroups, alphaSize);
    }
  }
}
