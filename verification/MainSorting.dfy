// mainSort: big buckets in order of size, each finished by quicksorting what is still unsorted,
// scanning it to sort others, and ranking its rotations.
module MainSorting {
  import opened Common
  import opened Rotations
  import opened SortStack
  import opened MainCompare
  import opened MainQSort
  import opened SmallBuckets
  import opened InducedScan
  import opened InducedRight
  import opened InducedResult
  import opened MainProgress
  import opened MainSetup
  import opened RunningOrder

  // ---- Step 1 -------------------------------------------------------------

  // Quicksorts small bucket [ss, j] unless it is marked, and marks it.
  method SortSmall(ptr: array<int>, block: array<Byte>, quadrant: array<int>, ftab: array<int>, n: nat, ss: int, j: int,
                   budget: int, ghost b: seq<Byte>, ghost done: seq<bool>) returns (budget': int, abandoned: bool)
    requires Laid(block[..], quadrant[..], n, b) && n <= ptr.Length && 0 <= ss < 256 && 0 <= j < 256
    requires ptr != quadrant && ftab != quadrant && ftab != ptr
    requires Progress(b, ptr[..n], ftab[..], done) && !done[ss]
    modifies ptr, ftab
    ensures budget' <= budget && (abandoned ==> budget' < 0)
    ensures !abandoned ==> Progress(b, ptr[..n], ftab[..], done)
    ensures !abandoned ==> ftab[..] == old(ftab[..])[ss * 256 + j := Mark(old(ftab[ss * 256 + j]))]
    ensures !abandoned ==> SortedBucket(b, ptr[..n], ss * 256 + j)
  {
    budget', abandoned := budget, false;
    var sb := ss * 256 + j;
    ghost var p, ft := ptr[..n], ftab[..];
    if !Marked(ftab[sb]) {
      var lo := Clear(ftab[sb]);
      var hi := Clear(ftab[sb + 1]) - 1;
      assert lo == Start(b, sb) && hi == Start(b, sb + 1) - 1;
      if hi > lo {
        BucketAgrees(b, p, ss, j);
        ghost var whole := ptr[..];
        assert Agree(b, whole, lo, hi, BZ_N_RADIX) by {
          AgreeWhole(b, whole, n, lo, hi, BZ_N_RADIX);
        }
        budget' := MainQSort3(ptr, block, quadrant, n, lo, hi, BZ_N_RADIX, budget, b);
        if budget' < 0 {
          return budget', true;
        }
        ShuffledPrefix(whole, ptr[..], lo, hi, n);
        assert whole[..n] == p;
        ShuffledBucketProgress(b, p, ptr[..n], ft, done, ss, j);
        QSortedPrefix(b, ptr[..], n, sb);
      } else {
        TinyBucket(b, p, sb);
      }
    }
    MarkSorted(b, ptr[..n], ft, done, sb);
    ftab[sb] := Mark(ftab[sb]);
  }

  lemma AgreeWhole(b: seq<Byte>, s: seq<int>, n: nat, lo: int, hi: int, d: nat)
    requires n <= |s| && Agree(b, s[..n], lo, hi, d)
    ensures Agree(b, s, lo, hi, d)
  {
    forall x, y | lo <= x <= hi && lo <= y <= hi ensures EqTo(b, s[x], s[y], d) {
      assert EqTo(b, s[..n][x], s[..n][y], d);
    }
  }

  lemma QSortedPrefix(b: seq<Byte>, s: seq<int>, n: nat, sb: int)
    requires n <= |s| && Grouped(b, s[..n]) && SortedByRotation(b, s, Start(b, sb), Start(b, sb + 1) - 1)
    ensures SortedBucket(b, s[..n], sb)
  {
    StartMonotone(b, sb, sb + 1);
    var lo, q := Start(b, sb), s[..n][Start(b, sb)..Start(b, sb + 1)];
    forall x, y | 0 <= x < y < |q| ensures Leq(b, q[x], q[y]) {
      assert ByRotation(b)(s[lo + x], s[lo + y]);
    }
  }

  ghost predicate SmallMarked(ft: seq<int>, ss: int, c: int) {
    0 <= ss < 256 && 0 <= c < 256 && |ft| >= 65537 && Marked(ft[ss * 256 + c])
  }

  ghost predicate MarkedUpto(ft: seq<int>, ss: int, j: int) {
    forall c :: 0 <= c < j && c != ss ==> SmallMarked(ft, ss, c)
  }

  lemma MarkedStep(ft: seq<int>, ss: int, j: int)
    requires MarkedUpto(ft, ss, j) && 0 <= ss < 256 && 0 <= j < 256 && |ft| >= 65537 && Clear(ft[ss * 256 + j]) >= 0
    ensures MarkedUpto(ft[ss * 256 + j := Mark(ft[ss * 256 + j])], ss, j + 1)
  {
    var ft' := ft[ss * 256 + j := Mark(ft[ss * 256 + j])];
    forall c | 0 <= c < j + 1 && c != ss ensures SmallMarked(ft', ss, c) {
      assert c < j ==> SmallMarked(ft, ss, c);
    }
  }

  method SortSmalls(ptr: array<int>, block: array<Byte>, quadrant: array<int>, ftab: array<int>, n: nat, ss: int,
                    budget: int, ghost b: seq<Byte>, ghost done: seq<bool>) returns (budget': int, abandoned: bool)
    requires Laid(block[..], quadrant[..], n, b) && n <= ptr.Length && 0 <= ss < 256
    requires ptr != quadrant && ftab != quadrant && ftab != ptr
    requires Progress(b, ptr[..n], ftab[..], done) && !done[ss]
    modifies ptr, ftab
    ensures budget' <= budget && (abandoned ==> budget' < 0)
    ensures !abandoned ==> Progress(b, ptr[..n], ftab[..], done) && OthersSorted(b, ptr[..n], ss)
  {
    budget', abandoned := budget, false;
    for j := 0 to 256
      invariant budget' <= budget && !abandoned
      invariant Progress(b, ptr[..n], ftab[..], done) && MarkedUpto(ftab[..], ss, j)
    {
      if j != ss {
        MarkedStep(ftab[..], ss, j);
        budget', abandoned := SortSmall(ptr, block, quadrant, ftab, n, ss, j, budget', b, done);
        if abandoned {
          return;
        }
      }
    }
    forall c | 0 <= c < 256 && c != ss ensures SmallSorted(b, ptr[..n], First(b, ss, c), After(b, ss, c)) {
      assert SmallMarked(ftab[..], ss, c);
      assert SortedBucket(b, ptr[..n], ss * 256 + c);
    }
  }

  // ---- Step 2 -------------------------------------------------------------

  method CopyBounds(ftab: array<int>, ss: int, ghost b: seq<Byte>) returns (copyStart: array<int>, copyEnd: array<int>)
    requires FtabIs(b, ftab[..]) && 0 <= ss < 256
    ensures fresh(copyStart) && fresh(copyEnd) && copyStart != copyEnd && copyStart.Length == copyEnd.Length == 256
    ensures forall t :: 0 <= t < 256 ==> copyStart[t] == First(b, t, ss) && copyEnd[t] == After(b, t, ss) - 1
  {
    copyStart, copyEnd := new int[256], new int[256];
    for j := 0 to 256
      invariant forall t :: 0 <= t < j ==> copyStart[t] == First(b, t, ss) && copyEnd[t] == After(b, t, ss) - 1
    {
      copyStart[j] := Clear(ftab[j * 256 + ss]);
      copyEnd[j] := Clear(ftab[j * 256 + ss + 1]) - 1;
    }
  }

  // What a scan does with the rotation before the one at place j.
  ghost predicate Takes(b: seq<Byte>, p: seq<int>, done: seq<bool>, ends: seq<int>, j: int) {
    && 0 <= j < |p| == |b| && 0 <= p[j] < |b| && |done| == |ends| == 256
    && (!done[b[Prev(|b|, p[j])]] ==> 0 <= ends[b[Prev(|b|, p[j])]] < |b|)
  }

  ghost function TakenPtr(b: seq<Byte>, p: seq<int>, done: seq<bool>, ends: seq<int>, j: int): seq<int>
    requires Takes(b, p, done, ends, j)
  {
    var k := Prev(|b|, p[j]);
    if done[b[k]] then p else p[ends[b[k]] := k]
  }

  ghost function TakenEnds(b: seq<Byte>, p: seq<int>, done: seq<bool>, ends: seq<int>, j: int, step: int): seq<int>
    requires Takes(b, p, done, ends, j)
  {
    var c := b[Prev(|b|, p[j])];
    if done[c] then ends else ends[c := ends[c] + step]
  }

  lemma LeftTakes(b: seq<Byte>, p0: seq<int>, p: seq<int>, ss: int, done: seq<bool>, cs: seq<int>, ce: seq<int>, j: int)
    requires 0 <= ss < |cs| && LeftScan(b, p0, p, ss, done, cs, ce, j) && j < cs[ss]
    ensures Takes(b, p, done, cs, j)
    ensures LeftScan(b, p0, TakenPtr(b, p, done, cs, j), ss, done, TakenEnds(b, p, done, cs, j, 1), ce, j + 1)
  {
    LeftRoom(b, p0, p, ss, done, cs, ce, j);
    var k := Prev(|b|, p[j]);
    if done[b[k]] {
      LeftSkip(b, p0, p, ss, done, cs, ce, j);
    } else {
      LeftPlace(b, p0, p, ss, done, cs, ce, j, b[k], k);
    }
  }

  lemma RightTakes(b: seq<Byte>, p0: seq<int>, p: seq<int>, ss: int, done: seq<bool>, cs: seq<int>, ce: seq<int>,
                   j: int)
    requires 0 <= ss < |ce| && RightScan(b, p0, p, ss, done, cs, ce, j + 1) && ce[ss] < j
    ensures Takes(b, p, done, ce, j)
    ensures RightScan(b, p0, TakenPtr(b, p, done, ce, j), ss, done, cs, TakenEnds(b, p, done, ce, j, -1), j)
  {
    RightRoom(b, p0, p, ss, done, cs, ce, j);
    var k := Prev(|b|, p[j]);
    var p', ce' := TakenPtr(b, p, done, ce, j), TakenEnds(b, p, done, ce, j, -1);
    if done[b[k]] {
      RightSkip(b, p0, p, ss, done, cs, ce, j);
    } else {
      RightTakesOne(b, p0, p, ss, done, cs, ce, j, k, p', ce');
    }
  }

  lemma RightTakesOne(b: seq<Byte>, p0: seq<int>, p: seq<int>, ss: int, done: seq<bool>, cs: seq<int>, ce: seq<int>,
                      j: int, k: int, p': seq<int>, ce': seq<int>)
    requires 0 <= ss < |ce| && RightScan(b, p0, p, ss, done, cs, ce, j + 1) && ce[ss] < j && 0 <= p[j] < |b|
    requires k == Prev(|b|, p[j]) && !done[b[k]] && 0 <= ce[b[k]] < |b|
    requires p' == p[ce[b[k]] := k] && ce' == ce[b[k] := ce[b[k]] - 1]
    ensures RightScan(b, p0, p', ss, done, cs, ce', j)
  {
    RightPlace(b, p0, p, ss, done, cs, ce, j, b[k], k);
  }

  // The body of either scan.
  method Take(ptr: array<int>, block: array<Byte>, n: nat, bigDone: array<bool>, ends: array<int>, j: int, step: int,
              ghost b: seq<Byte>)
    requires n <= ptr.Length && n <= block.Length && block[..n] == b && ptr != ends
    requires Takes(b, ptr[..n], bigDone[..], ends[..], j)
    modifies ptr, ends
    ensures ptr[..n] == TakenPtr(b, old(ptr[..n]), bigDone[..], old(ends[..]), j)
    ensures ends[..] == TakenEnds(b, old(ptr[..n]), bigDone[..], old(ends[..]), j, step)
  {
    ghost var p, e := ptr[..n], ends[..];
    assert ptr[j] == p[j];
    var k := ptr[j] - 1;
    if k < 0 {
      k := k + n;
    }
    assert k == Prev(n, p[j]);
    var c1: int := block[k];
    assert c1 == b[k];
    if !bigDone[c1] {
      var at := ends[c1];
      ptr[at] := k;
      ends[c1] := at + step;
      assert ptr[..n] == p[at := k];
    }
  }

  method StepLeft(ptr: array<int>, block: array<Byte>, n: nat, ss: int, bigDone: array<bool>, copyStart: array<int>,
                  j: int, ghost b: seq<Byte>, ghost p0: seq<int>, ghost p: seq<int>, ghost done: seq<bool>,
                  ghost cs: seq<int>, ghost ce: seq<int>) returns (ghost p': seq<int>, ghost cs': seq<int>)
    requires n <= ptr.Length && n <= block.Length && block[..n] == b && ptr[..n] == p && bigDone[..] == done
    requires copyStart[..] == cs && ptr != copyStart
    requires 0 <= ss < |cs| && LeftScan(b, p0, p, ss, done, cs, ce, j) && j < cs[ss]
    modifies ptr, copyStart
    ensures ptr[..n] == p' && copyStart[..] == cs' && LeftScan(b, p0, p', ss, done, cs', ce, j + 1)
    ensures j + 1 <= cs'[ss] <= n
  {
    LeftTakes(b, p0, p, ss, done, cs, ce, j);
    Take(ptr, block, n, bigDone, copyStart, j, 1, b);
    p', cs' := TakenPtr(b, p, done, cs, j), TakenEnds(b, p, done, cs, j, 1);
  }

  method ScanLeft(ptr: array<int>, block: array<Byte>, n: nat, ss: int, bigDone: array<bool>, start: int,
                  copyStart: array<int>, ghost ce: seq<int>, ghost b: seq<Byte>, ghost p0: seq<int>,
                  ghost done: seq<bool>)
    requires n <= ptr.Length && n <= block.Length && block[..n] == b && bigDone[..] == done
    requires 0 <= ss < 256 == |done| == copyStart.Length && ptr != copyStart
    requires LeftScan(b, p0, ptr[..n], ss, done, copyStart[..], ce, start) && start <= copyStart[ss] <= n
    modifies ptr, copyStart
    ensures LeftScan(b, p0, ptr[..n], ss, done, copyStart[..], ce, copyStart[ss])
  {
    var j := start;
    ghost var p, cs := ptr[..n], copyStart[..];
    while j < copyStart[ss]
      invariant ptr[..n] == p && copyStart[..] == cs && LeftScan(b, p0, p, ss, done, cs, ce, j) && j <= cs[ss] <= n
      decreases n - j
    {
      p, cs := StepLeft(ptr, block, n, ss, bigDone, copyStart, j, b, p0, p, done, cs, ce);
      j := j + 1;
    }
    assert j == copyStart[ss];
  }

  method StepRight(ptr: array<int>, block: array<Byte>, n: nat, ss: int, bigDone: array<bool>, copyEnd: array<int>,
                   j: int, ghost b: seq<Byte>, ghost p0: seq<int>, ghost p: seq<int>, ghost done: seq<bool>,
                   ghost cs: seq<int>, ghost ce: seq<int>) returns (ghost p': seq<int>, ghost ce': seq<int>)
    requires n <= ptr.Length && n <= block.Length && block[..n] == b && ptr[..n] == p && bigDone[..] == done
    requires copyEnd[..] == ce && ptr != copyEnd
    requires 0 <= ss < |ce| && RightScan(b, p0, p, ss, done, cs, ce, j + 1) && ce[ss] < j
    modifies ptr, copyEnd
    ensures ptr[..n] == p' && copyEnd[..] == ce' && RightScan(b, p0, p', ss, done, cs, ce', j)
  {
    RightTakes(b, p0, p, ss, done, cs, ce, j);
    Take(ptr, block, n, bigDone, copyEnd, j, -1, b);
    p', ce' := TakenPtr(b, p, done, ce, j), TakenEnds(b, p, done, ce, j, -1);
  }

  method ScanRight(ptr: array<int>, block: array<Byte>, n: nat, ss: int, bigDone: array<bool>, end: int,
                   copyEnd: array<int>, ghost cs: seq<int>, ghost b: seq<Byte>, ghost p0: seq<int>,
                   ghost done: seq<bool>)
    requires n <= ptr.Length && n <= block.Length && block[..n] == b && bigDone[..] == done
    requires 0 <= ss < 256 == |done| == copyEnd.Length && ptr != copyEnd
    requires RightScan(b, p0, ptr[..n], ss, done, cs, copyEnd[..], end)
    modifies ptr, copyEnd
    ensures RightScan(b, p0, ptr[..n], ss, done, cs, copyEnd[..], copyEnd[ss] + 1)
  {
    ghost var p, ce, from := ptr[..n], copyEnd[..], end;
    var j := end - 1;
    while j > copyEnd[ss]
      invariant ptr[..n] == p && copyEnd[..] == ce && RightScan(b, p0, p, ss, done, cs, ce, from) && j == from - 1
      decreases from
    {
      p, ce := StepRight(ptr, block, n, ss, bigDone, copyEnd, j, b, p0, p, done, cs, ce);
      from := j;
      j := j - 1;
    }
    assert from == copyEnd[ss] + 1;
  }

  method ScanFromLeft(ptr: array<int>, block: array<Byte>, n: nat, ss: int, bigDone: array<bool>, start: int,
                      copyStart: array<int>, ghost ce: seq<int>, ghost b: seq<Byte>, ghost p0: seq<int>,
                      ghost done: seq<bool>)
    requires n <= ptr.Length && n <= block.Length && block[..n] == b && ptr[..n] == p0 && bigDone[..] == done
    requires 0 <= ss < 256 == |done| == |ce| == copyStart.Length && ptr != copyStart && !done[ss]
    requires Grouped(b, p0) && OthersSorted(b, p0, ss) && start == BigFirst(b, ss)
    requires forall t :: 0 <= t < 256 ==> copyStart[t] == First(b, t, ss) && ce[t] == After(b, t, ss) - 1
    modifies ptr, copyStart
    ensures RightScan(b, p0, ptr[..n], ss, done, copyStart[..], ce, BigFirst(b, ss + 1))
  {
    LeftStart(b, p0, ss, done, copyStart[..], ce);
    ScanLeft(ptr, block, n, ss, bigDone, start, copyStart, ce, b, p0, done);
    RightStart(b, p0, ptr[..n], ss, done, copyStart[..], ce);
  }

  // Both scans; the assertion is the source's number 1007.
  method ScanBig(ptr: array<int>, block: array<Byte>, ftab: array<int>, n: nat, ss: int, bigDone: array<bool>,
                 ghost b: seq<Byte>, ghost p0: seq<int>)
    requires 0 < n <= ptr.Length && n <= block.Length && block[..n] == b && ptr[..n] == p0 && ptr != ftab
    requires 0 <= ss < 256 == bigDone.Length && !bigDone[ss]
    requires Grouped(b, p0) && FtabIs(b, ftab[..]) && OthersSorted(b, p0, ss)
    modifies ptr
    ensures Rebuilt(b, p0, ptr[..n], ss, bigDone[..])
  {
    hide Grouped, OthersSorted, RightScan, LeftScan, Rebuilt;
    ghost var done := bigDone[..];
    var copyStart, copyEnd := CopyBounds(ftab, ss, b);
    var start, end := Clear(ftab[ss * 256]), Clear(ftab[(ss + 1) * 256]);
    ScanFromLeft(ptr, block, n, ss, bigDone, start, copyStart, copyEnd[..], b, p0, done);
    ghost var cs := copyStart[..];
    ScanRight(ptr, block, n, ss, bigDone, end, copyEnd, cs, b, p0, done);
    ScansRebuild(b, p0, ptr[..n], ss, done, cs, copyEnd[..]);
    assert copyStart[ss] - 1 == copyEnd[ss] || (copyStart[ss] == 0 && copyEnd[ss] == n - 1);
  }

  method MarkColumn(ftab: array<int>, ss: int, ghost b: seq<Byte>, ghost p: seq<int>, ghost done: seq<bool>)
    requires 0 <= ss < 256 && Progress(b, p, ftab[..], done)
    requires forall t :: 0 <= t < 256 ==> SortedBucket(b, p, t * 256 + ss)
    modifies ftab
    ensures Progress(b, p, ftab[..], done)
  {
    for j := 0 to 256
      invariant Progress(b, p, ftab[..], done)
    {
      ghost var ft := ftab[..];
      MarkSorted(b, p, ft, done, j * 256 + ss);
      ftab[j * 256 + ss] := Mark(ftab[j * 256 + ss]);
      assert ftab[..] == ft[j * 256 + ss := Mark(ft[j * 256 + ss])];
    }
  }

  // ---- Step 3 -------------------------------------------------------------

  // The cast to 16 bits, which loses nothing here.
  function UInt16(x: nat): (r: nat)
    ensures r < 0x1_0000 && (x < 0x1_0000 ==> r == x)
  {
    x % 0x1_0000
  }

  method Record(quadrant: array<int>, n: nat, a2update: int, qVal: int)
    requires 0 <= a2update < n && n + BZ_N_OVERSHOOT <= quadrant.Length
    modifies quadrant
    ensures quadrant[..] == Recorded(old(quadrant[..]), n, a2update, qVal)
  {
    quadrant[a2update] := qVal;
    if a2update < BZ_N_OVERSHOOT {
      quadrant[a2update + n] := qVal;
    }
  }

  // The smallest shift that brings a bucket size under 65535; assertion 1002 of the source follows.
  method Shifts(bbSize: nat) returns (shifts: nat)
    ensures Shifted(bbSize, shifts) <= 65534
    ensures forall s :: 0 <= s < shifts ==> Shifted(bbSize, s) > 65534
    ensures bbSize > 0 ==> Shifted(bbSize - 1, shifts) <= 65535
  {
    shifts := 0;
    while Shifted(bbSize, shifts) > 65534
      invariant forall s :: 0 <= s < shifts ==> Shifted(bbSize, s) > 65534
      decreases Shifted(bbSize, shifts)
    {
      shifts := shifts + 1;
    }
    if bbSize > 0 {
      ShiftedMonotone(bbSize - 1, bbSize, shifts);
    }
  }

  method RankOne(ptr: array<int>, quadrant: array<int>, n: nat, ss: int, bbStart: int, j: nat, shifts: nat,
                 ghost b: seq<Byte>, ghost p: seq<int>, ghost quad0: seq<int>)
    requires n == |b| && n <= ptr.Length && ptr[..n] == p && ptr != quadrant && 0 <= ss < 256 && Grouped(b, p)
    requires bbStart == BigFirst(b, ss) && Ranking(b, p, quad0, quadrant[..], ss, shifts, bbStart + j + 1)
    requires Shifted(j, shifts) < 65536
    modifies quadrant
    ensures Ranking(b, p, quad0, quadrant[..], ss, shifts, bbStart + j)
  {
    ghost var x := bbStart + j;
    RankingStep(b, p, quad0, quadrant[..], ss, shifts, x);
    var a2update := ptr[bbStart + j];
    assert a2update == p[x];
    var qVal := UInt16(Shifted(j, shifts));
    assert x - BigFirst(b, ss) == j;
    Record(quadrant, n, a2update, qVal);
  }

  method RankBig(ptr: array<int>, quadrant: array<int>, ftab: array<int>, n: nat, ss: int, ghost b: seq<Byte>,
                 ghost done: seq<bool>)
    requires n == |b| && n <= ptr.Length && ptr != quadrant && ftab != quadrant && 0 <= ss < 256
    requires Grouped(b, ptr[..n]) && FtabIs(b, ftab[..]) && SortedBig(b, ptr[..n], ss)
    requires Ranked(b, quadrant[..], done)
    modifies quadrant
    ensures Ranked(b, quadrant[..], done[ss := true])
  {
    ghost var p, quad0 := ptr[..n], quadrant[..];
    var bbStart := Clear(ftab[ss * 256]);
    var bbSize := Clear(ftab[(ss + 1) * 256]) - bbStart;
    StartMonotone(b, ss * 256, (ss + 1) * 256);
    var shifts := Shifts(bbSize);
    for j := bbSize downto 0
      invariant Ranking(b, p, quad0, quadrant[..], ss, shifts, bbStart + j)
    {
      ShiftedMonotone(j, bbSize, shifts);
      RankOne(ptr, quadrant, n, ss, bbStart, j, shifts, b, p, quad0);
    }
    RankingDone(b, p, quad0, quadrant[..], ss, shifts, done);
  }

  // ---- the main loop ------------------------------------------------------

  // Exactly the first i big buckets of the running order are done.
  ghost predicate DoneUpto(order: seq<int>, done: seq<bool>, i: int) {
    && |order| == |done| == 256 && IsPerm(order)
    && forall x :: 0 <= x < 256 ==> done[order[x]] == (x < i)
  }

  lemma DoneStep(order: seq<int>, done: seq<bool>, i: int)
    requires DoneUpto(order, done, i) && 0 <= i < 256
    ensures !done[order[i]] && DoneUpto(order, done[order[i] := true], i + 1)
  {
  }

  lemma DoneEnd(order: seq<int>, done: seq<bool>)
    requires DoneUpto(order, done, 256)
    ensures forall t :: 0 <= t < 256 ==> done[t]
  {
    forall t | 0 <= t < 256 ensures done[t] {
      PermSurjective(order, t);
      var x :| 0 <= x < 256 && order[x] == t;
    }
  }

  // One big bucket, steps 1 to 3.
  method FinishBig(ptr: array<int>, block: array<Byte>, quadrant: array<int>, ftab: array<int>, n: nat, ss: int,
                   last: bool, bigDone: array<bool>, budget: int, ghost b: seq<Byte>)
    returns (budget': int, abandoned: bool)
    requires n == |b| && n <= block.Length && Overshot(block[..], n) && block[..n] == b
    requires 0 < n <= ptr.Length && 0 <= ss < 256 == bigDone.Length
    requires ptr != quadrant && ftab != quadrant && ftab != ptr
    requires Progress(b, ptr[..n], ftab[..], bigDone[..]) && Ranked(b, quadrant[..], bigDone[..]) && !bigDone[ss]
    modifies ptr, quadrant, ftab, bigDone
    ensures budget' <= budget && (abandoned ==> budget' < 0)
    ensures !abandoned ==> bigDone[..] == old(bigDone[..])[ss := true] && Progress(b, ptr[..n], ftab[..], bigDone[..])
    ensures !abandoned && !last ==> Ranked(b, quadrant[..], bigDone[..])
  {
    ghost var done := bigDone[..];
    budget', abandoned := SortSmalls(ptr, block, quadrant, ftab, n, ss, budget, b, done);
    if abandoned {
      return;
    }
    ghost var p0 := ptr[..n];
    ScanBig(ptr, block, ftab, n, ss, bigDone, b, p0);
    RebuiltProgress(b, p0, ptr[..n], ftab[..], done, ss);
    MarkColumn(ftab, ss, b, ptr[..n], done[ss := true]);
    bigDone[ss] := true;
    if !last {
      RankBig(ptr, quadrant, ftab, n, ss, b, done);
    }
  }

  ghost function SizesOf(ft: seq<int>): (size: seq<int>)
    requires |ft| >= 65537
    ensures Sizes(ft, size)
  {
    seq(256, c requires 0 <= c < 256 => ft[(c + 1) * 256] - ft[c * 256])
  }

  method MainSort(ptr: array<int>, block: array<Byte>, quadrant: array<int>, ftab: array<int>, n: nat, budget: int)
    returns (budget': int)
    requires BZ_N_OVERSHOOT < n < SETMASK && n <= ptr.Length && 65537 <= ftab.Length
    requires n + BZ_N_OVERSHOOT <= block.Length && n + BZ_N_OVERSHOOT <= quadrant.Length
    requires ptr != quadrant && ftab != quadrant && ftab != ptr
    modifies ptr, block, quadrant, ftab
    ensures block[..n] == old(block[..n]) && budget' <= budget
    ensures budget' >= 0 ==> SortedRotations(block[..n], ptr[..n])
  {
    ghost var b := block[..n];
    CountPairs(block, quadrant, ftab, n);
    Overshoot(block, quadrant, n);
    AccumulatePairs(ftab, b);
    RadixSort(ptr, block, ftab, n);
    ghost var size := SizesOf(ftab[..]);
    var runningOrder := Order(ftab, size);
    var bigDone := new bool[256](i => false);
    RadixProgress(b, ptr[..n], ftab[..], bigDone[..]);
    NothingRanked(b, quadrant[..], bigDone[..]);
    budget' := budget;
    var abandoned;
    ghost var order := runningOrder[..];
    for i := 0 to 256
      invariant budget' <= budget && block[..n] == b && Overshot(block[..], n)
      invariant runningOrder[..] == order && DoneUpto(order, bigDone[..], i)
      invariant Progress(b, ptr[..n], ftab[..], bigDone[..])
      invariant i < 256 ==> Ranked(b, quadrant[..], bigDone[..])
    {
      DoneStep(order, bigDone[..], i);
      budget', abandoned := FinishBig(ptr, block, quadrant, ftab, n, runningOrder[i], i == 255, bigDone, budget', b);
      if abandoned {
        return;
      }
    }
    DoneEnd(order, bigDone[..]);
    AllSorted(b, ptr[..n], ftab[..], bigDone[..]);
  }

  lemma RadixProgress(b: seq<Byte>, p: seq<int>, ft: seq<int>, done: seq<bool>)
    requires Grouped(b, p) && Remaining(b, ft, 0) && |b| < SETMASK
    requires |done| == 256 && forall t :: 0 <= t < 256 ==> !done[t]
    ensures Progress(b, p, ft, done)
  {
    StartEnds(b);
  }
}
