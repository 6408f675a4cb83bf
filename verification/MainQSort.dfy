// mainSimpleSort and mainQSort3: sorting the rotations of one small bucket, until the budget runs out.
module MainQSort {
  import opened Common
  import opened Rotations
  import opened SortStack
  import opened Partitioning
  import opened MainCompare

  const MAIN_QSORT_SMALL_THRESH := 20
  const MAIN_QSORT_DEPTH_THRESH := BZ_N_RADIX + BZ_N_QSORT
  const MAIN_QSORT_STACK_SIZE := 100
  const INCS := [1, 4, 13, 40, 121, 364, 1093, 3280, 9841, 29524, 88573, 265720, 797161, 2391484]

  ghost function ByRotation(b: seq<Byte>): (int, int) -> bool {
    (u: int, v: int) => 0 <= u < |b| && 0 <= v < |b| && Leq(b, u, v)
  }

  ghost predicate SortedByRotation(b: seq<Byte>, s: seq<int>, lo: int, hi: int) {
    0 <= lo && hi < |s| && forall x, y {:trigger Leq(b, s[x], s[y])} ::
      lo <= x < y <= hi ==> ByRotation(b)(s[x], s[y])
  }

  // The rotations at lo..hi all start with the same d bytes.
  ghost predicate Agree(b: seq<Byte>, s: seq<int>, lo: int, hi: int, d: nat) {
    && |b| > 0 && 0 <= lo && hi < |s|
    && (forall x :: lo <= x <= hi ==> 0 <= s[x] < |b|)
    && forall x, y {:trigger EqTo(b, s[x], s[y], d)} :: lo <= x <= hi && lo <= y <= hi ==> EqTo(b, s[x], s[y], d)
  }

  lemma AgreeShuffled(b: seq<Byte>, s: seq<int>, t: seq<int>, lo: int, hi: int, d: nat)
    requires Agree(b, s, lo, hi, d) && Shuffled(s, t, lo, hi)
    ensures Agree(b, t, lo, hi, d)
  {
    ShuffledAll(s, t, lo, hi, v => 0 <= v < |b|);
    forall x, y | lo <= x <= hi && lo <= y <= hi ensures EqTo(b, t[x], t[y], d) {
      ShuffledFrom(s, t, lo, hi, x);
      ShuffledFrom(s, t, lo, hi, y);
      var x' :| lo <= x' <= hi && s[x'] == t[x];
      var y' :| lo <= y' <= hi && s[y'] == t[y];
      assert EqTo(b, s[x'], s[y'], d);
    }
  }

  // ---- Shell sort ---------------------------------------------------------

  // Element s0[i] is in hand and a slot is open for it; nothing below the slot has moved.
  ghost predicate Holding(n: nat, s0: seq<int>, s: seq<int>, lo: int, hi: int, i: int, slot: int) {
    && 0 <= lo <= slot <= i <= hi < |s| && |s| == |s0|
    && (forall x :: lo <= x <= hi ==> 0 <= s0[x] < n)
    && Shuffled(s0, s[slot := s0[i]], lo, hi)
    && (forall x :: lo <= x < slot ==> s[x] == s0[x])
  }

  // Moving one place at a time, it has passed every element it is not above, down to the open slot.
  ghost predicate Passed(b: seq<Byte>, s0: seq<int>, s: seq<int>, i: int, slot: int) {
    && 0 <= slot <= i < |s| && |s| == |s0|
    && forall x :: slot < x <= i ==> s[x] == s0[x - 1] && ByRotation(b)(s0[i], s[x])
  }

  ghost predicate Sinking(b: seq<Byte>, s0: seq<int>, s: seq<int>, lo: int, hi: int, i: int, h: int, slot: int) {
    h > 0 && Holding(|b|, s0, s, lo, hi, i, slot) && (h == 1 ==> Passed(b, s0, s, i, slot))
  }

  lemma HoldingStep(n: nat, s0: seq<int>, s: seq<int>, lo: int, hi: int, i: int, slot: int, j: int)
    requires Holding(n, s0, s, lo, hi, i, slot) && lo <= j < slot
    ensures Holding(n, s0, s[slot := s[j]], lo, hi, i, j)
  {
    assert s[slot := s[j]][j := s0[i]] == Swapped(s[slot := s0[i]], slot, j);
    SwappedShuffles(s0, s[slot := s0[i]], lo, hi, slot, j);
  }

  lemma PassedStep(b: seq<Byte>, s0: seq<int>, s: seq<int>, i: int, slot: int, j: int)
    requires Passed(b, s0, s, i, slot) && 0 <= j == slot - 1 && s[j] == s0[j]
    requires ByRotation(b)(s0[i], s[j])
    ensures Passed(b, s0, s[slot := s[j]], i, j)
  {
  }

  lemma SinkStep(b: seq<Byte>, s0: seq<int>, s: seq<int>, lo: int, hi: int, i: int, h: int, slot: int, j: int)
    requires Sinking(b, s0, s, lo, hi, i, h, slot) && lo <= j == slot - h
    requires ByRotation(b)(s0[i], s[j])
    ensures Sinking(b, s0, s[slot := s[j]], lo, hi, i, h, j)
  {
    HoldingStep(|b|, s0, s, lo, hi, i, slot, j);
    if h == 1 {
      PassedStep(b, s0, s, i, slot, j);
    }
  }

  lemma SinkDone(b: seq<Byte>, s0: seq<int>, s: seq<int>, lo: int, hi: int, i: int, h: int, slot: int)
    requires Sinking(b, s0, s, lo, hi, i, h, slot)
    requires lo <= slot - h ==> ByRotation(b)(s[slot - h], s0[i])
    ensures Shuffled(s0, s[slot := s0[i]], lo, hi)
    ensures h == 1 && SortedByRotation(b, s0, lo, i - 1) ==> SortedByRotation(b, s[slot := s0[i]], lo, i)
  {
    var t := s[slot := s0[i]];
    if h == 1 && SortedByRotation(b, s0, lo, i - 1) {
      forall x, y | lo <= x < y <= i ensures ByRotation(b)(t[x], t[y]) {
        if y < slot {
          assert Leq(b, s0[x], s0[y]);
        } else if y == slot {
          if x < slot - 1 {
            assert ByRotation(b)(s0[x], s0[slot - 1]);
            LeqTrans(b, s0[x], s0[slot - 1], s0[i]);
          }
        } else if x != slot {
          assert ByRotation(b)(s0[if x < slot then x else x - 1], s0[y - 1]);
        }
      }
    }
  }

  lemma SinkBegun(b: seq<Byte>, s0: seq<int>, lo: int, hi: int, d: nat, i: int, h: int)
    requires Agree(b, s0, lo, hi, d) && 0 < h && 0 <= lo && lo + h <= i <= hi < |s0|
    ensures Sinking(b, s0, s0, lo, hi, i, h, i)
  {
    assert s0[i := s0[i]] == s0;
  }

  // Inserts ptr[i] among the elements h, 2h, ... below it.
  method SinkDown(ptr: array<int>, block: array<Byte>, quadrant: array<int>, n: nat, lo: int, hi: int, d: nat, i: int,
                  h: int, budget: int, ghost b: seq<Byte>) returns (budget': int)
    requires Laid(block[..], quadrant[..], n, b) && ptr != quadrant
    requires 0 < h && 0 <= lo && lo + h <= i <= hi < ptr.Length && d <= MAIN_QSORT_DEPTH_THRESH + 1
    requires Agree(b, ptr[..], lo, hi, d)
    modifies ptr
    ensures Shuffled(old(ptr[..]), ptr[..], lo, hi)
    ensures h == 1 && old(SortedByRotation(b, ptr[..], lo, i - 1)) ==> SortedByRotation(b, ptr[..], lo, i)
    ensures budget' <= budget
  {
    hide Laid, Agree, ByRotation, SortedByRotation, Shuffled;
    ghost var s0 := ptr[..];
    ghost var s := s0;
    SinkBegun(b, s0, lo, hi, d, i, h);
    var v, j := ptr[i], i;
    assert s[i := s0[i]] == s0;
    var gt;
    gt, budget' := GtAt(ptr, block, quadrant, n, lo, hi, d, i, h, j, v, budget, b, s0, s);
    while gt
      invariant ptr[..] == s && Sinking(b, s0, s, lo, hi, i, h, j) && budget' <= budget
      invariant gt ==> lo <= j - h && ByRotation(b)(s0[i], s[j - h])
      invariant !gt && lo <= j - h ==> ByRotation(b)(s[j - h], s0[i])
      decreases j, gt
    {
      SinkStep(b, s0, s, lo, hi, i, h, j, j - h);
      ptr[j] := ptr[j - h];
      s := s[j := s[j - h]];
      j := j - h;
      if j <= lo + h - 1 {
        gt := false;
      } else {
        gt, budget' := GtAt(ptr, block, quadrant, n, lo, hi, d, i, h, j, v, budget', b, s0, s);
      }
    }
    SinkDone(b, s0, s, lo, hi, i, h, j);
    ptr[j] := v;
    assert ptr[..] == s[j := s0[i]];
  }

  method GtAt(ptr: array<int>, block: array<Byte>, quadrant: array<int>, n: nat, lo: int, hi: int, d: nat, i: int,
              h: int, j: int, v: int, budget: int, ghost b: seq<Byte>, ghost s0: seq<int>, ghost s: seq<int>)
    returns (gt: bool, budget': int)
    requires Laid(block[..], quadrant[..], n, b) && d <= MAIN_QSORT_DEPTH_THRESH + 1
    requires ptr[..] == s && Sinking(b, s0, s, lo, hi, i, h, j) && lo <= j - h
    requires Agree(b, s0, lo, hi, d) && v == s0[i]
    ensures gt ==> ByRotation(b)(s0[i], s[j - h])
    ensures !gt ==> ByRotation(b)(s[j - h], s0[i])
    ensures budget' <= budget
  {
    gt, budget' := MainGtU(ptr[j - h] + d, v + d, block, quadrant, n, budget, b);
    Compared(b, s0, s, lo, hi, d, i, h, j, gt);
  }

  // What comparing d bytes on says about the rotations themselves.
  lemma Compared(b: seq<Byte>, s0: seq<int>, s: seq<int>, lo: int, hi: int, d: nat, i: int, h: int, j: int, gt: bool)
    requires Sinking(b, s0, s, lo, hi, i, h, j) && lo <= j - h && Agree(b, s0, lo, hi, d) && d <= |b|
    requires gt ==> Leq(b, Wrap(|b|, s0[i] + d), Wrap(|b|, s[j - h] + d))
    requires !gt ==> Leq(b, Wrap(|b|, s[j - h] + d), Wrap(|b|, s0[i] + d))
    ensures gt ==> ByRotation(b)(s0[i], s[j - h])
    ensures !gt ==> ByRotation(b)(s[j - h], s0[i])
  {
    var u := s[j - h];
    assert u == s0[j - h];
    assert EqTo(b, s0[i], s0[j - h], d) && EqTo(b, s0[j - h], s0[i], d);
    if gt {
      LeqPrefix(b, s0[i], u, d);
    } else {
      LeqPrefix(b, u, s0[i], d);
    }
  }

  method MainSimpleSort(ptr: array<int>, block: array<Byte>, quadrant: array<int>, n: nat, lo: int, hi: int, d: nat,
                        budget: int, ghost b: seq<Byte>) returns (budget': int)
    requires Laid(block[..], quadrant[..], n, b) && ptr != quadrant
    requires 0 <= lo && hi < ptr.Length && hi - lo < 0x20_0000 && d <= MAIN_QSORT_DEPTH_THRESH + 1
    requires Agree(b, ptr[..], lo, hi, d)
    modifies ptr
    ensures Shuffled(old(ptr[..]), ptr[..], lo, hi)
    ensures budget' <= budget
    ensures budget' >= 0 ==> SortedByRotation(b, ptr[..], lo, hi)
  {
    budget' := budget;
    var abandoned := false;
    var bigN := hi - lo + 1;
    if bigN < 2 {
      return;
    }
    var hp := 0;
    while INCS[hp] < bigN
      invariant 0 <= hp < 14
      decreases 14 - hp
    {
      hp := hp + 1;
    }
    hp := hp - 1;
    while hp >= 0
      invariant -1 <= hp < 13 && budget' <= budget
      invariant Shuffled(old(ptr[..]), ptr[..], lo, hi)
      invariant hp == -1 ==> SortedByRotation(b, ptr[..], lo, hi)
    {
      budget', abandoned := ShellPass(ptr, block, quadrant, n, lo, hi, d, INCS[hp], budget', old(ptr[..]), b);
      if abandoned {
        return;
      }
      hp := hp - 1;
    }
  }

  // One increment's pass, three insertions between looks at the budget.
  method ShellPass(ptr: array<int>, block: array<Byte>, quadrant: array<int>, n: nat, lo: int, hi: int, d: nat, h: int,
                   budget: int, ghost s0: seq<int>, ghost b: seq<Byte>) returns (budget': int, abandoned: bool)
    requires Laid(block[..], quadrant[..], n, b) && ptr != quadrant
    requires 0 < h && 0 <= lo <= hi < ptr.Length && d <= MAIN_QSORT_DEPTH_THRESH + 1
    requires Shuffled(s0, ptr[..], lo, hi) && Agree(b, s0, lo, hi, d)
    modifies ptr
    ensures Shuffled(s0, ptr[..], lo, hi)
    ensures budget' <= budget && (abandoned ==> budget' < 0)
    ensures !abandoned && h == 1 ==> SortedByRotation(b, ptr[..], lo, hi)
  {
    budget', abandoned := budget, false;
    var i := lo + h;
    var copy := 0;
    while i <= hi
      invariant lo + h <= i && budget' <= budget && 0 <= copy < 3 && !abandoned
      invariant Shuffled(s0, ptr[..], lo, hi)
      invariant h == 1 ==> i <= hi + 1 && SortedByRotation(b, ptr[..], lo, i - 1)
    {
      ghost var s := ptr[..];
      AgreeShuffled(b, s0, s, lo, hi, d);
      budget' := SinkDown(ptr, block, quadrant, n, lo, hi, d, i, h, budget', b);
      ShuffledTrans(s0, s, ptr[..], lo, hi, lo, hi);
      i := i + 1;
      copy := copy + 1;
      if copy == 3 {
        if budget' < 0 {
          return budget', true;
        }
        copy := 0;
      }
    }
  }

  // ---- three-way quicksort on one byte at a time --------------------------

  datatype Segment = Segment(lo: int, hi: int, d: nat)

  function Ranges(todo: seq<Segment>): (r: seq<(int, int)>)
    ensures |r| == |todo| && forall k :: 0 <= k < |r| ==> r[k] == (todo[k].lo, todo[k].hi)
  {
    seq(|todo|, k requires 0 <= k < |todo| => (todo[k].lo, todo[k].hi))
  }

  function SizeOf(seg: Segment): nat {
    Size((seg.lo, seg.hi))
  }

  // Each segment's rotations share the bytes already compared.
  ghost predicate AllAgree(b: seq<Byte>, s: seq<int>, todo: seq<Segment>) {
    forall k :: 0 <= k < |todo| ==>
      todo[k].d <= MAIN_QSORT_DEPTH_THRESH + 1 && Agree(b, s, todo[k].lo, todo[k].hi, todo[k].d)
  }

  ghost predicate Sorting(b: seq<Byte>, s0: seq<int>, s: seq<int>, lo: int, hi: int, todo: seq<Segment>) {
    && Shuffled(s0, s, lo, hi)
    && SortedButFor(ByRotation(b), s, lo, hi, Ranges(todo))
    && AllAgree(b, s, todo)
    && Tapers(Ranges(todo), Size((lo, hi)), 2)
    && |todo| <= 60
  }

  // Part e holds the elements equal to the pivot, to be compared from the next byte on.
  ghost predicate MiddleAt(seg: Segment, parts: seq<Segment>, e: nat)
    requires |parts| == 3
  {
    && e < 3 && SizeOf(parts[e]) > 0 && parts[e].d == seg.d + 1
    && forall k :: 0 <= k < 3 && k != e ==> parts[k].d == seg.d
  }

  ghost predicate InThree(seg: Segment, parts: seq<Segment>) {
    && |parts| == 3 && SizeOf(seg) > MAIN_QSORT_SMALL_THRESH
    && SizeOf(parts[0]) + SizeOf(parts[1]) + SizeOf(parts[2]) == SizeOf(seg)
    && SizeOf(parts[0]) >= SizeOf(parts[1]) >= SizeOf(parts[2])
    && exists e: nat :: MiddleAt(seg, parts, e)
  }

  // What is left of a segment: nothing; all of it, a byte further on; or three parts, largest first.
  ghost predicate LeftOf(seg: Segment, parts: seq<Segment>) {
    || parts == []
    || (parts == [seg.(d := seg.d + 1)] && SizeOf(seg) > 0)
    || InThree(seg, parts)
  }

  lemma RangesAppend(a: seq<Segment>, b: seq<Segment>)
    ensures Ranges(a + b) == Ranges(a) + Ranges(b)
  {
  }

  lemma DisjointFromTop(segs: seq<(int, int)>, k: nat)
    requires Disjoint(segs) && k < |segs| - 1
    ensures segs[k].1 < segs[|segs| - 1].0 || segs[|segs| - 1].1 < segs[k].0
  {
  }

  // Segments below the top are not touched when the top one is rearranged.
  lemma OthersAgree(b: seq<Byte>, s: seq<int>, t: seq<int>, lo: int, hi: int, todo: seq<Segment>)
    requires |todo| > 0 && AllAgree(b, s, todo)
    requires SortedButFor(ByRotation(b), s, lo, hi, Ranges(todo))
    requires Shuffled(s, t, todo[|todo| - 1].lo, todo[|todo| - 1].hi)
    ensures AllAgree(b, t, todo[..|todo| - 1])
  {
    var top := todo[|todo| - 1];
    forall k | 0 <= k < |todo| - 1 ensures Agree(b, t, todo[k].lo, todo[k].hi, todo[k].d) {
      DisjointFromTop(Ranges(todo), k);
      assert forall x :: todo[k].lo <= x <= todo[k].hi ==> t[x] == s[x];
      assert Agree(b, s, todo[k].lo, todo[k].hi, todo[k].d);
      forall x, y | todo[k].lo <= x <= todo[k].hi && todo[k].lo <= y <= todo[k].hi
        ensures EqTo(b, t[x], t[y], todo[k].d)
      {
        assert EqTo(b, s[x], s[y], todo[k].d);
      }
    }
  }

  lemma SortingStep(b: seq<Byte>, s0: seq<int>, s: seq<int>, t: seq<int>, lo: int, hi: int, todo: seq<Segment>,
                    parts: seq<Segment>)
    requires |todo| > 0 && Sorting(b, s0, s, lo, hi, todo)
    requires var seg := todo[|todo| - 1];
             Shuffled(s, t, seg.lo, seg.hi) && Splits(ByRotation(b), t, (seg.lo, seg.hi), Ranges(parts))
    requires AllAgree(b, t, parts) && LeftOf(todo[|todo| - 1], parts) && Size((lo, hi)) < 0x8000_0000
    ensures Sorting(b, s0, t, lo, hi, todo[..|todo| - 1] + parts)
  {
    var seg := todo[|todo| - 1];
    var rest := todo[..|todo| - 1];
    RangesAppend(rest, parts);
    assert Ranges(todo)[..|todo| - 1] == Ranges(rest);
    SplitTop(ByRotation(b), s, t, lo, hi, Ranges(todo), Ranges(parts));
    ShuffledTrans(s0, s, t, lo, hi, seg.lo, seg.hi);
    OthersAgree(b, s, t, lo, hi, todo);
    Tapering(todo, parts, Size((lo, hi)));
  }

  lemma Tapering(todo: seq<Segment>, parts: seq<Segment>, bound: nat)
    requires 0 < |todo| <= 60 && Tapers(Ranges(todo), bound, 2) && bound < 0x8000_0000
    requires LeftOf(todo[|todo| - 1], parts)
    ensures |todo| - 1 + |parts| <= 60 && Tapers(Ranges(todo[..|todo| - 1] + parts), bound, 2)
  {
    var p := |todo| - 1;
    var size := SizeOf(todo[p]);
    assert Ranges(todo)[p] == (todo[p].lo, todo[p].hi);
    assert size <= Limit(bound, p / 2);
    if |parts| == 3 {
      LowOnStack(p / 2, size, bound);
      assert Limit(bound, p / 2 + 1) == Limit(bound, p / 2) / 2;
      LimitFalls(bound, (p + 1) / 2, p / 2 + 1);
      assert (p + 2) / 2 == p / 2 + 1;
    }
    var next := Ranges(todo[..p] + parts);
    forall k | 0 <= k < |next| ensures Size(next[k]) <= Limit(bound, k / 2) {
      if k < p {
        assert next[k] == Ranges(todo)[k];
      }
    }
  }

  // Bytes still to be looked at, and segments still to be popped.
  ghost function WorkOf(seg: Segment): nat {
    if seg.d > 15 then 1 else 3 * SizeOf(seg) * (16 - seg.d) + 1
  }

  ghost function WorkLeft(todo: seq<Segment>): nat {
    if todo == [] then 0 else WorkLeft(todo[..|todo| - 1]) + WorkOf(todo[|todo| - 1])
  }

  lemma WorkLeftAppend(todo: seq<Segment>, seg: Segment)
    ensures WorkLeft(todo + [seg]) == WorkLeft(todo) + WorkOf(seg)
  {
    assert (todo + [seg])[..|todo|] == todo;
  }

  lemma Share(x: nat, y: nat, z: nat, w: nat)
    requires w > 0 && z > 0
    ensures 3 * x * w + 3 * y * w + 3 * z * (w - 1) + 3 <= 3 * (x + y + z) * w
  {
    assert 3 * (x + y + z) * w == 3 * x * w + 3 * y * w + 3 * z * w;
    assert 3 * z * w == 3 * z * (w - 1) + 3 * z;
  }

  lemma PartsWork(seg: Segment, parts: seq<Segment>)
    requires |parts| == 3 && LeftOf(seg, parts) && seg.d <= MAIN_QSORT_DEPTH_THRESH
    ensures WorkOf(parts[0]) + WorkOf(parts[1]) + WorkOf(parts[2]) < WorkOf(seg)
  {
    var e: nat :| MiddleAt(seg, parts, e);
    var f, g := if e == 0 then 1 else 0, if e == 2 then 1 else 2;
    Share(SizeOf(parts[f]), SizeOf(parts[g]), SizeOf(parts[e]), 16 - seg.d);
  }

  lemma LessWorkLeft(todo: seq<Segment>, parts: seq<Segment>)
    requires |todo| > 0 && LeftOf(todo[|todo| - 1], parts)
    requires parts != [] ==> todo[|todo| - 1].d <= MAIN_QSORT_DEPTH_THRESH
    ensures WorkLeft(todo[..|todo| - 1] + parts) < WorkLeft(todo)
  {
    hide WorkLeft;
    var rest := todo[..|todo| - 1];
    var seg := todo[|todo| - 1];
    assert todo == rest + [seg];
    WorkLeftAppend(rest, seg);
    if parts == [] {
      assert rest + parts == rest;
    } else if |parts| == 1 {
      assert rest + parts == rest + [parts[0]];
      WorkLeftAppend(rest, parts[0]);
      Share(0, 0, SizeOf(seg), 16 - seg.d);
    } else {
      assert rest + parts == rest + [parts[0]] + [parts[1]] + [parts[2]];
      WorkLeftAppend(rest, parts[0]);
      WorkLeftAppend(rest + [parts[0]], parts[1]);
      WorkLeftAppend(rest + [parts[0]] + [parts[1]], parts[2]);
      PartsWork(seg, parts);
    }
  }

  // ---- partitioning on byte d ---------------------------------------------

  lemma KeyIsByte(b: seq<Byte>, blk: seq<Byte>, d: nat, u: nat)
    requires |b| > 0 && Overshot(blk, |b|) && blk[..|b|] == b && u < |b| && d <= MAIN_QSORT_DEPTH_THRESH
    ensures u < |blk[d..]| && blk[d..][u] == At(b, u, d)
  {
    ReadByte(b, blk, u + d);
    AtWrap(b, u, d, 0);
    AtZero(b, Wrap(|b|, u + d));
  }

  ghost predicate ZonesOrdered(b: seq<Byte>, t: seq<int>, lo: int, hi: int, n: int, m: int) {
    && 0 <= lo && hi < |t|
    && forall x, y {:trigger ByRotation(b)(t[x], t[y])} :: lo <= x < y <= hi && (x <= n < y || x < m <= y) ==>
         ByRotation(b)(t[x], t[y])
  }

  // Rotations equal for d bytes and parted by byte d.
  lemma PartedByByte(b: seq<Byte>, blk: seq<Byte>, t: seq<int>, lo: int, hi: int, d: nat, med: int, n: int, m: int)
    requires |b| > 0 && Overshot(blk, |b|) && blk[..|b|] == b && d <= MAIN_QSORT_DEPTH_THRESH
    requires Agree(b, t, lo, hi, d) && Parted(t, blk[d..], lo, hi, med, n, m)
    ensures Agree(b, t, lo, n, d) && Agree(b, t, m, hi, d) && Agree(b, t, n + 1, m - 1, d + 1)
    ensures ZonesOrdered(b, t, lo, hi, n, m)
  {
    forall x | lo <= x <= hi ensures At(b, t[x], d) == blk[d..][t[x]] {
      KeyIsByte(b, blk, d, t[x]);
    }
    forall x, y | lo <= x <= hi && lo <= y <= hi
      ensures EqTo(b, t[x], t[y], d)
      ensures At(b, t[x], d) == At(b, t[y], d) ==> EqTo(b, t[x], t[y], d + 1)
      ensures At(b, t[x], d) < At(b, t[y], d) ==> Leq(b, t[x], t[y])
    {
      assert EqTo(b, t[x], t[y], d);
      if At(b, t[x], d) < At(b, t[y], d) {
        assert LessTo(b, t[x], t[y], d + 1);
        if d + 1 <= |b| {
          LessDeeper(b, t[x], t[y], d + 1, |b|);
        }
      }
    }
  }

  lemma EqualByByte(b: seq<Byte>, blk: seq<Byte>, t: seq<int>, lo: int, hi: int, d: nat, med: int)
    requires |b| > 0 && Overshot(blk, |b|) && blk[..|b|] == b && d <= MAIN_QSORT_DEPTH_THRESH
    requires lo <= hi && Agree(b, t, lo, hi, d) && Zone(t, blk[d..], lo, hi, med, 0)
    ensures Agree(b, t, lo, hi, d + 1)
  {
    PartedByByte(b, blk, t, lo, hi, d, med, lo - 1, hi + 1);
  }

  function MMed3(a: Byte, b: Byte, c: Byte): (r: Byte)
    ensures r == a || r == b || r == c
    ensures (a <= r <= b || b <= r <= a) || (a <= r <= c || c <= r <= a)
  {
    var x, y := if a > b then b else a, if a > b then a else b;
    if y > c then if x > c then x else c else y
  }

  function NextSize(seg: Segment): int {
    seg.hi - seg.lo
  }

  ghost predicate Ordering(next: seq<Segment>, x: Segment, y: Segment, z: Segment) {
    || next == [x, y, z] || next == [x, z, y] || next == [y, x, z]
    || next == [y, z, x] || next == [z, x, y] || next == [z, y, x]
  }

  // Largest first, by three conditional exchanges.
  method LargestFirst(x: Segment, y: Segment, z: Segment) returns (next: seq<Segment>)
    ensures Ordering(next, x, y, z)
    ensures NextSize(next[0]) >= NextSize(next[1]) >= NextSize(next[2])
  {
    next := [x, y, z];
    if NextSize(next[0]) < NextSize(next[1]) {
      next := [next[1], next[0], next[2]];
    }
    if NextSize(next[1]) < NextSize(next[2]) {
      next := [next[0], next[2], next[1]];
    }
    if NextSize(next[0]) < NextSize(next[1]) {
      next := [next[1], next[0], next[2]];
    }
  }

  lemma ThreeOrdered(b: seq<Byte>, t: seq<int>, lo: int, hi: int, n: int, m: int, r: seq<(int, int)>)
    requires lo - 1 <= n < n + 1 < m <= hi + 1 && ZonesOrdered(b, t, lo, hi, n, m) && |r| == 3
    requires (lo, n) in r && (m, hi) in r && (n + 1, m - 1) in r
    requires Disjoint(r) && forall k :: 0 <= k < |r| ==> lo <= r[k].0 && r[k].1 <= hi
    ensures Splits(ByRotation(b), t, (lo, hi), r)
  {
    forall x, y | lo <= x < y <= hi ensures ByRotation(b)(t[x], t[y]) || InOne(r, x, y) {
      if !(x <= n < y || x < m <= y) {
        var want := if y <= n then (lo, n) else if m <= x then (m, hi) else (n + 1, m - 1);
        var k :| 0 <= k < |r| && r[k] == want;
      }
    }
  }

  lemma ThreeLeft(lo: int, hi: int, d: nat, n: int, m: int, next: seq<Segment>)
    requires lo - 1 <= n < n + 1 < m <= hi + 1
    requires Ordering(next, Segment(lo, n, d), Segment(m, hi, d), Segment(n + 1, m - 1, d + 1))
    requires NextSize(next[0]) >= NextSize(next[1]) >= NextSize(next[2])
    requires hi - lo >= MAIN_QSORT_SMALL_THRESH
    ensures LeftOf(Segment(lo, hi, d), next)
  {
    var e := if next[0].d == d + 1 then 0 else if next[1].d == d + 1 then 1 else 2;
    assert MiddleAt(Segment(lo, hi, d), next, e);
  }

  lemma ThreeSplit(b: seq<Byte>, t: seq<int>, lo: int, hi: int, d: nat, n: int, m: int, next: seq<Segment>)
    requires lo - 1 <= n < n + 1 < m <= hi + 1 && ZonesOrdered(b, t, lo, hi, n, m)
    requires Agree(b, t, lo, n, d) && Agree(b, t, m, hi, d) && Agree(b, t, n + 1, m - 1, d + 1)
    requires Ordering(next, Segment(lo, n, d), Segment(m, hi, d), Segment(n + 1, m - 1, d + 1))
    requires d <= MAIN_QSORT_DEPTH_THRESH
    ensures Splits(ByRotation(b), t, (lo, hi), Ranges(next)) && AllAgree(b, t, next)
  {
    var r := Ranges(next);
    assert r == [(next[0].lo, next[0].hi), (next[1].lo, next[1].hi), (next[2].lo, next[2].hi)];
    ThreeOrdered(b, t, lo, hi, n, m, r);
  }

  // The segment is split at its median byte; each part agrees as far as is needed.
  method SplitUp(ptr: array<int>, block: array<Byte>, quadrant: array<int>, n: nat, seg: Segment, ghost b: seq<Byte>)
    returns (parts: seq<Segment>)
    requires Laid(block[..], quadrant[..], n, b) && ptr != quadrant
    requires seg.hi - seg.lo >= MAIN_QSORT_SMALL_THRESH && seg.d <= MAIN_QSORT_DEPTH_THRESH
    requires Agree(b, ptr[..], seg.lo, seg.hi, seg.d)
    modifies ptr
    ensures Shuffled(old(ptr[..]), ptr[..], seg.lo, seg.hi) && LeftOf(seg, parts)
    ensures Splits(ByRotation(b), ptr[..], (seg.lo, seg.hi), Ranges(parts)) && AllAgree(b, ptr[..], parts)
  {
    hide Shuffled, Overshot, Leq, SortedByRotation, Splits;
    var lo, hi, d := seg.lo, seg.hi, seg.d;
    ghost var s := ptr[..];
    var mid := (lo + hi) / 2;
    LaidApart(block[..], quadrant[..], n, b);
    PivotBytes(b, block[..], s, lo, hi, d);
    var med := MMed3(block[ptr[lo] + d], block[ptr[hi] + d], block[ptr[mid] + d]);
    ghost var p := if med == block[ptr[lo] + d] then lo else if med == block[ptr[hi] + d] then hi else mid;
    var allEqual, nn, m := Partition(ptr, block[d..], lo, hi, med);
    AgreeShuffled(b, s, ptr[..], lo, hi, d);
    if allEqual {
      EqualByByte(b, block[..], ptr[..], lo, hi, d, med);
      parts := [Segment(lo, hi, d + 1)];
      assert Ranges(parts) == [(lo, hi)];
      WholeSplit(b, ptr[..], seg, parts);
      return;
    }
    PivotStays(s, ptr[..], block[d..], lo, hi, med, p, nn, m);
    PartedByByte(b, block[..], ptr[..], lo, hi, d, med, nn, m);
    parts := LargestFirst(Segment(lo, nn, d), Segment(m, hi, d), Segment(nn + 1, m - 1, d + 1));
    ThreeSplit(b, ptr[..], lo, hi, d, nn, m, parts);
    ThreeLeft(lo, hi, d, nn, m, parts);
  }

  lemma LaidApart(blk: seq<Byte>, quad: seq<int>, n: nat, b: seq<Byte>)
    requires Laid(blk, quad, n, b)
    ensures n == |b| > 0 && Overshot(blk, n) && blk[..n] == b
  {
  }

  method Refine(ptr: array<int>, block: array<Byte>, quadrant: array<int>, n: nat, seg: Segment, budget: int,
                ghost b: seq<Byte>) returns (budget': int, parts: seq<Segment>)
    requires Laid(block[..], quadrant[..], n, b) && ptr != quadrant
    requires SizeOf(seg) <= 0x20_0000 && seg.d <= MAIN_QSORT_DEPTH_THRESH + 1
    requires Agree(b, ptr[..], seg.lo, seg.hi, seg.d)
    modifies ptr
    ensures Shuffled(old(ptr[..]), ptr[..], seg.lo, seg.hi)
    ensures budget' <= budget
    ensures budget' >= 0 || parts != [] ==>
              Splits(ByRotation(b), ptr[..], (seg.lo, seg.hi), Ranges(parts)) && AllAgree(b, ptr[..], parts)
    ensures LeftOf(seg, parts) && (parts != [] ==> seg.d <= MAIN_QSORT_DEPTH_THRESH)
  {
    hide Shuffled, Laid, SortedByRotation, Splits, AllAgree;
    if seg.hi - seg.lo < MAIN_QSORT_SMALL_THRESH || seg.d > MAIN_QSORT_DEPTH_THRESH {
      budget' := MainSimpleSort(ptr, block, quadrant, n, seg.lo, seg.hi, seg.d, budget, b);
      parts := [];
      if budget' >= 0 {
        LaidApart(block[..], quadrant[..], n, b);
        SortedSplits(b, ptr[..], seg.lo, seg.hi);
      }
      return;
    }
    budget' := budget;
    parts := SplitUp(ptr, block, quadrant, n, seg, b);
  }

  // A sorted segment leaves nothing to do.
  lemma SortedSplits(b: seq<Byte>, t: seq<int>, lo: int, hi: int)
    requires |b| > 0 && SortedByRotation(b, t, lo, hi)
    ensures Splits(ByRotation(b), t, (lo, hi), Ranges([])) && AllAgree(b, t, [])
  {
    forall x, y | lo <= x < y <= hi ensures ByRotation(b)(t[x], t[y]) {
      SortedAt(b, t, lo, hi, x, y);
    }
  }

  lemma SortedAt(b: seq<Byte>, t: seq<int>, lo: int, hi: int, x: int, y: int)
    requires |b| > 0 && SortedByRotation(b, t, lo, hi) && lo <= x < y <= hi
    ensures ByRotation(b)(t[x], t[y])
  {
    if t[x] >= 0 && t[y] >= 0 {
      assert Leq(b, t[x], t[y]) || !Leq(b, t[x], t[y]);
    }
  }

  lemma WholeSplit(b: seq<Byte>, t: seq<int>, seg: Segment, parts: seq<Segment>)
    requires 0 <= seg.lo <= seg.hi < |t| && parts == [seg.(d := seg.d + 1)]
    ensures Splits(ByRotation(b), t, (seg.lo, seg.hi), Ranges(parts))
  {
    var r := Ranges(parts);
    forall x, y | seg.lo <= x < y <= seg.hi ensures InOne(r, x, y) {
      assert r[0].0 <= x && y <= r[0].1;
    }
  }

  // Byte d of every rotation in the segment can be read without wrapping.
  lemma PivotBytes(b: seq<Byte>, blk: seq<Byte>, s: seq<int>, lo: int, hi: int, d: nat)
    requires |b| > 0 && Overshot(blk, |b|) && Agree(b, s, lo, hi, d) && d <= MAIN_QSORT_DEPTH_THRESH
    ensures d <= |blk| && Keyed(s, blk[d..], lo, hi)
    ensures forall x :: lo <= x <= hi ==> 0 <= s[x] + d < |blk| && blk[d..][s[x]] == blk[s[x] + d]
  {
  }

  // ---- the stack of segments ----------------------------------------------

  ghost predicate StackIs(stackLo: seq<int>, stackHi: seq<int>, stackD: seq<int>, todo: seq<Segment>) {
    && |todo| <= |stackLo| == |stackHi| == |stackD|
    && forall k :: 0 <= k < |todo| ==> stackLo[k] == todo[k].lo && stackHi[k] == todo[k].hi && stackD[k] == todo[k].d
  }

  method PushAll(stackLo: array<int>, stackHi: array<int>, stackD: array<int>, sp: nat, parts: seq<Segment>,
                 ghost todo: seq<Segment>) returns (sp': nat)
    requires stackLo != stackHi && stackLo != stackD && stackHi != stackD
    requires sp == |todo| && sp + |parts| <= stackLo.Length && StackIs(stackLo[..], stackHi[..], stackD[..], todo)
    modifies stackLo, stackHi, stackD
    ensures sp' == sp + |parts| && StackIs(stackLo[..], stackHi[..], stackD[..], todo + parts)
  {
    for i := 0 to |parts|
      invariant StackIs(stackLo[..], stackHi[..], stackD[..], todo + parts[..i])
    {
      stackLo[sp + i] := parts[i].lo;
      stackHi[sp + i] := parts[i].hi;
      stackD[sp + i] := parts[i].d;
    }
    sp' := sp + |parts|;
    assert parts[..|parts|] == parts;
  }

  // Refines the segment popped from the stack.
  method RefineTop(ptr: array<int>, block: array<Byte>, quadrant: array<int>, n: nat, seg: Segment, budget: int,
                   ghost b: seq<Byte>, ghost s0: seq<int>, ghost lo: int, ghost hi: int, ghost todo: seq<Segment>)
    returns (budget': int, parts: seq<Segment>)
    requires Laid(block[..], quadrant[..], n, b) && ptr != quadrant && Size((lo, hi)) <= 0x20_0000
    requires |todo| > 0 && seg == todo[|todo| - 1] && Sorting(b, s0, ptr[..], lo, hi, todo)
    modifies ptr
    ensures Shuffled(s0, ptr[..], lo, hi) && budget' <= budget
    ensures budget' >= 0 || parts != [] ==> Sorting(b, s0, ptr[..], lo, hi, todo[..|todo| - 1] + parts)
    ensures WorkLeft(todo[..|todo| - 1] + parts) < WorkLeft(todo)
  {
    ghost var s := ptr[..];
    TopFits(b, s0, s, lo, hi, todo);
    budget', parts := Refine(ptr, block, quadrant, n, seg, budget, b);
    LessWorkLeft(todo, parts);
    ShuffledTrans(s0, s, ptr[..], lo, hi, seg.lo, seg.hi);
    if budget' >= 0 || parts != [] {
      SortingStep(b, s0, s, ptr[..], lo, hi, todo, parts);
    }
  }

  method MainQSort3(ptr: array<int>, block: array<Byte>, quadrant: array<int>, n: nat, loSt: int, hiSt: int, dSt: nat,
                    budget: int, ghost b: seq<Byte>) returns (budget': int)
    requires Laid(block[..], quadrant[..], n, b) && ptr != quadrant
    requires loSt <= hiSt && Size((loSt, hiSt)) <= 0x20_0000 && dSt <= MAIN_QSORT_DEPTH_THRESH + 1
    requires Agree(b, ptr[..], loSt, hiSt, dSt)
    modifies ptr
    ensures Shuffled(old(ptr[..]), ptr[..], loSt, hiSt)
    ensures budget' <= budget
    ensures budget' >= 0 ==> SortedByRotation(b, ptr[..], loSt, hiSt)
  {
    hide Agree, Laid, Shuffled, SortedByRotation, ByRotation;
    var stackLo := new int[MAIN_QSORT_STACK_SIZE];
    var stackHi := new int[MAIN_QSORT_STACK_SIZE];
    var stackD := new int[MAIN_QSORT_STACK_SIZE];
    ghost var s0, todo := ptr[..], [Segment(loSt, hiSt, dSt)];
    var sp := PushAll(stackLo, stackHi, stackD, 0, [Segment(loSt, hiSt, dSt)], []);
    SortingStart(b, s0, loSt, hiSt, dSt);
    budget' := budget;
    while sp > 0
      invariant sp == |todo| && StackIs(stackLo[..], stackHi[..], stackD[..], todo) && budget' <= budget
      invariant Sorting(b, s0, ptr[..], loSt, hiSt, todo)
      decreases WorkLeft(todo)
    {
      assert sp < MAIN_QSORT_STACK_SIZE;
      sp := sp - 1;
      ghost var rest := todo[..sp];
      assert todo[sp].d <= MAIN_QSORT_DEPTH_THRESH + 1;
      var seg := Segment(stackLo[sp], stackHi[sp], stackD[sp]);
      var parts;
      budget', parts := RefineTop(ptr, block, quadrant, n, seg, budget', b, s0, loSt, hiSt, todo);
      if budget' < 0 && parts == [] {
        return;
      }
      todo := rest + parts;
      sp := PushAll(stackLo, stackHi, stackD, sp, parts, rest);
    }
    SortingEnd(b, s0, ptr[..], loSt, hiSt);
  }

  lemma SortingStart(b: seq<Byte>, s: seq<int>, lo: int, hi: int, d: nat)
    requires Agree(b, s, lo, hi, d) && d <= MAIN_QSORT_DEPTH_THRESH + 1
    ensures Sorting(b, s, s, lo, hi, [Segment(lo, hi, d)])
  {
    var r := Ranges([Segment(lo, hi, d)]);
    forall x, y | lo <= x < y <= hi ensures InOne(r, x, y) {
      assert r[0].0 <= x && y <= r[0].1;
    }
  }

  lemma TopFits(b: seq<Byte>, s0: seq<int>, s: seq<int>, lo: int, hi: int, todo: seq<Segment>)
    requires |todo| > 0 && Sorting(b, s0, s, lo, hi, todo)
    ensures var seg := todo[|todo| - 1];
            lo <= seg.lo && seg.hi <= hi && SizeOf(seg) <= Size((lo, hi)) && Agree(b, s, seg.lo, seg.hi, seg.d)
  {
    var k := |todo| - 1;
    assert Ranges(todo)[k] == (todo[k].lo, todo[k].hi);
    assert lo <= Ranges(todo)[k].0 && Ranges(todo)[k].1 <= hi;
  }

  lemma SortingEnd(b: seq<Byte>, s0: seq<int>, s: seq<int>, lo: int, hi: int)
    requires Sorting(b, s0, s, lo, hi, [])
    ensures Shuffled(s0, s, lo, hi) && SortedByRotation(b, s, lo, hi)
  {
    forall x, y | lo <= x < y <= hi ensures ByRotation(b)(s[x], s[y]) {
      assert ByRotation(b)(s[x], s[y]) || InOne(Ranges([]), x, y);
    }
  }
}
