// Sorting a range of fmap by the rank each element has in eclass.
module FallbackQSort {
  import opened SortStack
  import opened Partitioning

  const FALLBACK_QSORT_SMALL_THRESH := 10
  const FALLBACK_QSORT_STACK_SIZE := 100

  ghost function ByKey(key: seq<int>): (int, int) -> bool {
    (u: int, v: int) => 0 <= u < |key| && 0 <= v < |key| && key[u] <= key[v]
  }

  ghost predicate SortedByKey(s: seq<int>, key: seq<int>, lo: int, hi: int) {
    0 <= lo && hi < |s| && forall x, y :: lo <= x < y <= hi ==> ByKey(key)(s[x], s[y])
  }

  // ---- insertion sort -----------------------------------------------------

  // Element s0[i], in hand, has been passed by every smaller-keyed element up to the open slot.
  ghost predicate Inserting(s0: seq<int>, s: seq<int>, key: seq<int>, lo: int, hi: int, i: int, gap: int, slot: int) {
    && 0 <= lo <= i <= slot <= hi < |s| && |s| == |s0|
    && Keyed(s0, key, lo, hi) && Keyed(s, key, lo, hi)
    && Shuffled(s0, s[slot := s0[i]], lo, hi)
    && (forall x :: slot < x <= hi ==> s[x] == s0[x])
    && (gap == 1 ==> forall x :: i <= x < slot ==> s[x] == s0[x + 1] && key[s[x]] < key[s0[i]])
  }

  lemma InsertStep(s0: seq<int>, s: seq<int>, key: seq<int>, lo: int, hi: int, i: int, gap: int, slot: int)
    requires gap > 0 && slot + gap <= hi && Inserting(s0, s, key, lo, hi, i, gap, slot)
    requires key[s0[i]] > key[s[slot + gap]]
    ensures Inserting(s0, s[slot := s[slot + gap]], key, lo, hi, i, gap, slot + gap)
  {
    var j := slot + gap;
    assert s[slot := s[j]][j := s0[i]] == Swapped(s[slot := s0[i]], slot, j);
  }

  lemma InsertDone(s0: seq<int>, s: seq<int>, key: seq<int>, lo: int, hi: int, i: int, gap: int, slot: int)
    requires gap > 0 && Inserting(s0, s, key, lo, hi, i, gap, slot)
    requires slot + gap <= hi ==> key[s0[i]] <= key[s[slot + gap]]
    ensures Shuffled(s0, s[slot := s0[i]], lo, hi)
    ensures gap == 1 && SortedByKey(s0, key, i + 1, hi) ==> SortedByKey(s[slot := s0[i]], key, i, hi)
  {
    if gap == 1 && SortedByKey(s0, key, i + 1, hi) {
      InsertedSorted(s0, s[slot := s0[i]], key, i, hi, slot);
    }
  }

  // Moves a[i] up in steps of gap past every smaller-keyed element.
  method InsertUp(a: array<int>, key: seq<int>, lo: int, hi: int, i: int, gap: int)
    requires gap > 0 && lo <= i <= hi && Keyed(a[..], key, lo, hi)
    modifies a
    ensures Shuffled(old(a[..]), a[..], lo, hi)
    ensures gap == 1 && old(SortedByKey(a[..], key, i + 1, hi)) ==> SortedByKey(a[..], key, i, hi)
  {
    ghost var s0 := a[..];
    ghost var s, slot := s0, i;
    var tmp := a[i];
    var j := i + gap;
    assert s[i := s0[i]] == s0;
    while j <= hi && key[tmp] > key[a[j]]
      invariant a[..] == s && slot + gap == j && Inserting(s0, s, key, lo, hi, i, gap, slot)
    {
      InsertStep(s0, s, key, lo, hi, i, gap, slot);
      a[j - gap] := a[j];
      s := s[slot := s[slot + gap]];
      j, slot := j + gap, slot + gap;
    }
    InsertDone(s0, s, key, lo, hi, i, gap, slot);
    a[j - gap] := tmp;
    assert a[..] == s[slot := s0[i]];
  }

  lemma InsertedSorted(s: seq<int>, t: seq<int>, key: seq<int>, i: int, hi: int, slot: int)
    requires 0 <= i <= slot <= hi < |s| && |t| == |s|
    requires SortedByKey(s, key, i + 1, hi) && 0 <= s[i] < |key|
    requires t[slot] == s[i]
    requires forall x :: i <= x < slot ==> t[x] == s[x + 1] && 0 <= t[x] < |key| && key[t[x]] < key[s[i]]
    requires forall x :: slot < x <= hi ==> t[x] == s[x]
    requires slot < hi ==> 0 <= s[slot + 1] < |key| && key[s[i]] <= key[s[slot + 1]]
    ensures SortedByKey(t, key, i, hi)
  {
    forall x, y | i <= x < y <= hi ensures ByKey(key)(t[x], t[y]) {
      var x', y' := if x < slot then x + 1 else if x == slot then i else x,
                    if y < slot then y + 1 else if y == slot then i else y;
      assert t[x] == s[x'] && t[y] == s[y'];
      if x == slot && y > slot + 1 {
        assert ByKey(key)(s[slot + 1], s[y]);
      } else if x != slot && y != slot {
        assert ByKey(key)(s[x'], s[y']);
      }
    }
  }

  method SimpleSort(a: array<int>, key: seq<int>, lo: int, hi: int)
    requires Keyed(a[..], key, lo, hi)
    modifies a
    ensures Shuffled(old(a[..]), a[..], lo, hi)
    ensures SortedByKey(a[..], key, lo, hi)
  {
    if lo == hi {
      return;
    }
    if hi - lo > 3 {
      var i := hi - 4;
      while i >= lo
        invariant lo - 1 <= i <= hi - 4
        invariant Shuffled(old(a[..]), a[..], lo, hi) && Keyed(a[..], key, lo, hi)
      {
        ghost var s := a[..];
        InsertUp(a, key, lo, hi, i, 4);
        ShuffledTrans(old(a[..]), s, a[..], lo, hi, lo, hi);
        ShuffledKeyed(s, a[..], key, lo, hi);
        i := i - 1;
      }
    }
    var i := hi - 1;
    while i >= lo
      invariant i < hi && (lo - 1 <= i || i == hi - 1)
      invariant Shuffled(old(a[..]), a[..], lo, hi) && Keyed(a[..], key, lo, hi)
      invariant lo <= hi ==> SortedByKey(a[..], key, i + 1, hi)
      decreases i
    {
      ghost var s := a[..];
      InsertUp(a, key, lo, hi, i, 1);
      ShuffledTrans(old(a[..]), s, a[..], lo, hi, lo, hi);
      ShuffledKeyed(s, a[..], key, lo, hi);
      i := i - 1;
    }
  }

  lemma ShuffledKeyed(s: seq<int>, t: seq<int>, key: seq<int>, lo: int, hi: int)
    requires Shuffled(s, t, lo, hi) && Keyed(s, key, lo, hi)
    ensures Keyed(t, key, lo, hi)
  {
    ShuffledAll(s, t, lo, hi, v => 0 <= v < |key|);
  }

  // ---- three-way quicksort ------------------------------------------------

  ghost predicate Sorting(s0: seq<int>, s: seq<int>, key: seq<int>, lo: int, hi: int, segs: seq<(int, int)>) {
    && Shuffled(s0, s, lo, hi) && Keyed(s, key, lo, hi)
    && SortedButFor(ByKey(key), s, lo, hi, segs)
    && Tapers(segs, Size((lo, hi)), 1)
    && |segs| <= 30
  }

  // The top segment has been rearranged and what is left of it, if anything, pushed back.
  lemma SortingStep(s0: seq<int>, s: seq<int>, t: seq<int>, key: seq<int>, lo: int, hi: int, segs: seq<(int, int)>,
                    parts: seq<(int, int)>)
    requires |segs| > 0 && Sorting(s0, s, key, lo, hi, segs)
    requires var seg := segs[|segs| - 1]; Shuffled(s, t, seg.0, seg.1) && Splits(ByKey(key), t, seg, parts)
    requires Tapers(segs[..|segs| - 1] + parts, Size((lo, hi)), 1) && |segs| - 1 + |parts| <= 30
    ensures Sorting(s0, t, key, lo, hi, segs[..|segs| - 1] + parts)
  {
    var seg := segs[|segs| - 1];
    SplitTop(ByKey(key), s, t, lo, hi, segs, parts);
    ShuffledTrans(s0, s, t, lo, hi, seg.0, seg.1);
    ShuffledKeyed(s, t, key, lo, hi);
  }

  lemma SortingBegins(s: seq<int>, key: seq<int>, lo: int, hi: int)
    requires lo <= hi && Keyed(s, key, lo, hi)
    ensures Sorting(s, s, key, lo, hi, [(lo, hi)])
  {
    forall x, y | lo <= x < y <= hi ensures InOne([(lo, hi)], x, y) {
      assert [(lo, hi)][0].0 <= x && y <= [(lo, hi)][0].1;
    }
  }

  lemma SortingTop(s0: seq<int>, s: seq<int>, key: seq<int>, lo: int, hi: int, segs: seq<(int, int)>)
    requires |segs| > 0 && Sorting(s0, s, key, lo, hi, segs)
    ensures Keyed(s, key, segs[|segs| - 1].0, segs[|segs| - 1].1) && Tapers(segs, Size((lo, hi)), 1) && |segs| <= 30
  {
  }

  lemma SortingEnds(s0: seq<int>, s: seq<int>, key: seq<int>, lo: int, hi: int)
    requires Sorting(s0, s, key, lo, hi, [])
    ensures Shuffled(s0, s, lo, hi) && SortedByKey(s, key, lo, hi)
  {
  }

  lemma SortedSplits(t: seq<int>, key: seq<int>, seg: (int, int))
    requires SortedByKey(t, key, seg.0, seg.1)
    ensures Splits(ByKey(key), t, seg, [])
  {
  }

  lemma PartedSplits(t: seq<int>, key: seq<int>, seg: (int, int), med: int, n: int, m: int, parts: seq<(int, int)>)
    requires 0 <= seg.0 && seg.1 < |t| && Parted(t, key, seg.0, seg.1, med, n, m)
    requires parts == [(seg.0, n), (m, seg.1)] || parts == [(m, seg.1), (seg.0, n)]
    ensures Splits(ByKey(key), t, seg, parts)
  {
    forall x, y | seg.0 <= x < y <= seg.1 ensures ByKey(key)(t[x], t[y]) || InOne(parts, x, y) {
      if y <= n || m <= x {
        var k := if parts[0].0 <= x && y <= parts[0].1 then 0 else 1;
        assert parts[k].0 <= x && y <= parts[k].1;
      }
    }
  }

  // Two parts of a segment, the larger first, leaving out at least one element.
  ghost predicate Shrinks(seg: (int, int), parts: seq<(int, int)>) {
    && |parts| == 2 && 11 <= Size(seg)
    && Size(parts[1]) <= Size(parts[0])
    && Size(parts[0]) + Size(parts[1]) < Size(seg)
  }

  // A segment big enough to be partitioned lies low on the stack; its two parts taper.
  lemma Balanced(segs: seq<(int, int)>, parts: seq<(int, int)>, bound: nat)
    requires |segs| > 0 && Tapers(segs, bound, 1) && bound < 0x8000_0000
    requires Shrinks(segs[|segs| - 1], parts)
    ensures |segs| <= 28
    ensures Tapers(segs[..|segs| - 1] + parts, bound, 1)
  {
    var p := |segs| - 1;
    assert Size(segs[p]) <= Limit(bound, p / 1);
    LowOnStack(p, Size(segs[p]), bound);
    assert Limit(bound, p + 1) == Limit(bound, p) / 2;
  }

  lemma Tapering(segs: seq<(int, int)>, parts: seq<(int, int)>, bound: nat)
    requires 0 < |segs| <= 30 && Tapers(segs, bound, 1) && bound < 0x8000_0000
    requires parts == [] || Shrinks(segs[|segs| - 1], parts)
    ensures |segs| - 1 + |parts| <= 30 && Tapers(segs[..|segs| - 1] + parts, bound, 1)
  {
    if parts != [] {
      Balanced(segs, parts, bound);
    }
  }

  lemma LessWork(segs: seq<(int, int)>, parts: seq<(int, int)>)
    requires |segs| > 0 && (parts == [] || Shrinks(segs[|segs| - 1], parts))
    ensures Work(segs[..|segs| - 1] + parts) < Work(segs)
  {
    var rest := segs[..|segs| - 1];
    if parts == [] {
      assert rest + parts == rest;
    } else {
      assert rest + parts == rest + [parts[0]] + [parts[1]];
      WorkAppend(rest, parts[0]);
      WorkAppend(rest + [parts[0]], parts[1]);
    }
  }

  // Sorts a small segment outright; splits a larger one about a pivot picked at random.
  method Refine(fmap: array<int>, eclass: seq<int>, lo: int, hi: int, r: nat)
      returns (r': nat, parts: seq<(int, int)>)
    requires Keyed(fmap[..], eclass, lo, hi)
    modifies fmap
    ensures Shuffled(old(fmap[..]), fmap[..], lo, hi)
    ensures Splits(ByKey(eclass), fmap[..], (lo, hi), parts)
    ensures parts == [] || Shrinks((lo, hi), parts)
  {
    if hi - lo < FALLBACK_QSORT_SMALL_THRESH {
      SimpleSort(fmap, eclass, lo, hi);
      SortedSplits(fmap[..], eclass, (lo, hi));
      return r, [];
    }
    r' := (r * 7621 + 1) % 32768;
    var p := if r' % 3 == 0 then lo else if r' % 3 == 1 then (lo + hi) / 2 else hi;
    ghost var s := fmap[..];
    var allEqual, n, m := Partition(fmap, eclass, lo, hi, eclass[fmap[p]]);
    if allEqual {
      SortedSplits(fmap[..], eclass, (lo, hi));
      return r', [];
    }
    PivotStays(s, fmap[..], eclass, lo, hi, eclass[s[p]], p, n, m);
    parts := if n - lo > hi - m then [(lo, n), (m, hi)] else [(m, hi), (lo, n)];
    PartedSplits(fmap[..], eclass, (lo, hi), eclass[s[p]], n, m, parts);
  }

  method FallbackQSort3(fmap: array<int>, eclass: seq<int>, loSt: int, hiSt: int)
    requires loSt <= hiSt && Keyed(fmap[..], eclass, loSt, hiSt)
    requires Size((loSt, hiSt)) < 0x8000_0000
    modifies fmap
    ensures Shuffled(old(fmap[..]), fmap[..], loSt, hiSt)
    ensures SortedByKey(fmap[..], eclass, loSt, hiSt)
  {
    hide Sorting, Shuffled, SortedByKey, Keyed, Tapers, Shrinks, Splits, Work, Size;
    var stackLo := new int[FALLBACK_QSORT_STACK_SIZE];
    var stackHi := new int[FALLBACK_QSORT_STACK_SIZE];
    ghost var s, segs := fmap[..], [(loSt, hiSt)];
    SortingBegins(s, eclass, loSt, hiSt);
    var r := 0;
    var sp := Push(stackLo, stackHi, 0, [(loSt, hiSt)], []);
    while sp > 0
      invariant sp == |segs| && StackHolds(stackLo[..], stackHi[..], segs)
      invariant fmap[..] == s && Sorting(old(fmap[..]), s, eclass, loSt, hiSt, segs)
      decreases Work(segs)
    {
      SortingTop(old(fmap[..]), s, eclass, loSt, hiSt, segs);
      assert sp < FALLBACK_QSORT_STACK_SIZE;
      sp := sp - 1;
      var lo, hi := stackLo[sp], stackHi[sp];
      ghost var rest := segs[..sp];
      var parts;
      r, parts := Refine(fmap, eclass, lo, hi, r);
      LessWork(segs, parts);
      Tapering(segs, parts, Size((loSt, hiSt)));
      sp := Push(stackLo, stackHi, sp, parts, rest);
      SortingStep(old(fmap[..]), s, fmap[..], eclass, loSt, hiSt, segs, parts);
      s, segs := fmap[..], rest + parts;
    }
    assert segs == [];
    SortingEnds(old(fmap[..]), s, eclass, loSt, hiSt);
  }
}
