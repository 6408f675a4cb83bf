// Bentley and McIlroy's three-way partition, as both block sorts write it out: equal keys are
// parked at the two ends while scanning, then swapped into the middle.
module Partitioning {
  import opened SortStack

  ghost predicate Keyed(s: seq<int>, key: seq<int>, lo: int, hi: int) {
    && 0 <= lo && hi < |s|
    && forall x :: lo <= x <= hi ==> 0 <= s[x] < |key|
  }

  // Positions lo..hi hold keys related to med as sign says: below, equal or above.
  ghost predicate Zone(s: seq<int>, key: seq<int>, lo: int, hi: int, med: int, sign: int) {
    forall x :: lo <= x <= hi ==>
      0 <= x < |s| && 0 <= s[x] < |key| &&
      (if sign < 0 then key[s[x]] < med else if sign > 0 then key[s[x]] > med else key[s[x]] == med)
  }

  ghost predicate Scanning(s: seq<int>, key: seq<int>, lo: int, hi: int, med: int, ltLo: int, unLo: int, unHi: int,
                           gtHi: int) {
    && lo <= ltLo <= unLo <= unHi + 1 <= gtHi + 1 <= hi + 1
    && Keyed(s, key, lo, hi)
    && Zone(s, key, lo, ltLo - 1, med, 0)
    && Zone(s, key, ltLo, unLo - 1, med, -1)
    && Zone(s, key, unHi + 1, gtHi, med, 1)
    && Zone(s, key, gtHi + 1, hi, med, 0)
  }

  lemma ScanningNone(s: seq<int>, key: seq<int>, lo: int, hi: int, med: int)
    requires lo <= hi + 1 && Keyed(s, key, lo, hi)
    ensures Scanning(s, key, lo, hi, med, lo, lo, hi, hi) && Shuffled(s, s, lo, hi)
  {
  }

  lemma StepUp(s: seq<int>, key: seq<int>, lo: int, hi: int, med: int, ltLo: int, unLo: int, unHi: int, gtHi: int)
    requires Scanning(s, key, lo, hi, med, ltLo, unLo, unHi, gtHi) && unLo <= unHi
    ensures key[s[unLo]] < med ==> Scanning(s, key, lo, hi, med, ltLo, unLo + 1, unHi, gtHi)
    ensures key[s[unLo]] == med ==> Scanning(Swapped(s, unLo, ltLo), key, lo, hi, med, ltLo + 1, unLo + 1, unHi, gtHi)
  {
  }

  lemma StepDown(s: seq<int>, key: seq<int>, lo: int, hi: int, med: int, ltLo: int, unLo: int, unHi: int, gtHi: int)
    requires Scanning(s, key, lo, hi, med, ltLo, unLo, unHi, gtHi) && unLo <= unHi
    ensures key[s[unHi]] > med ==> Scanning(s, key, lo, hi, med, ltLo, unLo, unHi - 1, gtHi)
    ensures key[s[unHi]] == med ==> Scanning(Swapped(s, unHi, gtHi), key, lo, hi, med, ltLo, unLo, unHi - 1, gtHi - 1)
  {
  }

  lemma StepBoth(s: seq<int>, key: seq<int>, lo: int, hi: int, med: int, ltLo: int, unLo: int, unHi: int, gtHi: int)
    requires Scanning(s, key, lo, hi, med, ltLo, unLo, unHi, gtHi) && unLo <= unHi
    requires key[s[unLo]] > med > key[s[unHi]]
    ensures Scanning(Swapped(s, unLo, unHi), key, lo, hi, med, ltLo, unLo + 1, unHi - 1, gtHi)
  {
  }

  method Scan(a: array<int>, key: seq<int>, lo: int, hi: int, med: int)
    returns (ltLo: int, unLo: int, unHi: int, gtHi: int)
    requires lo <= hi + 1 && Keyed(a[..], key, lo, hi)
    modifies a
    ensures Shuffled(old(a[..]), a[..], lo, hi)
    ensures Scanning(a[..], key, lo, hi, med, ltLo, unLo, unHi, gtHi) && unLo == unHi + 1
  {
    hide Shuffled, Zone;
    ghost var s0, s := a[..], a[..];
    ScanningNone(s, key, lo, hi, med);
    unLo, ltLo := lo, lo;
    unHi, gtHi := hi, hi;
    while true
      invariant a[..] == s && Shuffled(s0, s, lo, hi)
      invariant Scanning(s, key, lo, hi, med, ltLo, unLo, unHi, gtHi)
      decreases unHi - unLo
    {
      while unLo <= unHi && key[a[unLo]] <= med
        invariant a[..] == s && Shuffled(s0, s, lo, hi)
        invariant Scanning(s, key, lo, hi, med, ltLo, unLo, unHi, gtHi)
        decreases unHi - unLo
      {
        StepUp(s, key, lo, hi, med, ltLo, unLo, unHi, gtHi);
        if key[a[unLo]] == med {
          SwappedShuffles(s0, s, lo, hi, unLo, ltLo);
          Swap(a, unLo, ltLo);
          s := Swapped(s, unLo, ltLo);
          ltLo := ltLo + 1;
        }
        unLo := unLo + 1;
      }
      while unLo <= unHi && key[a[unHi]] >= med
        invariant a[..] == s && Shuffled(s0, s, lo, hi)
        invariant Scanning(s, key, lo, hi, med, ltLo, unLo, unHi, gtHi)
        invariant unLo <= unHi ==> key[s[unLo]] > med
        decreases unHi - unLo
      {
        StepDown(s, key, lo, hi, med, ltLo, unLo, unHi, gtHi);
        if key[a[unHi]] == med {
          SwappedShuffles(s0, s, lo, hi, unHi, gtHi);
          Swap(a, unHi, gtHi);
          s := Swapped(s, unHi, gtHi);
          gtHi := gtHi - 1;
        }
        unHi := unHi - 1;
      }
      if unLo > unHi {
        break;
      }
      StepBoth(s, key, lo, hi, med, ltLo, unLo, unHi, gtHi);
      SwappedShuffles(s0, s, lo, hi, unLo, unHi);
      Swap(a, unLo, unHi);
      s := Swapped(s, unLo, unHi);
      unLo := unLo + 1;
      unHi := unHi - 1;
    }
  }

  // s with the n elements from p exchanged with the n elements from q
  ghost predicate VecSwapped(s: seq<int>, t: seq<int>, p: int, q: int, n: int)
    requires 0 <= n && 0 <= p && p + n <= q && q + n <= |s|
  {
    && |t| == |s| && multiset(t) == multiset(s)
    && forall k :: 0 <= k < |s| ==>
         t[k] == s[Source(p, q, n, k)]
  }

  lemma VecSwapStep(s: seq<int>, t: seq<int>, p: int, q: int, i: int)
    requires 0 <= i && 0 <= p && p + i + 1 <= q && q + i + 1 <= |s| && VecSwapped(s, t, p, q, i)
    ensures VecSwapped(s, Swapped(t, p + i, q + i), p, q, i + 1)
  {
    assert t[p + i] == s[p + i] && t[q + i] == s[q + i];
  }

  // The element VecSwap brings to position k came from here.
  function Source(p: int, q: int, n: int, k: int): int {
    if p <= k < p + n then k - p + q else if q <= k < q + n then k - q + p else k
  }

  method VecSwap(a: array<int>, p: int, q: int, n: int)
    requires 0 <= n && 0 <= p && p + n <= q && q + n <= a.Length
    modifies a
    ensures VecSwapped(old(a[..]), a[..], p, q, n)
  {
    for i := 0 to n
      invariant VecSwapped(old(a[..]), a[..], p, q, i)
    {
      VecSwapStep(old(a[..]), a[..], p, q, i);
      Swap(a, p + i, q + i);
    }
  }

  // The segment after partitioning: below med up to n, equal to it in between, above it from m.
  ghost predicate Parted(s: seq<int>, key: seq<int>, lo: int, hi: int, med: int, n: int, m: int) {
    && lo - 1 <= n < m <= hi + 1
    && Zone(s, key, lo, n, med, -1)
    && Zone(s, key, n + 1, m - 1, med, 0)
    && Zone(s, key, m, hi, med, 1)
  }

  lemma FoldLow(s: seq<int>, t: seq<int>, key: seq<int>, lo: int, hi: int, med: int, ltLo: int, unLo: int)
    requires 0 <= lo <= ltLo <= unLo <= hi + 1 <= |s|
    requires Zone(s, key, lo, ltLo - 1, med, 0) && Zone(s, key, ltLo, unLo - 1, med, -1)
    requires VecSwapped(s, t, lo, unLo - Min(ltLo - lo, unLo - ltLo), Min(ltLo - lo, unLo - ltLo))
    ensures Zone(t, key, lo, lo + unLo - ltLo - 1, med, -1) && Zone(t, key, lo + unLo - ltLo, unLo - 1, med, 0)
  {
    var k := Min(ltLo - lo, unLo - ltLo);
    forall x | lo <= x < unLo
      ensures 0 <= t[x] < |key| && (if x < lo + unLo - ltLo then key[t[x]] < med else key[t[x]] == med)
    {
      var y := Source(lo, unLo - k, k, x);
      assert t[x] == s[y];
      assert x < lo + unLo - ltLo <==> ltLo <= y < unLo;
    }
  }

  lemma FoldHigh(s: seq<int>, t: seq<int>, key: seq<int>, lo: int, hi: int, med: int, unLo: int, gtHi: int)
    requires 0 <= lo <= unLo <= gtHi + 1 <= hi + 1 <= |s|
    requires Zone(s, key, unLo, gtHi, med, 1) && Zone(s, key, gtHi + 1, hi, med, 0)
    requires VecSwapped(s, t, unLo, hi + 1 - Min(gtHi + 1 - unLo, hi - gtHi), Min(gtHi + 1 - unLo, hi - gtHi))
    ensures Zone(t, key, unLo, hi - (gtHi - unLo + 1), med, 0)
    ensures Zone(t, key, hi - (gtHi - unLo + 1) + 1, hi, med, 1)
  {
    var k := Min(gtHi + 1 - unLo, hi - gtHi);
    forall x | unLo <= x <= hi
      ensures 0 <= t[x] < |key|
      ensures if x <= hi - (gtHi - unLo + 1) then key[t[x]] == med else key[t[x]] > med
    {
      var y := Source(unLo, hi - k + 1, k, x);
      assert t[x] == s[y];
      assert x <= hi - (gtHi - unLo + 1) <==> gtHi < y <= hi;
    }
  }

  lemma FoldedShuffles(s: seq<int>, t: seq<int>, u: seq<int>, lo: int, hi: int, p: int, k: nat, q: int, m: nat)
    requires 0 <= lo && lo + k <= p && p + k <= q && q + m <= hi + 1 - m && hi < |s|
    requires VecSwapped(s, t, lo, p, k) && VecSwapped(t, u, q, hi + 1 - m, m)
    ensures Shuffled(s, u, lo, hi)
  {
  }

  // The low end folded: below med first, then equal to it; the rest is as it was.
  ghost predicate HalfFolded(t: seq<int>, key: seq<int>, lo: int, hi: int, med: int, n: int, unLo: int, gtHi: int) {
    && lo - 1 <= n < unLo <= gtHi + 1 <= hi + 1 <= |t| && 0 <= lo
    && Zone(t, key, lo, n, med, -1) && Zone(t, key, n + 1, unLo - 1, med, 0)
    && Zone(t, key, unLo, gtHi, med, 1) && Zone(t, key, gtHi + 1, hi, med, 0)
  }

  lemma LowFolded(s: seq<int>, t: seq<int>, key: seq<int>, lo: int, hi: int, med: int, ltLo: int, unLo: int, gtHi: int)
    requires Scanning(s, key, lo, hi, med, ltLo, unLo, unLo - 1, gtHi) && lo <= hi
    requires VecSwapped(s, t, lo, unLo - Min(ltLo - lo, unLo - ltLo), Min(ltLo - lo, unLo - ltLo))
    ensures HalfFolded(t, key, lo, hi, med, lo + unLo - ltLo - 1, unLo, gtHi)
  {
    FoldLow(s, t, key, lo, hi, med, ltLo, unLo);
    assert forall x :: unLo <= x <= hi ==> t[x] == s[x];
  }

  lemma HighFolded(t: seq<int>, u: seq<int>, key: seq<int>, lo: int, hi: int, med: int, n: int, unLo: int, gtHi: int)
    requires HalfFolded(t, key, lo, hi, med, n, unLo, gtHi)
    requires VecSwapped(t, u, unLo, hi + 1 - Min(gtHi + 1 - unLo, hi - gtHi), Min(gtHi + 1 - unLo, hi - gtHi))
    ensures Parted(u, key, lo, hi, med, n, hi - (gtHi - unLo + 1) + 1)
  {
    FoldHigh(t, u, key, lo, hi, med, unLo, gtHi);
    assert forall x :: lo <= x < unLo ==> u[x] == t[x];
    assert Zone(u, key, lo, n, med, -1);
    assert Zone(u, key, n + 1, unLo - 1, med, 0);
  }

  lemma Folded(s: seq<int>, t: seq<int>, u: seq<int>, key: seq<int>, lo: int, hi: int, med: int, ltLo: int, unLo: int,
               unHi: int, gtHi: int, n: int, m: int)
    requires lo <= hi && Scanning(s, key, lo, hi, med, ltLo, unLo, unHi, gtHi) && ltLo <= gtHi
    requires unLo == unHi + 1 && n == lo + unLo - ltLo - 1 && m == hi - (gtHi - unHi) + 1
    requires VecSwapped(s, t, lo, unLo - Min(ltLo - lo, unLo - ltLo), Min(ltLo - lo, unLo - ltLo))
    requires VecSwapped(t, u, unLo, hi + 1 - Min(gtHi + 1 - unLo, hi - gtHi), Min(gtHi + 1 - unLo, hi - gtHi))
    ensures Shuffled(s, u, lo, hi)
    ensures Parted(u, key, lo, hi, med, n, m)
  {
    hide Shuffled, Zone, HalfFolded;
    var k, k' := Min(ltLo - lo, unLo - ltLo), Min(gtHi + 1 - unLo, hi - gtHi);
    FoldedShuffles(s, t, u, lo, hi, unLo - k, k, unLo, k');
    LowFolded(s, t, key, lo, hi, med, ltLo, unLo, gtHi);
    HighFolded(t, u, key, lo, hi, med, n, unLo, gtHi);
  }

  function Min(x: int, y: int): int {
    if x < y then x else y
  }

  // Exchanges the blocks lo..mid-1 and mid..end-1, as far as the smaller one reaches.
  method FoldFront(a: array<int>, lo: int, mid: int, end: int)
    requires 0 <= lo <= mid <= end <= a.Length
    modifies a
    ensures VecSwapped(old(a[..]), a[..], lo, end - Min(mid - lo, end - mid), Min(mid - lo, end - mid))
  {
    var k := Min(mid - lo, end - mid);
    VecSwap(a, lo, end - k, k);
  }

  // Brings the equal keys from the two ends to the middle.
  method FoldEnds(a: array<int>, key: seq<int>, lo: int, hi: int, med: int, ltLo: int, unLo: int, unHi: int, gtHi: int)
    returns (n: int, m: int)
    requires lo <= hi && unLo == unHi + 1 && ltLo <= gtHi
    requires Scanning(a[..], key, lo, hi, med, ltLo, unLo, unHi, gtHi)
    modifies a
    ensures Shuffled(old(a[..]), a[..], lo, hi)
    ensures Parted(a[..], key, lo, hi, med, n, m)
  {
    hide Shuffled, Zone, Parted, VecSwapped;
    ghost var s := a[..];
    FoldFront(a, lo, ltLo, unLo);
    ghost var t := a[..];
    FoldFront(a, unLo, gtHi + 1, hi + 1);
    n := lo + unLo - ltLo - 1;
    m := hi - (gtHi - unHi) + 1;
    Folded(s, t, a[..], key, lo, hi, med, ltLo, unLo, unHi, gtHi, n, m);
  }

  method Partition(a: array<int>, key: seq<int>, lo: int, hi: int, med: int) returns (allEqual: bool, n: int, m: int)
    requires lo <= hi && Keyed(a[..], key, lo, hi)
    modifies a
    ensures Shuffled(old(a[..]), a[..], lo, hi)
    ensures allEqual ==> Zone(a[..], key, lo, hi, med, 0)
    ensures !allEqual ==> Parted(a[..], key, lo, hi, med, n, m)
  {
    var ltLo, unLo, unHi, gtHi := Scan(a, key, lo, hi, med);
    if gtHi < ltLo {
      return true, lo, hi;
    }
    ghost var s := a[..];
    n, m := FoldEnds(a, key, lo, hi, med, ltLo, unLo, unHi, gtHi);
    ShuffledTrans(old(a[..]), s, a[..], lo, hi, lo, hi);
    allEqual := false;
  }

  // The pivot's own element ends up in the middle zone, so both outer zones together are smaller.
  lemma PivotStays(s: seq<int>, t: seq<int>, key: seq<int>, lo: int, hi: int, med: int, p: int, n: int, m: int)
    requires Keyed(s, key, lo, hi) && lo <= p <= hi && key[s[p]] == med
    requires Shuffled(s, t, lo, hi) && Parted(t, key, lo, hi, med, n, m)
    ensures n + 1 < m
  {
    ShuffledFrom(t, s, lo, hi, p);
    var y :| lo <= y <= hi && t[y] == s[p];
    assert n < y < m;
  }
}
