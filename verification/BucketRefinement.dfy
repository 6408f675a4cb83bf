// The fallback block sort: buckets by the first byte, then refined to twice the depth on every
// pass, using each rotation's bucket at depth H as its rank there.
module BucketRefinement {
  import opened Common
  import opened Counting
  import opened Buckets
  import opened Rotations
  import opened SortStack
  import opened FallbackQSort

  // ---- the depth a pass has reached ---------------------------------------

  // Place x starts a bucket at depth d.
  ghost predicate Head(b: seq<Byte>, p: seq<int>, x: nat, d: nat)
    requires |b| > 0 && x < |p| && forall y :: 0 <= y < |p| ==> 0 <= p[y]
  {
    x == 0 || !EqTo(b, p[x - 1], p[x], d)
  }

  // Bits nblock, nblock+2, ... are set and nblock+1, nblock+3, ... clear, 64 in all.
  ghost predicate Sentinels(bits: seq<bool>, n: nat) {
    && n + 64 <= |bits|
    && forall k :: n <= k < n + 64 ==> bits[k] == ((k - n) % 2 == 0)
  }

  ghost predicate SortedTo(b: seq<Byte>, p: seq<int>, d: nat) {
    && |p| == |b| > 0 && IsPerm(p)
    && forall x, y {:trigger LeqTo(b, p[x], p[y], d)} :: 0 <= x < y < |p| ==> LeqTo(b, p[x], p[y], d)
  }

  ghost predicate HeadsMarked(b: seq<Byte>, p: seq<int>, bits: seq<bool>, d: nat)
    requires SortedTo(b, p, d)
  {
    && Sentinels(bits, |p|)
    && forall x :: 0 <= x < |p| ==> bits[x] == Head(b, p, x, d)
  }

  ghost predicate Depth(b: seq<Byte>, p: seq<int>, bits: seq<bool>, d: nat) {
    SortedTo(b, p, d) && HeadsMarked(b, p, bits, d)
  }

  lemma EqTrans(b: seq<Byte>, i: nat, j: nat, l: nat, d: nat)
    requires |b| > 0 && EqTo(b, i, j, d) && EqTo(b, j, l, d)
    ensures EqTo(b, i, l, d) && EqTo(b, j, i, d)
  {
  }

  lemma EqLess(b: seq<Byte>, i: nat, j: nat, i': nat, j': nat, d: nat)
    requires |b| > 0 && EqTo(b, i, i', d) && EqTo(b, j, j', d)
    ensures LessTo(b, i, j, d) <==> LessTo(b, i', j', d)
    ensures EqTo(b, i, j, d) <==> EqTo(b, i', j', d)
  {
    if LessTo(b, i, j, d) {
      var k: nat :| k < d && EqTo(b, i, j, k) && At(b, i, k) < At(b, j, k);
      assert EqTo(b, i', j', k) && At(b, i', k) < At(b, j', k);
    }
    if LessTo(b, i', j', d) {
      var k: nat :| k < d && EqTo(b, i', j', k) && At(b, i', k) < At(b, j', k);
      assert EqTo(b, i, j, k) && At(b, i, k) < At(b, j, k);
    }
  }

  // A head is strictly above everything before it.
  lemma HeadAbove(b: seq<Byte>, p: seq<int>, x: nat, y: nat, d: nat)
    requires SortedTo(b, p, d) && x < y < |p| && Head(b, p, y, d)
    ensures LessTo(b, p[x], p[y], d)
  {
    assert LeqTo(b, p[y - 1], p[y], d);
    Trichotomy(b, p[y - 1], p[y], d);
    if x < y - 1 {
      assert LeqTo(b, p[x], p[y - 1], d);
      LessTrans(b, p[x], p[y - 1], p[y], d);
    }
  }

  lemma AcrossHead(b: seq<Byte>, p: seq<int>, x: nat, head: nat, y: nat, d: nat)
    requires SortedTo(b, p, d) && x < head <= y < |p| && Head(b, p, head, d)
    ensures LessTo(b, p[x], p[y], d)
  {
    HeadAbove(b, p, x, head, d);
    if head < y {
      assert LeqTo(b, p[x], p[head], d) && LeqTo(b, p[head], p[y], d);
      LessTrans(b, p[x], p[head], p[y], d);
    }
  }

  // ---- eclass: a rank for every rotation ----------------------------------

  ghost function HeadOf(bits: seq<bool>, i: nat): (j: nat)
    requires i < |bits|
    ensures j <= i
  {
    if i == 0 || bits[i] then i else HeadOf(bits, i - 1)
  }

  lemma {:induction false} HeadOfOrder(b: seq<Byte>, p: seq<int>, bits: seq<bool>, d: nat, i: nat, j: nat)
    requires Depth(b, p, bits, d) && i <= j < |p|
    ensures HeadOf(bits, i) <= HeadOf(bits, j)
    ensures HeadOf(bits, i) == HeadOf(bits, j) <==> EqTo(b, p[i], p[j], d)
  {
    if i == j {
      assert EqTo(b, p[i], p[j], d);
    } else {
      HeadOfOrder(b, p, bits, d, i, j - 1);
      HeadOfStep(b, p, bits, d, i, j);
    }
  }

  lemma HeadOfStep(b: seq<Byte>, p: seq<int>, bits: seq<bool>, d: nat, i: nat, j: nat)
    requires Depth(b, p, bits, d) && i < j < |p|
    ensures bits[j] ==> HeadOf(bits, j) == j && !EqTo(b, p[i], p[j], d)
    ensures !bits[j] ==> HeadOf(bits, j) == HeadOf(bits, j - 1)
    ensures !bits[j] ==> (EqTo(b, p[i], p[j - 1], d) <==> EqTo(b, p[i], p[j], d))
  {
    assert bits[j] == Head(b, p, j, d);
    if bits[j] {
      HeadAbove(b, p, i, j, d);
      Trichotomy(b, p[i], p[j], d);
    }
  }

  // eclass ranks rotation u by the bucket, at depth h, of the rotation h further on.
  ghost predicate Ranks(b: seq<Byte>, e: seq<int>, h: nat) {
    && 0 < |b| <= |e| && h <= |b|
    && forall u, v {:trigger e[u], e[v]} :: 0 <= u < |b| && 0 <= v < |b| ==>
         && (e[u] < e[v] <==> LessTo(b, Wrap(|b|, u + h), Wrap(|b|, v + h), h))
         && (e[u] == e[v] <==> EqTo(b, Wrap(|b|, u + h), Wrap(|b|, v + h), h))
  }

  // fmap[i] - H, wrapped
  function Back(n: int, i: int, h: int): (r: int)
    requires 0 <= i < n && 0 <= h <= n
    ensures 0 <= r < n && Wrap(n, r + h) == i
  {
    if i - h < 0 then i - h + n else i - h
  }

  ghost predicate RanksUpto(p: seq<int>, bits: seq<bool>, e: seq<int>, h: nat, i: nat) {
    && i <= |p| <= |e| && |p| <= |bits| && h <= |p| && IsPerm(p)
    && forall x {:trigger p[x]} :: 0 <= x < i ==> e[Back(|p|, p[x], h)] == HeadOf(bits, x)
  }

  lemma RanksFromHeads(b: seq<Byte>, p: seq<int>, bits: seq<bool>, e: seq<int>, h: nat)
    requires Depth(b, p, bits, h) && RanksUpto(p, bits, e, h, |p|)
    ensures Ranks(b, e, h)
  {
    var n := |b|;
    forall u, v | 0 <= u < n && 0 <= v < n
      ensures e[u] < e[v] <==> LessTo(b, Wrap(n, u + h), Wrap(n, v + h), h)
      ensures e[u] == e[v] <==> EqTo(b, Wrap(n, u + h), Wrap(n, v + h), h)
    {
      PermSurjective(p, Wrap(n, u + h));
      PermSurjective(p, Wrap(n, v + h));
      var x :| 0 <= x < n && p[x] == Wrap(n, u + h);
      var y :| 0 <= y < n && p[y] == Wrap(n, v + h);
      assert Back(n, p[x], h) == u && Back(n, p[y], h) == v;
      RankPair(b, p, bits, h, x, y);
    }
  }

  lemma RankPair(b: seq<Byte>, p: seq<int>, bits: seq<bool>, h: nat, x: nat, y: nat)
    requires Depth(b, p, bits, h) && x < |p| && y < |p|
    ensures HeadOf(bits, x) < HeadOf(bits, y) <==> LessTo(b, p[x], p[y], h)
    ensures HeadOf(bits, x) == HeadOf(bits, y) <==> EqTo(b, p[x], p[y], h)
  {
    Trichotomy(b, p[x], p[y], h);
    if x <= y {
      HeadOfOrder(b, p, bits, h, x, y);
      if x < y {
        assert LeqTo(b, p[x], p[y], h);
      }
    } else {
      HeadOfOrder(b, p, bits, h, y, x);
      assert LeqTo(b, p[y], p[x], h);
    }
  }

  // Ranks order the rotations of one bucket to twice its depth.
  lemma RankDoubles(b: seq<Byte>, e: seq<int>, h: nat, u: nat, v: nat)
    requires Ranks(b, e, h) && u < |b| && v < |b| && EqTo(b, u, v, h)
    ensures e[u] <= e[v] <==> LeqTo(b, u, v, 2 * h)
    ensures e[u] == e[v] <==> EqTo(b, u, v, 2 * h)
  {
    EqSplit(b, u, v, h, h);
    LessSplit(b, v, u, h, h);
    Trichotomy(b, u, v, h);
    assert EqTo(b, v, u, h);
    assert e[v] < e[u] <==> LessTo(b, Wrap(|b|, v + h), Wrap(|b|, u + h), h);
    assert 2 * h == h + h;
  }

  // ---- refining the buckets one by one ------------------------------------

  // Places up to r are sorted and marked to depth 2h; the rest are as they were at depth h.
  ghost predicate Refined(b: seq<Byte>, p0: seq<int>, bits0: seq<bool>, p: seq<int>, bits: seq<bool>, h: nat, r: int)
    requires Depth(b, p0, bits0, h)
  {
    && -1 <= r < |b| && |p| == |b| && IsPerm(p) && |bits| == |bits0|
    && (forall x :: 0 <= x < |p| ==> EqTo(b, p0[x], p[x], h))
    && (forall x :: r < x < |p| ==> p[x] == p0[x])
    && (forall x, y {:trigger LeqTo(b, p[x], p[y], 2 * h)} :: 0 <= x < y <= r ==> LeqTo(b, p[x], p[y], 2 * h))
    && (forall x :: 0 <= x <= r ==> bits[x] == Head(b, p, x, 2 * h))
    && (forall x :: r < x < |bits| ==> bits[x] == bits0[x])
    && bits0[r + 1]
  }

  // Different buckets stay in order.
  lemma AcrossBuckets(b: seq<Byte>, p0: seq<int>, bits0: seq<bool>, p: seq<int>, h: nat, x: nat, y: nat, head: nat)
    requires Depth(b, p0, bits0, h) && x < head <= y < |b| == |p| && IsPerm(p) && bits0[head]
    requires forall z :: 0 <= z < |p| ==> EqTo(b, p0[z], p[z], h)
    ensures LessTo(b, p[x], p[y], h) && LeqTo(b, p[x], p[y], 2 * h) && !EqTo(b, p[x], p[y], 2 * h)
  {
    AcrossHead(b, p0, x, head, y, h);
    EqLess(b, p0[x], p0[y], p[x], p[y], h);
    LessDeeper(b, p[x], p[y], h, 2 * h);
  }

  // A bucket of one needs no sorting.
  lemma SkipSingleton(b: seq<Byte>, p0: seq<int>, bits0: seq<bool>, p: seq<int>, bits: seq<bool>, h: nat, r: int)
    requires Depth(b, p0, bits0, h) && Refined(b, p0, bits0, p, bits, h, r)
    requires r + 1 < |b| && bits0[r + 2]
    ensures Refined(b, p0, bits0, p, bits, h, r + 1)
  {
    assert bits[r + 1];
    if r >= 0 {
      AcrossBuckets(b, p0, bits0, p, h, r, r + 1, r + 1);
    }
    assert Head(b, p, r + 1, 2 * h);
    forall x, y | 0 <= x < y <= r + 1 ensures LeqTo(b, p[x], p[y], 2 * h) {
      if y == r + 1 {
        AcrossBuckets(b, p0, bits0, p, h, x, r + 1, r + 1);
      }
    }
  }

  lemma {:induction false} SkipSingletons(b: seq<Byte>, p0: seq<int>, bits0: seq<bool>, p: seq<int>, bits: seq<bool>,
                                          h: nat, r: int, l: nat)
    requires Depth(b, p0, bits0, h) && Refined(b, p0, bits0, p, bits, h, r)
    requires r + 1 <= l <= |b| && forall x :: r < x <= l ==> bits0[x]
    ensures Refined(b, p0, bits0, p, bits, h, l - 1)
    decreases l - r
  {
    if r + 1 < l {
      SkipSingleton(b, p0, bits0, p, bits, h, r);
      SkipSingletons(b, p0, bits0, p, bits, h, r + 1, l);
    }
  }

  lemma {:induction false} BucketEqual(b: seq<Byte>, p0: seq<int>, bits0: seq<bool>, h: nat, l: nat, x: nat)
    requires Depth(b, p0, bits0, h) && l <= x < |b|
    requires forall y :: l < y <= x ==> !bits0[y]
    ensures EqTo(b, p0[l], p0[x], h) && EqTo(b, p0[x], p0[l], h)
  {
    if l < x {
      BucketEqual(b, p0, bits0, h, l, x - 1);
      assert bits0[x] == Head(b, p0, x, h);
      EqTrans(b, p0[l], p0[x - 1], p0[x], h);
    }
  }

  // The bits of bucket [l, r] after the scan that marks where eclass changes.
  ghost predicate Marked(bits: seq<bool>, bits': seq<bool>, t: seq<int>, e: seq<int>, l: nat, r: nat)
    requires r < |t| && forall x :: 0 <= x < |t| ==> 0 <= t[x] < |e|
  {
    && |bits'| == |bits| && l <= r < |bits|
    && (forall x :: l < x <= r ==> bits'[x] == (bits[x] || e[t[x - 1]] != e[t[x]]))
    && (forall x :: 0 <= x < |bits| && !(l <= x <= r) ==> bits'[x] == bits[x])
    && bits'[l]
  }

  lemma RefineBucket(b: seq<Byte>, p0: seq<int>, bits0: seq<bool>, p: seq<int>, bits: seq<bool>, h: nat, e: seq<int>,
                     l: nat, r: nat, t: seq<int>, bits': seq<bool>)
    requires Depth(b, p0, bits0, h) && Refined(b, p0, bits0, p, bits, h, l - 1) && Ranks(b, e, h)
    requires l <= r < |b| && (forall x :: l < x <= r ==> !bits0[x]) && bits0[r + 1]
    requires Shuffled(p, t, l, r) && SortedByKey(t, e, l, r) && IsPerm(t)
    requires Marked(bits, bits', t, e, l, r)
    ensures Refined(b, p0, bits0, t, bits', h, r)
  {
    forall x | 0 <= x < |b| ensures EqTo(b, p0[x], t[x], h) {
      if l <= x <= r {
        ShuffledFrom(p, t, l, r, x);
        var y :| l <= y <= r && p[y] == t[x];
        BucketEqual(b, p0, bits0, h, l, x);
        BucketEqual(b, p0, bits0, h, l, y);
        EqTrans(b, p0[x], p0[l], p0[y], h);
        EqTrans(b, p0[x], p0[y], p[y], h);
      }
    }
    forall x, y | 0 <= x < y <= r
      ensures LeqTo(b, t[x], t[y], 2 * h)
      ensures l <= x ==> (e[t[x]] == e[t[y]] <==> EqTo(b, t[x], t[y], 2 * h))
    {
      if y < l {
        assert LeqTo(b, p[x], p[y], 2 * h);
      } else if x < l {
        AcrossBuckets(b, p0, bits0, t, h, x, y, l);
      } else {
        BucketEqual(b, p0, bits0, h, l, x);
        BucketEqual(b, p0, bits0, h, l, y);
        EqTrans(b, p0[x], p0[l], p0[y], h);
        EqLess(b, p0[x], p0[y], t[x], t[y], h);
        assert ByKey(e)(t[x], t[y]);
        RankDoubles(b, e, h, t[x], t[y]);
      }
    }
    forall x | 0 <= x <= r ensures bits'[x] == Head(b, t, x, 2 * h) {
      if x < l {
        assert bits'[x] == bits[x] == Head(b, p, x, 2 * h);
      } else if x == l {
        if l > 0 {
          AcrossBuckets(b, p0, bits0, t, h, l - 1, l, l);
        }
      }
    }
  }

  lemma AllRefined(b: seq<Byte>, p0: seq<int>, bits0: seq<bool>, p: seq<int>, bits: seq<bool>, h: nat)
    requires Depth(b, p0, bits0, h) && Refined(b, p0, bits0, p, bits, h, |b| - 1)
    ensures Depth(b, p, bits, 2 * h)
  {
  }

  // Sorted past the block's length, or with every bucket a singleton: the block is sorted.
  lemma SortedEnough(b: seq<Byte>, p: seq<int>, d: nat)
    requires SortedTo(b, p, d) && d >= |b|
    ensures SortedRotations(b, p)
  {
    forall x, y | 0 <= x < y < |p| ensures Leq(b, p[x], p[y]) {
      assert LeqTo(b, p[x], p[y], d);
      LeqBeyond(b, p[x], p[y], d);
    }
  }

  lemma AllSingletons(b: seq<Byte>, p0: seq<int>, bits0: seq<bool>, p: seq<int>, bits: seq<bool>, h: nat)
    requires Depth(b, p0, bits0, h) && Refined(b, p0, bits0, p, bits, h, |b| - 1) && h <= |b|
    requires forall x :: 0 <= x < |b| ==> bits0[x]
    ensures SortedRotations(b, p)
  {
    forall x, y | 0 <= x < y < |p| ensures Leq(b, p[x], p[y]) {
      AcrossBuckets(b, p0, bits0, p, h, x, y, y);
      LessDeeper(b, p[x], p[y], h, |b|);
    }
  }

  // ---- the first pass: buckets by first byte ------------------------------

  // Where the descending bucket pass puts element i.
  function Slot(l: seq<int>, i: nat): int
    requires i < |l|
  {
    CountBelow(l, l[i] + 1, |l|) - 1 - Count(l, l[i], i)
  }

  lemma SlotBounds(l: seq<int>, i: nat)
    requires i < |l|
    ensures CountBelow(l, l[i], |l|) <= Slot(l, i) < CountBelow(l, l[i] + 1, |l|) <= |l|
  {
    CountSplit(l, l[i], l[i] + 1, |l|);
    CountGrows(l, l[i], i, |l|);
  }

  lemma SlotInjective(l: seq<int>, i: nat, j: nat)
    requires i < j < |l|
    ensures Slot(l, i) != Slot(l, j)
  {
    SlotBounds(l, i);
    SlotBounds(l, j);
    if l[i] == l[j] {
      CountGrows(l, l[i], i, j);
    } else if l[i] < l[j] {
      CountMonotone(l, l[i] + 1, l[j]);
    } else {
      CountMonotone(l, l[j] + 1, l[i]);
    }
  }

  lemma BucketedFromSlots(b: seq<Byte>, p: seq<int>)
    requires |p| == |b|
    requires forall i :: 0 <= i < |b| ==> 0 <= Slot(b, i) < |b| && p[Slot(b, i)] == i
    ensures Bucketed(b, p)
  {
    var slots := seq(|b|, i requires 0 <= i < |b| => Slot(b, i));
    forall i, j | 0 <= i < j < |b| ensures slots[i] != slots[j] {
      SlotInjective(b, i, j);
    }
    forall i | 0 <= i < |b| ensures CountBelow(b, b[i], |b|) <= slots[i] < CountBelow(b, b[i] as int + 1, |b|) {
      SlotBounds(b, i);
    }
    BucketedFromPlaces(b, p, slots);
  }

  // A sorted block is bucketed too, so its bucket sizes say the first byte at each place.
  lemma SortedIsBucketed(b: seq<Byte>, p0: seq<int>, p: seq<int>)
    requires Bucketed(b, p0) && |p| == |b| && IsPerm(p)
    requires forall x :: 0 <= x < |p| ==> b[p[x]] == b[p0[x]]
    ensures Bucketed(b, p)
  {
  }

  // Bit x marks the start of the bucket of some byte.
  ghost predicate StartsBucket(b: seq<Byte>, x: nat) {
    exists c :: 0 <= c < 256 && CountBelow(b, c, |b|) == x
  }

  lemma BucketHeads(b: seq<Byte>, p: seq<int>, x: nat)
    requires Bucketed(b, p) && x < |b|
    ensures StartsBucket(b, x) <==> Head(b, p, x, 1)
  {
    AtZero(b, p[x]);
    var c: int := b[p[x]];
    if x == 0 {
      CountBelowEnds(b, 0, 256, |b|);
    } else {
      AtZero(b, p[x - 1]);
      var d: int := b[p[x - 1]];
      if c == d {
        forall e | 0 <= e < 256 ensures CountBelow(b, e, |b|) != x {
          if e <= c {
            CountMonotone(b, e, c);
          } else {
            CountMonotone(b, c + 1, e);
          }
        }
        assert EqTo(b, p[x - 1], p[x], 1);
      } else {
        if c < d {
          CountMonotone(b, c + 1, d);
        }
        CountMonotone(b, d + 1, c);
        assert !EqTo(b, p[x - 1], p[x], 1);
      }
    }
  }

  lemma DepthOne(b: seq<Byte>, p: seq<int>, bits: seq<bool>)
    requires |b| > 0 && Bucketed(b, p) && Sentinels(bits, |b|)
    requires forall x :: 0 <= x < |b| ==> bits[x] == StartsBucket(b, x)
    ensures Depth(b, p, bits, 1)
  {
    forall x, y | 0 <= x < y < |p| ensures LeqTo(b, p[x], p[y], 1) {
      AtZero(b, p[x]);
      AtZero(b, p[y]);
      var c, d: int := b[p[x]], b[p[y]];
      if d < c {
        CountMonotone(b, d + 1, c);
      }
    }
    forall x | 0 <= x < |p| ensures bits[x] == Head(b, p, x, 1) {
      BucketHeads(b, p, x);
    }
  }
}
