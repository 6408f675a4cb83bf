// fallbackSort itself, over its arrays.
module FallbackSorting {
  import opened Common
  import opened Counting
  import opened Buckets
  import opened Rotations
  import opened SortStack
  import opened FallbackQSort
  import opened Bhtab
  import opened BucketRefinement

  // ---- bucket sort on the first byte --------------------------------------

  method CountBytes(block: array<Byte>, n: nat) returns (ftab: array<int>)
    requires n <= block.Length
    ensures fresh(ftab) && ftab.Length == 257
    ensures forall c :: 0 <= c < 257 ==> ftab[c] == Count(block[..n], c, n)
  {
    ghost var b := block[..n];
    ftab := new int[257](i => 0);
    for i := 0 to n
      invariant block[..n] == b
      invariant forall c :: 0 <= c < 257 ==> ftab[c] == Count(b, c, i)
    {
      assert block[i] == b[i];
      ftab[block[i]] := ftab[block[i]] + 1;
    }
  }

  method Accumulate(ftab: array<int>, ghost b: seq<Byte>)
    requires ftab.Length == 257 && forall c :: 0 <= c < 257 ==> ftab[c] == Count(b, c, |b|)
    modifies ftab
    ensures forall c :: 0 <= c < 257 ==> ftab[c] == CountBelow(b, c + 1, |b|)
  {
    CountBelowEnds(b, 0, 256, |b|);
    CountSplit(b, 0, 1, |b|);
    for i := 1 to 257
      invariant forall c :: 0 <= c < i ==> ftab[c] == CountBelow(b, c + 1, |b|)
      invariant forall c :: i <= c < 257 ==> ftab[c] == Count(b, c, |b|)
    {
      CountSplit(b, i, i + 1, |b|);
      ftab[i] := ftab[i] + ftab[i - 1];
    }
  }

  ghost predicate Descending(ftab: seq<int>, b: seq<Byte>, i: nat)
    requires i <= |b|
  {
    |ftab| == 257 && forall c :: 0 <= c < 257 ==> ftab[c] == CountBelow(b, c + 1, |b|) - Count(b, c, i)
  }

  lemma DescendingStep(ftab: seq<int>, b: seq<Byte>, i: nat)
    requires i < |b| && Descending(ftab, b, i)
    ensures ftab[b[i]] - 1 == Slot(b, i)
    ensures Descending(ftab[b[i] := ftab[b[i]] - 1], b, i + 1)
  {
  }

  lemma DescendingEnd(ftab: seq<int>, b: seq<Byte>, c: int)
    requires Descending(ftab, b, |b|) && 0 <= c < 256
    ensures ftab[c] == CountBelow(b, c, |b|)
  {
    CountSplit(b, c, c + 1, |b|);
  }

  ghost predicate Placing(fmap: seq<int>, b: seq<Byte>, i: nat)
    requires i <= |b|
  {
    |fmap| >= |b| && forall k :: 0 <= k < i ==> 0 <= Slot(b, k) < |b| && fmap[Slot(b, k)] == k
  }

  lemma PlacingStep(fmap: seq<int>, b: seq<Byte>, i: nat)
    requires i < |b| && Placing(fmap, b, i)
    ensures 0 <= Slot(b, i) < |b| && Placing(fmap[Slot(b, i) := i], b, i + 1)
  {
    SlotBounds(b, i);
    forall k | 0 <= k < i ensures Slot(b, k) != Slot(b, i) {
      SlotInjective(b, k, i);
    }
  }

  method PlaceAll(fmap: array<int>, block: array<Byte>, ftab: array<int>, n: nat)
    requires n <= block.Length && n <= fmap.Length && fmap != ftab
    requires Descending(ftab[..], block[..n], 0)
    modifies fmap, ftab
    ensures Bucketed(block[..n], fmap[..n])
    ensures ftab.Length == 257 && forall c :: 0 <= c < 256 ==> ftab[c] == CountBelow(block[..n], c, n)
  {
    ghost var b := block[..n];
    ghost var f, m := ftab[..], fmap[..];
    for i := 0 to n
      invariant block[..n] == b && ftab[..] == f && fmap[..] == m
      invariant Descending(f, b, i) && Placing(m, b, i)
    {
      DescendingStep(f, b, i);
      PlacingStep(m, b, i);
      var j: int := block[i];
      assert j == b[i];
      var k := ftab[j] - 1;
      ftab[j] := k;
      fmap[k] := i;
      f, m := f[j := k], m[k := i];
    }
    forall c | 0 <= c < 256 ensures ftab[c] == CountBelow(b, c, n) {
      DescendingEnd(f, b, c);
    }
    forall i | 0 <= i < n ensures 0 <= Slot(b, i) < n && fmap[..n][Slot(b, i)] == i {
      assert m[Slot(b, i)] == i;
    }
    BucketedFromSlots(b, fmap[..n]);
  }

  // ---- the initial bits ---------------------------------------------------

  ghost predicate StartsUpto(b: seq<Byte>, bits: seq<bool>, i: int) {
    |b| < |bits| && forall x :: 0 <= x <= |b| ==> bits[x] == exists c :: 0 <= c < i && CountBelow(b, c, |b|) == x
  }

  method InitBits(bhtab: array<nat>, ftab: array<int>, n: nat, ghost b: seq<Byte>)
    requires n == |b| > 0 && n / 32 + 3 <= bhtab.Length && ftab.Length == 257
    requires forall c :: 0 <= c < 256 ==> ftab[c] == CountBelow(b, c, n)
    modifies bhtab
    ensures Sentinels(Bits(bhtab[..]), n)
    ensures forall x :: 0 <= x < n ==> Bits(bhtab[..])[x] == StartsBucket(b, x)
  {
    ClearAll(bhtab, 2 + n / 32);
    ghost var bits := Bits(bhtab[..]);
    for i := 0 to 256
      invariant Bits(bhtab[..]) == bits && |bits| == 32 * bhtab.Length && StartsUpto(b, bits, i)
    {
      SetBh(bhtab, ftab[i]);
      bits := bits[CountBelow(b, i, n) := true];
    }
    for i := 0 to 32
      invariant Bits(bhtab[..]) == bits && |bits| == 32 * bhtab.Length
      invariant forall x :: 0 <= x < n ==> bits[x] == StartsBucket(b, x)
      invariant forall k :: n <= k < n + 2 * i ==> bits[k] == ((k - n) % 2 == 0)
    {
      SetBh(bhtab, n + 2 * i);
      ClearBh(bhtab, n + 2 * i + 1);
      bits := bits[n + 2 * i := true][n + 2 * i + 1 := false];
    }
  }

  // ---- one pass -----------------------------------------------------------

  // Ranks of the first i places are in; j heads the bucket of the last of them.
  ghost predicate Ranking(p: seq<int>, bits: seq<bool>, e: seq<int>, h: nat, i: nat, j: int) {
    && RanksUpto(p, bits, e, h, i)
    && j == if i == 0 then 0 else HeadOf(bits, i - 1)
  }

  lemma RankingStep(p: seq<int>, bits: seq<bool>, e: seq<int>, h: nat, i: nat, j: int, k: int, j': int)
    requires i < |p| && Ranking(p, bits, e, h, i, j) && (bits[i] || i > 0)
    requires k == Back(|p|, p[i], h) && j' == if bits[i] then i else j
    ensures Ranking(p, bits, e[k := j'], h, i + 1, j')
  {
    forall x | 0 <= x < i ensures Back(|p|, p[x], h) != k {
      assert p[x] != p[i];
    }
  }

  method ComputeEclass(fmap: array<int>, eclass: array<int>, bhtab: array<nat>, n: nat, h: nat, ghost b: seq<Byte>)
    requires fmap != eclass && n == |b| <= fmap.Length && n <= eclass.Length && 0 < h <= n
    requires Depth(b, fmap[..n], Bits(bhtab[..]), h)
    modifies eclass
    ensures Ranks(b, eclass[..], h)
    ensures forall x :: 0 <= x < n ==> 0 <= eclass[x] < n
  {
    ghost var p, bits := fmap[..n], Bits(bhtab[..]);
    assert bits[0] == Head(b, p, 0, h);
    EclassLoop(fmap, eclass, bhtab, n, h);
    RanksFromHeads(b, p, bits, eclass[..], h);
    forall x | 0 <= x < n ensures 0 <= eclass[..][x] < n {
      RankRange(p, bits, eclass[..], h, x);
    }
  }

  method EclassLoop(fmap: array<int>, eclass: array<int>, bhtab: array<nat>, n: nat, h: nat)
    requires fmap != eclass && 0 < n <= fmap.Length && n <= eclass.Length && n <= 32 * bhtab.Length && 0 < h <= n
    requires IsPerm(fmap[..n]) && Bits(bhtab[..])[0]
    modifies eclass
    ensures RanksUpto(fmap[..n], Bits(bhtab[..]), eclass[..], h, n)
  {
    ghost var p, bits, e := fmap[..n], Bits(bhtab[..]), eclass[..];
    var j := 0;
    for i := 0 to n
      invariant eclass[..] == e && Ranking(p, bits, e, h, i, j)
    {
      ghost var was := j;
      if IsSet(bhtab[..], i) {
        j := i;
      }
      assert fmap[i] == p[i];
      var k := fmap[i] - h;
      if k < 0 {
        k := k + n;
      }
      RankingStep(p, bits, e, h, i, was, k, j);
      eclass[k] := j;
      e := e[k := j];
    }
  }

  lemma RankRange(p: seq<int>, bits: seq<bool>, e: seq<int>, h: nat, u: nat)
    requires RanksUpto(p, bits, e, h, |p|) && u < |p|
    ensures 0 <= e[u] < |p|
  {
    var n := |p|;
    PermSurjective(p, Wrap(n, u + h));
    var x :| 0 <= x < n && p[x] == Wrap(n, u + h);
    assert Back(n, p[x], h) == u;
  }

  // Marks every place in [l, r] where eclass changes, and l itself.
  method MarkBucket(bhtab: array<nat>, fmap: array<int>, eclass: array<int>, l: nat, r: nat, n: nat)
    requires l <= r < n <= fmap.Length && n < 32 * bhtab.Length
    requires bhtab as object != fmap && bhtab as object != eclass
    requires forall x :: 0 <= x < n ==> 0 <= fmap[x] < eclass.Length
    requires forall x :: 0 <= x < n ==> 0 <= eclass[fmap[x]]
    modifies bhtab
    ensures Marked(old(Bits(bhtab[..])), Bits(bhtab[..]), fmap[..n], eclass[..], l, r)
  {
    ghost var bits0, t, e := Bits(bhtab[..]), fmap[..n], eclass[..];
    ghost var bits := bits0;
    var cc := -1;
    for i := l to r + 1
      invariant fmap[..n] == t && eclass[..] == e && Bits(bhtab[..]) == bits && |bits| == |bits0|
      invariant cc == if i == l then -1 else e[t[i - 1]]
      invariant forall x :: l < x < i ==> bits[x] == (bits0[x] || e[t[x - 1]] != e[t[x]])
      invariant forall x :: 0 <= x < |bits| && !(l <= x < i) ==> bits[x] == bits0[x]
      invariant i > l ==> bits[l]
    {
      assert fmap[i] == t[i];
      var cc1 := eclass[fmap[i]];
      assert cc1 == e[t[i]] && (i > l ==> cc == e[t[i - 1]]);
      ghost var was := bits;
      if cc != cc1 {
        SetBh(bhtab, i);
        bits := bits[i := true];
        cc := cc1;
      }
      forall x | l < x < i + 1 ensures bits[x] == (bits0[x] || e[t[x - 1]] != e[t[x]]) {
        if x < i {
          assert bits[x] == was[x] == (bits0[x] || e[t[x - 1]] != e[t[x]]);
        } else {
          assert was[x] == bits0[x];
        }
      }
    }
    assert Marked(bits0, bits, t, e, l, r);
  }

  method SortBucket(fmap: array<int>, eclass: array<int>, bhtab: array<nat>, n: nat, h: nat, l: nat, r: nat,
                    ghost b: seq<Byte>, ghost p0: seq<int>, ghost bits0: seq<bool>)
    requires fmap != eclass && bhtab as object != fmap && bhtab as object != eclass
    requires n == |b| <= fmap.Length && n < 0x8000_0000 && l <= r < n
    requires Depth(b, p0, bits0, h) && Refined(b, p0, bits0, fmap[..n], Bits(bhtab[..]), h, l - 1)
    requires (forall x :: l < x <= r ==> !bits0[x]) && bits0[r + 1]
    requires Ranks(b, eclass[..], h) && forall x :: 0 <= x < n ==> 0 <= eclass[x]
    modifies fmap, bhtab
    ensures Refined(b, p0, bits0, fmap[..n], Bits(bhtab[..]), h, r)
  {
    ghost var p, bits, e, s := fmap[..n], Bits(bhtab[..]), eclass[..], fmap[..];
    assert forall x :: 0 <= x < n ==> s[x] == p[x];
    FallbackQSort3(fmap, eclass[..], l, r);
    ghost var t := fmap[..n];
    ShuffledPrefix(s, fmap[..], l, r, n);
    assert Shuffled(p, t, l, r);
    ShuffledPerm(p, t, l, r);
    assert forall x :: 0 <= x < n ==> fmap[x] == t[x];
    MarkBucket(bhtab, fmap, eclass, l, r, n);
    RefineBucket(b, p0, bits0, p, bits, h, e, l, r, t, Bits(bhtab[..]));
  }

  // A run of set bits: buckets of one, all of them done.
  lemma SingletonRun(b: seq<Byte>, p0: seq<int>, bits0: seq<bool>, p: seq<int>, bits: seq<bool>, h: nat, r: int, k: nat)
    requires Depth(b, p0, bits0, h) && Refined(b, p0, bits0, p, bits, h, r)
    requires FirstIs(bits, false, r + 1, k) && k <= |b| + 1
    ensures r + 1 < k && (k - 1 < |b| ==> bits0[k - 1] && !bits0[k])
    ensures forall x :: r < x < k ==> bits0[x]
    ensures Refined(b, p0, bits0, p, bits, h, k - 2)
  {
    assert forall x :: r < x < k ==> bits[x] == bits0[x];
    SkipSingletons(b, p0, bits0, p, bits, h, r, k - 1);
  }

  lemma RefinedBelow(b: seq<Byte>, p0: seq<int>, bits0: seq<bool>, p: seq<int>, bits: seq<bool>, h: nat, r: int)
    requires Depth(b, p0, bits0, h) && Refined(b, p0, bits0, p, bits, h, r)
    ensures -1 <= r < |b|
  {
  }

  // The next bucket of two or more: it begins at l and ends at last, unless l is past the block.
  method NextBucket(bhtab: array<nat>, n: nat, h: nat, r: int, ghost b: seq<Byte>, ghost p0: seq<int>,
                    ghost bits0: seq<bool>, ghost p: seq<int>, ghost bits: seq<bool>) returns (l: int, last: int)
    requires Bits(bhtab[..]) == bits && -1 <= r < n == |b| < |bits0|
    requires Depth(b, p0, bits0, h) && Refined(b, p0, bits0, p, bits, h, r)
    ensures r < l <= n && (l < n ==> l < last < n) && Refined(b, p0, bits0, p, bits, h, l - 1)
    ensures if l >= n then forall x :: r < x < n ==> bits0[x]
            else bits0[last + 1] && forall x :: l < x <= last ==> !bits0[x]
  {
    hide Depth, Refined, FirstIs;
    SentinelGoals(b, p0, bits0, p, bits, h, r);
    var k := Find(bhtab, false, r + 1, n + 1);
    SingletonRun(b, p0, bits0, p, bits, h, r, k);
    l, last := k - 1, k - 1;
    RefinedBelow(b, p0, bits0, p, bits, h, l - 1);
    if l < n {
      k := Find(bhtab, true, k, n);
      BucketFound(b, p0, bits0, p, bits, h, r, l, k);
      last := k - 1;
    }
  }

  // Finds every bucket of two or more, sorts it by eclass and marks the new buckets inside it. The sentinel bits
  // end the second scan of each round inside the block, so only the first can run past it.
  method RefineBuckets(fmap: array<int>, eclass: array<int>, bhtab: array<nat>, n: nat, h: nat, ghost b: seq<Byte>,
                       ghost p0: seq<int>, ghost bits0: seq<bool>) returns (nNotDone: nat)
    requires fmap != eclass && bhtab as object != fmap && bhtab as object != eclass
    requires n == |b| <= fmap.Length && n < 0x8000_0000
    requires fmap[..n] == p0 && Bits(bhtab[..]) == bits0 && Depth(b, p0, bits0, h)
    requires Ranks(b, eclass[..], h) && forall x :: 0 <= x < n ==> 0 <= eclass[x]
    modifies fmap, bhtab
    ensures Refined(b, p0, bits0, fmap[..n], Bits(bhtab[..]), h, n - 1)
    ensures nNotDone == 0 ==> forall x :: 0 <= x < n ==> bits0[x]
  {
    hide Depth, Refined, Ranks, FirstIs, Bits;
    ghost var p, bits := p0, bits0;
    nNotDone := 0;
    var r := -1;
    NothingRefined(b, p0, bits0, h);
    while true
      invariant fmap[..n] == p && Bits(bhtab[..]) == bits && -1 <= r < n < |bits0|
      invariant Refined(b, p0, bits0, p, bits, h, r)
      invariant nNotDone == 0 ==> forall x :: 0 <= x <= r ==> bits0[x]
      decreases n - r
    {
      var l, last := NextBucket(bhtab, n, h, r, b, p0, bits0, p, bits);
      if l >= n {
        break;
      }
      r := last;
      nNotDone := nNotDone + (r - l + 1);
      SortBucket(fmap, eclass, bhtab, n, h, l, r, b, p0, bits0);
      p, bits := fmap[..n], Bits(bhtab[..]);
    }
  }

  lemma NothingRefined(b: seq<Byte>, p0: seq<int>, bits0: seq<bool>, h: nat)
    requires Depth(b, p0, bits0, h)
    ensures Refined(b, p0, bits0, p0, bits0, h, -1) && |b| < |bits0|
  {
    if |b| > 0 {
      assert bits0[0] == Head(b, p0, 0, h);
    }
  }

  // The sentinel bits bound both scans.
  lemma SentinelGoals(b: seq<Byte>, p0: seq<int>, bits0: seq<bool>, p: seq<int>, bits: seq<bool>, h: nat, r: int)
    requires Depth(b, p0, bits0, h) && Refined(b, p0, bits0, p, bits, h, r)
    ensures |b| + 1 < |bits| && !bits[|b| + 1] && bits[|b|]
  {
    assert bits[|b| + 1] == bits0[|b| + 1] && bits[|b|] == bits0[|b|];
  }

  lemma BucketFound(b: seq<Byte>, p0: seq<int>, bits0: seq<bool>, p: seq<int>, bits: seq<bool>, h: nat, r: int, l: nat,
                    k: nat)
    requires Depth(b, p0, bits0, h) && Refined(b, p0, bits0, p, bits, h, r)
    requires r < l < |b| && !bits0[l + 1] && FirstIs(bits, true, l + 1, k) && k <= |b|
    ensures l + 1 < k && bits0[k] && forall x :: l < x < k ==> !bits0[x]
  {
    assert forall x :: l < x <= k ==> bits[x] == bits0[x];
  }

  // ---- putting the block back ---------------------------------------------

  // The first i places have been written back; the next one belongs to byte j or a later one.
  ghost predicate Rebuilding(b: seq<Byte>, p: seq<int>, m: seq<Byte>, counts: seq<int>, i: nat, j: int) {
    && Bucketed(b, p) && |m| >= |b| && |counts| == 257 && 0 <= j < 256
    && CountBelow(b, j, |b|) <= i <= CountBelow(b, j + 1, |b|) <= |b|
    && counts[j] == CountBelow(b, j + 1, |b|) - i
    && (forall c :: j < c < 257 ==> counts[c] == Count(b, c, |b|))
    && (forall k :: 0 <= k < i ==> m[p[k]] == b[p[k]])
  }

  lemma RebuildStart(b: seq<Byte>, p: seq<int>, m: seq<Byte>, counts: seq<int>)
    requires Bucketed(b, p) && |m| >= |b| && |counts| == 257
    requires forall c :: 0 <= c < 257 ==> counts[c] == Count(b, c, |b|)
    ensures Rebuilding(b, p, m, counts, 0, 0)
  {
    CountBelowEnds(b, 0, 256, |b|);
    CountSplit(b, 0, 1, |b|);
  }

  lemma RebuildSkip(b: seq<Byte>, p: seq<int>, m: seq<Byte>, counts: seq<int>, i: nat, j: int)
    requires Rebuilding(b, p, m, counts, i, j) && i < |b| && counts[j] == 0
    ensures Rebuilding(b, p, m, counts, i, j + 1)
  {
    BucketOrder(b, p, i, j);
    CountSplit(b, j + 1, j + 2, |b|);
  }

  lemma RebuildPlace(b: seq<Byte>, p: seq<int>, m: seq<Byte>, counts: seq<int>, i: nat, j: int)
    requires Rebuilding(b, p, m, counts, i, j) && i < |b| && counts[j] != 0
    ensures Rebuilding(b, p, m[p[i] := j], counts[j := counts[j] - 1], i + 1, j)
  {
    BucketOrder(b, p, i, j);
    assert forall k :: 0 <= k < i ==> p[k] != p[i];
  }

  lemma Rebuilt(b: seq<Byte>, p: seq<int>, m: seq<Byte>, counts: seq<int>, j: int)
    requires Rebuilding(b, p, m, counts, |b|, j)
    ensures m[..|b|] == b
  {
    forall x | 0 <= x < |b| ensures m[x] == b[x] {
      PermSurjective(p, x);
      var k :| 0 <= k < |b| && p[k] == x;
    }
  }

  // The block's bytes were overwritten by eclass: its bucket sizes and the order give them back.
  method Rebuild(block: array<Byte>, fmap: array<int>, ftabCopy: array<int>, n: nat, ghost b: seq<Byte>)
    requires n == |b| <= block.Length && n <= fmap.Length && ftabCopy.Length == 257
    requires block as object != fmap && block as object != ftabCopy && fmap != ftabCopy
    requires Bucketed(b, fmap[..n])
    requires forall c :: 0 <= c < 257 ==> ftabCopy[c] == Count(b, c, n)
    modifies block, ftabCopy
    ensures block[..n] == b
  {
    ghost var p, m, counts := fmap[..n], block[..], ftabCopy[..];
    var j := 0;
    RebuildStart(b, p, m, counts);
    for i := 0 to n
      invariant block[..] == m && ftabCopy[..] == counts && Rebuilding(b, p, m, counts, i, j)
    {
      while ftabCopy[j] == 0
        invariant block[..] == m && ftabCopy[..] == counts && Rebuilding(b, p, m, counts, i, j)
        decreases 256 - j
      {
        RebuildSkip(b, p, m, counts, i, j);
        j := j + 1;
      }
      RebuildPlace(b, p, m, counts, i, j);
      assert fmap[i] == p[i];
      ftabCopy[j] := ftabCopy[j] - 1;
      block[fmap[i]] := j;
      m, counts := m[p[i] := j], counts[j := counts[j] - 1];
    }
    Rebuilt(b, p, m, counts, j);
  }

  lemma BucketOrder(b: seq<Byte>, p: seq<int>, i: nat, j: int)
    requires Bucketed(b, p) && i < |b| && CountBelow(b, j, |b|) <= i
    ensures j <= b[p[i]] && (i < CountBelow(b, j + 1, |b|) ==> j == b[p[i]])
    ensures i == CountBelow(b, j + 1, |b|) ==> j < b[p[i]]
  {
    var c: int := b[p[i]];
    if c < j {
      CountMonotone(b, c + 1, j);
    } else if j < c {
      CountMonotone(b, j + 1, c);
    }
  }

  // ---- the whole sort -----------------------------------------------------

  // Overlaying the 32-bit eclass on the block leaves nothing of its bytes to rely on.
  method Overlay(block: array<Byte>, n: nat)
    requires n <= block.Length
    modifies block
    ensures forall x :: n <= x < block.Length ==> block[x] == old(block[x])
  {
    for i := 0 to n
      invariant forall x :: n <= x < block.Length ==> block[x] == old(block[x])
    {
      block[i] := *;
    }
  }

  ghost predicate SameFirsts(b: seq<Byte>, p: seq<int>, t: seq<int>) {
    && |p| == |t| == |b| && IsPerm(p) && IsPerm(t)
    && forall x :: 0 <= x < |p| ==> b[p[x]] == b[t[x]]
  }

  // From depth h to depth 2h.
  method Pass(fmap: array<int>, eclass: array<int>, bhtab: array<nat>, n: nat, h: nat, ghost b: seq<Byte>)
    returns (nNotDone: nat)
    requires fmap != eclass && bhtab as object != fmap && bhtab as object != eclass
    requires 0 < n == |b| <= fmap.Length && n <= eclass.Length && n < 0x8000_0000 && 0 < h <= n
    requires Depth(b, fmap[..n], Bits(bhtab[..]), h)
    modifies fmap, eclass, bhtab
    ensures Depth(b, fmap[..n], Bits(bhtab[..]), 2 * h)
    ensures SameFirsts(b, old(fmap[..n]), fmap[..n])
    ensures nNotDone == 0 || 2 * h > n ==> SortedRotations(b, fmap[..n])
  {
    ghost var p, bits := fmap[..n], Bits(bhtab[..]);
    ComputeEclass(fmap, eclass, bhtab, n, h, b);
    nNotDone := RefineBuckets(fmap, eclass, bhtab, n, h, b, p, bits);
    ghost var p', bits' := fmap[..n], Bits(bhtab[..]);
    AllRefined(b, p, bits, p', bits', h);
    SameFirstBytes(b, p, p', h);
    if nNotDone == 0 {
      AllSingletons(b, p, bits, p', bits', h);
    } else if 2 * h > n {
      SortedEnough(b, p', 2 * h);
    }
  }

  method FallbackSort(fmap: array<int>, eclass: array<int>, bhtab: array<nat>, block: array<Byte>, n: nat)
    requires 0 < n <= fmap.Length && n <= eclass.Length && n <= block.Length && n / 32 + 3 <= bhtab.Length
    requires fmap != eclass && bhtab as object != fmap && bhtab as object != eclass
    requires block as object != fmap && block as object != eclass && block as object != bhtab
    requires n < 0x8000_0000
    modifies fmap, eclass, bhtab, block
    ensures block[..n] == old(block[..n])
    ensures SortedRotations(block[..n], fmap[..n])
  {
    ghost var b := block[..n];
    var ftab := CountBytes(block, n);
    var ftabCopy := new int[257](i requires 0 <= i < 257 reads ftab => ftab[i]);
    ghost var counts := ftabCopy[..];
    Accumulate(ftab, b);
    PlaceAll(fmap, block, ftab, n);
    InitBits(bhtab, ftab, n, b);
    ghost var first := fmap[..n];
    DepthOne(b, first, Bits(bhtab[..]));
    Overlay(block, n);
    var h := 1;
    while true
      invariant 0 < h <= n && ftabCopy[..] == counts
      invariant Depth(b, fmap[..n], Bits(bhtab[..]), h)
      invariant SameFirsts(b, first, fmap[..n])
      decreases n - h
    {
      var nNotDone := Pass(fmap, eclass, bhtab, n, h, b);
      h := h * 2;
      if h > n || nNotDone == 0 {
        break;
      }
    }
    SortedIsBucketed(b, first, fmap[..n]);
    Rebuild(block, fmap, ftabCopy, n, b);
  }

  lemma SameFirstBytes(b: seq<Byte>, p: seq<int>, t: seq<int>, h: nat)
    requires |p| == |t| == |b| && IsPerm(p) && IsPerm(t) && h > 0
    requires forall x :: 0 <= x < |p| ==> EqTo(b, p[x], t[x], h)
    ensures SameFirsts(b, p, t)
  {
    forall x | 0 <= x < |p| ensures b[p[x]] == b[t[x]] {
      assert At(b, p[x], 0) == At(b, t[x], 0);
      AtZero(b, p[x]);
      AtZero(b, t[x]);
    }
  }
}
