// What the two block sorts share: three-way partitioning, gapped insertion bookkeeping, and the
// invariant of a quicksort that keeps its unsorted segments on an explicit stack.
module SortStack {
  import opened Common

  // ---- rearranging a range ------------------------------------------------

  // t is s with the elements at positions lo..hi rearranged.
  ghost predicate Shuffled(s: seq<int>, t: seq<int>, lo: int, hi: int) {
    && |s| == |t|
    && (forall x :: 0 <= x < |s| && !(lo <= x <= hi) ==> t[x] == s[x])
    && multiset(s) == multiset(t)
  }

  lemma ShuffledTrans(s: seq<int>, t: seq<int>, u: seq<int>, lo: int, hi: int, lo': int, hi': int)
    requires Shuffled(s, t, lo, hi) && Shuffled(t, u, lo', hi')
    requires lo <= lo' && hi' <= hi
    ensures Shuffled(s, u, lo, hi)
  {
  }

  // Every element of the rearranged range was somewhere in that range before.
  lemma ShuffledFrom(s: seq<int>, t: seq<int>, lo: int, hi: int, x: int)
    requires Shuffled(s, t, lo, hi) && 0 <= lo <= x <= hi < |s|
    ensures exists y :: lo <= y <= hi && s[y] == t[x]
  {
    ShuffledMiddle(s, t, lo, hi);
    assert t[x] == t[lo..hi + 1][x - lo];
    assert t[x] in multiset(t[lo..hi + 1]);
    assert t[x] in s[lo..hi + 1];
    var y :| 0 <= y < hi + 1 - lo && s[lo..hi + 1][y] == t[x];
    assert s[lo + y] == t[x];
  }

  lemma EndsStay(s: seq<int>, t: seq<int>, lo: int, hi: int)
    requires Shuffled(s, t, lo, hi) && 0 <= lo <= hi < |s|
    ensures |s| == |t| && s[..lo] == t[..lo] && s[hi + 1..] == t[hi + 1..] && multiset(s) == multiset(t)
  {
  }

  lemma ShuffledMiddle(s: seq<int>, t: seq<int>, lo: int, hi: int)
    requires Shuffled(s, t, lo, hi) && 0 <= lo <= hi < |s|
    ensures multiset(s[lo..hi + 1]) == multiset(t[lo..hi + 1])
  {
    hide Shuffled;
    EndsStay(s, t, lo, hi);
    InThree(s, lo, hi + 1);
    InThree(t, lo, hi + 1);
    Cancel(multiset(s[..lo]) + multiset(s[hi + 1..]), multiset(s[lo..hi + 1]), multiset(t[lo..hi + 1]));
  }

  lemma InThree(s: seq<int>, lo: int, end: int)
    requires 0 <= lo <= end <= |s|
    ensures multiset(s) == (multiset(s[..lo]) + multiset(s[end..])) + multiset(s[lo..end])
  {
    assert s == s[..lo] + s[lo..end] + s[end..];
  }

  lemma Cancel(a: multiset<int>, b: multiset<int>, c: multiset<int>)
    requires a + b == a + c
    ensures b == c
  {
    assert b == (a + b) - a;
    assert c == (a + c) - a;
  }

  // Rearranging within the first n elements, seen on those elements alone.
  lemma ShuffledPrefix(s: seq<int>, t: seq<int>, lo: int, hi: int, n: nat)
    requires Shuffled(s, t, lo, hi) && 0 <= lo && hi < n <= |s|
    ensures Shuffled(s[..n], t[..n], lo, hi)
  {
    assert s == s[..n] + s[n..] && t == t[..n] + t[n..];
    assert s[n..] == t[n..];
    assert multiset(s[..n]) == multiset(s) - multiset(s[n..]);
    assert multiset(t[..n]) == multiset(t) - multiset(t[n..]);
  }

  // A property of every element of a range survives rearranging it.
  lemma ShuffledAll(s: seq<int>, t: seq<int>, lo: int, hi: int, p: int -> bool)
    requires Shuffled(s, t, lo, hi) && 0 <= lo && hi < |s|
    requires forall x :: lo <= x <= hi ==> p(s[x])
    ensures forall x :: lo <= x <= hi ==> p(t[x])
  {
    forall x | lo <= x <= hi ensures p(t[x]) {
      ShuffledFrom(s, t, lo, hi, x);
    }
  }

  lemma ShuffledPerm(s: seq<int>, t: seq<int>, lo: int, hi: int)
    requires Shuffled(s, t, lo, hi) && IsPerm(s)
    ensures IsPerm(t)
  {
    forall x | 0 <= x < |t| ensures 0 <= t[x] < |t| {
      assert t[x] in multiset(t);
    }
    InjectiveSize(s);
    assert Elements(s) == Elements(t) by {
      forall v ensures v in s <==> v in t {
        assert v in s <==> v in multiset(s);
        assert v in t <==> v in multiset(t);
      }
    }
    FullSizeInjective(t);
  }

  lemma {:induction false} FullSizeInjective(t: seq<int>)
    requires |Elements(t)| == |t|
    ensures Injective(t)
  {
    if t != [] {
      var n := |t| - 1;
      assert Elements(t) == Elements(t[..n]) + {t[n]} by {
        assert t == t[..n] + [t[n]];
      }
      ElementsSize(t[..n]);
      assert t[n] !in Elements(t[..n]);
      FullSizeInjective(t[..n]);
      forall i, j | 0 <= i < j < |t| ensures t[i] != t[j] {
        if j == n {
          assert t[i] == t[..n][i];
        } else {
          assert t[i] == t[..n][i] && t[j] == t[..n][j];
        }
      }
    }
  }

  lemma {:induction false} ElementsSize(t: seq<int>)
    ensures |Elements(t)| <= |t|
  {
    if t != [] {
      var n := |t| - 1;
      ElementsSize(t[..n]);
      assert Elements(t) == Elements(t[..n]) + {t[n]} by {
        assert t == t[..n] + [t[n]];
      }
    }
  }

  function Swapped(s: seq<int>, i: int, j: int): seq<int>
    requires 0 <= i < |s| && 0 <= j < |s|
  {
    s[i := s[j]][j := s[i]]
  }

  lemma SwappedShuffles(s: seq<int>, t: seq<int>, lo: int, hi: int, i: int, j: int)
    requires Shuffled(s, t, lo, hi) && 0 <= lo <= i <= hi < |s| && lo <= j <= hi
    ensures Shuffled(s, Swapped(t, i, j), lo, hi)
  {
  }

  method Swap(a: array<int>, i: int, j: int)
    requires 0 <= i < a.Length && 0 <= j < a.Length
    modifies a
    ensures a[..] == Swapped(old(a[..]), i, j)
  {
    a[i], a[j] := a[j], a[i];
  }

  // ---- the unsorted segments on the stack ---------------------------------

  ghost predicate InOne(segs: seq<(int, int)>, x: int, y: int) {
    exists k :: 0 <= k < |segs| && segs[k].0 <= x && y <= segs[k].1
  }

  ghost predicate Disjoint(segs: seq<(int, int)>) {
    forall k, m :: 0 <= k < m < |segs| ==> segs[k].1 < segs[m].0 || segs[m].1 < segs[k].0
  }

  // Elements of lo..hi are in order except within a segment still to be sorted.
  ghost predicate SortedButFor(le: (int, int) -> bool, s: seq<int>, lo: int, hi: int, segs: seq<(int, int)>) {
    && 0 <= lo && hi < |s|
    && (forall k :: 0 <= k < |segs| ==> lo <= segs[k].0 && segs[k].1 <= hi)
    && Disjoint(segs)
    && forall x, y {:trigger le(s[x], s[y])} :: lo <= x < y <= hi ==> le(s[x], s[y]) || InOne(segs, x, y)
  }

  // The parts of a segment that are still unsorted after it was rearranged.
  ghost predicate Splits(le: (int, int) -> bool, t: seq<int>, seg: (int, int), parts: seq<(int, int)>) {
    && 0 <= seg.0 && seg.1 < |t|
    && (forall k :: 0 <= k < |parts| ==> seg.0 <= parts[k].0 && parts[k].1 <= seg.1)
    && Disjoint(parts)
    && forall x, y {:trigger le(t[x], t[y])} :: seg.0 <= x < y <= seg.1 ==> le(t[x], t[y]) || InOne(parts, x, y)
  }

  lemma OutsidePair(le: (int, int) -> bool, s: seq<int>, lo: int, hi: int, segs: seq<(int, int)>, x: int, y: int)
    requires |segs| > 0 && SortedButFor(le, s, lo, hi, segs) && lo <= x < y <= hi
    requires var seg := segs[|segs| - 1]; (seg.0 <= x <= seg.1) != (seg.0 <= y <= seg.1)
    ensures le(s[x], s[y])
  {
  }

  // Replacing the top segment by its unsorted parts keeps the invariant.
  lemma SplitTop(le: (int, int) -> bool, s: seq<int>, t: seq<int>, lo: int, hi: int, segs: seq<(int, int)>,
                 parts: seq<(int, int)>)
    requires |segs| > 0 && SortedButFor(le, s, lo, hi, segs)
    requires var seg := segs[|segs| - 1]; Shuffled(s, t, seg.0, seg.1) && Splits(le, t, seg, parts)
    ensures SortedButFor(le, t, lo, hi, segs[..|segs| - 1] + parts)
  {
    var last := |segs| - 1;
    var seg := segs[last];
    var rest := segs[..last] + parts;
    forall x, y | lo <= x < y <= hi ensures le(t[x], t[y]) || InOne(rest, x, y) {
      var xin, yin := seg.0 <= x <= seg.1, seg.0 <= y <= seg.1;
      if xin && yin {
        if !le(t[x], t[y]) {
          assert InOne(parts, x, y);
          var k :| 0 <= k < |parts| && parts[k].0 <= x && y <= parts[k].1;
          assert rest[last + k] == parts[k];
        }
      } else if xin {
        ShuffledFrom(s, t, seg.0, seg.1, x);
        var x' :| seg.0 <= x' <= seg.1 && s[x'] == t[x];
        OutsidePair(le, s, lo, hi, segs, x', y);
      } else if yin {
        ShuffledFrom(s, t, seg.0, seg.1, y);
        var y' :| seg.0 <= y' <= seg.1 && s[y'] == t[y];
        OutsidePair(le, s, lo, hi, segs, x, y');
      } else {
        if !le(s[x], s[y]) {
          assert InOne(segs, x, y);
          var k :| 0 <= k < |segs| && segs[k].0 <= x && y <= segs[k].1;
          if k < last {
            assert rest[k] == segs[k];
          } else {
            assert false;
          }
        }
      }
    }
  }

  function Size(seg: (int, int)): nat {
    if seg.1 < seg.0 then 0 else seg.1 - seg.0 + 1
  }

  // Work left on the stack: it falls whenever a segment is popped and split.
  ghost function Work(segs: seq<(int, int)>): nat {
    if segs == [] then 0 else Work(segs[..|segs| - 1]) + 2 * Size(segs[|segs| - 1]) + 1
  }

  lemma WorkAppend(segs: seq<(int, int)>, seg: (int, int))
    ensures Work(segs + [seg]) == Work(segs) + 2 * Size(seg) + 1
  {
    assert (segs + [seg])[..|segs|] == segs;
  }

  // bound halved k times
  ghost function Limit(bound: nat, k: nat): nat {
    if k == 0 then bound else Limit(bound, k - 1) / 2
  }

  lemma {:induction false} LimitFalls(bound: nat, k: nat, m: nat)
    requires k <= m
    ensures Limit(bound, m) <= Limit(bound, k)
    decreases m - k
  {
    if k < m {
      LimitFalls(bound, k, m - 1);
    }
  }

  // Segments at least halve in size every rate places up the stack.
  ghost predicate Tapers(segs: seq<(int, int)>, bound: nat, rate: nat)
    requires rate > 0
  {
    forall k :: 0 <= k < |segs| ==> Size(segs[k]) <= Limit(bound, k / rate)
  }

  // So a segment of 8 or more elements lies low, whatever 32-bit index range is being sorted.
  lemma LowOnStack(k: nat, size: nat, bound: nat)
    requires 8 <= size <= Limit(bound, k) && bound < 0x8000_0000
    ensures k < 28
  {
    if k >= 28 {
      LimitFalls(bound, 28, k);
      LimitAt28(bound);
      assert false;
    }
  }

  lemma LimitFourOn(bound: nat, k: nat)
    ensures Limit(bound, k + 4) == Limit(bound, k) / 16
  {
    assert Limit(bound, k + 1) == Limit(bound, k) / 2;
    assert Limit(bound, k + 2) == Limit(bound, k + 1) / 2;
    assert Limit(bound, k + 3) == Limit(bound, k + 2) / 2;
  }

  lemma LimitAt28(bound: nat)
    requires bound < 0x8000_0000
    ensures Limit(bound, 28) < 8
  {
    LimitFourOn(bound, 0);
    LimitFourOn(bound, 4);
    LimitFourOn(bound, 8);
    LimitFourOn(bound, 12);
    LimitFourOn(bound, 16);
    LimitFourOn(bound, 20);
    LimitFourOn(bound, 24);
  }

  // The two arrays that hold the stack.
  ghost predicate StackHolds(stackLo: seq<int>, stackHi: seq<int>, segs: seq<(int, int)>) {
    && |segs| <= |stackLo| && |segs| <= |stackHi|
    && forall k :: 0 <= k < |segs| ==> stackLo[k] == segs[k].0 && stackHi[k] == segs[k].1
  }

  method Push(stackLo: array<int>, stackHi: array<int>, sp: nat, parts: seq<(int, int)>, ghost segs: seq<(int, int)>)
    returns (sp': nat)
    requires stackLo != stackHi && stackLo.Length == stackHi.Length
    requires sp == |segs| && sp + |parts| <= stackLo.Length
    requires StackHolds(stackLo[..], stackHi[..], segs)
    modifies stackLo, stackHi
    ensures sp' == sp + |parts| && StackHolds(stackLo[..], stackHi[..], segs + parts)
  {
    for i := 0 to |parts|
      invariant StackHolds(stackLo[..], stackHi[..], segs + parts[..i])
    {
      stackLo[sp + i] := parts[i].0;
      stackHi[sp + i] := parts[i].1;
    }
    sp' := sp + |parts|;
    assert parts[..|parts|] == parts;
  }
}
