// What the two scans leave: every small bucket [t, ss] of an unfinished t sorted, the finished big
// bucket sorted, and everything else as it was.
module InducedResult {
  import opened Common
  import opened Rotations
  import opened SmallBuckets
  import opened InducedScan
  import opened InducedRight

  // Place x belongs to a bucket the scans rebuild.
  ghost predicate InRebuilt(b: seq<Byte>, p0: seq<int>, ss: int, done: seq<bool>, x: nat)
    requires x < |p0| && 0 <= p0[x] < |b| && |done| == 256
  {
    b[Next(|b|, p0[x])] == ss && !done[b[p0[x]]]
  }

  ghost predicate Rebuilt(b: seq<Byte>, p0: seq<int>, p: seq<int>, ss: int, done: seq<bool>)
    requires Grouped(b, p0) && |done| == 256 && 0 <= ss < 256
  {
    && Grouped(b, p)
    && (forall x :: 0 <= x < |b| && !InRebuilt(b, p0, ss, done, x) ==> p[x] == p0[x])
    && (forall t :: 0 <= t < 256 && !done[t] ==> SmallSorted(b, p, First(b, t, ss), After(b, t, ss)))
    && SmallSorted(b, p, BigFirst(b, ss), BigFirst(b, ss + 1))
  }

  ghost predicate BigSettled(b: seq<Byte>, q: seq<int>, ss: int) {
    InOrder(b, q) && Injective(q) && forall i :: 0 <= i < |q| ==> b[q[i]] == ss
  }

  // Every rebuilt bucket lists predecessors of the big bucket, which is itself in order.
  ghost predicate Filled(b: seq<Byte>, p: seq<int>, ss: int, done: seq<bool>)
    requires |done| == 256 && 0 <= ss < 256
  {
    && 0 <= BigFirst(b, ss) <= BigFirst(b, ss + 1) <= |p| == |b|
    && BigSettled(b, p[BigFirst(b, ss)..BigFirst(b, ss + 1)], ss)
    && forall t :: 0 <= t < 256 && !done[t] ==> FilledBucket(b, p, ss, t)
  }

  ghost predicate FilledBucket(b: seq<Byte>, p: seq<int>, ss: int, t: int)
    requires 0 <= ss < 256 && 0 <= t < 256
    requires 0 <= BigFirst(b, ss) <= BigFirst(b, ss + 1) <= |p| == |b|
    requires Valid(|b|, p[BigFirst(b, ss)..BigFirst(b, ss + 1)])
  {
    && First(b, t, ss) <= After(b, t, ss) <= |b|
    && p[First(b, t, ss)..After(b, t, ss)] == Preds(b, p[BigFirst(b, ss)..BigFirst(b, ss + 1)], t)
  }

  lemma ScansFill(b: seq<Byte>, p0: seq<int>, p: seq<int>, ss: int, done: seq<bool>, cs: seq<int>, ce: seq<int>, w: nat)
    requires 0 <= ss < 256 == |ce| && RightScan(b, p0, p, ss, done, cs, ce, ce[ss] + 1) && w < |b| && b[w] != ss
    ensures cs[ss] == ce[ss] + 1 && Filled(b, p, ss, done)
  {
    var lo, hi := BigFirst(b, ss), BigFirst(b, ss + 1);
    Meet(b, p0, p, ss, done, cs, ce, w, ss);
    BothInjective(b, p[lo..cs[ss]], p[ce[ss] + 1..hi], ss);
    Joined(p, lo, cs[ss], hi);
    forall t | 0 <= t < 256 && !done[t] ensures FilledBucket(b, p, ss, t) {
      Meet(b, p0, p, ss, done, cs, ce, w, t);
    }
  }

  // A rebuilt place holds a rotation of the bucket it lies in.
  lemma FilledPlace(b: seq<Byte>, p0: seq<int>, p: seq<int>, ss: int, done: seq<bool>, x: nat)
    requires Grouped(b, p0) && |done| == 256 && 0 <= ss < 256 && Filled(b, p, ss, done)
    requires x < |b| && InRebuilt(b, p0, ss, done, x)
    ensures var t := b[p0[x]];
            FilledBucket(b, p, ss, t) && First(b, t, ss) <= x < After(b, t, ss)
            && 0 <= p[x] < |b| && b[p[x]] == t && b[Next(|b|, p[x])] == ss
  {
    var t := b[p0[x]];
    PlaceCode(b, p0, x, t, ss);
    assert FilledBucket(b, p, ss, t);
    var q := p[BigFirst(b, ss)..BigFirst(b, ss + 1)];
    assert p[First(b, t, ss)..After(b, t, ss)][x - First(b, t, ss)] == p[x];
    PredsMember(b, q, t, p[x]);
    var y :| 0 <= y < |q| && q[y] == Next(|b|, p[x]);
  }

  lemma SameCodes(b: seq<Byte>, p0: seq<int>, p: seq<int>, ss: int, done: seq<bool>, x: nat)
    requires Grouped(b, p0) && |done| == 256 && 0 <= ss < 256 && Filled(b, p, ss, done)
    requires forall x :: 0 <= x < |b| && !InRebuilt(b, p0, ss, done, x) ==> p[x] == p0[x]
    requires x < |b|
    ensures 0 <= p[x] < |b| && Codes(b)[p[x]] == Codes(b)[p0[x]]
  {
    if InRebuilt(b, p0, ss, done, x) {
      FilledPlace(b, p0, p, ss, done, x);
    }
  }

  // Two places of one rebuilt bucket.
  lemma DistinctInBucket(b: seq<Byte>, p0: seq<int>, p: seq<int>, ss: int, done: seq<bool>, x: nat, y: nat)
    requires Grouped(b, p0) && |done| == 256 && 0 <= ss < 256 && Filled(b, p, ss, done) && x < y < |b|
    requires InRebuilt(b, p0, ss, done, x) && InRebuilt(b, p0, ss, done, y) && b[p0[x]] == b[p0[y]]
    ensures p[x] != p[y]
  {
    FilledPlace(b, p0, p, ss, done, x);
    FilledPlace(b, p0, p, ss, done, y);
    var t := b[p0[x]];
    var q := p[First(b, t, ss)..After(b, t, ss)];
    PredsInjective(b, p[BigFirst(b, ss)..BigFirst(b, ss + 1)], t);
    assert q[x - First(b, t, ss)] == p[x] && q[y - First(b, t, ss)] == p[y];
  }

  lemma Distinct(b: seq<Byte>, p0: seq<int>, p: seq<int>, ss: int, done: seq<bool>, x: nat, y: nat)
    requires Grouped(b, p0) && |done| == 256 && 0 <= ss < 256 && Filled(b, p, ss, done)
    requires forall x :: 0 <= x < |b| && !InRebuilt(b, p0, ss, done, x) ==> p[x] == p0[x]
    requires x < y < |b|
    ensures p[x] != p[y]
  {
    hide Filled;
    SameCodes(b, p0, p, ss, done, x);
    SameCodes(b, p0, p, ss, done, y);
    if InRebuilt(b, p0, ss, done, x) && InRebuilt(b, p0, ss, done, y) && b[p0[x]] == b[p0[y]] {
      DistinctInBucket(b, p0, p, ss, done, x, y);
    }
  }

  lemma FilledRebuilds(b: seq<Byte>, p0: seq<int>, p: seq<int>, ss: int, done: seq<bool>)
    requires Grouped(b, p0) && |done| == 256 && 0 <= ss < 256 && Filled(b, p, ss, done)
    requires forall x :: 0 <= x < |b| && !InRebuilt(b, p0, ss, done, x) ==> p[x] == p0[x]
    ensures Rebuilt(b, p0, p, ss, done)
  {
    forall x | 0 <= x < |b| ensures 0 <= p[x] < |b| && Codes(b)[p[x]] == Codes(b)[p0[x]] {
      SameCodes(b, p0, p, ss, done, x);
    }
    forall x, y | 0 <= x < y < |b| ensures p[x] != p[y] {
      Distinct(b, p0, p, ss, done, x, y);
    }
    forall t | 0 <= t < 256 && !done[t] ensures SmallSorted(b, p, First(b, t, ss), After(b, t, ss)) {
      assert FilledBucket(b, p, ss, t);
      PredsInOrder(b, p[BigFirst(b, ss)..BigFirst(b, ss + 1)], t);
    }
  }

  // In a block of one byte value all rotations are equal and the scans do nothing.
  lemma OneValueOrder(b: seq<Byte>, p: seq<int>, ss: int, lo: int, hi: int)
    requires Grouped(b, p) && forall v :: 0 <= v < |b| ==> b[v] == ss
    requires 0 <= lo <= hi <= |p|
    ensures SmallSorted(b, p, lo, hi)
  {
    var q := p[lo..hi];
    forall i, j | 0 <= i < j < |q| ensures Leq(b, q[i], q[j]) {
      assert EqTo(b, q[i], q[j], |b|);
      Trichotomy(b, q[i], q[j], |b|);
    }
  }

  lemma NoSides(b: seq<Byte>, ss: int, v: nat)
    requires |b| > 0 && forall v :: 0 <= v < |b| ==> b[v] == ss
    ensures !Low(b, ss, v) && !High(b, ss, v)
  {
  }

  lemma NoneSettled(b: seq<Byte>, s: seq<int>, ss: int, low: bool)
    requires Settled(b, s, ss, low) && forall v :: 0 <= v < |b| ==> b[v] == ss
    ensures s == []
  {
    if s != [] {
      NoSides(b, ss, s[0]);
    }
  }

  lemma OneValueKept(b: seq<Byte>, p0: seq<int>, p: seq<int>, ss: int, done: seq<bool>, cs: seq<int>, ce: seq<int>)
    requires 0 <= ss < 256 == |ce| && RightScan(b, p0, p, ss, done, cs, ce, ce[ss] + 1)
    requires forall v :: 0 <= v < |b| ==> b[v] == ss
    ensures cs[ss] == 0 && ce[ss] == |b| - 1 && p == p0
  {
    NoneSettled(b, p[BigFirst(b, ss)..cs[ss]], ss, true);
    NoneSettled(b, p[ce[ss] + 1..BigFirst(b, ss + 1)], ss, false);
    PlaceByte(b, p0, 0, ss);
    PlaceByte(b, p0, |b| - 1, ss);
    forall x | 0 <= x < |b| ensures p[x] == p0[x] {
      assert !Written(b, p0, ss, done, cs, ce, x);
    }
  }

  lemma OneValueRebuilt(b: seq<Byte>, p: seq<int>, ss: int, done: seq<bool>)
    requires Grouped(b, p) && |done| == 256 && 0 <= ss < 256 && forall v :: 0 <= v < |b| ==> b[v] == ss
    ensures Rebuilt(b, p, p, ss, done)
  {
    forall t | 0 <= t < 256 && !done[t] ensures SmallSorted(b, p, First(b, t, ss), After(b, t, ss)) {
      Layout(b, t, ss);
      OneValueOrder(b, p, ss, First(b, t, ss), After(b, t, ss));
    }
    Layout(b, ss, ss);
    OneValueOrder(b, p, ss, BigFirst(b, ss), BigFirst(b, ss + 1));
  }

  // The scans end as assertion 1007 demands, and have done their work.
  lemma ScansRebuild(b: seq<Byte>, p0: seq<int>, p: seq<int>, ss: int, done: seq<bool>, cs: seq<int>, ce: seq<int>)
    requires 0 <= ss < 256 == |ce| && RightScan(b, p0, p, ss, done, cs, ce, ce[ss] + 1)
    ensures Rebuilt(b, p0, p, ss, done)
    ensures cs[ss] - 1 == ce[ss] || (cs[ss] == 0 && ce[ss] == |b| - 1)
  {
    if w: nat :| w < |b| && b[w] != ss {
      ScansFill(b, p0, p, ss, done, cs, ce, w);
      forall x | 0 <= x < |b| && !InRebuilt(b, p0, ss, done, x) ensures p[x] == p0[x] {
        assert !Written(b, p0, ss, done, cs, ce, x);
      }
      FilledRebuilds(b, p0, p, ss, done);
    } else {
      OneValueKept(b, p0, p, ss, done, cs, ce);
      OneValueRebuilt(b, p, ss, done);
    }
  }
}
