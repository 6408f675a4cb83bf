// The scan from the right, and the proof that the two scans meet.
module InducedRight {
  import opened Common
  import opened Rotations
  import opened SmallBuckets
  import opened InducedScan

  // Places from..BigFirst(ss + 1) have been read.
  ghost predicate RightScan(b: seq<Byte>, p0: seq<int>, p: seq<int>, ss: int, done: seq<bool>, cs: seq<int>,
                            ce: seq<int>, from: int) {
    && Shape(b, p0, p, ss, done, cs, ce)
    && BigFirst(b, ss) <= cs[ss] <= |b|
    && -1 <= ce[ss] < from <= BigFirst(b, ss + 1) <= |b|
    && FilledLow(b, p, ss, done, cs, p[BigFirst(b, ss)..cs[ss]])
    && Settled(b, p[BigFirst(b, ss)..cs[ss]], ss, true)
    && FilledHigh(b, p, ss, done, ce, p[from..BigFirst(b, ss + 1)])
    && Settled(b, p[ce[ss] + 1..BigFirst(b, ss + 1)], ss, false)
  }

  lemma RightStart(b: seq<Byte>, p0: seq<int>, p: seq<int>, ss: int, done: seq<bool>, cs: seq<int>, ce: seq<int>)
    requires 0 <= ss < 256 == |cs| && LeftScan(b, p0, p, ss, done, cs, ce, cs[ss]) && OthersSorted(b, p0, ss)
    ensures RightScan(b, p0, p, ss, done, cs, ce, BigFirst(b, ss + 1))
  {
    Layout(b, ss, ss);
    var lo, hi := After(b, ss, ss), BigFirst(b, ss + 1);
    SideInOrder(b, p0, ss, lo, hi, false);
    forall x | lo <= x < hi ensures p[x] == p0[x] {
      InBigBucket(b, p0, ss, x);
      assert !Written(b, p0, ss, done, cs, ce, x);
    }
    assert p[lo..hi] == p0[lo..hi];
    forall t | 0 <= t < 256 ensures First(b, t, ss) <= After(b, t, ss) <= |b| {
      Layout(b, t, ss);
    }
  }

  // ---- one step from the right --------------------------------------------

  lemma PredsFront(b: seq<Byte>, s: seq<int>, u: int, t: int)
    requires Valid(|b|, s) && 0 <= u < |b|
    ensures Valid(|b|, [u] + s)
    ensures Preds(b, [u] + s, t) == (if b[Prev(|b|, u)] == t then [Prev(|b|, u)] else []) + Preds(b, s, t)
  {
    PredsConcat(b, [u], s, t);
    PredsOne(b, [], u, t);
    assert [] + [u] == [u];
  }

  lemma PrevPred(b: seq<Byte>, p: seq<int>, j: int, hi: int, t: int)
    requires 0 <= j < hi <= |p| && Valid(|b|, p[j + 1..hi]) && 0 <= p[j] < |b|
    ensures Valid(|b|, p[j..hi])
    ensures var k := Prev(|b|, p[j]);
            Preds(b, p[j..hi], t) == (if b[k] == t then [k] else []) + Preds(b, p[j + 1..hi], t)
  {
    assert p[j..hi] == [p[j]] + p[j + 1..hi];
    PredsFront(b, p[j + 1..hi], p[j], t);
  }

  lemma BothInjective(b: seq<Byte>, s: seq<int>, r: seq<int>, ss: int)
    requires Settled(b, s, ss, true) && Settled(b, r, ss, false)
    ensures Injective(s + r) && InOrder(b, s + r)
    ensures forall i :: 0 <= i < |s + r| ==> b[(s + r)[i]] == ss
  {
    var q := s + r;
    forall i, j | 0 <= i < j < |q| ensures q[i] != q[j] && Leq(b, q[i], q[j]) {
      if j < |s| {
        assert Leq(b, s[i], s[j]);
      } else if i >= |s| {
        assert Leq(b, r[i - |s|], r[j - |s|]);
      } else {
        LowBelowHigh(b, ss, s[i], r[j - |s|]);
      }
    }
  }

  // Low and high predecessors together fit in their bucket.
  lemma BothRoom(b: seq<Byte>, p0: seq<int>, s: seq<int>, r: seq<int>, ss: int, t: int)
    requires Grouped(b, p0) && 0 <= ss < 256 && 0 <= t < 256
    requires Settled(b, s, ss, true) && Settled(b, r, ss, false)
    ensures |Preds(b, s, t)| + |Preds(b, r, t)| <= After(b, t, ss) - First(b, t, ss)
    ensures (forall v :: 0 <= v < |b| && b[v] == ss ==> v in s + r) ==>
              |Preds(b, s, t)| + |Preds(b, r, t)| == After(b, t, ss) - First(b, t, ss)
  {
    BothInjective(b, s, r, ss);
    PredsConcat(b, s, r, t);
    Room(b, p0, s + r, ss, t);
  }

  // The slot is free, and lies outside the parts the scans have read or filled.
  lemma RightRoom(b: seq<Byte>, p0: seq<int>, p: seq<int>, ss: int, done: seq<bool>, cs: seq<int>, ce: seq<int>, j: int)
    requires RightScan(b, p0, p, ss, done, cs, ce, j + 1) && ce[ss] < j < |p|
    ensures 0 <= p[j] < |b|
    ensures var c := b[Prev(|b|, p[j])];
            !done[c] ==> First(b, c, ss) <= cs[c] <= ce[c] < After(b, c, ss) <= |b|
  {
    var lo, hi := BigFirst(b, ss), BigFirst(b, ss + 1);
    Scanned(b, p, ss, false, ce[ss] + 1, hi, j);
    var c := b[Prev(|b|, p[j])];
    if !done[c] {
      SliceOfSettled(b, p, ss, false, ce[ss] + 1, hi, j, hi);
      BothRoom(b, p0, p[lo..cs[ss]], p[j..hi], ss, c);
      PrevPred(b, p, j, hi, c);
      assert Lists(b, p, First(b, c, ss), cs[c], p[lo..cs[ss]], c);
      assert Lists(b, p, ce[c] + 1, After(b, c, ss), p[j + 1..hi], c);
    }
  }

  lemma RightSkip(b: seq<Byte>, p0: seq<int>, p: seq<int>, ss: int, done: seq<bool>, cs: seq<int>, ce: seq<int>, j: int)
    requires RightScan(b, p0, p, ss, done, cs, ce, j + 1) && ce[ss] < j < |p|
    requires 0 <= p[j] < |b| && done[b[Prev(|b|, p[j])]]
    ensures RightScan(b, p0, p, ss, done, cs, ce, j)
  {
    var hi := BigFirst(b, ss + 1);
    PrevPred(b, p, j, hi, 0);
    forall t | 0 <= t < 256 && !done[t] ensures Lists(b, p, ce[t] + 1, After(b, t, ss), p[j..hi], t) {
      PrevPred(b, p, j, hi, t);
      assert First(b, t, ss) <= ce[t] + 1;
    }
  }

  lemma ListsPlaceHigh(b: seq<Byte>, p: seq<int>, end: int, after: int, j: int, hi: int, t: int, k: int)
    requires 0 <= j < hi <= |p| && 0 <= p[j] < |b| && k == Prev(|b|, p[j]) && b[k] == t
    requires 0 <= end < after && Lists(b, p, end + 1, after, p[j + 1..hi], t) && !(j <= end < hi)
    ensures Lists(b, p[end := k], end, after, p[end := k][j..hi], t)
  {
    PrevPred(b, p, j, hi, t);
    assert p[end := k][j..hi] == p[j..hi];
    assert p[end := k][end..after] == [k] + p[end + 1..after];
  }

  lemma RightPlaceHigh(b: seq<Byte>, p: seq<int>, ss: int, done: seq<bool>, ce: seq<int>, j: int, c: int, k: int)
    requires |p| == |b| && |done| == |ce| == 256 && 0 <= ss < 256 && 0 <= c < 256
    requires 0 <= j < BigFirst(b, ss + 1) <= |b| && FilledHigh(b, p, ss, done, ce, p[j + 1..BigFirst(b, ss + 1)])
    requires 0 <= p[j] < |b| && k == Prev(|b|, p[j]) && c == b[k] && !done[c]
    requires First(b, c, ss) <= ce[c] < After(b, c, ss) <= |b| && !(j <= ce[c] < BigFirst(b, ss + 1))
    ensures FilledHigh(b, p[ce[c] := k], ss, done, ce[c := ce[c] - 1], p[ce[c] := k][j..BigFirst(b, ss + 1)])
  {
    hide Lists, First, After, BigFirst;
    var hi := BigFirst(b, ss + 1);
    var p', ce' := p[ce[c] := k], ce[c := ce[c] - 1];
    assert p'[j..hi] == p[j..hi];
    PrevPred(b, p, j, hi, 0);
    SlotSide(b, ss, c, ce[c]);
    forall t | 0 <= t < 256 && !done[t]
      ensures First(b, t, ss) <= ce'[t] + 1 && Lists(b, p', ce'[t] + 1, After(b, t, ss), p'[j..hi], t)
    {
      assert First(b, t, ss) <= ce[t] + 1;
      ListsStepHigh(b, p, ce[t], After(b, t, ss), j, hi, t, ce[c], k);
      assert ce'[t] + 1 == if t == c then ce[t] else ce[t] + 1;
    }
  }

  lemma ListsStepHigh(b: seq<Byte>, p: seq<int>, end: int, after: int, j: int, hi: int, t: int, at: int, k: int)
    requires 0 <= j < hi <= |p| && 0 <= p[j] < |b| && k == Prev(|b|, p[j])
    requires Lists(b, p, end + 1, after, p[j + 1..hi], t)
    requires 0 <= at < |p| && !(j <= at < hi)
    requires if b[k] == t then at == end && end < after else !(end < at < after)
    ensures Lists(b, p[at := k], if b[k] == t then end else end + 1, after, p[at := k][j..hi], t)
  {
    if b[k] == t {
      ListsPlaceHigh(b, p, end, after, j, hi, t, k);
    } else {
      ListsOtherHigh(b, p, end + 1, after, j, hi, t, at, k);
    }
  }

  lemma ListsOtherHigh(b: seq<Byte>, p: seq<int>, first: int, after: int, j: int, hi: int, t: int, at: int, k: int)
    requires 0 <= j < hi <= |p| && 0 <= p[j] < |b| && b[Prev(|b|, p[j])] != t
    requires Lists(b, p, first, after, p[j + 1..hi], t)
    requires 0 <= at < |p| && !(first <= at < after) && !(j <= at < hi)
    ensures Lists(b, p[at := k], first, after, p[at := k][j..hi], t)
  {
    PrevPred(b, p, j, hi, t);
    ListsElsewhere(b, p, first, after, j, hi, t, at, k);
  }

  lemma RightPlaceLow(b: seq<Byte>, p: seq<int>, ss: int, done: seq<bool>, cs: seq<int>, c: int, at: int, k: int)
    requires |p| == |b| && |done| == |cs| == 256 && 0 <= ss < 256 && 0 <= c < 256 && !done[c]
    requires BigFirst(b, ss) <= cs[ss] <= |b|
    requires FilledLow(b, p, ss, done, cs, p[BigFirst(b, ss)..cs[ss]])
    requires First(b, c, ss) <= cs[c] <= at < After(b, c, ss) <= |b| && !(BigFirst(b, ss) <= at < cs[ss])
    ensures FilledLow(b, p[at := k], ss, done, cs, p[at := k][BigFirst(b, ss)..cs[ss]])
  {
    var lo := BigFirst(b, ss);
    assert p[at := k][lo..cs[ss]] == p[lo..cs[ss]];
    SlotSide(b, ss, c, at);
    forall t | 0 <= t < 256 && !done[t] ensures Lists(b, p[at := k], First(b, t, ss), cs[t], p[at := k][lo..cs[ss]],
        t) {
      ListsElsewhere(b, p, First(b, t, ss), cs[t], lo, cs[ss], t, at, k);
    }
  }

  // The new first place of the settled stretch is below all after it.
  lemma RightPlaceFirst(b: seq<Byte>, p0: seq<int>, p: seq<int>, ss: int, done: seq<bool>, cs: seq<int>, ce: seq<int>,
                        j: int, k: int, x: int)
    requires RightScan(b, p0, p, ss, done, cs, ce, j + 1) && ce[ss] < j < |p| && 0 <= p[j] < |b|
    requires k == Prev(|b|, p[j]) && b[k] == ss && b[Next(|b|, k)] == ss
    requires ce[ss] < x < BigFirst(b, ss + 1) && First(b, ss, ss) <= ce[ss]
    ensures 0 <= p[x] < |b| && Leq(b, k, p[x]) && p[x] != k
  {
    var s1, hi := After(b, ss, ss), BigFirst(b, ss + 1);
    if x >= s1 {
      AboveOuter(b, p0, p, ss, done, cs, ce, k, x);
    } else {
      Layout(b, ss, ss);
      AboveListed(b, p, ss, ce[ss] + 1, s1, hi, j, k, x);
    }
  }

  lemma AboveOuter(b: seq<Byte>, p0: seq<int>, p: seq<int>, ss: int, done: seq<bool>, cs: seq<int>, ce: seq<int>,
                   k: int, x: int)
    requires Shape(b, p0, p, ss, done, cs, ce) && After(b, ss, ss) <= x < BigFirst(b, ss + 1) <= |b|
    requires 0 <= k < |b| && b[k] == ss && b[Next(|b|, k)] == ss
    ensures 0 <= p[x] < |b| && Leq(b, k, p[x]) && p[x] != k
  {
    Layout(b, ss, ss);
    InBigBucket(b, p0, ss, x);
    assert !Written(b, p0, ss, done, cs, ce, x);
    CodeOrder(b, k, p[x]);
  }

  lemma AboveListed(b: seq<Byte>, p: seq<int>, ss: int, lo: int, after: int, hi: int, j: int, k: int, x: int)
    requires 0 <= lo <= j < hi <= |p| && Settled(b, p[lo..hi], ss, false)
    requires Lists(b, p, lo, after, p[j + 1..hi], ss) && lo <= x < after
    requires 0 <= p[j] < |b| && k == Prev(|b|, p[j]) && b[k] == ss
    ensures 0 <= p[x] < |b| && Leq(b, k, p[x]) && p[x] != k
  {
    assert p[lo..after][x - lo] == p[x];
    PredsMember(b, p[j + 1..hi], ss, p[x]);
    var y :| 0 <= y < hi - j - 1 && p[j + 1..hi][y] == Next(|b|, p[x]);
    var s := p[lo..hi];
    var z := y + j + 1 - lo;
    assert s[z] == Next(|b|, p[x]) && s[j - lo] == p[j];
    assert Leq(b, s[j - lo], s[z]) && s[j - lo] != s[z];
    LeqNext(b, k, p[x]);
  }

  lemma RightPlaceSettled(b: seq<Byte>, p0: seq<int>, p: seq<int>, ss: int, done: seq<bool>, cs: seq<int>, ce: seq<int>,
                          j: int, k: int)
    requires RightScan(b, p0, p, ss, done, cs, ce, j + 1) && ce[ss] < j < |p| && 0 <= p[j] < |b|
    requires k == Prev(|b|, p[j]) && b[k] == ss && First(b, ss, ss) <= ce[ss]
    ensures Settled(b, p[ce[ss] := k][ce[ss]..BigFirst(b, ss + 1)], ss, false)
  {
    var at, hi := ce[ss], BigFirst(b, ss + 1);
    Scanned(b, p, ss, false, at + 1, hi, j);
    PrevLow(b, ss, p[j]);
    forall x | at < x < hi ensures BelowAt(b, p, k, x) {
      RightPlaceFirst(b, p0, p, ss, done, cs, ce, j, k, x);
    }
    SettledFront(b, p, at, hi, ss, k);
  }

  ghost predicate BelowAt(b: seq<Byte>, p: seq<int>, k: int, x: int) {
    0 <= x < |p| && 0 <= p[x] < |b| && 0 <= k < |b| && Leq(b, k, p[x]) && p[x] != k
  }

  lemma SettledFront(b: seq<Byte>, p: seq<int>, at: int, hi: int, ss: int, k: int)
    requires 0 <= at < hi <= |p| && Settled(b, p[at + 1..hi], ss, false)
    requires 0 <= k < |b| && b[k] == ss && High(b, ss, k)
    requires forall x :: at < x < hi ==> BelowAt(b, p, k, x)
    ensures Settled(b, p[at := k][at..hi], ss, false)
  {
    var s := p[at + 1..hi];
    var r := [k] + s;
    assert p[at := k][at..hi] == r;
    forall i, l | 0 <= i < l < |r| ensures Leq(b, r[i], r[l]) && r[i] != r[l] {
      if i > 0 {
        assert Leq(b, s[i - 1], s[l - 1]);
      } else {
        assert BelowAt(b, p, k, at + l);
      }
    }
  }

  lemma RightPlaceFrame(b: seq<Byte>, p0: seq<int>, p: seq<int>, ss: int, done: seq<bool>, cs: seq<int>, ce: seq<int>,
                        j: int, c: int, k: int)
    requires RightScan(b, p0, p, ss, done, cs, ce, j + 1) && ce[ss] < j < |p| && 0 <= p[j] < |b|
    requires k == Prev(|b|, p[j]) && c == b[k] && !done[c]
    requires First(b, c, ss) <= cs[c] <= ce[c] < After(b, c, ss) <= |b|
    ensures var ce' := ce[c := ce[c] - 1];
            -1 <= ce'[ss] <= j - 1 && Settled(b, p[ce[c] := k][ce'[ss] + 1..BigFirst(b, ss + 1)], ss, false)
    ensures p[ce[c] := k][BigFirst(b, ss)..cs[ss]] == p[BigFirst(b, ss)..cs[ss]]
    ensures !(BigFirst(b, ss) <= ce[c] < cs[ss]) && !(j <= ce[c] < BigFirst(b, ss + 1))
  {
    var hi := BigFirst(b, ss + 1);
    SlotSide(b, ss, c, ce[c]);
    if c == ss {
      RightPlaceSettled(b, p0, p, ss, done, cs, ce, j, k);
    } else {
      assert cs[ss] <= After(b, ss, ss) && First(b, ss, ss) <= ce[ss] + 1;
      Layout(b, ss, ss);
      assert p[ce[c] := k][ce[ss] + 1..hi] == p[ce[ss] + 1..hi];
    }
  }

  lemma RightPlace(b: seq<Byte>, p0: seq<int>, p: seq<int>, ss: int, done: seq<bool>, cs: seq<int>, ce: seq<int>,
                   j: int, c: int, k: int)
    requires RightScan(b, p0, p, ss, done, cs, ce, j + 1) && ce[ss] < j < |p| && 0 <= p[j] < |b|
    requires k == Prev(|b|, p[j]) && c == b[k] && !done[c]
    ensures 0 <= ce[c] < |b| && RightScan(b, p0, p[ce[c] := k], ss, done, cs, ce[c := ce[c] - 1], j)
  {
    RightRoom(b, p0, p, ss, done, cs, ce, j);
    RightPlaceFrame(b, p0, p, ss, done, cs, ce, j, c, k);
    RightPlaceHigh(b, p, ss, done, ce, j, c, k);
    RightPlaceLow(b, p, ss, done, cs, c, ce[c], k);
    KeptStep(b, p0, p, ss, done, cs, ce, cs, ce[c := ce[c] - 1], c, ce[c], k);
  }

  // ---- the two scans meet -------------------------------------------------

  // Every rotation starting with ss has been placed: from one side directly, or as the predecessor
  // of one that was, its run of ss being one longer.
  lemma {:induction false} InSides(b: seq<Byte>, p0: seq<int>, p: seq<int>, ss: int, done: seq<bool>, cs: seq<int>,
                                   ce: seq<int>, v: nat, m: nat)
    requires 0 <= ss < 256 == |ce| && RightScan(b, p0, p, ss, done, cs, ce, ce[ss] + 1)
    requires v < |b| && 0 < m && Run(b, ss, v, m) && At(b, v, m) != ss
    ensures v in p[BigFirst(b, ss)..cs[ss]] || v in p[ce[ss] + 1..BigFirst(b, ss + 1)]
    decreases m
  {
    var u := Next(|b|, v);
    var lo, hi := BigFirst(b, ss), BigFirst(b, ss + 1);
    AtZero(b, v);
    AtZero(b, u);
    AtNext(b, v, 0);
    assert b[v] == ss;
    if m == 1 {
      AtOuterPlace(b, p0, p, ss, done, cs, ce, v);
    } else {
      AtNext(b, v, m - 1);
      forall k: nat | k < m - 1 ensures At(b, u, k) == ss {
        AtNext(b, v, k);
        assert At(b, v, k + 1) == ss;
      }
      InSides(b, p0, p, ss, done, cs, ce, u, m - 1);
      PredsMember(b, p[lo..cs[ss]], ss, v);
      PredsMember(b, p[ce[ss] + 1..hi], ss, v);
      Placed(b, p, ss, done, cs, ce, v);
    }
  }

  lemma AtOuterPlace(b: seq<Byte>, p0: seq<int>, p: seq<int>, ss: int, done: seq<bool>, cs: seq<int>, ce: seq<int>,
                     v: nat)
    requires 0 <= ss < 256 == |ce| && RightScan(b, p0, p, ss, done, cs, ce, ce[ss] + 1)
    requires v < |b| && b[v] == ss && b[Next(|b|, v)] != ss
    ensures v in p[BigFirst(b, ss)..cs[ss]] || v in p[ce[ss] + 1..BigFirst(b, ss + 1)]
  {
    var lo, hi := BigFirst(b, ss), BigFirst(b, ss + 1);
    var x := OuterPlace(b, p0, ss, v);
    assert !Written(b, p0, ss, done, cs, ce, x);
    assert p[x] == v;
    assert First(b, ss, ss) <= cs[ss] && ce[ss] + 1 <= After(b, ss, ss);
    if x < First(b, ss, ss) {
      assert p[lo..cs[ss]][x - lo] == v;
    } else {
      assert p[ce[ss] + 1..hi][x - ce[ss] - 1] == v;
    }
  }

  lemma OuterPlace(b: seq<Byte>, p0: seq<int>, ss: int, v: nat) returns (x: nat)
    requires Grouped(b, p0) && 0 <= ss < 256 && BigFirst(b, ss + 1) <= |b|
    requires v < |b| && b[v] == ss && b[Next(|b|, v)] != ss
    ensures x < |b| && p0[x] == v
    ensures BigFirst(b, ss) <= x < First(b, ss, ss) || After(b, ss, ss) <= x < BigFirst(b, ss + 1)
  {
    PermSurjective(p0, v);
    x :| 0 <= x < |p0| && p0[x] == v;
    PlaceByte(b, p0, x, ss);
    InBigBucket(b, p0, ss, x);
  }

  // What was listed as a predecessor stands in the filled part of its bucket.
  lemma Placed(b: seq<Byte>, p: seq<int>, ss: int, done: seq<bool>, cs: seq<int>, ce: seq<int>, v: nat)
    requires |p| == |b| && 0 <= ss < 256 && |done| == |cs| == |ce| == 256 && !done[ss]
    requires BigFirst(b, ss) <= cs[ss] <= |b| && -1 <= ce[ss] < BigFirst(b, ss + 1) <= |b|
    requires FilledLow(b, p, ss, done, cs, p[BigFirst(b, ss)..cs[ss]])
    requires FilledHigh(b, p, ss, done, ce, p[ce[ss] + 1..BigFirst(b, ss + 1)])
    requires v in Preds(b, p[BigFirst(b, ss)..cs[ss]], ss) || v in Preds(b, p[ce[ss] + 1..BigFirst(b, ss + 1)], ss)
    ensures v in p[BigFirst(b, ss)..cs[ss]] || v in p[ce[ss] + 1..BigFirst(b, ss + 1)]
  {
    var lo, hi := BigFirst(b, ss), BigFirst(b, ss + 1);
    Layout(b, ss, ss);
    assert Lists(b, p, First(b, ss, ss), cs[ss], p[lo..cs[ss]], ss);
    assert Lists(b, p, ce[ss] + 1, After(b, ss, ss), p[ce[ss] + 1..hi], ss);
    if v in Preds(b, p[lo..cs[ss]], ss) {
      var i :| 0 <= i < cs[ss] - First(b, ss, ss) && p[First(b, ss, ss)..cs[ss]][i] == v;
      assert p[lo..cs[ss]][First(b, ss, ss) + i - lo] == v;
    } else {
      var i :| 0 <= i < After(b, ss, ss) - ce[ss] - 1 && p[ce[ss] + 1..After(b, ss, ss)][i] == v;
      assert p[ce[ss] + 1..hi][i] == v;
    }
  }

  lemma AllPlaced(b: seq<Byte>, p0: seq<int>, p: seq<int>, ss: int, done: seq<bool>, cs: seq<int>, ce: seq<int>, w: nat)
    requires 0 <= ss < 256 == |ce| && RightScan(b, p0, p, ss, done, cs, ce, ce[ss] + 1) && w < |b| && b[w] != ss
    ensures forall v :: 0 <= v < |b| && b[v] == ss ==>
              v in p[BigFirst(b, ss)..cs[ss]] + p[ce[ss] + 1..BigFirst(b, ss + 1)]
  {
    forall v | 0 <= v < |b| && b[v] == ss
      ensures v in p[BigFirst(b, ss)..cs[ss]] + p[ce[ss] + 1..BigFirst(b, ss + 1)]
    {
      RunEnds(b, ss, v, w);
      var m: nat :| 0 < m && Run(b, ss, v, m) && At(b, v, m) != ss;
      InSides(b, p0, p, ss, done, cs, ce, v, m);
    }
  }

  // A bucket filled from both ends by the predecessors of all of the big bucket is filled exactly.
  lemma FilledExactly(b: seq<Byte>, p0: seq<int>, p: seq<int>, s: seq<int>, r: seq<int>, ss: int, t: int, end: int,
                      from: int)
    requires Grouped(b, p0) && 0 <= ss < 256 && 0 <= t < 256
    requires Settled(b, s, ss, true) && Settled(b, r, ss, false)
    requires Lists(b, p, First(b, t, ss), end, s, t) && Lists(b, p, from, After(b, t, ss), r, t)
    requires forall v :: 0 <= v < |b| && b[v] == ss ==> v in s + r
    ensures end == from && Valid(|b|, s + r) && p[First(b, t, ss)..After(b, t, ss)] == Preds(b, s + r, t)
  {
    assert end == from by {
      BothRoom(b, p0, s, r, ss, t);
    }
    PredsConcat(b, s, r, t);
    Joined(p, First(b, t, ss), end, After(b, t, ss));
  }

  lemma Joined(p: seq<int>, lo: int, mid: int, hi: int)
    requires 0 <= lo <= mid <= hi <= |p|
    ensures p[lo..hi] == p[lo..mid] + p[mid..hi]
  {
  }

  // In a block of more than one byte value, the scans meet in every bucket they rebuild.
  lemma Meet(b: seq<Byte>, p0: seq<int>, p: seq<int>, ss: int, done: seq<bool>, cs: seq<int>, ce: seq<int>, w: nat,
             t: int)
    requires 0 <= ss < 256 == |ce| && RightScan(b, p0, p, ss, done, cs, ce, ce[ss] + 1) && w < |b| && b[w] != ss
    requires 0 <= t < 256 && !done[t]
    ensures cs[t] == ce[t] + 1 && First(b, t, ss) <= cs[t] <= After(b, t, ss) <= |b|
    ensures Valid(|b|, p[BigFirst(b, ss)..cs[ss]] + p[ce[ss] + 1..BigFirst(b, ss + 1)])
    ensures p[First(b, t, ss)..After(b, t, ss)]
            == Preds(b, p[BigFirst(b, ss)..cs[ss]] + p[ce[ss] + 1..BigFirst(b, ss + 1)], t)
  {
    AllPlaced(b, p0, p, ss, done, cs, ce, w);
    FilledExactly(b, p0, p, p[BigFirst(b, ss)..cs[ss]], p[ce[ss] + 1..BigFirst(b, ss + 1)], ss, t, cs[t], ce[t] + 1);
  }
}
