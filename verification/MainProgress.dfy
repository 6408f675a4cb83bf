// What mainSort knows while it works through the big buckets: marked small buckets and finished big
// buckets are in order, and the quadrants rank the rotations of the finished ones.
module MainProgress {
  import opened Common
  import opened Rotations
  import opened SortStack
  import opened MainCompare
  import opened MainQSort
  import opened SmallBuckets
  import opened InducedScan
  import opened InducedResult

  // Bit 21 of a frequency table entry marks its small bucket as sorted; entries are below 2^22.
  const SETMASK := 0x20_0000

  predicate Marked(e: int) {
    e >= SETMASK
  }

  function Clear(e: int): int {
    if Marked(e) then e - SETMASK else e
  }

  function Mark(e: int): int {
    if Marked(e) then e else e + SETMASK
  }

  ghost predicate FtabIs(b: seq<Byte>, ft: seq<int>) {
    && |b| < SETMASK && |ft| >= 65537
    && forall sb :: 0 <= sb <= 65536 ==> Clear(ft[sb]) == Start(b, sb)
  }

  ghost predicate SortedBucket(b: seq<Byte>, p: seq<int>, sb: int) {
    SmallSorted(b, p, Start(b, sb), Start(b, sb + 1))
  }

  ghost predicate SortedBig(b: seq<Byte>, p: seq<int>, t: int)
    requires 0 <= t < 256
  {
    SmallSorted(b, p, BigFirst(b, t), BigFirst(b, t + 1))
  }

  ghost predicate Progress(b: seq<Byte>, p: seq<int>, ft: seq<int>, done: seq<bool>) {
    && Grouped(b, p) && FtabIs(b, ft) && |done| == 256
    && (forall sb :: 0 <= sb < 65536 && Marked(ft[sb]) ==> SortedBucket(b, p, sb))
    && forall t :: 0 <= t < 256 && done[t] ==> SortedBig(b, p, t)
  }

  lemma MarkSorted(b: seq<Byte>, p: seq<int>, ft: seq<int>, done: seq<bool>, sb: int)
    requires Progress(b, p, ft, done) && 0 <= sb < 65536 && SortedBucket(b, p, sb)
    ensures Progress(b, p, ft[sb := Mark(ft[sb])], done)
  {
    StartEnds(b);
  }

  // ---- Step 1 -------------------------------------------------------------

  lemma BucketAgrees(b: seq<Byte>, p: seq<int>, ss: int, j: int)
    requires Grouped(b, p) && 0 <= ss < 256 && 0 <= j < 256
    ensures First(b, ss, j) <= After(b, ss, j) <= |b|
    ensures Agree(b, p, First(b, ss, j), After(b, ss, j) - 1, BZ_N_RADIX)
  {
    var lo, hi := First(b, ss, j), After(b, ss, j);
    StartMonotone(b, ss * 256 + j, ss * 256 + j + 1);
    forall x | lo <= x < hi ensures At(b, p[x], 0) == ss && At(b, p[x], 1) == j {
      PlaceCode(b, p, x, ss, j);
      AtNext(b, p[x], 0);
    }
    forall x, y | lo <= x < hi && lo <= y < hi ensures EqTo(b, p[x], p[y], 2) {
      forall k: nat | k < 2 ensures At(b, p[x], k) == At(b, p[y], k) {
        if k == 1 {
          assert At(b, p[x], 1) == At(b, p[y], 1);
        }
      }
    }
  }

  lemma ShuffledBucketGrouped(b: seq<Byte>, p: seq<int>, p': seq<int>, ss: int, j: int)
    requires Grouped(b, p) && 0 <= ss < 256 && 0 <= j < 256
    requires Shuffled(p, p', First(b, ss, j), After(b, ss, j) - 1)
    ensures Grouped(b, p')
  {
    var lo: int, hi: int := First(b, ss, j), After(b, ss, j);
    ShuffledPerm(p, p', lo, hi - 1);
    StartMonotone(b, ss * 256 + j, ss * 256 + j + 1);
    forall x | 0 <= x < |p'| ensures Start(b, Codes(b)[p'[x]]) <= x < Start(b, Codes(b)[p'[x]] + 1) {
      if lo <= x < hi {
        ShuffledFrom(p, p', lo, hi - 1, x);
        var y :| lo <= y < hi && p[y] == p'[x];
        PlaceCode(b, p, y, ss, j);
      }
    }
  }

  // Buckets that miss the changed places stay in order.
  lemma StaysSorted(b: seq<Byte>, p: seq<int>, p': seq<int>, lo: int, hi: int)
    requires SmallSorted(b, p, lo, hi) && |p'| == |p|
    requires forall x :: lo <= x < hi ==> p'[x] == p[x]
    ensures SmallSorted(b, p', lo, hi)
  {
    assert p'[lo..hi] == p[lo..hi];
  }

  lemma ShuffledBucketProgress(b: seq<Byte>, p: seq<int>, p': seq<int>, ft: seq<int>, done: seq<bool>, ss: int, j: int)
    requires Progress(b, p, ft, done) && 0 <= ss < 256 && 0 <= j < 256
    requires !done[ss] && !Marked(ft[ss * 256 + j])
    requires Shuffled(p, p', First(b, ss, j), After(b, ss, j) - 1)
    ensures Progress(b, p', ft, done)
  {
    ShuffledBucketGrouped(b, p, p', ss, j);
    var at := ss * 256 + j;
    forall sb | 0 <= sb < 65536 && Marked(ft[sb]) ensures SortedBucket(b, p', sb) {
      if sb < at {
        StartMonotone(b, sb + 1, at);
      } else {
        StartMonotone(b, at + 1, sb);
      }
      StaysSorted(b, p, p', Start(b, sb), Start(b, sb + 1));
    }
    forall t | 0 <= t < 256 && done[t] ensures SortedBig(b, p', t) {
      if t < ss {
        StartMonotone(b, (t + 1) * 256, at);
      } else {
        StartMonotone(b, at + 1, t * 256);
      }
      StaysSorted(b, p, p', BigFirst(b, t), BigFirst(b, t + 1));
    }
  }

  lemma TinyBucket(b: seq<Byte>, p: seq<int>, sb: int)
    requires Grouped(b, p) && Start(b, sb + 1) - 1 <= Start(b, sb)
    ensures SortedBucket(b, p, sb)
  {
    StartMonotone(b, sb, sb + 1);
  }

  // ---- Step 2 -------------------------------------------------------------

  lemma PartOfBig(b: seq<Byte>, p: seq<int>, t: int, ss: int)
    requires Grouped(b, p) && 0 <= t < 256 && 0 <= ss < 256 && SortedBig(b, p, t)
    ensures SortedBucket(b, p, t * 256 + ss)
  {
    Layout(b, t, ss);
    var lo, hi := First(b, t, ss), After(b, t, ss);
    var o := lo - BigFirst(b, t);
    var r, q := p[BigFirst(b, t)..BigFirst(b, t + 1)], p[lo..hi];
    forall x, y | 0 <= x < y < |q| ensures Leq(b, q[x], q[y]) {
      assert Leq(b, r[o + x], r[o + y]);
    }
  }

  lemma RebuiltKeepsBucket(b: seq<Byte>, p0: seq<int>, p: seq<int>, ft: seq<int>, done: seq<bool>, ss: int, sb: int)
    requires Progress(b, p0, ft, done) && 0 <= ss < 256 && Rebuilt(b, p0, p, ss, done)
    requires 0 <= sb < 65536 && Marked(ft[sb])
    ensures SortedBucket(b, p, sb)
  {
    var t, c := sb / 256, sb % 256;
    if c == ss && !done[t] {
      assert SmallSorted(b, p, First(b, t, ss), After(b, t, ss));
    } else {
      forall x | Start(b, sb) <= x < Start(b, sb + 1) ensures p[x] == p0[x] {
        PlaceCode(b, p0, x, t, c);
        assert !InRebuilt(b, p0, ss, done, x);
      }
      StaysSorted(b, p0, p, Start(b, sb), Start(b, sb + 1));
    }
  }

  lemma RebuiltProgress(b: seq<Byte>, p0: seq<int>, p: seq<int>, ft: seq<int>, done: seq<bool>, ss: int)
    requires Progress(b, p0, ft, done) && 0 <= ss < 256 && !done[ss] && Rebuilt(b, p0, p, ss, done)
    ensures Progress(b, p, ft, done[ss := true])
    ensures forall t :: 0 <= t < 256 ==> SortedBucket(b, p, t * 256 + ss)
  {
    forall sb | 0 <= sb < 65536 && Marked(ft[sb]) ensures SortedBucket(b, p, sb) {
      RebuiltKeepsBucket(b, p0, p, ft, done, ss, sb);
    }
    forall t | 0 <= t < 256 && done[ss := true][t] ensures SortedBig(b, p, t) {
      if t != ss {
        forall x | BigFirst(b, t) <= x < BigFirst(b, t + 1) ensures p[x] == p0[x] {
          PlaceByte(b, p0, x, t);
          assert !InRebuilt(b, p0, ss, done, x);
        }
        StaysSorted(b, p0, p, BigFirst(b, t), BigFirst(b, t + 1));
      }
    }
    forall t | 0 <= t < 256 ensures SortedBucket(b, p, t * 256 + ss) {
      if done[t] {
        PartOfBig(b, p, t, ss);
      } else {
        assert SmallSorted(b, p, First(b, t, ss), After(b, t, ss));
      }
    }
  }

  // ---- the end ------------------------------------------------------------

  lemma AllSorted(b: seq<Byte>, p: seq<int>, ft: seq<int>, done: seq<bool>)
    requires Progress(b, p, ft, done) && forall t :: 0 <= t < 256 ==> done[t]
    ensures SortedRotations(b, p)
  {
    forall x, y | 0 <= x < y < |p| ensures Leq(b, p[x], p[y]) {
      if b[p[x]] < b[p[y]] {
        LessByFirst(b, p[x], p[y]);
        Trichotomy(b, p[x], p[y], |b|);
      } else {
        var t: int := b[p[x]];
        PlaceOrder(b, p, x, y);
        assert b[p[y]] == t;
        PlaceByte(b, p, x, t);
        PlaceByte(b, p, y, t);
        assert SortedBig(b, p, t);
        var r := p[BigFirst(b, t)..BigFirst(b, t + 1)];
        assert Leq(b, r[x - BigFirst(b, t)], r[y - BigFirst(b, t)]);
      }
    }
  }

  // ---- Step 3 -------------------------------------------------------------

  // Ranks are known for the finished big buckets only.
  ghost predicate Ranked(b: seq<Byte>, quad: seq<int>, done: seq<bool>) {
    && |done| == 256 && Overshot(quad, |b|) && RanksRotations(b, quad)
    && forall u :: 0 <= u < |b| && !done[b[u]] ==> quad[u] == 0
  }

  lemma NothingRanked(b: seq<Byte>, quad: seq<int>, done: seq<bool>)
    requires |done| == 256 && BZ_N_OVERSHOOT < |b| && |b| + BZ_N_OVERSHOOT <= |quad|
    requires forall u :: 0 <= u < |b| + BZ_N_OVERSHOOT ==> quad[u] == 0
    ensures Ranked(b, quad, done)
  {
  }

  // Halved s times.
  function Shifted(x: nat, s: nat): (r: nat)
    ensures r <= x
  {
    if s == 0 then x else Shifted(x, s - 1) / 2
  }

  lemma {:induction false} ShiftedMonotone(x: nat, y: nat, s: nat)
    requires x <= y
    ensures Shifted(x, s) <= Shifted(y, s)
  {
    if s > 0 {
      ShiftedMonotone(x, y, s - 1);
    }
  }

  // Places from..B1-1 of the big bucket have had their shifted position recorded; the rest of quad is quad0.
  ghost predicate Ranking(b: seq<Byte>, p: seq<int>, quad0: seq<int>, quad: seq<int>, ss: int, s: nat, from: int)
    requires 0 <= ss < 256 && Grouped(b, p)
  {
    && |quad| == |quad0| && Overshot(quad, |b|)
    && BigFirst(b, ss) <= from <= BigFirst(b, ss + 1) <= |b|
    && (forall x :: from <= x < BigFirst(b, ss + 1) ==> quad[p[x]] == Shifted(x - BigFirst(b, ss), s))
    && forall u :: 0 <= u < |b| && b[u] != ss ==> quad[u] == quad0[u]
  }

  function Recorded(quad: seq<int>, n: nat, u: nat, q: int): (r: seq<int>)
    requires u < n && n + BZ_N_OVERSHOOT <= |quad|
  {
    if u < BZ_N_OVERSHOOT then quad[u := q][u + n := q] else quad[u := q]
  }

  lemma RankingStep(b: seq<Byte>, p: seq<int>, quad0: seq<int>, quad: seq<int>, ss: int, s: nat, x: int)
    requires 0 <= ss < 256 && Grouped(b, p) && Ranking(b, p, quad0, quad, ss, s, x + 1) && BigFirst(b, ss) <= x
    ensures Ranking(b, p, quad0, Recorded(quad, |b|, p[x], Shifted(x - BigFirst(b, ss), s)), ss, s, x)
  {
    PlaceByte(b, p, x, ss);
  }

  lemma RankingDone(b: seq<Byte>, p: seq<int>, quad0: seq<int>, quad: seq<int>, ss: int, s: nat, done: seq<bool>)
    requires 0 <= ss < 256 && Grouped(b, p) && Ranking(b, p, quad0, quad, ss, s, BigFirst(b, ss))
    requires Ranked(b, quad0, done) && SortedBig(b, p, ss)
    requires Shifted(BigFirst(b, ss + 1) - BigFirst(b, ss), s) < 65536
    ensures Ranked(b, quad, done[ss := true])
  {
    forall u | 0 <= u < |b| && b[u] == ss ensures 0 <= quad[u] < 65536 {
      var x := PlaceOf(b, p, ss, u);
      ShiftedMonotone(x - BigFirst(b, ss), BigFirst(b, ss + 1) - BigFirst(b, ss), s);
    }
    forall u, v | 0 <= u < |b| && 0 <= v < |b| && b[u] == b[v] && quad[u] < quad[v] ensures Leq(b, u, v) {
      if b[u] == ss {
        var x := PlaceOf(b, p, ss, u);
        var y := PlaceOf(b, p, ss, v);
        RankOrder(b, p, ss, s, x, y);
      } else {
        assert quad0[u] < quad0[v];
      }
    }
  }

  lemma PlaceOf(b: seq<Byte>, p: seq<int>, ss: int, u: nat) returns (x: nat)
    requires Grouped(b, p) && u < |b| && b[u] == ss
    ensures BigFirst(b, ss) <= x < BigFirst(b, ss + 1) && x < |b| && p[x] == u
  {
    PermSurjective(p, u);
    x :| 0 <= x < |p| && p[x] == u;
    PlaceByte(b, p, x, ss);
  }

  lemma RankOrder(b: seq<Byte>, p: seq<int>, ss: int, s: nat, x: nat, y: nat)
    requires Grouped(b, p) && 0 <= ss < 256 && SortedBig(b, p, ss)
    requires BigFirst(b, ss) <= x < BigFirst(b, ss + 1) && BigFirst(b, ss) <= y < BigFirst(b, ss + 1)
    requires Shifted(x - BigFirst(b, ss), s) < Shifted(y - BigFirst(b, ss), s)
    ensures x < |b| && y < |b| && Leq(b, p[x], p[y])
  {
    if y <= x {
      ShiftedMonotone(y - BigFirst(b, ss), x - BigFirst(b, ss), s);
    }
    var r := p[BigFirst(b, ss)..BigFirst(b, ss + 1)];
    assert Leq(b, r[x - BigFirst(b, ss)], r[y - BigFirst(b, ss)]);
  }
}
