// Step 2 of mainSort: one scan of a finished big bucket from each end puts every small bucket
// [t, ss] in order, the bucket [ss, ss] being filled by the very scans that read it.
module InducedScan {
  import opened Common
  import opened Buckets
  import opened Rotations
  import opened SmallBuckets

  // First place of small bucket [t, ss], and the place after its last.
  function First(b: seq<Byte>, t: int, ss: int): nat {
    Start(b, t * 256 + ss)
  }

  function After(b: seq<Byte>, t: int, ss: int): nat {
    Start(b, t * 256 + ss + 1)
  }

  function BigFirst(b: seq<Byte>, ss: int): nat {
    Start(b, ss * 256)
  }

  lemma Layout(b: seq<Byte>, t: int, ss: int)
    requires 0 <= t < 256 && 0 <= ss < 256
    ensures BigFirst(b, t) <= First(b, t, ss) <= After(b, t, ss) <= BigFirst(b, t + 1) <= |b|
  {
    StartMonotone(b, t * 256, t * 256 + ss);
    StartMonotone(b, t * 256 + ss, t * 256 + ss + 1);
    StartMonotone(b, t * 256 + ss + 1, (t + 1) * 256);
  }

  lemma Apart(b: seq<Byte>, t: int, u: int, ss: int)
    requires 0 <= t < u < 256 && 0 <= ss < 256
    ensures After(b, t, ss) <= BigFirst(b, t + 1) <= BigFirst(b, u) <= First(b, u, ss)
  {
    Layout(b, t, ss);
    Layout(b, u, ss);
    StartMonotone(b, (t + 1) * 256, u * 256);
  }

  // ---- the state of the scans ---------------------------------------------

  // Place x lies in a bucket being rebuilt, in a part the scans have written.
  ghost predicate Written(b: seq<Byte>, p0: seq<int>, ss: int, done: seq<bool>, cs: seq<int>, ce: seq<int>, x: nat)
    requires x < |p0| && 0 <= p0[x] < |b| && |done| == |cs| == |ce| == 256
  {
    var t := b[p0[x]];
    b[Next(|b|, p0[x])] == ss && !done[t] && (x < cs[t] || x > ce[t])
  }

  ghost predicate Kept(b: seq<Byte>, p0: seq<int>, p: seq<int>, ss: int, done: seq<bool>, cs: seq<int>, ce: seq<int>)
    requires Grouped(b, p0) && |done| == |cs| == |ce| == 256
  {
    && |p| == |p0|
    && forall x {:trigger Written(b, p0, ss, done, cs, ce, x)} ::
         0 <= x < |p| && !Written(b, p0, ss, done, cs, ce, x) ==> p[x] == p0[x]
  }

  // Places first..end of p hold the predecessors of s that start with t, in the order of s.
  ghost predicate Lists(b: seq<Byte>, p: seq<int>, first: int, end: int, s: seq<int>, t: int) {
    Valid(|b|, s) && 0 <= first <= end <= |p| && p[first..end] == Preds(b, s, t)
  }

  // Low ends of the rebuilt buckets: predecessors of the places s, in their order.
  ghost predicate FilledLow(b: seq<Byte>, p: seq<int>, ss: int, done: seq<bool>, cs: seq<int>, s: seq<int>)
    requires |p| == |b| && |done| == |cs| == 256 && 0 <= ss < 256
  {
    && Valid(|b|, s)
    && forall t {:trigger First(b, t, ss)} :: 0 <= t < 256 && !done[t] ==>
         cs[t] <= After(b, t, ss) <= |b| && Lists(b, p, First(b, t, ss), cs[t], s, t)
  }

  // High ends, likewise.
  ghost predicate FilledHigh(b: seq<Byte>, p: seq<int>, ss: int, done: seq<bool>, ce: seq<int>, s: seq<int>)
    requires |p| == |b| && |done| == |ce| == 256 && 0 <= ss < 256
  {
    && Valid(|b|, s)
    && forall t {:trigger First(b, t, ss)} :: 0 <= t < 256 && !done[t] ==>
         First(b, t, ss) <= ce[t] + 1 && Lists(b, p, ce[t] + 1, After(b, t, ss), s, t)
  }

  // A stretch of the big bucket that is finally in place.
  ghost predicate Settled(b: seq<Byte>, s: seq<int>, ss: int, low: bool) {
    && InOrder(b, s) && Injective(s)
    && forall i :: 0 <= i < |s| ==> b[s[i]] == ss && (if low then Low(b, ss, s[i]) else High(b, ss, s[i]))
  }

  ghost predicate Shape(b: seq<Byte>, p0: seq<int>, p: seq<int>, ss: int, done: seq<bool>, cs: seq<int>, ce: seq<int>) {
    && Grouped(b, p0) && |p| == |b| && 0 <= ss < 256
    && |done| == |cs| == |ce| == 256 && !done[ss]
    && Kept(b, p0, p, ss, done, cs, ce)
  }

  ghost predicate LeftScan(b: seq<Byte>, p0: seq<int>, p: seq<int>, ss: int, done: seq<bool>, cs: seq<int>,
                           ce: seq<int>, j: int) {
    && Shape(b, p0, p, ss, done, cs, ce)
    && BigFirst(b, ss) <= j <= cs[ss] <= |b|
    && (forall t :: 0 <= t < 256 ==> ce[t] == After(b, t, ss) - 1)
    && Valid(|b|, p[BigFirst(b, ss)..j])
    && FilledLow(b, p, ss, done, cs, p[BigFirst(b, ss)..j])
    && Settled(b, p[BigFirst(b, ss)..cs[ss]], ss, true)
  }

  // ---- starting -----------------------------------------------------------

  ghost predicate SmallSorted(b: seq<Byte>, p: seq<int>, lo: int, hi: int) {
    0 <= lo <= hi <= |p| && InOrder(b, p[lo..hi])
  }

  // The small buckets of ss, other than [ss, ss], are sorted.
  ghost predicate OthersSorted(b: seq<Byte>, p: seq<int>, ss: int) {
    forall c :: 0 <= c < 256 && c != ss ==> SmallSorted(b, p, First(b, ss, c), After(b, ss, c))
  }

  lemma InBigBucket(b: seq<Byte>, p: seq<int>, ss: int, x: nat)
    requires Grouped(b, p) && 0 <= ss < 256 && BigFirst(b, ss) <= x < BigFirst(b, ss + 1) <= |b|
    ensures b[p[x]] == ss
    ensures x < First(b, ss, ss) ==> b[Next(|b|, p[x])] < ss
    ensures x >= After(b, ss, ss) ==> b[Next(|b|, p[x])] > ss
    ensures First(b, ss, ss) <= x < After(b, ss, ss) ==> b[Next(|b|, p[x])] == ss
  {
    PlaceByte(b, p, x, ss);
    BucketAt(Codes(b), p, x, ss * 256 + ss);
    BucketAt(Codes(b), p, x, ss * 256 + ss + 1);
  }

  lemma SideMember(b: seq<Byte>, p: seq<int>, ss: int, x: nat)
    requires Grouped(b, p) && 0 <= ss < 256 && BigFirst(b, ss) <= x < BigFirst(b, ss + 1) <= |b|
    ensures b[p[x]] == ss
    ensures x < First(b, ss, ss) ==> Low(b, ss, p[x])
    ensures x >= After(b, ss, ss) ==> High(b, ss, p[x])
  {
    InBigBucket(b, p, ss, x);
    Layout(b, ss, ss);
    if x < First(b, ss, ss) || x >= After(b, ss, ss) {
      OneLow(b, ss, p[x]);
    }
  }

  // Places before (or after) bucket [ss, ss] in the big bucket are in order.
  lemma SideInOrder(b: seq<Byte>, p: seq<int>, ss: int, lo: int, hi: int, low: bool)
    requires Grouped(b, p) && 0 <= ss < 256 && OthersSorted(b, p, ss)
    requires low ==> lo == BigFirst(b, ss) && hi == First(b, ss, ss)
    requires !low ==> lo == After(b, ss, ss) && hi == BigFirst(b, ss + 1)
    ensures lo <= hi <= |b| && Settled(b, p[lo..hi], ss, low)
  {
    Layout(b, ss, ss);
    var s := p[lo..hi];
    assert forall i :: 0 <= i < |s| ==> s[i] == p[lo + i];
    forall i | 0 <= i < |s|
      ensures b[s[i]] == ss && (if low then Low(b, ss, s[i]) else High(b, ss, s[i]))
    {
      SideMember(b, p, ss, lo + i);
    }
    SideOrder(b, p, ss, lo, hi);
    InjectiveSlice(p, lo, hi);
  }

  lemma InjectiveSlice(p: seq<int>, lo: int, hi: int)
    requires Injective(p) && 0 <= lo <= hi <= |p|
    ensures Injective(p[lo..hi])
  {
  }

  lemma SideOrder(b: seq<Byte>, p: seq<int>, ss: int, lo: int, hi: int)
    requires Grouped(b, p) && 0 <= ss < 256 && OthersSorted(b, p, ss)
    requires BigFirst(b, ss) <= lo <= hi <= BigFirst(b, ss + 1) <= |b|
    requires hi <= First(b, ss, ss) || After(b, ss, ss) <= lo
    ensures InOrder(b, p[lo..hi])
  {
    var s := p[lo..hi];
    forall i, j | 0 <= i < j < |s| ensures Leq(b, s[i], s[j]) {
      SidePair(b, p, ss, lo + i, lo + j);
    }
  }

  lemma SidePair(b: seq<Byte>, p: seq<int>, ss: int, x: nat, y: nat)
    requires Grouped(b, p) && 0 <= ss < 256 && OthersSorted(b, p, ss)
    requires BigFirst(b, ss) <= x < y < BigFirst(b, ss + 1) <= |b|
    requires y < First(b, ss, ss) || After(b, ss, ss) <= x
    ensures Leq(b, p[x], p[y])
  {
    InBigBucket(b, p, ss, x);
    InBigBucket(b, p, ss, y);
    PlaceOrder(b, p, x, y);
    if Codes(b)[p[x]] < Codes(b)[p[y]] {
      CodeOrder(b, p[x], p[y]);
    } else {
      var c: int := b[Next(|b|, p[x])];
      Layout(b, ss, ss);
      PlaceCode(b, p, x, ss, c);
      PlaceCode(b, p, y, ss, c);
      assert c != ss;
      var lo := First(b, ss, c);
      assert SmallSorted(b, p, lo, After(b, ss, c));
      var s := p[lo..After(b, ss, c)];
      assert Leq(b, s[x - lo], s[y - lo]);
    }
  }

  lemma LeftStart(b: seq<Byte>, p: seq<int>, ss: int, done: seq<bool>, cs: seq<int>, ce: seq<int>)
    requires Grouped(b, p) && 0 <= ss < 256 && |done| == |cs| == |ce| == 256 && !done[ss]
    requires OthersSorted(b, p, ss)
    requires forall t :: 0 <= t < 256 ==> cs[t] == First(b, t, ss) && ce[t] == After(b, t, ss) - 1
    ensures LeftScan(b, p, p, ss, done, cs, ce, BigFirst(b, ss))
  {
    forall t | 0 <= t < 256 ensures First(b, t, ss) <= After(b, t, ss) <= |b| {
      Layout(b, t, ss);
    }
    Layout(b, ss, ss);
    SideInOrder(b, p, ss, BigFirst(b, ss), First(b, ss, ss), true);
  }

  // ---- one step from the left ---------------------------------------------

  lemma SliceOfSettled(b: seq<Byte>, p: seq<int>, ss: int, low: bool, lo: int, hi: int, lo': int, hi': int)
    requires 0 <= lo <= lo' <= hi' <= hi <= |p| && Settled(b, p[lo..hi], ss, low)
    ensures Settled(b, p[lo'..hi'], ss, low)
  {
    var s, r := p[lo..hi], p[lo'..hi'];
    var o := lo' - lo;
    assert forall i :: 0 <= i < |r| ==> r[i] == s[i + o];
    forall i, j | 0 <= i < j < |r| ensures Leq(b, r[i], r[j]) {
      assert Leq(b, s[i + o], s[j + o]);
    }
  }

  // Predecessors of settled places are distinct rotations of one small bucket, so there is room for them.
  lemma Room(b: seq<Byte>, p0: seq<int>, s: seq<int>, ss: int, t: int)
    requires Grouped(b, p0) && 0 <= ss < 256 && 0 <= t < 256
    requires Valid(|b|, s) && Injective(s) && forall i :: 0 <= i < |s| ==> b[s[i]] == ss
    ensures |Preds(b, s, t)| <= After(b, t, ss) - First(b, t, ss)
    ensures (forall v :: 0 <= v < |b| && b[v] == ss ==> v in s) ==>
              |Preds(b, s, t)| == After(b, t, ss) - First(b, t, ss)
  {
    var q := Preds(b, s, t);
    PredsInjective(b, s, t);
    forall i | 0 <= i < |q| ensures b[q[i]] == t && b[Next(|b|, q[i])] == ss {
      PredsMember(b, s, t, q[i]);
    }
    if forall v :: 0 <= v < |b| && b[v] == ss ==> v in s {
      forall v | 0 <= v < |b| && b[v] == t && b[Next(|b|, v)] == ss ensures v in q {
        PredsMember(b, s, t, v);
      }
    }
    Fits(b, p0, q, t, ss);
  }

  lemma NextPred(b: seq<Byte>, p: seq<int>, lo: int, j: int, t: int)
    requires 0 <= lo <= j < |p| && Valid(|b|, p[lo..j]) && 0 <= p[j] < |b|
    ensures Valid(|b|, p[lo..j + 1])
    ensures var k := Prev(|b|, p[j]);
            Preds(b, p[lo..j + 1], t) == Preds(b, p[lo..j], t) + (if b[k] == t then [k] else [])
  {
    assert p[lo..j + 1] == p[lo..j] + [p[j]];
    PredsOne(b, p[lo..j], p[j], t);
  }

  // The rotation a scan looks at is one of the big bucket's.
  lemma Scanned(b: seq<Byte>, p: seq<int>, ss: int, low: bool, lo: int, hi: int, j: int)
    requires 0 <= lo <= j < hi <= |p| && Settled(b, p[lo..hi], ss, low)
    ensures 0 <= p[j] < |b| && b[p[j]] == ss
    ensures if low then Low(b, ss, p[j]) else High(b, ss, p[j])
  {
    assert p[j] == p[lo..hi][j - lo];
  }

  // Where the slot lies with respect to the big bucket being scanned.
  lemma SlotSide(b: seq<Byte>, ss: int, c: int, at: int)
    requires 0 <= ss < 256 && 0 <= c < 256 && First(b, c, ss) <= at < After(b, c, ss)
    ensures c < ss ==> at < BigFirst(b, ss)
    ensures c > ss ==> at >= BigFirst(b, ss + 1)
    ensures forall t :: 0 <= t < 256 && t != c ==> at < First(b, t, ss) || at >= After(b, t, ss)
  {
    if c < ss {
      Apart(b, c, ss, ss);
      Layout(b, ss, ss);
    } else if c > ss {
      Apart(b, ss, c, ss);
    }
    forall t | 0 <= t < 256 && t != c ensures at < First(b, t, ss) || at >= After(b, t, ss) {
      if t < c {
        Apart(b, t, c, ss);
      } else {
        Apart(b, c, t, ss);
      }
    }
  }

  // The slot the predecessor goes to is free, and lies outside what has been scanned.
  lemma LeftRoom(b: seq<Byte>, p0: seq<int>, p: seq<int>, ss: int, done: seq<bool>, cs: seq<int>, ce: seq<int>, j: int)
    requires LeftScan(b, p0, p, ss, done, cs, ce, j) && j < cs[ss]
    ensures 0 <= p[j] < |b|
    ensures var c := b[Prev(|b|, p[j])];
            !done[c] ==> First(b, c, ss) <= cs[c] < After(b, c, ss) <= |b| && (cs[c] < BigFirst(b, ss) || j < cs[c])
  {
    var lo := BigFirst(b, ss);
    Scanned(b, p, ss, true, lo, cs[ss], j);
    var c := b[Prev(|b|, p[j])];
    if !done[c] {
      SliceOfSettled(b, p, ss, true, lo, cs[ss], lo, j + 1);
      Room(b, p0, p[lo..j + 1], ss, c);
      NextPred(b, p, lo, j, c);
      assert Lists(b, p, First(b, c, ss), cs[c], p[lo..j], c);
      assert First(b, ss, ss) <= cs[ss] <= After(b, ss, ss);
      SlotSide(b, ss, c, cs[c]);
      Layout(b, ss, ss);
    }
  }

  lemma ListsSkip(b: seq<Byte>, p: seq<int>, first: int, end: int, lo: int, j: int, t: int)
    requires 0 <= lo <= j < |p| && 0 <= p[j] < |b| && b[Prev(|b|, p[j])] != t
    requires Lists(b, p, first, end, p[lo..j], t)
    ensures Lists(b, p, first, end, p[lo..j + 1], t)
  {
    NextPred(b, p, lo, j, t);
  }

  lemma ListsPlace(b: seq<Byte>, p: seq<int>, first: int, end: int, lo: int, j: int, t: int, k: int)
    requires 0 <= lo <= j < |p| && 0 <= p[j] < |b| && k == Prev(|b|, p[j]) && b[k] == t
    requires end < |p| && Lists(b, p, first, end, p[lo..j], t) && !(lo <= end <= j)
    ensures Lists(b, p[end := k], first, end + 1, p[end := k][lo..j + 1], t)
  {
    NextPred(b, p, lo, j, t);
    assert p[end := k][lo..j + 1] == p[lo..j + 1];
    assert p[end := k][first..end + 1] == p[first..end] + [k];
  }

  lemma ListsElsewhere(b: seq<Byte>, p: seq<int>, first: int, end: int, lo: int, hi: int, t: int, at: int, k: int)
    requires 0 <= lo <= hi <= |p| && Lists(b, p, first, end, p[lo..hi], t)
    requires 0 <= at < |p| && !(first <= at < end) && !(lo <= at < hi)
    ensures Lists(b, p[at := k], first, end, p[at := k][lo..hi], t)
  {
    assert p[at := k][lo..hi] == p[lo..hi];
    assert p[at := k][first..end] == p[first..end];
  }

  lemma LeftSkip(b: seq<Byte>, p0: seq<int>, p: seq<int>, ss: int, done: seq<bool>, cs: seq<int>, ce: seq<int>, j: int)
    requires LeftScan(b, p0, p, ss, done, cs, ce, j) && j < cs[ss]
    requires 0 <= p[j] < |b| && done[b[Prev(|b|, p[j])]]
    ensures LeftScan(b, p0, p, ss, done, cs, ce, j + 1)
  {
    var lo := BigFirst(b, ss);
    NextPred(b, p, lo, j, 0);
    forall t | 0 <= t < 256 && !done[t] ensures Lists(b, p, First(b, t, ss), cs[t], p[lo..j + 1], t) {
      ListsSkip(b, p, First(b, t, ss), cs[t], lo, j, t);
    }
  }

  lemma KeptStep(b: seq<Byte>, p0: seq<int>, p: seq<int>, ss: int, done: seq<bool>, cs: seq<int>, ce: seq<int>,
                 cs': seq<int>, ce': seq<int>, c: int, at: int, k: int)
    requires Shape(b, p0, p, ss, done, cs, ce) && 0 <= c < 256 && !done[c]
    requires First(b, c, ss) <= at < After(b, c, ss) <= |b|
    requires (cs' == cs[c := at + 1] && cs[c] <= at && ce' == ce)
             || (cs' == cs && ce' == ce[c := at - 1] && at <= ce[c])
    ensures Shape(b, p0, p[at := k], ss, done, cs', ce')
  {
    PlaceCode(b, p0, at, c, ss);
    assert Written(b, p0, ss, done, cs', ce', at);
    forall x | 0 <= x < |p| && !Written(b, p0, ss, done, cs', ce', x) ensures p[at := k][x] == p0[x] {
      assert !Written(b, p0, ss, done, cs, ce, x);
    }
  }

  lemma LeftPlaceFilled(b: seq<Byte>, p: seq<int>, ss: int, done: seq<bool>, cs: seq<int>, j: int, c: int, k: int)
    requires |p| == |b| && |done| == |cs| == 256 && 0 <= ss < 256 && 0 <= c < 256
    requires BigFirst(b, ss) <= j < |b| && FilledLow(b, p, ss, done, cs, p[BigFirst(b, ss)..j])
    requires 0 <= p[j] < |b| && k == Prev(|b|, p[j]) && c == b[k] && !done[c]
    requires First(b, c, ss) <= cs[c] < After(b, c, ss) <= |b| && (cs[c] < BigFirst(b, ss) || j < cs[c])
    ensures FilledLow(b, p[cs[c] := k], ss, done, cs[c := cs[c] + 1], p[cs[c] := k][BigFirst(b, ss)..j + 1])
  {
    var lo := BigFirst(b, ss);
    var p', cs' := p[cs[c] := k], cs[c := cs[c] + 1];
    assert p'[lo..j + 1] == p[lo..j + 1];
    NextPred(b, p, lo, j, 0);
    SlotSide(b, ss, c, cs[c]);
    forall t | 0 <= t < 256 && !done[t]
      ensures cs'[t] <= After(b, t, ss) <= |b| && Lists(b, p', First(b, t, ss), cs'[t], p'[lo..j + 1], t)
    {
      ListsStep(b, p, First(b, t, ss), cs[t], lo, j, t, cs[c], k);
    }
  }

  lemma ListsStep(b: seq<Byte>, p: seq<int>, first: int, end: int, lo: int, j: int, t: int, at: int, k: int)
    requires 0 <= lo <= j < |p| && 0 <= p[j] < |b| && k == Prev(|b|, p[j])
    requires Lists(b, p, first, end, p[lo..j], t) && 0 <= at < |p| && !(lo <= at <= j)
    requires if b[k] == t then at == end else !(first <= at < end)
    ensures Lists(b, p[at := k], first, if b[k] == t then end + 1 else end, p[at := k][lo..j + 1], t)
  {
    if b[k] == t {
      ListsPlace(b, p, first, end, lo, j, t, k);
    } else {
      ListsSkip(b, p, first, end, lo, j, t);
      ListsElsewhere(b, p, first, end, lo, j + 1, t, at, k);
    }
  }

  // A listed rotation is no greater than one whose successor comes after its own.
  lemma ListedBelow(b: seq<Byte>, p: seq<int>, ss: int, low: bool, lo: int, hi: int, j: int, w: int, k: int)
    requires 0 <= lo <= j < hi <= |p| && Settled(b, p[lo..hi], ss, low) && Valid(|b|, p[lo..j])
    requires 0 <= p[j] < |b| && k == Prev(|b|, p[j]) && b[k] == ss
    requires w in Preds(b, p[lo..j], ss)
    ensures 0 <= w < |b| && Leq(b, w, k) && w != k
  {
    PredsMember(b, p[lo..j], ss, w);
    var y :| 0 <= y < j - lo && p[lo..j][y] == Next(|b|, w);
    var s := p[lo..hi];
    assert s[y] == Next(|b|, w) && s[j - lo] == p[j];
    assert Leq(b, s[y], s[j - lo]) && s[y] != s[j - lo];
    LeqNext(b, w, k);
  }

  // The new last place of the settled stretch is above all before it.
  lemma LeftPlaceLast(b: seq<Byte>, p0: seq<int>, p: seq<int>, ss: int, done: seq<bool>, cs: seq<int>, ce: seq<int>,
                      j: int, k: int, x: int)
    requires LeftScan(b, p0, p, ss, done, cs, ce, j) && j < cs[ss] && 0 <= p[j] < |b|
    requires k == Prev(|b|, p[j]) && b[k] == ss && b[Next(|b|, k)] == ss
    requires BigFirst(b, ss) <= x < cs[ss]
    ensures 0 <= p[x] < |b| && Leq(b, p[x], k) && p[x] != k
  {
    var lo, s0 := BigFirst(b, ss), First(b, ss, ss);
    Layout(b, ss, ss);
    if x < s0 {
      InBigBucket(b, p0, ss, x);
      assert !Written(b, p0, ss, done, cs, ce, x);
      CodeOrder(b, p[x], k);
    } else {
      assert Lists(b, p, s0, cs[ss], p[lo..j], ss);
      assert p[s0..cs[ss]][x - s0] == p[x];
      assert p[x] in Preds(b, p[lo..j], ss);
      ListedBelow(b, p, ss, true, lo, cs[ss], j, p[x], k);
    }
  }

  lemma LeftPlaceSettled(b: seq<Byte>, p0: seq<int>, p: seq<int>, ss: int, done: seq<bool>, cs: seq<int>, ce: seq<int>,
                         j: int, k: int)
    requires LeftScan(b, p0, p, ss, done, cs, ce, j) && j < cs[ss] && 0 <= p[j] < |b| && cs[ss] < |b|
    requires k == Prev(|b|, p[j]) && b[k] == ss
    ensures Settled(b, p[cs[ss] := k][BigFirst(b, ss)..cs[ss] + 1], ss, true)
  {
    var lo := BigFirst(b, ss);
    Scanned(b, p, ss, true, lo, cs[ss], j);
    PrevLow(b, ss, p[j]);
    var s, r := p[lo..cs[ss]], p[cs[ss] := k][lo..cs[ss] + 1];
    assert r == s + [k];
    forall i, l | 0 <= i < l < |r| ensures Leq(b, r[i], r[l]) && r[i] != r[l] {
      if l < |s| {
        assert Leq(b, s[i], s[l]);
      } else {
        LeftPlaceLast(b, p0, p, ss, done, cs, ce, j, k, lo + i);
      }
    }
  }

  lemma LeftPlaceFrame(b: seq<Byte>, p0: seq<int>, p: seq<int>, ss: int, done: seq<bool>, cs: seq<int>, ce: seq<int>,
                       j: int, c: int, k: int)
    requires LeftScan(b, p0, p, ss, done, cs, ce, j) && j < cs[ss] && 0 <= p[j] < |b|
    requires k == Prev(|b|, p[j]) && c == b[k] && !done[c]
    requires First(b, c, ss) <= cs[c] < After(b, c, ss) <= |b|
    ensures var cs' := cs[c := cs[c] + 1];
            j + 1 <= cs'[ss] <= |b| && Settled(b, p[cs[c] := k][BigFirst(b, ss)..cs'[ss]], ss, true)
  {
    var lo := BigFirst(b, ss);
    if c == ss {
      LeftPlaceSettled(b, p0, p, ss, done, cs, ce, j, k);
    } else {
      if c < ss {
        Apart(b, c, ss, ss);
      } else {
        Apart(b, ss, c, ss);
        assert cs[ss] <= After(b, ss, ss);
      }
      assert p[cs[c] := k][lo..cs[ss]] == p[lo..cs[ss]];
    }
  }

  lemma LeftPlace(b: seq<Byte>, p0: seq<int>, p: seq<int>, ss: int, done: seq<bool>, cs: seq<int>, ce: seq<int>, j: int,
                  c: int, k: int)
    requires LeftScan(b, p0, p, ss, done, cs, ce, j) && j < cs[ss] && 0 <= p[j] < |b|
    requires k == Prev(|b|, p[j]) && c == b[k] && !done[c]
    ensures 0 <= cs[c] < |b| && LeftScan(b, p0, p[cs[c] := k], ss, done, cs[c := cs[c] + 1], ce, j + 1)
  {
    LeftRoom(b, p0, p, ss, done, cs, ce, j);
    LeftPlaceFilled(b, p, ss, done, cs, j, c, k);
    KeptStep(b, p0, p, ss, done, cs, ce, cs[c := cs[c] + 1], ce, c, cs[c], k);
    LeftPlaceFrame(b, p0, p, ss, done, cs, ce, j, c, k);
  }
}
