// Rotations grouped by their first two bytes, and the lists mainSort's scans build from them.
module SmallBuckets {
  import opened Common
  import opened Counting
  import opened Buckets
  import opened Rotations

  // The two-byte code of every rotation.
  function Codes(b: seq<Byte>): (l: seq<int>)
    ensures |l| == |b| && forall u :: 0 <= u < |b| ==> l[u] == (b[u] as int) * 256 + b[Next(|b|, u)]
  {
    seq(|b|, u requires 0 <= u < |b| => (b[u] as int) * 256 + b[Next(|b|, u)])
  }

  // First place of small bucket sb.
  function Start(b: seq<Byte>, sb: int): (r: nat)
    ensures r <= |b|
  {
    CountBelow(Codes(b), sb, |b|)
  }

  lemma StartMonotone(b: seq<Byte>, c: int, d: int)
    requires c <= d
    ensures Start(b, c) <= Start(b, d)
  {
    CountMonotone(Codes(b), c, d);
  }

  lemma StartEnds(b: seq<Byte>)
    ensures Start(b, 0) == 0 && Start(b, 65536) == |b|
  {
    CountBelowEnds(Codes(b), 0, 65536, |b|);
  }

  ghost predicate Grouped(b: seq<Byte>, p: seq<int>) {
    |b| > 0 && Bucketed(Codes(b), p)
  }

  // The place says the first two bytes.
  lemma PlaceCode(b: seq<Byte>, p: seq<int>, x: nat, c: int, d: int)
    requires Grouped(b, p) && x < |b| && 0 <= c < 256 && 0 <= d < 256
    ensures Start(b, c * 256 + d) <= x < Start(b, c * 256 + d + 1)
       <==> b[p[x]] == c && b[Next(|b|, p[x])] == d
  {
    BucketAt(Codes(b), p, x, c * 256 + d);
  }

  lemma PlaceByte(b: seq<Byte>, p: seq<int>, x: nat, c: int)
    requires Grouped(b, p) && x < |b| && 0 <= c < 256
    ensures Start(b, c * 256) <= x < Start(b, (c + 1) * 256) <==> b[p[x]] == c
  {
    BucketAt(Codes(b), p, x, c * 256);
    BucketAt(Codes(b), p, x, (c + 1) * 256);
  }

  // Lower codes come first and are lower rotations.
  lemma CodeOrder(b: seq<Byte>, u: nat, v: nat)
    requires u < |b| && v < |b| && Codes(b)[u] < Codes(b)[v]
    ensures Leq(b, u, v)
  {
    if b[u] < b[v] {
      LessByFirst(b, u, v);
      Trichotomy(b, u, v, |b|);
    } else {
      LessByFirst(b, Next(|b|, u), Next(|b|, v));
      LessNext(b, u, v);
      Trichotomy(b, u, v, |b|);
    }
  }

  lemma PlaceOrder(b: seq<Byte>, p: seq<int>, x: nat, y: nat)
    requires Grouped(b, p) && x < y < |b|
    ensures Codes(b)[p[x]] <= Codes(b)[p[y]]
  {
    BucketAt(Codes(b), p, x, Codes(b)[p[y]] + 1);
  }

  // ---- how many rotations a small bucket holds ----------------------------

  ghost predicate AllIn(b: seq<Byte>, q: seq<int>, c: int, d: int) {
    forall i :: 0 <= i < |q| ==> 0 <= q[i] < |b| && b[q[i]] == c && b[Next(|b|, q[i])] == d
  }

  lemma SliceSet(b: seq<Byte>, p: seq<int>, c: int, d: int)
    requires Grouped(b, p) && 0 <= c < 256 && 0 <= d < 256
    ensures var lo, hi := Start(b, c * 256 + d), Start(b, c * 256 + d + 1);
            lo <= hi && |Elements(p[lo..hi])| == hi - lo
            && forall v :: v in p[lo..hi] <==> 0 <= v < |b| && b[v] == c && b[Next(|b|, v)] == d
  {
    var lo, hi := Start(b, c * 256 + d), Start(b, c * 256 + d + 1);
    StartMonotone(b, c * 256 + d, c * 256 + d + 1);
    InjectiveSize(p[lo..hi]);
    forall v | 0 <= v < |b| && b[v] == c && b[Next(|b|, v)] == d ensures v in p[lo..hi] {
      PermSurjective(p, v);
      var x :| 0 <= x < |p| && p[x] == v;
      PlaceCode(b, p, x, c, d);
      assert p[lo..hi][x - lo] == v;
    }
    forall v | v in p[lo..hi] ensures 0 <= v < |b| && b[v] == c && b[Next(|b|, v)] == d {
      var i :| 0 <= i < hi - lo && p[lo..hi][i] == v;
      PlaceCode(b, p, lo + i, c, d);
    }
  }

  // Distinct rotations of one small bucket fit in it; all of them fill it.
  lemma Fits(b: seq<Byte>, p: seq<int>, q: seq<int>, c: int, d: int)
    requires Grouped(b, p) && 0 <= c < 256 && 0 <= d < 256
    requires Injective(q) && AllIn(b, q, c, d)
    ensures |q| <= Start(b, c * 256 + d + 1) - Start(b, c * 256 + d)
    ensures (forall v :: 0 <= v < |b| && b[v] == c && b[Next(|b|, v)] == d ==> v in q) ==>
              |q| == Start(b, c * 256 + d + 1) - Start(b, c * 256 + d)
  {
    SliceSet(b, p, c, d);
    var slice := p[Start(b, c * 256 + d)..Start(b, c * 256 + d + 1)];
    InjectiveSize(q);
    forall v | v in Elements(q) ensures v in Elements(slice) {
      var i :| 0 <= i < |q| && q[i] == v;
    }
    SubsetSize(Elements(q), Elements(slice));
    if forall v :: 0 <= v < |b| && b[v] == c && b[Next(|b|, v)] == d ==> v in q {
      SubsetSize(Elements(slice), Elements(q));
    }
  }

  // ---- predecessors -------------------------------------------------------

  ghost predicate Valid(n: nat, s: seq<int>) {
    forall i :: 0 <= i < |s| ==> 0 <= s[i] < n
  }

  // The rotations that start one byte before those of s, in order, those starting with byte t.
  ghost function Preds(b: seq<Byte>, s: seq<int>, t: int): (q: seq<int>)
    requires Valid(|b|, s)
    ensures Valid(|b|, q)
  {
    if s == [] then [] else
      var k := Prev(|b|, s[|s| - 1]);
      Preds(b, s[..|s| - 1], t) + (if b[k] == t then [k] else [])
  }

  lemma PredsOne(b: seq<Byte>, s: seq<int>, u: int, t: int)
    requires Valid(|b|, s) && 0 <= u < |b|
    ensures Valid(|b|, s + [u])
    ensures Preds(b, s + [u], t) == Preds(b, s, t) + (if b[Prev(|b|, u)] == t then [Prev(|b|, u)] else [])
  {
    assert (s + [u])[..|s|] == s;
  }

  lemma {:induction false} PredsConcat(b: seq<Byte>, s: seq<int>, r: seq<int>, t: int)
    requires Valid(|b|, s) && Valid(|b|, r)
    ensures Valid(|b|, s + r) && Preds(b, s + r, t) == Preds(b, s, t) + Preds(b, r, t)
  {
    if r == [] {
      assert s + r == s;
    } else {
      var r', u := r[..|r| - 1], r[|r| - 1];
      PredsConcat(b, s, r', t);
      PredsOne(b, s + r', u, t);
      PredsOne(b, r', u, t);
      assert r == r' + [u] && s + r == (s + r') + [u];
      var x, y, z := Preds(b, s, t), Preds(b, r', t), if b[Prev(|b|, u)] == t then [Prev(|b|, u)] else [];
      assert (x + y) + z == x + (y + z);
    }
  }

  lemma {:induction false} PredsMember(b: seq<Byte>, s: seq<int>, t: int, v: int)
    requires Valid(|b|, s)
    ensures v in Preds(b, s, t) <==> 0 <= v < |b| && b[v] == t && Next(|b|, v) in s
  {
    if s != [] {
      var m := |s| - 1;
      PredsMember(b, s[..m], t, v);
      assert s == s[..m] + [s[m]];
      assert Next(|b|, Prev(|b|, s[m])) == s[m];
    }
  }

  lemma {:induction false} PredsInjective(b: seq<Byte>, s: seq<int>, t: int)
    requires Valid(|b|, s) && Injective(s)
    ensures Injective(Preds(b, s, t))
  {
    if s != [] {
      var m := |s| - 1;
      PredsInjective(b, s[..m], t);
      var k := Prev(|b|, s[m]);
      PredsMember(b, s[..m], t, k);
      assert s[m] !in s[..m];
    }
  }

  ghost predicate InOrder(b: seq<Byte>, s: seq<int>) {
    && |b| > 0 && Valid(|b|, s)
    && forall i, j {:trigger Leq(b, s[i], s[j])} :: 0 <= i < j < |s| ==> Leq(b, s[i], s[j])
  }

  lemma {:induction false} PredsInOrder(b: seq<Byte>, s: seq<int>, t: int)
    requires InOrder(b, s)
    ensures InOrder(b, Preds(b, s, t))
  {
    if s != [] {
      var m := |s| - 1;
      forall i, j | 0 <= i < j < m ensures Leq(b, s[..m][i], s[..m][j]) {
        assert Leq(b, s[i], s[j]);
      }
      PredsInOrder(b, s[..m], t);
      var k := Prev(|b|, s[m]);
      var q := Preds(b, s[..m], t);
      var r := Preds(b, s, t);
      forall i, j | 0 <= i < j < |r| ensures Leq(b, r[i], r[j]) {
        if j < |q| {
          assert Leq(b, q[i], q[j]);
        } else {
          PredsMember(b, s[..m], t, q[i]);
          var x :| 0 <= x < m && s[..m][x] == Next(|b|, q[i]);
          assert Leq(b, s[x], s[m]);
          LeqNext(b, q[i], k);
        }
      }
    }
  }

  // ---- runs of one byte ---------------------------------------------------

  // v starts with m copies of ss and then a byte that is lower (or higher).
  ghost predicate Run(b: seq<Byte>, ss: int, v: nat, m: nat)
    requires |b| > 0
  {
    forall k: nat :: k < m ==> At(b, v, k) == ss
  }

  ghost predicate Low(b: seq<Byte>, ss: int, v: nat)
    requires |b| > 0
  {
    exists m: nat :: Run(b, ss, v, m) && At(b, v, m) < ss
  }

  ghost predicate High(b: seq<Byte>, ss: int, v: nat)
    requires |b| > 0
  {
    exists m: nat :: Run(b, ss, v, m) && At(b, v, m) > ss
  }

  lemma LowBelowHigh(b: seq<Byte>, ss: int, x: nat, y: nat)
    requires |b| > 0 && Low(b, ss, x) && High(b, ss, y)
    ensures Leq(b, x, y) && x != y
  {
    var m: nat :| Run(b, ss, x, m) && At(b, x, m) < ss;
    var k: nat :| Run(b, ss, y, k) && At(b, y, k) > ss;
    var l := if m < k then m else k;
    assert EqTo(b, x, y, l) && At(b, x, l) < At(b, y, l);
    assert LessTo(b, x, y, l + 1);
    LessDeeper(b, x, y, l + 1, l + 1 + |b|);
    LeqBeyond(b, x, y, l + 1 + |b|);
  }

  lemma RunPrev(b: seq<Byte>, ss: int, u: nat, m: nat)
    requires u < |b| && b[Prev(|b|, u)] == ss && Run(b, ss, u, m)
    ensures Run(b, ss, Prev(|b|, u), m + 1) && At(b, Prev(|b|, u), m + 1) == At(b, u, m)
  {
    var v := Prev(|b|, u);
    AtZero(b, v);
    forall k: nat | k < m + 1 ensures At(b, v, k) == ss {
      if k > 0 {
        AtNext(b, v, k - 1);
        assert At(b, u, k - 1) == ss;
      }
    }
    AtNext(b, v, m);
  }

  lemma PrevLow(b: seq<Byte>, ss: int, u: nat)
    requires u < |b| && b[Prev(|b|, u)] == ss
    ensures Low(b, ss, u) ==> Low(b, ss, Prev(|b|, u))
    ensures High(b, ss, u) ==> High(b, ss, Prev(|b|, u))
  {
    if Low(b, ss, u) {
      var m: nat :| Run(b, ss, u, m) && At(b, u, m) < ss;
      RunPrev(b, ss, u, m);
    }
    if High(b, ss, u) {
      var m: nat :| Run(b, ss, u, m) && At(b, u, m) > ss;
      RunPrev(b, ss, u, m);
    }
  }

  lemma OneLow(b: seq<Byte>, ss: int, v: nat)
    requires v < |b| && b[v] == ss && b[Next(|b|, v)] != ss
    ensures b[Next(|b|, v)] < ss ==> Low(b, ss, v)
    ensures b[Next(|b|, v)] > ss ==> High(b, ss, v)
  {
    AtZero(b, v);
    AtZero(b, Next(|b|, v));
    AtNext(b, v, 0);
    assert Run(b, ss, v, 1);
  }

  // If the block holds any other byte, every run ends.
  lemma RunEnds(b: seq<Byte>, ss: int, v: nat, w: nat)
    requires v < |b| && w < |b| && b[v] == ss && b[w] != ss
    ensures exists m: nat :: 0 < m && Run(b, ss, v, m) && At(b, v, m) != ss
  {
    var k: nat := if w >= v then w - v else w - v + |b|;
    AtWrap(b, v, k, 0);
    AtZero(b, w);
    assert At(b, v, k) != ss;
    AtZero(b, v);
    FirstOther(b, ss, v, 1, k);
  }

  lemma {:induction false} FirstOther(b: seq<Byte>, ss: int, v: nat, m: nat, k: nat)
    requires |b| > 0 && 0 < m <= k && Run(b, ss, v, m) && At(b, v, k) != ss
    ensures exists l: nat :: 0 < l && Run(b, ss, v, l) && At(b, v, l) != ss
    decreases k - m
  {
    if At(b, v, m) == ss {
      FirstOther(b, ss, v, m + 1, k);
    }
  }
}
