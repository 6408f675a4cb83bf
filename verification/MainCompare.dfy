// mainGtU: comparing two rotations from given offsets, bytes first, then bytes together with the
// ranks that finished buckets have left in quadrant.
module MainCompare {
  import opened Common
  import opened Rotations

  const BZ_N_RADIX := 2
  const BZ_N_QSORT := 12
  const BZ_N_SHELL := 18
  const BZ_N_OVERSHOOT := BZ_N_RADIX + BZ_N_QSORT + BZ_N_SHELL + 2

  // The first BZ_N_OVERSHOOT entries are repeated after the n-th, so that short scans need no wrapping.
  ghost predicate Overshot(s: seq<int>, n: nat) {
    && BZ_N_OVERSHOOT < n && n + BZ_N_OVERSHOOT <= |s|
    && forall k :: n <= k < n + BZ_N_OVERSHOOT ==> s[k] == s[k - n]
  }

  // Of two places with the same byte, the one of lower rank starts a rotation no greater.
  ghost predicate RanksRotations(b: seq<Byte>, quad: seq<int>) {
    && |b| > 0 && |quad| >= |b|
    && (forall u :: 0 <= u < |b| ==> 0 <= quad[u] < 65536)
    && forall u, v {:trigger quad[u], quad[v]} :: 0 <= u < |b| && 0 <= v < |b| && b[u] == b[v] && quad[u] < quad[v] ==>
         Leq(b, u, v)
  }

  // t places on from x
  ghost function Adv(n: nat, x: nat, t: nat): (r: nat)
    requires x < n
    ensures r < n
  {
    if t == 0 then x else Next(n, Adv(n, x, t - 1))
  }

  lemma {:induction false} AtAdv(b: seq<Byte>, x: nat, t: nat, k: nat)
    requires x < |b|
    ensures At(b, Adv(|b|, x, t), k) == At(b, x, t + k)
  {
    if t > 0 {
      AtNext(b, Adv(|b|, x, t - 1), k);
      AtAdv(b, x, t - 1, k + 1);
    }
  }

  // Equal for t bytes and ordered from there on: ordered.
  lemma {:induction false} LeqAdv(b: seq<Byte>, x: nat, y: nat, t: nat)
    requires x < |b| && y < |b| && EqTo(b, x, y, t)
    requires Leq(b, Adv(|b|, x, t), Adv(|b|, y, t))
    ensures Leq(b, x, y)
  {
    if t > 0 {
      var u, v := Adv(|b|, x, t - 1), Adv(|b|, y, t - 1);
      AtAdv(b, x, t - 1, 0);
      AtAdv(b, y, t - 1, 0);
      assert At(b, x, t - 1) == At(b, y, t - 1);
      AtZero(b, u);
      AtZero(b, v);
      LeqNext(b, u, v);
      assert EqTo(b, x, y, t - 1);
      LeqAdv(b, x, y, t - 1);
    }
  }

  // The comparison has found t equal bytes; i1 and i2 are where it reads next.
  ghost predicate Comparing(b: seq<Byte>, x: nat, y: nat, t: nat, i1: nat, i2: nat) {
    && x < |b| && y < |b| && i1 < 2 * |b| && i2 < 2 * |b|
    && EqTo(b, x, y, t)
    && Wrap(|b|, i1) == Adv(|b|, x, t) && Wrap(|b|, i2) == Adv(|b|, y, t)
  }

  lemma ReadByte(b: seq<Byte>, blk: seq<Byte>, i: nat)
    requires |b| > 0 && Overshot(blk, |b|) && blk[..|b|] == b && i < |b| + BZ_N_OVERSHOOT
    ensures i < 2 * |b| && blk[i] == b[Wrap(|b|, i)]
  {
  }

  // A byte pair differs, or is equal and the next pair is up.
  lemma CompareBytes(b: seq<Byte>, x: nat, y: nat, t: nat, i1: nat, i2: nat)
    requires Comparing(b, x, y, t, i1, i2) && i1 + 1 < 2 * |b| && i2 + 1 < 2 * |b|
    ensures b[Wrap(|b|, i1)] < b[Wrap(|b|, i2)] ==> Leq(b, x, y)
    ensures b[Wrap(|b|, i1)] > b[Wrap(|b|, i2)] ==> Leq(b, y, x)
    ensures b[Wrap(|b|, i1)] == b[Wrap(|b|, i2)] ==> Comparing(b, x, y, t + 1, i1 + 1, i2 + 1)
  {
    var u, v := Wrap(|b|, i1), Wrap(|b|, i2);
    AtAdv(b, x, t, 0);
    AtAdv(b, y, t, 0);
    AtZero(b, u);
    AtZero(b, v);
    if b[u] < b[v] {
      LessByFirst(b, u, v);
      Trichotomy(b, u, v, |b|);
      LeqAdv(b, x, y, t);
    } else if b[u] > b[v] {
      LessByFirst(b, v, u);
      Trichotomy(b, v, u, |b|);
      assert EqTo(b, y, x, t);
      LeqAdv(b, y, x, t);
    }
  }

  // Ranks of equal bytes differ.
  lemma CompareRanks(b: seq<Byte>, quad: seq<int>, x: nat, y: nat, t: nat, i1: nat, i2: nat)
    requires Comparing(b, x, y, t, i1, i2) && RanksRotations(b, quad)
    requires b[Wrap(|b|, i1)] == b[Wrap(|b|, i2)]
    ensures quad[Wrap(|b|, i1)] < quad[Wrap(|b|, i2)] ==> Leq(b, x, y)
    ensures quad[Wrap(|b|, i1)] > quad[Wrap(|b|, i2)] ==> Leq(b, y, x)
  {
    var u, v := Wrap(|b|, i1), Wrap(|b|, i2);
    if quad[u] < quad[v] {
      LeqAdv(b, x, y, t);
    } else if quad[v] < quad[u] {
      assert EqTo(b, y, x, t);
      LeqAdv(b, y, x, t);
    }
  }

  lemma CompareAll(b: seq<Byte>, x: nat, y: nat, t: nat, i1: nat, i2: nat)
    requires Comparing(b, x, y, t, i1, i2) && t >= |b|
    ensures Leq(b, x, y) && Leq(b, y, x)
  {
    assert EqTo(b, x, y, |b|);
    Trichotomy(b, x, y, |b|);
  }

  lemma ReadRank(quad: seq<int>, n: nat, i: nat)
    requires Overshot(quad, n) && i < n + BZ_N_OVERSHOOT
    ensures i < 2 * n && quad[i] == quad[Wrap(n, i)]
  {
  }

  // The block and its ranks, as laid out for comparing.
  ghost predicate Laid(block: seq<Byte>, quadrant: seq<int>, n: nat, b: seq<Byte>) {
    && n == |b| && Overshot(block, n) && block[..n] == b
    && Overshot(quadrant, n) && RanksRotations(b, quadrant)
  }

  // One place of the comparison: its bytes and then, if asked, its ranks.
  method CompareOne(i1: nat, i2: nat, ranks: bool, block: array<Byte>, quadrant: array<int>, n: nat, ghost b: seq<Byte>,
                    ghost x: nat, ghost y: nat, ghost t: nat) returns (decided: bool, gt: bool)
    requires Laid(block[..], quadrant[..], n, b) && Comparing(b, x, y, t, i1, i2)
    requires i1 < n + BZ_N_OVERSHOOT && i2 < n + BZ_N_OVERSHOOT
    ensures decided && gt ==> Leq(b, y, x)
    ensures decided && !gt ==> Leq(b, x, y)
    ensures !decided ==> Comparing(b, x, y, t + 1, i1 + 1, i2 + 1)
  {
    ReadByte(b, block[..], i1);
    ReadByte(b, block[..], i2);
    CompareBytes(b, x, y, t, i1, i2);
    var c1, c2 := block[i1], block[i2];
    if c1 != c2 {
      return true, c1 > c2;
    }
    if ranks {
      CompareRanks(b, quadrant[..], x, y, t, i1, i2);
      ReadRank(quadrant[..], n, i1);
      ReadRank(quadrant[..], n, i2);
      var s1, s2 := quadrant[i1], quadrant[i2];
      if s1 != s2 {
        return true, s1 > s2;
      }
    }
    return false, false;
  }

  // True only if rotation i1 is not below rotation i2, false only if it is not above it.
  // Nothing past n + BZ_N_OVERSHOOT - 1 is read.
  method MainGtU(i1_0: nat, i2_0: nat, block: array<Byte>, quadrant: array<int>, n: nat, budget: int,
                 ghost b: seq<Byte>) returns (gt: bool, budget': int)
    requires Laid(block[..], quadrant[..], n, b)
    requires i1_0 < n + BZ_N_RADIX + BZ_N_QSORT + 1 && i2_0 < n + BZ_N_RADIX + BZ_N_QSORT + 1
    ensures gt ==> Leq(b, Wrap(n, i2_0), Wrap(n, i1_0))
    ensures !gt ==> Leq(b, Wrap(n, i1_0), Wrap(n, i2_0))
    ensures budget' <= budget
  {
    budget' := budget;
    var i1: nat, i2: nat := i1_0, i2_0;
    ghost var x, y := Wrap(n, i1), Wrap(n, i2);
    ghost var t := 0;
    var decided;
    for c := 0 to 12
      invariant i1 == i1_0 + c && i2 == i2_0 + c && t == c && Comparing(b, x, y, t, i1, i2)
    {
      decided, gt := CompareOne(i1, i2, false, block, quadrant, n, b, x, y, t);
      if decided {
        return;
      }
      i1, i2, t := i1 + 1, i2 + 1, t + 1;
    }
    var k: int := n + 8;
    while k >= 0
      invariant i1 < n + 27 && i2 < n + 27 && Comparing(b, x, y, t, i1, i2)
      invariant t + k >= n + 8 && budget' <= budget
    {
      ghost var j1, j2 := i1, i2;
      for c := 0 to 8
        invariant i1 == j1 + c && i2 == j2 + c && t + k >= n + 8 + c && Comparing(b, x, y, t, i1, i2)
      {
        decided, gt := CompareOne(i1, i2, true, block, quadrant, n, b, x, y, t);
        if decided {
          return;
        }
        i1, i2, t := i1 + 1, i2 + 1, t + 1;
      }
      if i1 >= n {
        i1 := i1 - n;
      }
      if i2 >= n {
        i2 := i2 - n;
      }
      k := k - 8;
      budget' := budget' - 1;
    }
    CompareAll(b, x, y, t, i1, i2);
    gt := false;
  }
}
