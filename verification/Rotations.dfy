// The cyclic rotations of a block and their lexicographic order.
// Rotation i of a block b of n bytes reads b[i], b[i+1], ..., wrapping round at n.
// A periodic block has rotations that are equal as strings: the order is a preorder.
module Rotations {
  import opened Common

  // x mod n, by repeated subtraction so that facts about it stay linear
  function Rem(x: nat, n: nat): (r: nat)
    requires n > 0
    ensures r < n
    ensures x < n ==> r == x
  {
    if x < n then x else Rem(x - n, n)
  }

  function At(b: seq<Byte>, i: nat, k: nat): Byte
    requires |b| > 0
  {
    b[Rem(i + k, |b|)]
  }

  function Next(n: int, i: int): (r: int)
    requires 0 <= i < n
    ensures 0 <= r < n
  {
    if i + 1 == n then 0 else i + 1
  }

  function Prev(n: int, i: int): (r: int)
    requires 0 <= i < n
    ensures 0 <= r < n && Next(n, r) == i
    ensures forall j :: 0 <= j < n && Next(n, j) == i ==> j == r
  {
    if i == 0 then n - 1 else i - 1
  }

  // i + h wrapped once round the block
  function Wrap(n: int, i: int): (r: int)
    requires 0 <= i < 2 * n
    ensures 0 <= r < n
  {
    if i >= n then i - n else i
  }

  lemma AtWrap(b: seq<Byte>, i: nat, h: nat, k: nat)
    requires i < |b| && h <= |b|
    ensures At(b, Wrap(|b|, i + h), k) == At(b, i, h + k)
  {
    assert i + h >= |b| ==> Rem(i + (h + k), |b|) == Rem(i + h - |b| + k, |b|);
    assert i + (h + k) == i + h + k;
  }

  lemma AtNext(b: seq<Byte>, i: nat, k: nat)
    requires i < |b|
    ensures At(b, Next(|b|, i), k) == At(b, i, k + 1)
  {
    AtWrap(b, i, 1, k);
  }

  lemma AtZero(b: seq<Byte>, i: nat)
    requires i < |b|
    ensures At(b, i, 0) == b[i]
  {
  }

  lemma AtLast(b: seq<Byte>, i: nat)
    requires i < |b|
    ensures At(b, i, |b| - 1) == b[Prev(|b|, i)]
  {
    assert i > 0 ==> Rem(i + (|b| - 1), |b|) == Rem(i - 1, |b|);
  }

  lemma AtPeriod(b: seq<Byte>, i: nat, k: nat)
    requires |b| > 0
    ensures At(b, i, k + |b|) == At(b, i, k)
  {
    assert i + (k + |b|) - |b| == i + k;
  }

  // ---- comparison to a depth --------------------------------------------

  // Rotations i and j agree on their first d bytes.
  ghost predicate EqTo(b: seq<Byte>, i: nat, j: nat, d: nat)
    requires |b| > 0
  {
    forall k: nat :: k < d ==> At(b, i, k) == At(b, j, k)
  }

  // Rotation i is below rotation j within their first d bytes.
  ghost predicate LessTo(b: seq<Byte>, i: nat, j: nat, d: nat)
    requires |b| > 0
  {
    exists k: nat {:trigger EqTo(b, i, j, k)} :: k < d && EqTo(b, i, j, k) && At(b, i, k) < At(b, j, k)
  }

  ghost predicate LeqTo(b: seq<Byte>, i: nat, j: nat, d: nat)
    requires |b| > 0
  {
    !LessTo(b, j, i, d)
  }

  // The order on whole rotations.
  ghost predicate Leq(b: seq<Byte>, i: nat, j: nat)
    requires |b| > 0
  {
    LeqTo(b, i, j, |b|)
  }

  ghost predicate Less(b: seq<Byte>, i: nat, j: nat)
    requires |b| > 0
  {
    LessTo(b, i, j, |b|)
  }

  ghost predicate Same(b: seq<Byte>, i: nat, j: nat)
    requires |b| > 0
  {
    EqTo(b, i, j, |b|)
  }

  lemma {:induction false} Trichotomy(b: seq<Byte>, i: nat, j: nat, d: nat)
    requires |b| > 0
    ensures EqTo(b, i, j, d) || LessTo(b, i, j, d) || LessTo(b, j, i, d)
    ensures !(LessTo(b, i, j, d) && LessTo(b, j, i, d))
    ensures EqTo(b, i, j, d) ==> !LessTo(b, i, j, d) && !LessTo(b, j, i, d)
  {
    if d > 0 && !EqTo(b, i, j, d) {
      Trichotomy(b, i, j, d - 1);
      if EqTo(b, i, j, d - 1) {
        assert EqTo(b, j, i, d - 1);
      }
    }
  }

  lemma LeqToIff(b: seq<Byte>, i: nat, j: nat, d: nat)
    requires |b| > 0
    ensures LeqTo(b, i, j, d) <==> EqTo(b, i, j, d) || LessTo(b, i, j, d)
  {
    Trichotomy(b, i, j, d);
  }

  lemma LessTrans(b: seq<Byte>, i: nat, j: nat, l: nat, d: nat)
    requires |b| > 0
    requires LeqTo(b, i, j, d) && LeqTo(b, j, l, d)
    ensures LeqTo(b, i, l, d)
    ensures LessTo(b, i, j, d) || LessTo(b, j, l, d) ==> LessTo(b, i, l, d)
  {
    LeqToIff(b, i, j, d);
    LeqToIff(b, j, l, d);
    LeqToIff(b, i, l, d);
    if LessTo(b, i, j, d) {
      var k: nat :| k < d && EqTo(b, i, j, k) && At(b, i, k) < At(b, j, k);
      if LessTo(b, j, l, d) {
        var m: nat :| m < d && EqTo(b, j, l, m) && At(b, j, m) < At(b, l, m);
        var p := if k < m then k else m;
        assert EqTo(b, i, l, p) && At(b, i, p) < At(b, l, p);
      } else {
        assert EqTo(b, i, l, k) && At(b, i, k) < At(b, l, k);
      }
    } else if LessTo(b, j, l, d) {
      var m: nat :| m < d && EqTo(b, j, l, m) && At(b, j, m) < At(b, l, m);
      assert EqTo(b, i, l, m) && At(b, i, m) < At(b, l, m);
    } else {
      assert EqTo(b, i, l, d);
    }
  }

  lemma LeqTrans(b: seq<Byte>, i: nat, j: nat, l: nat)
    requires |b| > 0
    requires Leq(b, i, j) && Leq(b, j, l)
    ensures Leq(b, i, l)
  {
    LessTrans(b, i, j, l, |b|);
  }

  lemma LessDeeper(b: seq<Byte>, i: nat, j: nat, d: nat, d': nat)
    requires |b| > 0 && LessTo(b, i, j, d) && d <= d'
    ensures LessTo(b, i, j, d') && LeqTo(b, i, j, d') && !EqTo(b, i, j, d')
  {
    var k: nat :| k < d && EqTo(b, i, j, k) && At(b, i, k) < At(b, j, k);
    assert k < d' && EqTo(b, i, j, k) && At(b, i, k) < At(b, j, k);
    Trichotomy(b, i, j, d');
  }

  // Comparing beyond n bytes says nothing new.
  lemma {:induction false} EqBeyond(b: seq<Byte>, i: nat, j: nat, d: nat)
    requires |b| > 0 && EqTo(b, i, j, |b|)
    ensures EqTo(b, i, j, d)
  {
    if d > 0 {
      EqBeyond(b, i, j, d - 1);
      if d - 1 >= |b| {
        AtPeriod(b, i, d - 1 - |b|);
        AtPeriod(b, j, d - 1 - |b|);
      }
    }
  }

  lemma LeqBeyond(b: seq<Byte>, i: nat, j: nat, d: nat)
    requires |b| > 0 && d >= |b|
    ensures LeqTo(b, i, j, d) <==> Leq(b, i, j)
    ensures LessTo(b, i, j, d) <==> Less(b, i, j)
  {
    Trichotomy(b, i, j, |b|);
    Trichotomy(b, i, j, d);
    if EqTo(b, i, j, |b|) {
      EqBeyond(b, i, j, d);
    }
    assert LessTo(b, i, j, |b|) ==> LessTo(b, i, j, d);
    assert LessTo(b, j, i, |b|) ==> LessTo(b, j, i, d);
  }

  // ---- comparing in two steps: the first h bytes, then the rotations h further on --

  lemma EqSplit(b: seq<Byte>, i: nat, j: nat, h: nat, d: nat)
    requires |b| > 0 && i < |b| && j < |b| && h <= |b|
    ensures EqTo(b, i, j, h + d) <==> EqTo(b, i, j, h) && EqTo(b, Wrap(|b|, i + h), Wrap(|b|, j + h), d)
  {
    var i', j' := Wrap(|b|, i + h), Wrap(|b|, j + h);
    if EqTo(b, i, j, h) && EqTo(b, i', j', d) {
      forall k: nat | k < h + d ensures At(b, i, k) == At(b, j, k) {
        if k >= h {
          AtWrap(b, i, h, k - h);
          AtWrap(b, j, h, k - h);
          assert At(b, i', k - h) == At(b, j', k - h);
        }
      }
    }
    if EqTo(b, i, j, h + d) {
      forall k: nat | k < d ensures At(b, i', k) == At(b, j', k) {
        AtWrap(b, i, h, k);
        AtWrap(b, j, h, k);
        assert At(b, i, h + k) == At(b, j, h + k);
      }
    }
  }

  // Less by a byte before h, or by a later one when the first h are equal.
  lemma LessApart(b: seq<Byte>, i: nat, j: nat, h: nat, d: nat)
    requires |b| > 0 && i < |b| && j < |b| && h <= |b| && LessTo(b, i, j, h + d)
    ensures LessTo(b, i, j, h) || (EqTo(b, i, j, h) && LessTo(b, Wrap(|b|, i + h), Wrap(|b|, j + h), d))
  {
    hide At, Wrap;
    var k: nat :| k < h + d && EqTo(b, i, j, k) && At(b, i, k) < At(b, j, k);
    if k >= h {
      EqSplit(b, i, j, h, k - h);
      AtWrap(b, i, h, k - h);
      AtWrap(b, j, h, k - h);
    }
  }

  lemma LessJoined(b: seq<Byte>, i: nat, j: nat, h: nat, d: nat)
    requires |b| > 0 && i < |b| && j < |b| && h <= |b|
    requires EqTo(b, i, j, h) && LessTo(b, Wrap(|b|, i + h), Wrap(|b|, j + h), d)
    ensures LessTo(b, i, j, h + d)
  {
    hide At, Wrap;
    var i', j' := Wrap(|b|, i + h), Wrap(|b|, j + h);
    var k: nat :| k < d && EqTo(b, i', j', k) && At(b, i', k) < At(b, j', k);
    EqSplit(b, i, j, h, k);
    AtWrap(b, i, h, k);
    AtWrap(b, j, h, k);
    assert EqTo(b, i, j, h + k);
  }

  lemma LessSplit(b: seq<Byte>, i: nat, j: nat, h: nat, d: nat)
    requires |b| > 0 && i < |b| && j < |b| && h <= |b|
    ensures LessTo(b, i, j, h + d)
       <==> LessTo(b, i, j, h) || (EqTo(b, i, j, h) && LessTo(b, Wrap(|b|, i + h), Wrap(|b|, j + h), d))
  {
    if LessTo(b, i, j, h + d) {
      LessApart(b, i, j, h, d);
    }
    if EqTo(b, i, j, h) && LessTo(b, Wrap(|b|, i + h), Wrap(|b|, j + h), d) {
      LessJoined(b, i, j, h, d);
    }
  }

  // Equal first h bytes and ordered tails give ordered rotations.
  lemma LeqPrefix(b: seq<Byte>, i: nat, j: nat, h: nat)
    requires |b| > 0 && i < |b| && j < |b| && h <= |b|
    requires EqTo(b, i, j, h) && Leq(b, Wrap(|b|, i + h), Wrap(|b|, j + h))
    ensures Leq(b, i, j)
  {
    LessSplit(b, j, i, h, |b|);
    assert EqTo(b, j, i, h);
    LeqBeyond(b, i, j, h + |b|);
    Trichotomy(b, j, i, h);
    assert LeqTo(b, i, j, h + |b|);
  }

  lemma LessNext(b: seq<Byte>, i: nat, j: nat)
    requires i < |b| && j < |b| && b[i] == b[j]
    ensures Less(b, i, j) <==> Less(b, Next(|b|, i), Next(|b|, j))
  {
    AtZero(b, i);
    AtZero(b, j);
    assert EqTo(b, i, j, 1);
    Trichotomy(b, i, j, 1);
    LessSplit(b, i, j, 1, |b|);
    LeqBeyond(b, i, j, 1 + |b|);
  }

  lemma LeqNext(b: seq<Byte>, i: nat, j: nat)
    requires i < |b| && j < |b| && b[i] == b[j]
    ensures Leq(b, i, j) <==> Leq(b, Next(|b|, i), Next(|b|, j))
  {
    LessNext(b, j, i);
  }

  lemma LessByFirst(b: seq<Byte>, i: nat, j: nat)
    requires i < |b| && j < |b| && b[i] < b[j]
    ensures Less(b, i, j)
  {
    AtZero(b, i);
    AtZero(b, j);
    assert EqTo(b, i, j, 0);
  }

  // ---- a block sort -----------------------------------------------------

  ghost predicate SortedRotations(b: seq<Byte>, p: seq<int>) {
    && |b| == |p| > 0
    && IsPerm(p)
    && forall x, y {:trigger Leq(b, p[x], p[y])} :: 0 <= x < y < |p| ==> Leq(b, p[x], p[y])
  }

  lemma SortedPair(b: seq<Byte>, p: seq<int>, x: int, y: int)
    requires SortedRotations(b, p) && 0 <= x < y < |b|
    ensures Leq(b, p[x], p[y])
  {
  }

  // Two sorts of the same block put equal rotations at each place, however each broke the ties.
  lemma SortsAgree(b: seq<Byte>, p: seq<int>, q: seq<int>, x: int)
    requires SortedRotations(b, p) && SortedRotations(b, q) && 0 <= x < |b|
    ensures Same(b, p[x], q[x])
  {
    Trichotomy(b, p[x], q[x], |b|);
    if Less(b, p[x], q[x]) {
      SortsAgreeOneWay(b, p, q, x);
    } else if Less(b, q[x], p[x]) {
      SortsAgreeOneWay(b, q, p, x);
    }
  }

  lemma SortsAgreeOneWay(b: seq<Byte>, p: seq<int>, q: seq<int>, x: int)
    requires SortedRotations(b, p) && SortedRotations(b, q) && 0 <= x < |b|
    ensures !Less(b, p[x], q[x])
  {
    if Less(b, p[x], q[x]) {
      // The x+1 rotations p[0..x] are all below q[x], so q places them all among its first x.
      var low := Elements(p[..x + 1]);
      var below := Elements(q[..x]);
      forall r | r in low ensures r in below {
        var u :| 0 <= u <= x && p[u] == r;
        if u < x {
          assert Leq(b, p[u], p[x]);
          LessTrans(b, p[u], p[x], q[x], |b|);
        }
        assert Less(b, r, q[x]);
        PermSurjective(q, r);
        var v :| 0 <= v < |q| && q[v] == r;
        Trichotomy(b, r, q[x], |b|);
        if x < v {
          SortedPair(b, q, x, v);
          assert false;
        }
        assert q[..x][v] == r;
      }
      InjectiveSize(p[..x + 1]);
      InjectiveSize(q[..x]);
      SubsetSize(low, below);
      assert false;
    }
  }
}
