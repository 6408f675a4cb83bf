// A permutation that groups indices by a key, each key's group at its cumulative count.
module Buckets {
  import opened Common
  import opened Counting

  lemma CountMonotone(l: seq<int>, c: int, d: int)
    requires c <= d
    ensures CountBelow(l, c, |l|) <= CountBelow(l, d, |l|)
  {
    if c < d {
      CountSplit(l, c, d, |l|);
    }
  }

  // p lists all indices of l, each within its key's bucket.
  ghost predicate Bucketed(l: seq<int>, p: seq<int>) {
    && |p| == |l| && IsPerm(p)
    && forall x :: 0 <= x < |p| ==> CountBelow(l, l[p[x]], |l|) <= x < CountBelow(l, l[p[x]] + 1, |l|)
  }

  // Putting every index at its own place of its key's bucket gives such a permutation.
  lemma BucketedFromPlaces(l: seq<int>, p: seq<int>, places: seq<int>)
    requires |p| == |l| == |places| && Injective(places)
    requires forall i :: 0 <= i < |l| ==> CountBelow(l, l[i], |l|) <= places[i] < CountBelow(l, l[i] + 1, |l|)
    requires forall i :: 0 <= i < |l| ==> 0 <= places[i] < |l| && p[places[i]] == i
    ensures Bucketed(l, p)
  {
    hide CountBelow;
    assert IsPerm(places);
    forall x | 0 <= x < |p|
      ensures 0 <= p[x] < |l| && places[p[x]] == x
    {
      PermSurjective(places, x);
      var i :| 0 <= i < |l| && places[i] == x;
      assert p[places[i]] == i;
    }
  }

  // The place says the key.
  lemma BucketAt(l: seq<int>, p: seq<int>, x: nat, c: int)
    requires Bucketed(l, p) && x < |l|
    ensures CountBelow(l, c, |l|) <= x < CountBelow(l, c + 1, |l|) <==> l[p[x]] == c
    ensures x < CountBelow(l, c, |l|) <==> l[p[x]] < c
  {
    var d := l[p[x]];
    if d < c {
      CountMonotone(l, d + 1, c);
    } else if c < d {
      CountMonotone(l, c + 1, d);
      CountMonotone(l, c, d);
    }
  }
}
