// Counting the entries of a sequence by value: what every bucket sort here starts from.
module Counting {
  // occurrences of c among the first i entries
  function Count(l: seq<int>, c: int, i: nat): (r: nat)
    requires i <= |l|
    ensures r <= i
  {
    if i == 0 then 0 else Count(l, c, i - 1) + (if l[i - 1] == c then 1 else 0)
  }

  // entries below c among the first i
  function CountBelow(l: seq<int>, c: int, i: nat): (r: nat)
    requires i <= |l|
    ensures r <= i
  {
    if i == 0 then 0 else CountBelow(l, c, i - 1) + (if l[i - 1] < c then 1 else 0)
  }

  lemma {:induction false} CountSplit(l: seq<int>, c: int, d: int, i: nat)
    requires c < d && i <= |l|
    ensures CountBelow(l, c, i) + Count(l, c, i) <= CountBelow(l, d, i) <= i
    ensures d == c + 1 ==> CountBelow(l, c, i) + Count(l, c, i) == CountBelow(l, d, i)
    ensures CountBelow(l, c, i) + Count(l, c, i) <= i
  {
    if i > 0 {
      CountSplit(l, c, d, i - 1);
    }
  }

  lemma {:induction false} CountGrows(l: seq<int>, c: int, i: nat, j: nat)
    requires i <= j <= |l|
    ensures Count(l, c, i) <= Count(l, c, j)
    ensures i < j && l[i] == c ==> Count(l, c, i) < Count(l, c, j)
  {
    if i < j {
      CountGrows(l, c, i, j - 1);
    }
  }

  lemma {:induction false} CountBelowEnds(l: seq<int>, lo: int, hi: int, i: nat)
    requires i <= |l| && forall k :: 0 <= k < |l| ==> lo <= l[k] < hi
    ensures CountBelow(l, lo, i) == 0
    ensures CountBelow(l, hi, i) == i
  {
    if i > 0 {
      CountBelowEnds(l, lo, hi, i - 1);
    }
  }
}
