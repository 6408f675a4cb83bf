// How mainSort begins: the two-byte frequency table, the overshoot, and the radix sort on two bytes.
module MainSetup {
  import opened Common
  import opened Counting
  import opened Buckets
  import opened Rotations
  import opened SmallBuckets
  import opened MainCompare

  // ---- counting -----------------------------------------------------------

  // Codes of the places from i on have been counted.
  ghost predicate Counted(b: seq<Byte>, ft: seq<int>, i: nat)
    requires i <= |b|
  {
    |ft| >= 65537 && forall c :: 0 <= c <= 65536 ==> ft[c] == Count(Codes(b), c, |b|) - Count(Codes(b), c, i)
  }

  lemma CountedStep(b: seq<Byte>, ft: seq<int>, i: nat)
    requires 0 < i <= |b| && Counted(b, ft, i)
    ensures 0 <= Codes(b)[i - 1] < 65536
    ensures Counted(b, ft[Codes(b)[i - 1] := ft[Codes(b)[i - 1]] + 1], i - 1)
  {
  }

  function High(j: int): int {
    j / 256
  }

  // A byte shifted in above the running code, whose high byte moves down.
  function ShiftIn(j: int, c: Byte): int {
    High(j) + (c as int) * 256
  }

  // The running code's high byte is the byte after the place to be read next.
  lemma CodeOf(b: seq<Byte>, j: int, i: nat)
    requires i < |b| && High(j) == b[Next(|b|, i)]
    ensures ShiftIn(j, b[i]) == Codes(b)[i] && High(ShiftIn(j, b[i])) == b[i]
  {
  }

  lemma CountedNone(b: seq<Byte>, ft: seq<int>)
    requires |b| > 0 && |ft| >= 65537 && forall c :: 0 <= c <= 65536 ==> ft[c] == 0
    ensures Counted(b, ft, |b|)
  {
  }

  lemma FirstShift(b: seq<Byte>)
    requires |b| > 0
    ensures High(ShiftIn(0, b[0])) == b[Next(|b|, |b| - 1)]
  {
  }

  method CountPairs(block: array<Byte>, quadrant: array<int>, ftab: array<int>, n: nat)
    requires 0 < n <= block.Length && n <= quadrant.Length && 65537 <= ftab.Length && quadrant != ftab
    modifies quadrant, ftab
    ensures Counted(block[..n], ftab[..], 0)
    ensures forall u :: 0 <= u < n ==> quadrant[u] == 0
  {
    ghost var b := block[..n];
    for i := 65537 downto 0
      invariant forall c :: i <= c <= 65536 ==> ftab[c] == 0
    {
      ftab[i] := 0;
    }
    hide Counted, High, ShiftIn;
    ghost var ft := ftab[..];
    CountedNone(b, ft);
    FirstShift(b);
    var j := ShiftIn(0, block[0]);
    for i := n downto 0
      invariant ftab[..] == ft && Counted(b, ft, i) && block[..n] == b
      invariant i > 0 ==> High(j) == b[Next(n, i - 1)]
      invariant forall u :: i <= u < n ==> quadrant[u] == 0
    {
      quadrant[i] := 0;
      CodeOf(b, j, i);
      CountedStep(b, ft, i + 1);
      assert block[i] == b[i];
      j := ShiftIn(j, block[i]);
      ftab[j] := ftab[j] + 1;
      ft := ft[j := ft[j] + 1];
    }
  }

  // ---- the overshoot ------------------------------------------------------

  method Overshoot(block: array<Byte>, quadrant: array<int>, n: nat)
    requires BZ_N_OVERSHOOT < n && n + BZ_N_OVERSHOOT <= block.Length && n + BZ_N_OVERSHOOT <= quadrant.Length
    requires forall u :: 0 <= u < n ==> quadrant[u] == 0
    modifies block, quadrant
    ensures block[..n] == old(block[..n]) && Overshot(block[..], n)
    ensures forall u :: 0 <= u < n + BZ_N_OVERSHOOT ==> quadrant[u] == 0
  {
    for i := 0 to BZ_N_OVERSHOOT
      invariant block[..n] == old(block[..n])
      invariant forall k :: n <= k < n + i ==> block[k] == block[k - n]
      invariant forall u :: 0 <= u < n + i ==> quadrant[u] == 0
    {
      block[n + i] := block[i];
      quadrant[n + i] := 0;
    }
  }

  // ---- the radix sort -----------------------------------------------------

  method AccumulatePairs(ftab: array<int>, ghost b: seq<Byte>)
    requires Counted(b, ftab[..], 0)
    modifies ftab
    ensures Remaining(b, ftab[..], |b|)
  {
    CountBelowEnds(Codes(b), 0, 65536, |b|);
    CountSplit(Codes(b), 0, 1, |b|);
    ghost var ft := ftab[..];
    for i := 1 to 65537
      invariant ftab[..] == ft
      invariant forall c :: 0 <= c < i ==> ft[c] == Start(b, c + 1)
      invariant forall c :: i <= c <= 65536 ==> ft[c] == Count(Codes(b), c, |b|)
    {
      CountSplit(Codes(b), i, i + 1, |b|);
      ftab[i] := ftab[i] + ftab[i - 1];
      ft := ft[i := ft[i] + ft[i - 1]];
    }
    forall c | 0 <= c < 65536 ensures ft[c] == Start(b, c) + Count(Codes(b), c, |b|) {
      CountSplit(Codes(b), c, c + 1, |b|);
    }
    CountBelowEnds(Codes(b), 0, 65537, |b|);
  }

  // Places from i on have been put down from the tops of their buckets.
  ghost predicate Remaining(b: seq<Byte>, ft: seq<int>, i: nat)
    requires i <= |b|
  {
    && |ft| >= 65537 && ft[65536] == |b|
    && forall c :: 0 <= c < 65536 ==> ft[c] == Start(b, c) + Count(Codes(b), c, i)
  }

  // Where rotation k goes.
  function Place(b: seq<Byte>, k: nat): int
    requires k < |b|
  {
    Start(b, Codes(b)[k]) + Count(Codes(b), Codes(b)[k], k)
  }

  lemma PlaceBounds(b: seq<Byte>, k: nat)
    requires k < |b|
    ensures Start(b, Codes(b)[k]) <= Place(b, k) < Start(b, Codes(b)[k] + 1) <= |b|
  {
    var c := Codes(b)[k];
    CountGrows(Codes(b), c, k, |b|);
    CountSplit(Codes(b), c, c + 1, |b|);
  }

  lemma PlaceInjective(b: seq<Byte>, k: nat, m: nat)
    requires k < m < |b|
    ensures Place(b, k) != Place(b, m)
  {
    var c, d := Codes(b)[k], Codes(b)[m];
    PlaceBounds(b, k);
    PlaceBounds(b, m);
    if c == d {
      CountGrows(Codes(b), c, k, m);
    } else if c < d {
      StartMonotone(b, c + 1, d);
    } else {
      StartMonotone(b, d + 1, c);
    }
  }

  ghost predicate PutDown(b: seq<Byte>, p: seq<int>, i: nat) {
    |p| == |b| && forall k :: i <= k < |b| ==> 0 <= Place(b, k) < |b| && p[Place(b, k)] == k
  }

  lemma PutDownStep(b: seq<Byte>, ft: seq<int>, p: seq<int>, i: nat)
    requires 0 < i <= |b| && Remaining(b, ft, i) && PutDown(b, p, i)
    ensures var c := Codes(b)[i - 1];
            0 <= c < 65536 && ft[c] - 1 == Place(b, i - 1) && 0 <= Place(b, i - 1) < |b|
            && Remaining(b, ft[c := ft[c] - 1], i - 1) && PutDown(b, p[Place(b, i - 1) := i - 1], i - 1)
  {
    PlaceBounds(b, i - 1);
    forall k | i <= k < |b| ensures Place(b, k) != Place(b, i - 1) {
      PlaceInjective(b, i - 1, k);
    }
  }

  function Places(b: seq<Byte>): (r: seq<int>)
    ensures |r| == |b| && forall k :: 0 <= k < |b| ==> r[k] == Place(b, k)
  {
    seq(|b|, k requires 0 <= k < |b| => Place(b, k))
  }

  lemma PlacesInjective(b: seq<Byte>)
    ensures Injective(Places(b))
  {
    forall k, m | 0 <= k < m < |b| ensures Places(b)[k] != Places(b)[m] {
      PlaceInjective(b, k, m);
    }
  }

  lemma PutDownGroups(b: seq<Byte>, p: seq<int>)
    requires |b| > 0 && PutDown(b, p, 0)
    ensures Grouped(b, p)
  {
    var places, l := Places(b), Codes(b);
    PlacesInjective(b);
    forall k | 0 <= k < |l| ensures CountBelow(l, l[k], |l|) <= places[k] < CountBelow(l, l[k] + 1, |l|) {
      PlaceBounds(b, k);
    }
    BucketedFromPlaces(l, p, places);
  }

  // Afterwards ftab holds the first place of every small bucket.
  method RadixSort(ptr: array<int>, block: array<Byte>, ftab: array<int>, n: nat)
    requires 0 < n <= block.Length && n <= ptr.Length && ptr != ftab
    requires Remaining(block[..n], ftab[..], n)
    modifies ptr, ftab
    ensures Grouped(block[..n], ptr[..n]) && Remaining(block[..n], ftab[..], 0)
  {
    ghost var b, ft, p := block[..n], ftab[..], ptr[..n];
    var s := ShiftIn(0, block[0]);
    for i := n downto 0
      invariant ftab[..] == ft && ptr[..n] == p && block[..n] == b
      invariant Remaining(b, ft, i) && PutDown(b, p, i)
      invariant i > 0 ==> High(s) == b[Next(n, i - 1)]
    {
      CodeOf(b, s, i);
      PutDownStep(b, ft, p, i + 1);
      assert block[i] == b[i];
      s := ShiftIn(s, block[i]);
      var j := ftab[s] - 1;
      ftab[s] := j;
      ptr[j] := i;
      ft, p := ft[s := j], p[j := i];
    }
    PutDownGroups(b, p);
  }
}
