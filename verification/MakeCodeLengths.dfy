// BZ2_hbMakeCodeLengths: Huffman lengths of at most maxLen bits, by merging the two lightest nodes and,
// when some code comes out too long, starting again with scaled-down weights.
module MakeCodeLengths {
  import opened Common
  import opened HuffmanHeap
  import opened HuffmanTree
  import opened HuffmanOptimal
  import opened HuffmanGrowth

  // Exactly the nodes alive, each once.
  ghost predicate Once(bag: multiset<int>, par: seq<int>, q: int) {
    forall v :: bag[v] == if Alive(par, q, v) then 1 else 0
  }

  // The first two taken out of the heap are the two lightest alive, and their merger takes their place.
  lemma TakenTwo(m0: multiset<int>, m1: multiset<int>, weight: seq<int>, par: seq<int>, q: int, n1: int, n2: int)
    requires |par| == q + 1 && q + 1 < |weight| && Once(m0, par, q)
    requires n1 in m0 && m1 == m0 - multiset{n1} && n2 in m1
    requires forall v :: v in m0 ==> 0 < v < |weight| && weight[n1] <= weight[v]
    requires forall v :: v in m1 ==> 0 < v < |weight| && weight[n2] <= weight[v]
    ensures TwoLightest(weight, par, q, n1, n2)
  {
    assert m0[n1] == 1 && m1[n1] == 0;
    assert m0[n2] == 1;
    forall v | Alive(par, q, v) && v != n1 && v != n2 ensures weight[n2] <= weight[v] {
      assert m0[v] == 1 && m1[v] == 1;
    }
  }

  lemma OnceJoined(m0: multiset<int>, m2: multiset<int>, par: seq<int>, q: int, n1: int, n2: int)
    requires m2 == m0 - multiset{n1} - multiset{n2}
    requires |par| == q + 1 && Once(m0, par, q) && Alive(par, q, n1) && Alive(par, q, n2) && n1 != n2
    requires forall v :: 1 <= v <= q ==> par[v] <= q
    ensures Once(m2 + multiset{q + 1}, Joined(par, q, n1, n2), q + 1)
    ensures q + 1 !in m2
  {
    var m := m2 + multiset{q + 1};
    assert m0[q + 1] == 0 && m2[q + 1] == 0;
    forall v ensures m[v] == if Alive(Joined(par, q, n1, n2), q + 1, v) then 1 else 0 {
      AliveJoined(par, q, n1, n2, v);
      assert m0[v] == if Alive(par, q, v) then 1 else 0;
    }
  }

  // Everything the merging loop keeps.
  ghost predicate Merging(heap: seq<int>, weight: seq<int>, parent: seq<int>, kids: seq<Kids>, alpha: int, nHeap: int,
                          q: int, total: int) {
    && 1 <= nHeap && nHeap + q == 2 * alpha && |heap| == BZ_MAX_ALPHA_SIZE + 2 && alpha <= BZ_MAX_ALPHA_SIZE
    && 0 < q < |weight| == |parent| == 2 * BZ_MAX_ALPHA_SIZE && heap[0] == 0
    && Growing(weight, parent[..q + 1], kids, alpha, q, total)
    && IsHeap(weight, heap, nHeap) && Once(Held(heap, nHeap), parent[..q + 1], q)
  }

  // Node v is not in the heap.
  ghost predicate Absent(h: seq<int>, n: int, v: int) {
    0 <= n < |h| && forall z :: 1 <= z <= n ==> h[z] != v
  }

  lemma NotHeld(h: seq<int>, n: int, v: int)
    requires 0 <= n < |h| && v !in Held(h, n)
    ensures Absent(h, n, v)
  {
    forall z | 1 <= z <= n ensures h[z] != v {
      assert h[1..n + 1][z - 1] == h[z];
    }
  }

  // A heap stays one when a weight it does not hold changes.
  lemma HeapElsewhere(key: seq<int>, h: seq<int>, n: int, v: int, x: int)
    requires IsHeap(key, h, n) && 0 <= v < |key| && Absent(h, n, v)
    ensures IsHeap(key[v := x], h, n)
  {
    var key' := key[v := x];
    forall z | 2 <= z <= n ensures UnderParent(key', h, z) {
      assert UnderParent(key, h, z);
    }
  }

  method TakeTwo(heap: array<int>, weight: array<int>, nHeap: int, ghost par: seq<int>, ghost q: int)
    returns (n1: int, n2: int)
    requires heap != weight && 1 < nHeap < heap.Length && IsHeap(weight[..], heap[..], nHeap)
    requires |par| == q + 1 && 0 < q + 1 < weight.Length && Once(Held(heap[..], nHeap), par, q)
    modifies heap
    ensures heap[0] == old(heap[0]) && IsHeap(weight[..], heap[..], nHeap - 2)
    ensures TwoLightest(weight[..], par, q, n1, n2)
    ensures Held(heap[..], nHeap - 2) == old(Held(heap[..], nHeap)) - multiset{n1} - multiset{n2}
  {
    hide IsHeap, Once, TwoLightest, Held;
    ghost var key, m0 := weight[..], Held(heap[..], nHeap);
    n1 := ExtractMin(heap, weight, nHeap);
    ghost var m1 := Held(heap[..], nHeap - 1);
    n2 := ExtractMin(heap, weight, nHeap - 1);
    TakenTwo(m0, m1, key, par, q, n1, n2);
  }

  // Two taken out, with room left for their merger.
  method TakePair(heap: array<int>, weight: array<int>, nHeap: int, ghost par: seq<int>, ghost q: int)
    returns (n1: int, n2: int)
    requires heap != weight && 1 < nHeap < heap.Length && IsHeap(weight[..], heap[..], nHeap)
    requires |par| == q + 1 && 0 < q + 1 < weight.Length && Once(Held(heap[..], nHeap), par, q)
    requires forall v :: 1 <= v <= q ==> par[v] <= q
    modifies heap
    ensures heap[0] == old(heap[0]) && IsHeap(weight[..], heap[..], nHeap - 2)
    ensures TwoLightest(weight[..], par, q, n1, n2)
    ensures Absent(heap[..], nHeap - 2, q + 1)
    ensures Once(Held(heap[..], nHeap - 2) + multiset{q + 1}, Joined(par, q, n1, n2), q + 1)
  {
    ghost var m0 := Held(heap[..], nHeap);
    n1, n2 := TakeTwo(heap, weight, nHeap, par, q);
    OnceJoined(m0, Held(heap[..], nHeap - 2), par, q, n1, n2);
    NotHeld(heap[..], nHeap - 2, q + 1);
  }

  method Link(parent: array<int>, node: int, n1: int, n2: int)
    requires 0 <= n1 < node < parent.Length && 0 <= n2 < node
    modifies parent
    ensures parent[..node + 1] == Joined(old(parent[..node]), node - 1, n1, n2)
  {
    parent[n1], parent[n2] := node, node;
    parent[node] := -1;
  }

  ghost predicate Addable(x: int, y: int) {
    x >= 256 && y >= 256 && DepthOf(x) < 255 && DepthOf(y) < 255
  }

  ghost predicate SameUpto(s: seq<int>, t: seq<int>, n: int) {
    |s| == |t| && forall v :: 0 <= v <= n < |s| ==> t[v] == s[v]
  }

  lemma PairAddable(weight: seq<int>, par: seq<int>, kids: seq<Kids>, alpha: int, q: int, total: int, a: int, b: int)
    requires Growing(weight, par, kids, alpha, q, total) && TwoLightest(weight, par, q, a, b)
    ensures Addable(weight[a], weight[b])
  {
    Shallow(weight, par, q, a, total);
    Shallow(weight, par, q, b, total);
  }

  method MergeNodes(weight: array<int>, parent: array<int>, nNodes: int, n1: int, n2: int, ghost kids: seq<Kids>,
                    ghost alpha: int, ghost total: int) returns (ghost kids': seq<Kids>)
    requires weight != parent && 0 < nNodes && nNodes + 1 < weight.Length == parent.Length
    requires Growing(weight[..], parent[..nNodes + 1], kids, alpha, nNodes, total)
    requires TwoLightest(weight[..], parent[..nNodes + 1], nNodes, n1, n2)
    requires Addable(weight[n1], weight[n2])
    modifies weight, parent
    ensures Growing(weight[..], parent[..nNodes + 2], kids', alpha, nNodes + 1, total)
    ensures parent[..nNodes + 2] == Joined(old(parent[..nNodes + 1]), nNodes, n1, n2)
    ensures weight[nNodes + 1] > 0
    ensures weight[..] == old(weight[..])[nNodes + 1 := AddWeights(old(weight[n1]), old(weight[n2]))]
  {
    ghost var par, key := parent[..nNodes + 1], weight[..];
    GrowStep(key, par, kids, alpha, nNodes, total, n1, n2);
    var x := AddWeights(weight[n1], weight[n2]);
    Link(parent, nNodes + 1, n1, n2);
    weight[nNodes + 1] := x;
    kids' := kids + [Kids(n1, n2)];
    assert weight[..] == key[nNodes + 1 := x];
  }

  // The merger of two nodes already taken out goes in.
  method PutMerged(heap: array<int>, weight: array<int>, parent: array<int>, nHeap: int, nNodes: int, n1: int, n2: int,
                   ghost kids: seq<Kids>, ghost alpha: int, ghost total: int) returns (ghost kids': seq<Kids>)
    requires heap != weight && heap != parent && weight != parent && 0 <= nHeap && nHeap + 1 < heap.Length
    requires heap[0] == 0
    requires 0 < nNodes && nNodes + 1 < weight.Length == parent.Length
    requires Growing(weight[..], parent[..nNodes + 1], kids, alpha, nNodes, total)
    requires TwoLightest(weight[..], parent[..nNodes + 1], nNodes, n1, n2) && Addable(weight[n1], weight[n2])
    requires IsHeap(weight[..][nNodes + 1 := AddWeights(weight[n1], weight[n2])], heap[..], nHeap)
    modifies heap, weight, parent
    ensures heap[0] == 0 && IsHeap(weight[..], heap[..], nHeap + 1)
    ensures Held(heap[..], nHeap + 1) == old(Held(heap[..], nHeap)) + multiset{nNodes + 1}
    ensures Growing(weight[..], parent[..nNodes + 2], kids', alpha, nNodes + 1, total)
    ensures parent[..nNodes + 2] == Joined(old(parent[..nNodes + 1]), nNodes, n1, n2)
    ensures SameUpto(old(weight[..]), weight[..], nNodes)
  {
    kids' := MergeNodes(weight, parent, nNodes, n1, n2, kids, alpha, total);
    Insert(heap, weight, nHeap, nNodes + 1);
  }

  // Assertion 2002 of the source bounds nNodes.
  method MergeTwo(heap: array<int>, weight: array<int>, parent: array<int>, nHeap: int, nNodes: int,
                  ghost kids: seq<Kids>, ghost alpha: int, ghost total: int) returns (ghost kids': seq<Kids>)
    requires heap != weight && heap != parent && weight != parent && nHeap > 1
    requires Merging(heap[..], weight[..], parent[..], kids, alpha, nHeap, nNodes, total)
    modifies heap, weight, parent
    ensures Merging(heap[..], weight[..], parent[..], kids', alpha, nHeap - 1, nNodes + 1, total)
    ensures SameUpto(old(weight[..]), weight[..], nNodes)
  {
    ghost var par, key := parent[..nNodes + 1], weight[..];
    assert parent[..][..nNodes + 1] == par;
    var n1, n2 := TakePair(heap, weight, nHeap, par, nNodes);
    PairAddable(key, par, kids, alpha, nNodes, total, n1, n2);
    HeapElsewhere(key, heap[..], nHeap - 2, nNodes + 1, AddWeights(key[n1], key[n2]));
    kids' := PutMerged(heap, weight, parent, nHeap - 2, nNodes, n1, n2, kids, alpha, total);
    assert parent[..][..nNodes + 2] == parent[..nNodes + 2];
  }

  // ---- the first heap -----------------------------------------------------

  // The symbols' weights stand in slots 1 on.
  ghost predicate LeafWeights(weight: seq<int>, lw: seq<int>) {
    && |lw| < |weight|
    && forall i :: 0 <= i < |lw| ==> lw[i] >= 1 && weight[i + 1] == lw[i] * 256
  }

  lemma LeafWeightsKept(weight: seq<int>, weight': seq<int>, lw: seq<int>)
    requires LeafWeights(weight, lw) && |weight'| == |weight| && forall v :: 1 <= v <= |lw| ==> weight'[v] == weight[v]
    ensures LeafWeights(weight', lw)
  {
    forall i | 0 <= i < |lw| ensures weight'[i + 1] == lw[i] * 256 {
      assert weight'[i + 1] == weight[i + 1];
    }
  }

  lemma LeafPositive(weight: seq<int>, lw: seq<int>, v: int)
    requires LeafWeights(weight, lw) && 1 <= v <= |lw|
    ensures weight[v] > 0
  {
    assert weight[v - 1 + 1] == lw[v - 1] * 256;
  }

  // 1..i, each once.
  ghost predicate OnceUpto(bag: multiset<int>, i: int) {
    forall v :: bag[v] == if 1 <= v <= i then 1 else 0
  }

  lemma OnceUptoMore(bag: multiset<int>, i: int)
    requires OnceUpto(bag, i - 1) && i >= 1
    ensures OnceUpto(bag + multiset{i}, i)
  {
  }

  ghost predicate Filling(heap: seq<int>, weight: seq<int>, i: int) {
    && 0 <= i && i + 1 < |heap| && i < |weight| && Sentinel(weight, heap) && IsHeap(weight, heap, i)
    && OnceUpto(Held(heap, i), i)
  }

  method Fill(heap: array<int>, weight: array<int>, parent: array<int>, alphaSize: int, ghost lw: seq<int>)
    requires heap != weight && heap != parent && weight != parent && alphaSize < parent.Length
    requires alphaSize + 1 < heap.Length
    requires 0 < |lw| == alphaSize && LeafWeights(weight[..], lw) && Sentinel(weight[..], heap[..])
    modifies heap, parent
    ensures Filling(heap[..], weight[..], alphaSize)
    ensures forall v :: 1 <= v <= alphaSize ==> parent[v] == -1
  {
    hide IsHeap, Held, OnceUpto;
    ghost var key := weight[..];
    FillingNone(heap[..], key);
    for i := 1 to alphaSize + 1
      invariant Filling(heap[..], key, i - 1)
      invariant forall v :: 1 <= v < i ==> parent[v] == -1
    {
      parent[i] := -1;
      LeafPositive(key, lw, i);
      OnceUptoMore(Held(heap[..], i - 1), i);
      Insert(heap, weight, i - 1, i);
    }
  }

  method FirstHeap(heap: array<int>, weight: array<int>, parent: array<int>, alphaSize: int, ghost lw: seq<int>)
    requires heap != weight && heap != parent && weight != parent
    requires heap.Length == BZ_MAX_ALPHA_SIZE + 2 && weight.Length == parent.Length == 2 * BZ_MAX_ALPHA_SIZE
    requires 0 < |lw| == alphaSize <= BZ_MAX_ALPHA_SIZE && Sum(lw) < 0x80_0000
    requires LeafWeights(weight[..], lw)
    modifies heap, weight, parent
    ensures LeafWeights(weight[..], lw)
    ensures Merging(heap[..], weight[..], parent[..], seq(|lw| + 1, i => Kids(0, 0)), |lw|, |lw|, |lw|, Sum(lw))
  {
    ghost var key0 := weight[..];
    heap[0], weight[0], parent[0] := 0, 0, -2;
    ghost var key := weight[..];
    LeafWeightsKept(key0, key, lw);
    Fill(heap, weight, parent, alphaSize, lw);
    ghost var par := parent[..alphaSize + 1];
    FirstFresh(key, par, lw);
    assert parent[..][..alphaSize + 1] == par;
    FirstOnce(heap[..], key, par, alphaSize);
  }

  lemma FillingNone(heap: seq<int>, weight: seq<int>)
    requires 1 < |heap| && 0 < |weight| && Sentinel(weight, heap)
    ensures Filling(heap, weight, 0)
  {
    assert heap[1..1] == [];
  }

  lemma FirstFresh(weight: seq<int>, par: seq<int>, lw: seq<int>)
    requires LeafWeights(weight, lw) && 0 < |lw| && weight[0] == 0 && |par| == |lw| + 1 && Sum(lw) < 0x80_0000
    requires forall v :: 1 <= v <= |lw| ==> par[v] == -1
    ensures Growing(weight, par, seq(|lw| + 1, i => Kids(0, 0)), |lw|, |lw|, Sum(lw))
  {
    FreshGrowing(weight, par, lw);
  }

  lemma FirstOnce(heap: seq<int>, weight: seq<int>, par: seq<int>, alpha: int)
    requires Filling(heap, weight, alpha) && |par| == alpha + 1 && forall v :: 1 <= v <= alpha ==> par[v] == -1
    ensures Once(Held(heap, alpha), par, alpha)
  {
  }

  // ---- one tree -----------------------------------------------------------

  lemma OneAlive(h: seq<int>, par: seq<int>, q: int, v: int)
    requires 1 < |h| && Once(Held(h, 1), par, q) && Alive(par, q, v)
    ensures v == h[1]
  {
    assert h[1..2] == [h[1]];
    assert Held(h, 1)[v] == 1;
  }

  lemma Finished(heap: seq<int>, weight: seq<int>, parent: seq<int>, kids: seq<Kids>, alpha: int, total: int)
    requires Merging(heap, weight, parent, kids, alpha, 1, 2 * alpha - 1, total)
    ensures Tree(Unpacked(weight, 2 * alpha - 1), parent[..2 * alpha], kids, alpha)
  {
    var par, root := parent[..2 * alpha], 2 * alpha - 1;
    assert par[root] < 0;
    forall v | 1 <= v < 2 * alpha && par[v] < 0 ensures v == root {
      OneAlive(heap, par, root, v);
      OneAlive(heap, par, root, root);
    }
  }

  // Merges until one node is left.
  method BuildTree(heap: array<int>, weight: array<int>, parent: array<int>, alphaSize: int, ghost lw: seq<int>)
    returns (ghost kids: seq<Kids>)
    requires heap != weight && heap != parent && weight != parent
    requires heap.Length == BZ_MAX_ALPHA_SIZE + 2 && weight.Length == parent.Length == 2 * BZ_MAX_ALPHA_SIZE
    requires 0 < |lw| == alphaSize <= BZ_MAX_ALPHA_SIZE && Sum(lw) < 0x80_0000
    requires LeafWeights(weight[..], lw)
    modifies heap, weight, parent
    ensures LeafWeights(weight[..], lw)
    ensures Merging(heap[..], weight[..], parent[..], kids, |lw|, 1, 2 * |lw| - 1, Sum(lw))
  {
    hide Growing, IsHeap, Once, Held, Sum;
    FirstHeap(heap, weight, parent, alphaSize, lw);
    ghost var key := weight[..];
    kids := MergeAll(heap, weight, parent, alphaSize, seq(|lw| + 1, i => Kids(0, 0)), Sum(lw));
    LeafWeightsKept(key, weight[..], lw);
  }

  method MergeAll(heap: array<int>, weight: array<int>, parent: array<int>, alphaSize: int, ghost kids0: seq<Kids>,
                  ghost total: int) returns (ghost kids: seq<Kids>)
    requires heap != weight && heap != parent && weight != parent
    requires Merging(heap[..], weight[..], parent[..], kids0, alphaSize, alphaSize, alphaSize, total)
    modifies heap, weight, parent
    ensures Merging(heap[..], weight[..], parent[..], kids, alphaSize, 1, 2 * alphaSize - 1, total)
    ensures SameUpto(old(weight[..]), weight[..], alphaSize)
  {
    hide Growing, IsHeap, Once, Held;
    var nNodes, nHeap := alphaSize, alphaSize;
    kids := kids0;
    ghost var key, key0 := weight[..], weight[..];
    while nHeap > 1
      invariant weight[..] == key && Merging(heap[..], key, parent[..], kids, alphaSize, nHeap, nNodes, total)
      invariant nNodes >= alphaSize && SameUpto(key0, key, alphaSize)
    {
      kids := MergeTwo(heap, weight, parent, nHeap, nNodes, kids, alphaSize, total);
      nHeap, nNodes := nHeap - 1, nNodes + 1;
      key := weight[..];
    }
  }

  // ---- reading the lengths off --------------------------------------------

  method CountUp(parent: array<int>, i: int, ghost par: seq<int>) returns (j: int)
    requires |par| <= parent.Length && par == parent[..|par|] && Climbs(par) && 1 <= i < |par|
    ensures j == Depth(par, i)
  {
    j := 0;
    var k := i;
    while parent[k] >= 0
      invariant 1 <= k < |par| && j + Depth(par, k) == Depth(par, i)
      decreases |par| - k
    {
      assert par[k] == parent[k];
      k := parent[k];
      j := j + 1;
    }
    assert par[k] == parent[k];
  }

  method ReadLengths(len: array<int>, parent: array<int>, alphaSize: int, maxLen: int, ghost par: seq<int>)
    returns (tooLong: bool)
    requires len != parent && 0 < alphaSize <= len.Length && alphaSize < |par| <= parent.Length
    requires par == parent[..|par|] && Climbs(par)
    modifies len
    ensures len[..alphaSize] == Lengths(par, alphaSize)
    ensures tooLong <==> exists i :: 0 <= i < alphaSize && len[i] > maxLen
  {
    tooLong := false;
    for i := 1 to alphaSize + 1
      invariant par == parent[..|par|]
      invariant forall v :: 0 <= v < i - 1 ==> len[v] == Depth(par, v + 1)
      invariant tooLong <==> exists v :: 0 <= v < i - 1 && len[v] > maxLen
    {
      var j := CountUp(parent, i, par);
      len[i - 1] := j;
      if j > maxLen {
        tooLong := true;
      }
    }
  }

  // ---- scaling down -------------------------------------------------------

  function Scaled(lw: seq<int>): (r: seq<int>)
    ensures |r| == |lw| && forall i :: 0 <= i < |lw| ==> r[i] == 1 + lw[i] / 2
  {
    seq(|lw|, i requires 0 <= i < |lw| => 1 + lw[i] / 2)
  }

  // Some weight is at least three, so scaling makes the total smaller.
  lemma ScaledSmaller(lw: seq<int>)
    requires (forall i :: 0 <= i < |lw| ==> lw[i] >= 1) && Sum(lw) > 2 * |lw|
    ensures Sum(Scaled(lw)) < Sum(lw)
  {
    var twos := seq(|lw|, i => 2);
    if forall i :: 0 <= i < |lw| ==> lw[i] <= 2 {
      SumMonotone(lw, twos);
      SumTwos(|lw|);
    }
    var i :| 0 <= i < |lw| && lw[i] >= 3;
    var near := lw[i := Scaled(lw)[i]];
    SumUpdate(lw, i, Scaled(lw)[i]);
    SumMonotone(Scaled(lw), near);
  }

  lemma {:induction false} SumTwos(n: nat)
    ensures Sum(seq(n, i => 2)) == 2 * n
  {
    if n > 0 {
      assert seq(n, i => 2)[..n - 1] == seq(n - 1, i => 2);
      SumTwos(n - 1);
    }
  }

  method ScaleDown(weight: array<int>, alphaSize: int, ghost lw: seq<int>)
    requires 0 < alphaSize == |lw| < weight.Length
    requires LeafWeights(weight[..], lw)
    modifies weight
    ensures LeafWeights(weight[..], Scaled(lw))
  {
    for i := 1 to alphaSize + 1
      invariant forall v :: 0 <= v < i - 1 ==> weight[v + 1] == Scaled(lw)[v] * 256
      invariant forall v :: i - 1 <= v < alphaSize ==> weight[v + 1] == lw[v] * 256
    {
      assert weight[i - 1 + 1] == lw[i - 1] * 256;
      var j := weight[i] / 256;
      j := 1 + (j / 2);
      weight[i] := j * 256;
    }
  }

  // ---- the whole of it ----------------------------------------------------

  // The weights the first pass uses: frequencies, zero counting as one.
  function AtLeastOne(freq: seq<int>): (r: seq<int>)
    ensures |r| == |freq| && forall i :: 0 <= i < |freq| ==> r[i] == if freq[i] == 0 then 1 else freq[i]
  {
    seq(|freq|, i requires 0 <= i < |freq| => if freq[i] == 0 then 1 else freq[i])
  }

  // The weights after a number of scalings.
  function ScaledTimes(lw: seq<int>, k: nat): (r: seq<int>)
    ensures |r| == |lw|
  {
    if k == 0 then lw else Scaled(ScaledTimes(lw, k - 1))
  }

  // No lengths that satisfy Kraft's inequality cost less for these weights.
  ghost predicate IsOptimal(lw: seq<int>, len: seq<int>) {
    && |len| == |lw|
    && forall l: seq<int>, m: nat {:trigger Shares(l, m)} ::
         |l| == |lw| && Within(l, m) && Sum(Shares(l, m)) <= Pow2(m) ==> Cost(lw, len) <= Cost(lw, l)
  }

  // Lengths from 1 to maxLen that use up the code space exactly.
  ghost predicate CompleteLengths(len: seq<int>, maxLen: nat) {
    && (forall i :: 0 <= i < |len| ==> 1 <= len[i] <= maxLen)
    && Sum(Shares(len, maxLen)) == Pow2(maxLen)
  }

  // A pass that could not be kept: the weights are not small, and a code that is optimal for them is too long.
  ghost predicate GivenUp(lw: seq<int>, maxLen: nat) {
    && Sum(lw) >= 6765
    && exists l: seq<int>, m: nat :: CompleteLengths(l, m) && IsOptimal(lw, l) && !Within(l, maxLen)
  }

  // Optimal for the weights after k scalings, none of which was made without need.
  ghost predicate BestAfter(lw: seq<int>, k: nat, maxLen: nat, len: seq<int>) {
    && IsOptimal(ScaledTimes(lw, k), len)
    && forall j: nat :: j < k ==> GivenUp(ScaledTimes(lw, j), maxLen)
  }

  // So light weights are not scaled at all.
  lemma LightUnscaled(lw: seq<int>, k: nat, maxLen: nat, len: seq<int>)
    requires BestAfter(lw, k, maxLen, len) && Sum(lw) < 6765
    ensures k == 0 && IsOptimal(lw, len)
  {
    assert ScaledTimes(lw, 0) == lw;
  }

  lemma TreeOptimal(w: seq<int>, par: seq<int>, kids: seq<Kids>, alpha: int, lw: seq<int>)
    requires Tree(w, par, kids, alpha) && w[0] == 0 && |lw| == alpha && forall i :: 0 <= i < alpha ==> w[i + 1] == lw[i]
    ensures IsOptimal(lw, Lengths(par, alpha))
  {
    assert w[1..alpha + 1] == lw;
    forall l: seq<int>, m: nat | |l| == |lw| && Within(l, m) && Sum(Shares(l, m)) <= Pow2(m)
      ensures Cost(lw, Lengths(par, alpha)) <= Cost(lw, l)
    {
      Optimal(w, par, kids, alpha, l, m);
    }
  }

  lemma TreeComplete(w: seq<int>, par: seq<int>, kids: seq<Kids>, alpha: int, maxLen: nat)
    requires Tree(w, par, kids, alpha) && alpha >= 2
    requires forall i :: 0 <= i < alpha ==> Lengths(par, alpha)[i] <= maxLen
    ensures CompleteLengths(Lengths(par, alpha), maxLen)
  {
    CompleteCode(w, par, kids, alpha, maxLen);
    forall i | 0 <= i < alpha ensures Lengths(par, alpha)[i] >= 1 {
      SymbolDepth(w, par, kids, alpha, i + 1);
    }
  }

  lemma TreeTooLong(weight: seq<int>, w: seq<int>, par: seq<int>, kids: seq<Kids>, alpha: int, lw: seq<int>,
                    maxLen: nat, i: int)
    requires Growing(weight, par, kids, alpha, 2 * alpha - 1, Sum(lw)) && w == Unpacked(weight, 2 * alpha - 1)
    requires Tree(w, par, kids, alpha) && alpha >= 2 && IsOptimal(lw, Lengths(par, alpha))
    requires 0 <= i < alpha && Lengths(par, alpha)[i] > maxLen && maxLen >= 17
    ensures GivenUp(lw, maxLen)
  {
    hide Growing, IsOptimal, Depth, CompleteLengths;
    var l := Lengths(par, alpha);
    forall v | 0 <= v < alpha ensures l[v] <= 33 {
      TooLong(weight, par, kids, alpha, Sum(lw), v + 1);
    }
    TooLong(weight, par, kids, alpha, Sum(lw), i + 1);
    TreeComplete(w, par, kids, alpha, 33);
  }

  // One pass: the lengths, optimal for the weights; if some are too long the weights are heavy.
  method OnePass(len: array<int>, heap: array<int>, weight: array<int>, parent: array<int>, alphaSize: int, maxLen: int,
                 ghost lw: seq<int>) returns (tooLong: bool)
    requires heap != weight && heap != parent && weight != parent && len != heap && len != weight && len != parent
    requires heap.Length == BZ_MAX_ALPHA_SIZE + 2 && weight.Length == parent.Length == 2 * BZ_MAX_ALPHA_SIZE
    requires 2 <= alphaSize == |lw| <= BZ_MAX_ALPHA_SIZE && alphaSize <= len.Length && Sum(lw) < 0x80_0000
    requires maxLen >= 17
    requires LeafWeights(weight[..], lw)
    modifies len, heap, weight, parent
    ensures LeafWeights(weight[..], lw)
    ensures IsOptimal(lw, len[..alphaSize])
    ensures !tooLong ==> CompleteLengths(len[..alphaSize], maxLen)
    ensures tooLong ==> GivenUp(lw, maxLen)
  {
    ghost var kids := BuildTree(heap, weight, parent, alphaSize, lw);
    ghost var par, w := parent[..2 * alphaSize], Unpacked(weight[..], 2 * alphaSize - 1);
    Finished(heap[..], weight[..], parent[..], kids, alphaSize, Sum(lw));
    assert parent[..][..2 * alphaSize] == par;
    tooLong := ReadLengths(len, parent, alphaSize, maxLen, par);
    TreeOptimal(w, par, kids, alphaSize, lw);
    if tooLong {
      ghost var i :| 0 <= i < alphaSize && len[i] > maxLen;
      assert len[..alphaSize][i] == Depth(par, i + 1);
      TooLong(weight[..], par, kids, alphaSize, Sum(lw), i + 1);
      TreeTooLong(weight[..], w, par, kids, alphaSize, lw, maxLen, i);
    } else {
      assert forall i :: 0 <= i < alphaSize ==> len[..alphaSize][i] <= maxLen;
      TreeComplete(w, par, kids, alphaSize, maxLen);
    }
  }

  method MakeCodeLengths(len: array<int>, freq: array<int>, alphaSize: int, maxLen: int) returns (ghost scalings: nat)
    requires len != freq && 2 <= alphaSize <= BZ_MAX_ALPHA_SIZE && alphaSize <= len.Length && alphaSize <= freq.Length
    requires maxLen >= 17 && (forall i :: 0 <= i < alphaSize ==> freq[i] >= 0)
             && Sum(AtLeastOne(freq[..alphaSize])) < 0x80_0000
    modifies len
    ensures CompleteLengths(len[..alphaSize], maxLen)
    ensures BestAfter(AtLeastOne(freq[..alphaSize]), scalings, maxLen, len[..alphaSize])
    ensures Sum(AtLeastOne(freq[..alphaSize])) < 6765 ==> IsOptimal(AtLeastOne(freq[..alphaSize]), len[..alphaSize])
  {
    var heap, weight, parent := new int[BZ_MAX_ALPHA_SIZE + 2], new int[BZ_MAX_ALPHA_SIZE * 2],
        new int[BZ_MAX_ALPHA_SIZE * 2];
    ghost var w0 := AtLeastOne(freq[..alphaSize]);
    FirstWeights(weight, freq, alphaSize);
    scalings := Passes(len, heap, weight, parent, alphaSize, maxLen, w0);
    if Sum(w0) < 6765 {
      LightUnscaled(w0, scalings, maxLen, len[..alphaSize]);
    }
  }

  // Passes until no code is too long, scaling the weights down after each that fails.
  method Passes(len: array<int>, heap: array<int>, weight: array<int>, parent: array<int>, alphaSize: int, maxLen: int,
                ghost w0: seq<int>) returns (ghost scalings: nat)
    requires heap != weight && heap != parent && weight != parent && len != heap && len != weight && len != parent
    requires heap.Length == BZ_MAX_ALPHA_SIZE + 2 && weight.Length == parent.Length == 2 * BZ_MAX_ALPHA_SIZE
    requires 2 <= alphaSize == |w0| <= BZ_MAX_ALPHA_SIZE && alphaSize <= len.Length && Sum(w0) < 0x80_0000
    requires maxLen >= 17
    requires LeafWeights(weight[..], w0)
    modifies len, heap, weight, parent
    ensures CompleteLengths(len[..alphaSize], maxLen)
    ensures BestAfter(w0, scalings, maxLen, len[..alphaSize])
  {
    hide GivenUp, IsOptimal, CompleteLengths, Scaled, Sum;
    scalings := 0;
    ghost var lw := w0;
    while true
      invariant |lw| == alphaSize && lw == ScaledTimes(w0, scalings) && Sum(lw) < 0x80_0000
      invariant LeafWeights(weight[..], lw)
      invariant forall j: nat :: j < scalings ==> GivenUp(ScaledTimes(w0, j), maxLen)
      decreases Sum(lw)
    {
      var tooLong := OnePass(len, heap, weight, parent, alphaSize, maxLen, lw);
      if !tooLong {
        break;
      }
      GivenUpScales(weight[..], lw, maxLen);
      ScaleDown(weight, alphaSize, lw);
      lw, scalings := Scaled(lw), scalings + 1;
    }
  }

  lemma GivenUpScales(weight: seq<int>, lw: seq<int>, maxLen: nat)
    requires LeafWeights(weight, lw) && |lw| <= BZ_MAX_ALPHA_SIZE && GivenUp(lw, maxLen)
    ensures 0 <= Sum(Scaled(lw)) < Sum(lw)
  {
    ScaledLess(lw);
  }

  lemma ScaledLess(lw: seq<int>)
    requires (forall i :: 0 <= i < |lw| ==> lw[i] >= 1) && Sum(lw) > 2 * |lw|
    ensures 0 <= Sum(Scaled(lw)) < Sum(lw)
  {
    ScaledSmaller(lw);
    SumNonNegative(Scaled(lw));
  }

  method FirstWeights(weight: array<int>, freq: array<int>, alphaSize: int)
    requires weight != freq && 0 <= alphaSize < weight.Length && alphaSize <= freq.Length
    requires forall i :: 0 <= i < alphaSize ==> freq[i] >= 0
    modifies weight
    ensures LeafWeights(weight[..], AtLeastOne(freq[..alphaSize]))
  {
    ghost var w0 := AtLeastOne(freq[..alphaSize]);
    for i := 0 to alphaSize
      invariant forall v :: 0 <= v < i ==> weight[v + 1] == w0[v] * 256
    {
      weight[i + 1] := (if freq[i] == 0 then 1 else freq[i]) * 256;
    }
  }
}
