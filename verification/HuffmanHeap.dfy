// The binary heap of BZ2_hbMakeCodeLengths: nodes by weight, smallest at slot 1, slot 0 a sentinel.
module HuffmanHeap {
  import opened SortStack

  // Slots 1..n hold nodes of positive weight.
  ghost predicate Nodes(key: seq<int>, h: seq<int>, n: int) {
    && 0 <= n < |h| && |key| > 0
    && forall z :: 1 <= z <= n ==> 0 < h[z] < |key| && key[h[z]] > 0
  }

  ghost predicate UnderParent(key: seq<int>, h: seq<int>, z: int)
    requires 2 <= z < |h| && 0 <= h[z] < |key| && 0 <= h[z / 2] < |key|
  {
    key[h[z / 2]] <= key[h[z]]
  }

  ghost predicate UnderGrandparent(key: seq<int>, h: seq<int>, z: int)
    requires 2 <= z < |h| && 0 <= h[z] < |key| && 0 <= h[z / 2 / 2] < |key|
  {
    key[h[z / 2 / 2]] <= key[h[z]]
  }

  // And none is lighter than its parent slot's.
  ghost predicate IsHeap(key: seq<int>, h: seq<int>, n: int) {
    && Nodes(key, h, n)
    && forall z {:trigger UnderParent(key, h, z)} :: 2 <= z <= n ==> UnderParent(key, h, z)
  }

  // Slot 0 holds node 0, lighter than any node.
  ghost predicate Sentinel(key: seq<int>, h: seq<int>) {
    |h| > 0 && |key| > 0 && h[0] == 0 && key[0] == 0
  }

  lemma {:induction false} RootLeast(key: seq<int>, h: seq<int>, n: int, z: int)
    requires IsHeap(key, h, n) && 1 <= z <= n
    ensures key[h[1]] <= key[h[z]]
    decreases z
  {
    if z > 1 {
      assert UnderParent(key, h, z);
      RootLeast(key, h, n, z / 2);
    }
  }

  // ---- up -----------------------------------------------------------------

  // t is a heap but for slot zz, which may be lighter than its parent, though nothing below it is.
  ghost predicate Rising(key: seq<int>, t: seq<int>, n: int, zz: int) {
    && Nodes(key, t, n) && 1 <= zz <= n
    && (forall z {:trigger UnderParent(key, t, z)} :: 2 <= z <= n && z != zz ==> UnderParent(key, t, z))
    && (forall z {:trigger UnderGrandparent(key, t, z)} :: 4 <= z <= n && z / 2 == zz ==> UnderGrandparent(key, t, z))
  }

  lemma RiseStep(key: seq<int>, t: seq<int>, n: int, zz: int)
    requires Rising(key, t, n, zz) && zz >= 2 && key[t[zz]] < key[t[zz / 2]]
    ensures Rising(key, Swapped(t, zz, zz / 2), n, zz / 2)
  {
    var u := Swapped(t, zz, zz / 2);
    forall z | 1 <= z <= n ensures 0 < u[z] < |key| && key[u[z]] > 0 {
    }
    forall z | 2 <= z <= n && z != zz / 2 ensures UnderParent(key, u, z) {
      if z != zz {
        assert UnderParent(key, t, z);
      }
      if z / 2 == zz {
        assert UnderGrandparent(key, t, z);
      }
    }
    forall z | 4 <= z <= n && z / 2 == zz / 2 ensures UnderGrandparent(key, u, z) {
      assert UnderParent(key, t, zz / 2);
      if z != zz {
        assert UnderParent(key, t, z);
      }
    }
  }

  lemma RiseDone(key: seq<int>, t: seq<int>, n: int, zz: int)
    requires Rising(key, t, n, zz) && (zz >= 2 ==> key[t[zz / 2]] <= key[t[zz]])
    ensures IsHeap(key, t, n)
  {
  }

  // With element tmp in hand and slot zz open, the heap is t.
  lemma Float(s: seq<int>, t: seq<int>, zz: int, yy: int, tmp: int)
    requires 0 <= zz < |s| && 0 <= yy < |s| && zz != yy && t == s[zz := tmp]
    ensures s[zz := s[yy]][yy := tmp] == Swapped(t, zz, yy) && t[yy] == s[yy]
  {
  }

  ghost predicate RisingFrom(key: seq<int>, h0: seq<int>, s: seq<int>, n: int, zz: int, tmp: int) {
    && 1 <= zz <= n < |s| == |h0| && s[0] == h0[0] && |key| > 0
    && Shuffled(h0, s[zz := tmp], 1, n) && Rising(key, s[zz := tmp], n, zz) && Sentinel(key, h0)
  }

  lemma RisingBegins(key: seq<int>, h: seq<int>, n: int)
    requires 1 <= n < |h| && Nodes(key, h, n) && IsHeap(key, h, n - 1) && Sentinel(key, h)
    ensures RisingFrom(key, h, h, n, n, h[n])
  {
    assert h[n := h[n]] == h;
  }

  lemma RisingStep(key: seq<int>, h0: seq<int>, s: seq<int>, n: int, zz: int, tmp: int)
    requires RisingFrom(key, h0, s, n, zz, tmp)
    ensures 0 <= s[zz / 2] < |key| && 0 <= tmp < |key|
    ensures key[tmp] < key[s[zz / 2]] ==> RisingFrom(key, h0, s[zz := s[zz / 2]], n, zz / 2, tmp)
    ensures key[tmp] >= key[s[zz / 2]] ==> Shuffled(h0, s[zz := tmp], 1, n) && IsHeap(key, s[zz := tmp], n)
  {
    var t := s[zz := tmp];
    assert t[zz] == tmp;
    if zz >= 2 {
      assert t[zz / 2] == s[zz / 2];
      if key[tmp] < key[s[zz / 2]] {
        RiseStep(key, t, n, zz);
        SwappedShuffles(h0, t, 1, n, zz, zz / 2);
        Float(s, t, zz, zz / 2, tmp);
      }
    }
    if key[tmp] >= key[s[zz / 2]] {
      RiseDone(key, t, n, zz);
    }
  }

  // The element at slot n, over a heap of n - 1, rises to its place.
  method UpHeap(heap: array<int>, weight: array<int>, n: int)
    requires heap != weight && 1 <= n < heap.Length && Nodes(weight[..], heap[..], n)
    requires IsHeap(weight[..], heap[..], n - 1)
    requires Sentinel(weight[..], heap[..])
    modifies heap
    ensures Shuffled(old(heap[..]), heap[..], 1, n) && IsHeap(weight[..], heap[..], n)
  {
    hide Shuffled, IsHeap, Rising;
    ghost var key, h0 := weight[..], heap[..];
    ghost var s := h0;
    var zz, tmp := n, heap[n];
    RisingBegins(key, h0, n);
    RisingStep(key, h0, s, n, zz, tmp);
    while weight[tmp] < weight[heap[zz / 2]]
      invariant heap[..] == s && RisingFrom(key, h0, s, n, zz, tmp) && 0 <= s[zz / 2] < |key| && 0 <= tmp < |key|
      decreases zz
    {
      RisingStep(key, h0, s, n, zz, tmp);
      heap[zz] := heap[zz / 2];
      s := s[zz := s[zz / 2]];
      zz := zz / 2;
      RisingStep(key, h0, s, n, zz, tmp);
    }
    RisingStep(key, h0, s, n, zz, tmp);
    heap[zz] := tmp;
    assert heap[..] == s[zz := tmp];
  }

  // ---- down ---------------------------------------------------------------

  // t is a heap but for slot zz, which may be heavier than its children, though nothing above it is.
  ghost predicate Falling(key: seq<int>, t: seq<int>, n: int, zz: int) {
    && Nodes(key, t, n) && 1 <= zz && zz < |t|
    && (forall z {:trigger UnderParent(key, t, z)} :: 2 <= z <= n && z / 2 != zz ==> UnderParent(key, t, z))
    && (forall z {:trigger UnderGrandparent(key, t, z)} :: 4 <= z <= n && z / 2 == zz ==> UnderGrandparent(key, t, z))
  }

  lemma FallStep(key: seq<int>, t: seq<int>, n: int, zz: int, yy: int)
    requires Falling(key, t, n, zz) && yy / 2 == zz && 2 <= yy <= n && zz <= n
    requires key[t[yy]] <= key[t[zz]]
    requires forall z :: 2 <= z <= n && z / 2 == zz ==> key[t[yy]] <= key[t[z]]
    ensures Falling(key, Swapped(t, zz, yy), n, yy)
  {
    var u := Swapped(t, zz, yy);
    forall z | 1 <= z <= n ensures 0 < u[z] < |key| && key[u[z]] > 0 {
    }
    forall z | 2 <= z <= n && z / 2 != yy ensures UnderParent(key, u, z) {
      if z / 2 != zz {
        assert UnderParent(key, t, z);
      }
      if z == zz {
        assert yy >= 4 && UnderGrandparent(key, t, yy);
      }
    }
    forall z | 4 <= z <= n && z / 2 == yy ensures UnderGrandparent(key, u, z) {
      assert UnderParent(key, t, z);
    }
  }

  lemma FallDone(key: seq<int>, t: seq<int>, n: int, zz: int)
    requires Falling(key, t, n, zz)
    requires forall z :: 2 <= z <= n && z / 2 == zz ==> key[t[zz]] <= key[t[z]]
    ensures IsHeap(key, t, n)
  {
    forall z | 2 <= z <= n && z / 2 == zz ensures UnderParent(key, t, z) {
    }
  }

  // The lighter child slot of zz.
  method LighterChild(heap: array<int>, weight: array<int>, n: int, zz: int) returns (yy: int)
    requires 1 <= zz && 2 * zz <= n < heap.Length && forall z :: zz < z <= n ==> 0 < heap[z] < weight.Length
    ensures yy / 2 == zz && 2 <= yy <= n
    ensures forall z :: 2 <= z <= n && z / 2 == zz ==> weight[heap[yy]] <= weight[heap[z]]
  {
    yy := 2 * zz;
    if yy < n && weight[heap[yy + 1]] < weight[heap[yy]] {
      yy := yy + 1;
    }
  }

  ghost predicate FallingFrom(key: seq<int>, h0: seq<int>, s: seq<int>, n: int, zz: int, tmp: int) {
    && 1 <= zz < |s| && (zz <= n || zz == 1)
    && Shuffled(h0, s[zz := tmp], 1, n) && Falling(key, s[zz := tmp], n, zz)
  }

  // What the comparison with the lighter child yy decides.
  lemma FallingStep(key: seq<int>, h0: seq<int>, s: seq<int>, n: int, zz: int, tmp: int, yy: int)
    requires FallingFrom(key, h0, s, n, zz, tmp) && yy / 2 == zz && 2 <= yy <= n && 0 < s[yy] < |key| && 0 < tmp < |key|
    requires forall z :: 2 <= z <= n && z / 2 == zz ==> 0 < s[z] < |key| && key[s[yy]] <= key[s[z]]
    ensures key[tmp] < key[s[yy]] ==> Shuffled(h0, s[zz := tmp], 1, n) && IsHeap(key, s[zz := tmp], n)
    ensures key[tmp] >= key[s[yy]] ==> FallingFrom(key, h0, s[zz := s[yy]], n, yy, tmp)
  {
    var t := s[zz := tmp];
    forall z | 2 <= z <= n && z / 2 == zz ensures t[z] == s[z] {
    }
    if key[tmp] < key[s[yy]] {
      FallDone(key, t, n, zz);
    } else {
      FallStep(key, t, n, zz, yy);
      SwappedShuffles(h0, t, 1, n, zz, yy);
      Float(s, t, zz, yy, tmp);
    }
  }

  lemma FallingNodes(key: seq<int>, h0: seq<int>, s: seq<int>, n: int, zz: int, tmp: int)
    requires FallingFrom(key, h0, s, n, zz, tmp)
    ensures forall z :: 1 <= z <= n && z != zz ==> 0 < s[z] < |key|
    ensures 2 * zz > n ==> IsHeap(key, s[zz := tmp], n)
  {
    forall z | 1 <= z <= n && z != zz ensures 0 < s[z] < |key| {
      assert s[zz := tmp][z] == s[z];
    }
  }

  // The element at slot 1 falls to its place.
  method DownHeap(heap: array<int>, weight: array<int>, n: int)
    requires heap != weight && heap.Length > 1 && Nodes(weight[..], heap[..], n) && 0 < heap[1] < weight.Length
    requires weight[heap[1]] > 0
    requires Falling(weight[..], heap[..], n, 1)
    modifies heap
    ensures Shuffled(old(heap[..]), heap[..], 1, n) && IsHeap(weight[..], heap[..], n)
  {
    ghost var key, h0 := weight[..], heap[..];
    ghost var s := h0;
    var zz, tmp := 1, heap[1];
    assert s[zz := tmp] == h0;
    while true
      invariant heap[..] == s && FallingFrom(key, h0, s, n, zz, tmp)
      decreases n - zz
    {
      FallingNodes(key, h0, s, n, zz, tmp);
      if 2 * zz > n {
        break;
      }
      var yy := LighterChild(heap, weight, n, zz);
      FallingStep(key, h0, s, n, zz, tmp, yy);
      if weight[tmp] < weight[heap[yy]] {
        break;
      }
      heap[zz] := heap[yy];
      s := s[zz := s[yy]];
      zz := yy;
    }
    heap[zz] := tmp;
    assert heap[..] == s[zz := tmp];
  }

  // ---- taking out the lightest node and putting one in --------------------

  ghost function Held(h: seq<int>, n: int): multiset<int>
    requires 0 <= n < |h|
  {
    multiset(h[1..n + 1])
  }

  lemma HeldShuffled(s: seq<int>, t: seq<int>, n: int)
    requires Shuffled(s, t, 1, n) && 0 <= n < |s|
    ensures Held(t, n) == Held(s, n)
  {
    if n >= 1 {
      ShuffledMiddle(s, t, 1, n);
    }
  }

  lemma HeldMember(h: seq<int>, n: int, v: int) returns (z: int)
    requires 0 <= n < |h| && v in Held(h, n)
    ensures 1 <= z <= n && h[z] == v
  {
    var s := h[1..n + 1];
    assert v in s;
    var i :| 0 <= i < |s| && s[i] == v;
    z := i + 1;
  }

  lemma RootLeastHeld(key: seq<int>, h: seq<int>, n: int)
    requires IsHeap(key, h, n) && n >= 1
    ensures forall v :: v in Held(h, n) ==> 0 < v < |key| && key[h[1]] <= key[v]
  {
    forall v | v in Held(h, n) ensures 0 < v < |key| && key[h[1]] <= key[v] {
      var z := HeldMember(h, n, v);
      RootLeast(key, h, n, z);
    }
  }

  lemma HeldMore(key: seq<int>, h: seq<int>, n: int, v: int)
    requires IsHeap(key, h, n) && n + 1 < |h| && 0 < v < |key| && key[v] > 0
    ensures Nodes(key, h[n + 1 := v], n + 1) && IsHeap(key, h[n + 1 := v], n)
    ensures Held(h[n + 1 := v], n + 1) == Held(h, n) + multiset{v}
  {
    var t := h[n + 1 := v];
    assert t[1..n + 2] == h[1..n + 1] + [v];
    forall z | 2 <= z <= n ensures UnderParent(key, t, z) {
      assert UnderParent(key, h, z);
    }
  }

  // The last element replaces the first.
  lemma HeldLess(h: seq<int>, n: int)
    requires 1 <= n < |h|
    ensures Held(h[1 := h[n]], n - 1) == Held(h, n) - multiset{h[1]} && h[1] in Held(h, n)
  {
    assert h[1..n + 1] == [h[1]] + h[2..n + 1];
    var t := h[1 := h[n]];
    if n == 1 {
      assert t[1..n] == [] && h[2..n + 1] == [];
    } else {
      assert t[1..n] == [h[n]] + h[2..n];
      assert h[2..n + 1] == h[2..n] + [h[n]];
    }
  }

  lemma LooseTop(key: seq<int>, h: seq<int>, n: int)
    requires IsHeap(key, h, n) && n >= 1
    ensures Falling(key, h[1 := h[n]], n - 1, 1)
  {
    var t := h[1 := h[n]];
    forall z | 2 <= z <= n - 1 && z / 2 != 1 ensures UnderParent(key, t, z) {
      assert UnderParent(key, h, z);
    }
  }

  method ExtractMin(heap: array<int>, weight: array<int>, nHeap: int) returns (n1: int)
    requires heap != weight && 1 <= nHeap < heap.Length && IsHeap(weight[..], heap[..], nHeap) && heap.Length > 1
    modifies heap
    ensures heap[0] == old(heap[0]) && IsHeap(weight[..], heap[..], nHeap - 1)
    ensures n1 in old(Held(heap[..], nHeap)) && Held(heap[..], nHeap - 1) == old(Held(heap[..], nHeap)) - multiset{n1}
    ensures 0 < n1 < weight.Length && forall v :: v in old(Held(heap[..], nHeap)) ==>
              0 < v < weight.Length && weight[n1] <= weight[v]
  {
    ghost var key, h := weight[..], heap[..];
    n1 := heap[1];
    RootLeastHeld(key, h, nHeap);
    HeldLess(h, nHeap);
    LooseTop(key, h, nHeap);
    heap[1] := heap[nHeap];
    ghost var t := heap[..];
    assert t == h[1 := h[nHeap]];
    DownHeap(heap, weight, nHeap - 1);
    HeldShuffled(t, heap[..], nHeap - 1);
  }

  method Insert(heap: array<int>, weight: array<int>, nHeap: int, v: int)
    requires heap != weight && 0 <= nHeap && nHeap + 1 < heap.Length && IsHeap(weight[..], heap[..], nHeap)
    requires Sentinel(weight[..], heap[..]) && 0 < v < weight.Length && weight[v] > 0
    modifies heap
    ensures heap[0] == 0 && IsHeap(weight[..], heap[..], nHeap + 1)
    ensures Held(heap[..], nHeap + 1) == old(Held(heap[..], nHeap)) + multiset{v}
  {
    ghost var h := heap[..];
    HeldMore(weight[..], h, nHeap, v);
    heap[nHeap + 1] := v;
    ghost var t := heap[..];
    assert t == h[nHeap + 1 := v];
    UpHeap(heap, weight, nHeap + 1);
    HeldShuffled(t, heap[..], nHeap + 1);
  }
}
