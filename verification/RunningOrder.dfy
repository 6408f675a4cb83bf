// The order in which mainSort takes the big buckets: smallest first, by a Shell sort.
module RunningOrder {
  import opened Common
  import opened SortStack
  import opened MainQSort

  // Sizes of the big buckets, read off the frequency table.
  ghost predicate Sizes(ft: seq<int>, size: seq<int>) {
    |ft| >= 65537 && |size| == 256 && forall c :: 0 <= c < 256 ==> size[c] == ft[(c + 1) * 256] - ft[c * 256]
  }

  method BigFreq(ftab: array<int>, c: int, ghost size: seq<int>) returns (r: int)
    requires Sizes(ftab[..], size) && 0 <= c < 256
    ensures r == size[c]
  {
    r := ftab[(c + 1) * 256] - ftab[c * 256];
  }

  ghost predicate Named(s: seq<int>) {
    |s| == 256 && forall x :: 0 <= x < 256 ==> 0 <= s[x] < 256
  }

  ghost predicate BySize(size: seq<int>, s: seq<int>, end: int)
    requires |size| == 256 && Named(s) && end <= 256
  {
    forall x, y :: 0 <= x < y < end ==> size[s[x]] <= size[s[y]]
  }

  // In a pass of single steps, everything above the open slot is larger and has moved up one place.
  ghost predicate Larger(size: seq<int>, s0: seq<int>, s: seq<int>, i: int, slot: int)
    requires |size| == 256 && Named(s0)
  {
    && 0 <= slot <= i < |s| == 256
    && (forall x :: slot < x <= i ==> s[x] == s0[x - 1] && size[s0[x - 1]] > size[s0[i]])
    && forall x :: i < x < 256 ==> s[x] == s0[x]
  }

  lemma LargerDone(size: seq<int>, s0: seq<int>, s: seq<int>, i: int, slot: int)
    requires |size| == 256 && Named(s0) && Larger(size, s0, s, i, slot) && BySize(size, s0, i)
    requires forall x :: 0 <= x < slot ==> s[x] == s0[x]
    requires slot > 0 ==> size[s0[slot - 1]] <= size[s0[i]]
    ensures Named(s[slot := s0[i]]) && BySize(size, s[slot := s0[i]], i + 1)
  {
    var t := s[slot := s0[i]];
    forall x | 0 <= x < 256 ensures 0 <= t[x] < 256 {
      assert x < slot ==> s[x] == s0[x];
    }
    forall x, y | 0 <= x < y < i + 1 ensures size[t[x]] <= size[t[y]] {
      if y == slot {
        assert size[s0[x]] <= size[s0[slot - 1]];
      }
    }
  }

  lemma StillNamed(s: seq<int>, t: seq<int>)
    requires Shuffled(s, t, 0, 255) && Named(s)
    ensures Named(t)
  {
    ShuffledAll(s, t, 0, 255, v => 0 <= v < 256);
  }

  ghost predicate SinkingBig(size: seq<int>, s0: seq<int>, s: seq<int>, i: int, h: int, slot: int) {
    && |size| == 256 && Named(s0) && h > 0
    && Holding(256, s0, s, 0, 255, i, slot)
    && (h == 1 ==> Larger(size, s0, s, i, slot))
  }

  lemma SinkBigStep(size: seq<int>, s0: seq<int>, s: seq<int>, i: int, h: int, slot: int, j: int)
    requires SinkingBig(size, s0, s, i, h, slot) && 0 <= j == slot - h
    requires size[s0[j]] > size[s0[i]]
    ensures SinkingBig(size, s0, s[slot := s[j]], i, h, j)
    ensures j >= h ==> s[slot := s[j]][j - h] == s0[j - h]
  {
    HoldingStep(256, s0, s, 0, 255, i, slot, j);
    if h == 1 {
      LargerStep(size, s0, s, i, slot, j);
    }
  }

  lemma LargerStep(size: seq<int>, s0: seq<int>, s: seq<int>, i: int, slot: int, j: int)
    requires |size| == 256 && Named(s0) && Larger(size, s0, s, i, slot)
    requires 0 <= j == slot - 1 && s[j] == s0[j] && size[s0[j]] > size[s0[i]]
    ensures Larger(size, s0, s[slot := s[j]], i, j)
  {
    var t := s[slot := s[j]];
    forall x | j < x <= i ensures t[x] == s0[x - 1] && size[s0[x - 1]] > size[s0[i]] {
      if x > slot {
        assert t[x] == s[x];
      }
    }
    forall x | i < x < 256 ensures t[x] == s0[x] {
      assert t[x] == s[x];
    }
    assert Larger(size, s0, t, i, j);
  }

  lemma SinkBigDone(size: seq<int>, s0: seq<int>, s: seq<int>, i: int, h: int, slot: int)
    requires SinkingBig(size, s0, s, i, h, slot)
    requires slot >= h ==> size[s0[slot - h]] <= size[s0[i]]
    ensures Shuffled(s0, s[slot := s0[i]], 0, 255) && Named(s[slot := s0[i]])
    ensures h == 1 && BySize(size, s0, i) ==> BySize(size, s[slot := s0[i]], i + 1)
  {
    StillNamed(s0, s[slot := s0[i]]);
    if h == 1 && BySize(size, s0, i) {
      LargerDone(size, s0, s, i, slot);
    }
  }

  // Inserts the i-th big bucket among every h-th one before it.
  method InsertBig(order: array<int>, ftab: array<int>, i: int, h: int, ghost size: seq<int>, ghost s0: seq<int>)
    requires order.Length == 256 && order != ftab && Sizes(ftab[..], size)
    requires 0 < h <= i < 256 && order[..] == s0 && Named(s0)
    modifies order
    ensures Shuffled(s0, order[..], 0, 255) && Named(order[..])
    ensures h == 1 && BySize(size, s0, i) ==> BySize(size, order[..], i + 1)
  {
    ghost var s := s0;
    var vv, j := order[i], i;
    assert s[i := s0[i]] == s0;
    var larger := IsLarger(order, ftab, j - h, vv, size, s0, i);
    while larger
      invariant order[..] == s && SinkingBig(size, s0, s, i, h, j)
      invariant larger ==> j >= h && size[s0[j - h]] > size[s0[i]]
      invariant !larger && j >= h ==> size[s0[j - h]] <= size[s0[i]]
      decreases j, larger
    {
      SinkBigStep(size, s0, s, i, h, j, j - h);
      order[j] := order[j - h];
      s := s[j := s[j - h]];
      j := j - h;
      if j <= h - 1 {
        larger := false;
      } else {
        larger := IsLarger(order, ftab, j - h, vv, size, s0, i);
      }
    }
    SinkBigDone(size, s0, s, i, h, j);
    order[j] := vv;
    assert order[..] == s[j := s0[i]];
  }

  method IsLarger(order: array<int>, ftab: array<int>, x: int, vv: int, ghost size: seq<int>, ghost s0: seq<int>,
                  ghost i: int) returns (larger: bool)
    requires Sizes(ftab[..], size) && Named(s0) && 0 <= x < order.Length == 256 && 0 <= i < 256
    requires order[x] == s0[x] && vv == s0[i]
    ensures larger <==> size[s0[x]] > size[s0[i]]
  {
    var f := BigFreq(ftab, order[x], size);
    var g := BigFreq(ftab, vv, size);
    larger := f > g;
  }

  // A permutation of the big buckets, smallest first.
  method Order(ftab: array<int>, ghost size: seq<int>) returns (order: array<int>)
    requires Sizes(ftab[..], size)
    ensures fresh(order) && order.Length == 256 && IsPerm(order[..]) && BySize(size, order[..], 256)
  {
    order := new int[256](i => i);
    ghost var s0 := order[..];
    var h := 1;
    while true
      invariant h in {1, 4, 13, 40, 121}
      decreases 364 - h
    {
      h := 3 * h + 1;
      if h > 256 {
        break;
      }
    }
    while true
      invariant h in {364, 121, 40, 13, 4}
      invariant Shuffled(s0, order[..], 0, 255) && Named(order[..])
      decreases h
    {
      h := h / 3;
      for i := h to 256
        invariant Shuffled(s0, order[..], 0, 255) && Named(order[..])
        invariant h == 1 ==> BySize(size, order[..], i)
      {
        ghost var s := order[..];
        InsertBig(order, ftab, i, h, size, s);
        ShuffledTrans(s0, s, order[..], 0, 255, 0, 255);
      }
      if h == 1 {
        break;
      }
    }
    ShuffledPerm(s0, order[..], 0, 255);
  }
}
