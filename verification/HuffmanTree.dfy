// The tree that merging the two lightest nodes again and again builds, as parent links. Nodes
// 1..alpha are the symbols; node q > alpha is made at stage q from two nodes alive just before.
module HuffmanTree {
  import opened Common

  // Node v exists at stage q and has not been merged into another yet.
  ghost predicate Alive(par: seq<int>, q: int, v: int) {
    1 <= v <= q && v < |par| && (par[v] < 0 || par[v] > q)
  }

  // Node q came of merging a and b, the only nodes under it, none alive being lighter than either.
  ghost predicate Merged(w: seq<int>, par: seq<int>, q: int, a: int, b: int) {
    && 1 <= a < q < |par| == |w| && 1 <= b < q && a != b
    && par[a] == q && par[b] == q && w[q] == w[a] + w[b]
    && (forall v :: 1 <= v < q && par[v] == q ==> v == a || v == b)
    && (forall v {:trigger Alive(par, q - 1, v)} :: Alive(par, q - 1, v) && v != a && v != b ==>
          w[a] <= w[v] && w[b] <= w[v])
  }

  datatype Kids = Kids(a: int, b: int)

  ghost predicate Climbs(par: seq<int>) {
    forall v :: 1 <= v < |par| ==> par[v] < 0 || v < par[v] < |par|
  }

  ghost predicate Forest(w: seq<int>, par: seq<int>, kids: seq<Kids>, alpha: int, nNodes: int) {
    && 0 < alpha <= nNodes && |par| == |w| == |kids| == nNodes + 1 && Climbs(par)
    && (forall v :: 1 <= v <= nNodes ==> w[v] >= 1 && (par[v] < 0 || par[v] > alpha))
    && forall q {:trigger kids[q]} :: alpha < q <= nNodes ==> Merged(w, par, q, kids[q].a, kids[q].b)
  }

  // A forest of one tree.
  ghost predicate Tree(w: seq<int>, par: seq<int>, kids: seq<Kids>, alpha: int) {
    && Forest(w, par, kids, alpha, 2 * alpha - 1)
    && forall v :: 1 <= v < 2 * alpha ==> (par[v] < 0 <==> v == 2 * alpha - 1)
  }

  // How many links lead up from v.
  function Depth(par: seq<int>, v: int): (d: nat)
    requires forall v :: 1 <= v < |par| ==> par[v] < 0 || v < par[v] < |par|
    requires 1 <= v < |par|
    ensures d < |par| - v
    decreases |par| - v
  {
    if par[v] < 0 then 0 else 1 + Depth(par, par[v])
  }

  function Depths(par: seq<int>): (r: seq<int>)
    requires forall v :: 1 <= v < |par| ==> par[v] < 0 || v < par[v] < |par|
    ensures |r| == |par| && forall v :: 1 <= v < |par| ==> r[v] == Depth(par, v)
  {
    seq(|par|, v requires 0 <= v < |par| => if v == 0 then 0 else Depth(par, v))
  }

  // ---- sums over the nodes alive at a stage -------------------------------

  ghost function Terms(par: seq<int>, q: int, f: seq<int>): (r: seq<int>)
    requires |f| == |par|
    ensures |r| == |par|
  {
    seq(|par|, v requires 0 <= v < |par| => if Alive(par, q, v) then f[v] else 0)
  }

  ghost function AliveSum(par: seq<int>, q: int, f: seq<int>): int
    requires |f| == |par|
  {
    Sum(Terms(par, q, f))
  }

  // One stage back, node q is replaced by the two it was made from.
  lemma StageSum(w: seq<int>, par: seq<int>, q: int, a: int, b: int, f: seq<int>)
    requires Merged(w, par, q, a, b) && Climbs(par) && |f| == |par|
    ensures AliveSum(par, q - 1, f) == AliveSum(par, q, f) - f[q] + f[a] + f[b]
  {
    var t := Terms(par, q, f);
    var u := t[q := 0];
    var v := u[a := f[a]];
    assert Terms(par, q - 1, f) == v[b := f[b]];
    SumUpdate(t, q, 0);
    SumUpdate(u, a, f[a]);
    SumUpdate(v, b, f[b]);
  }

  lemma {:induction false} SumZero(t: seq<int>)
    requires forall i :: 0 <= i < |t| ==> t[i] == 0
    ensures Sum(t) == 0
  {
    if t != [] {
      SumZero(t[..|t| - 1]);
    }
  }

  // At the last stage only the root is alive.
  lemma RootSum(w: seq<int>, par: seq<int>, kids: seq<Kids>, alpha: int, f: seq<int>)
    requires Tree(w, par, kids, alpha) && |f| == |par|
    ensures AliveSum(par, 2 * alpha - 1, f) == f[2 * alpha - 1]
  {
    var root := 2 * alpha - 1;
    var t := Terms(par, root, f);
    SumUpdate(t, root, 0);
    SumZero(t[root := 0]);
  }

  // At the first stage the symbols are alive, and nothing else.
  lemma LeafSum(w: seq<int>, par: seq<int>, kids: seq<Kids>, alpha: int, f: seq<int>, g: seq<int>)
    requires Tree(w, par, kids, alpha) && |f| == |par| && |g| == alpha
    requires forall i :: 0 <= i < alpha ==> g[i] == f[i + 1]
    ensures AliveSum(par, alpha, f) == Sum(g)
  {
    var t := Terms(par, alpha, f);
    var zeros := seq(alpha - 1, i => 0);
    assert t == ([0] + g) + zeros;
    SumConcat([0] + g, zeros);
    SumConcat([0], g);
    SumZero(zeros);
    SumZero([0]);
  }

  // ---- Kraft's sum --------------------------------------------------------

  // 2^(m - length) for each length.
  ghost function Shares(len: seq<int>, m: nat): (r: seq<int>)
    requires forall v :: 0 <= v < |len| ==> 0 <= len[v] <= m
    ensures |r| == |len| && forall v :: 0 <= v < |len| ==> r[v] == Pow2(m - len[v])
  {
    seq(|len|, v requires 0 <= v < |len| => Pow2(m - len[v]))
  }

  lemma {:induction false} KraftStages(w: seq<int>, par: seq<int>, kids: seq<Kids>, alpha: int, q: int, m: nat)
    requires Tree(w, par, kids, alpha) && alpha <= q < 2 * alpha
    requires forall v :: 0 <= v < |par| ==> 0 <= Depths(par)[v] <= m
    ensures AliveSum(par, q, Shares(Depths(par), m)) == Pow2(m)
    decreases 2 * alpha - q
  {
    var f := Shares(Depths(par), m);
    if q == 2 * alpha - 1 {
      RootSum(w, par, kids, alpha, f);
    } else {
      KraftStages(w, par, kids, alpha, q + 1, m);
      var a, b := kids[q + 1].a, kids[q + 1].b;
      StageSum(w, par, q + 1, a, b, f);
      assert Depths(par)[a] == Depths(par)[q + 1] + 1 == Depths(par)[b];
    }
  }

  // Every node lies above some symbol, so no node is deeper than the deepest symbol.
  lemma {:induction false} SymbolBelow(w: seq<int>, par: seq<int>, kids: seq<Kids>, alpha: int, v: int, m: nat)
    requires Tree(w, par, kids, alpha) && 1 <= v < 2 * alpha
    requires forall i :: 1 <= i <= alpha ==> Depth(par, i) <= m
    ensures Depth(par, v) <= m
    decreases v
  {
    if v > alpha {
      var a := kids[v].a;
      SymbolBelow(w, par, kids, alpha, a, m);
    }
  }

  // The code lengths of the symbols.
  ghost function Lengths(par: seq<int>, alpha: int): (len: seq<int>)
    requires Climbs(par) && 0 <= alpha < |par|
    ensures |len| == alpha && forall i :: 0 <= i < alpha ==> len[i] == Depth(par, i + 1)
  {
    seq(alpha, i requires 0 <= i < alpha => Depth(par, i + 1))
  }

  lemma DepthsBounded(w: seq<int>, par: seq<int>, kids: seq<Kids>, alpha: int, m: nat)
    requires Tree(w, par, kids, alpha)
    requires forall i :: 0 <= i < alpha ==> Lengths(par, alpha)[i] <= m
    ensures forall v :: 0 <= v < |par| ==> 0 <= Depths(par)[v] <= m
  {
    forall i | 1 <= i <= alpha ensures Depth(par, i) <= m {
      assert Lengths(par, alpha)[i - 1] <= m;
    }
    forall v | 0 <= v < |par| ensures 0 <= Depths(par)[v] <= m {
      if v > 0 {
        SymbolBelow(w, par, kids, alpha, v, m);
      }
    }
  }

  lemma LeafShares(w: seq<int>, par: seq<int>, kids: seq<Kids>, alpha: int, all: seq<int>, len: seq<int>, m: nat)
    requires Tree(w, par, kids, alpha) && |all| == |par| && |len| == alpha
    requires forall v :: 0 <= v < |all| ==> 0 <= all[v] <= m
    requires forall i :: 0 <= i < alpha ==> len[i] == all[i + 1]
    ensures Sum(Shares(len, m)) == AliveSum(par, alpha, Shares(all, m))
  {
    LeafSum(w, par, kids, alpha, Shares(all, m), Shares(len, m));
  }

  // The lengths make a complete code: Kraft's sum is exactly one.
  lemma CompleteCode(w: seq<int>, par: seq<int>, kids: seq<Kids>, alpha: int, m: nat)
    requires Tree(w, par, kids, alpha)
    requires forall i :: 0 <= i < alpha ==> Lengths(par, alpha)[i] <= m
    ensures Sum(Shares(Lengths(par, alpha), m)) == Pow2(m)
  {
    DepthsBounded(w, par, kids, alpha, m);
    KraftStages(w, par, kids, alpha, alpha, m);
    LeafShares(w, par, kids, alpha, Depths(par), Lengths(par, alpha), m);
  }

  // Every symbol lies below the root.
  lemma SymbolDepth(w: seq<int>, par: seq<int>, kids: seq<Kids>, alpha: int, i: int)
    requires Tree(w, par, kids, alpha) && alpha >= 2 && 1 <= i <= alpha
    ensures Depth(par, i) >= 1
  {
  }
}
