// The lengths are optimal: no lengths that satisfy Kraft's inequality cost less.
module HuffmanOptimal {
  import opened Common
  import opened HuffmanTree

  ghost function Costs(w: seq<int>, len: seq<int>): (r: seq<int>)
    requires |w| == |len|
    ensures |r| == |w| && forall v :: 0 <= v < |w| ==> r[v] == w[v] * len[v]
  {
    seq(|w|, v requires 0 <= v < |w| => w[v] * len[v])
  }

  ghost predicate Within(len: seq<int>, m: nat) {
    forall v :: 0 <= v < |len| ==> 0 <= len[v] <= m
  }

  // Lengths for the nodes alive at stage q that satisfy Kraft's inequality.
  ghost predicate Feasible(par: seq<int>, q: int, len: seq<int>, m: nat) {
    |len| == |par| && Within(len, m) && AliveSum(par, q, Shares(len, m)) <= Pow2(m)
  }

  // ---- exchanging two lengths ---------------------------------------------

  lemma SumTwo(t: seq<int>, x: int, y: int, u: int, v: int)
    requires 0 <= x < |t| && 0 <= y < |t| && x != y
    ensures Sum(t[x := u][y := v]) == Sum(t) - t[x] - t[y] + u + v
  {
    SumUpdate(t, x, u);
    SumUpdate(t[x := u], y, v);
  }

  lemma SwapCost(wa: int, wx: int, la: int, lx: int)
    requires wa <= wx && la <= lx
    ensures wa * lx + wx * la <= wa * la + wx * lx
  {
    assert (wx - wa) * (lx - la) >= 0;
  }

  // Giving the lighter of two nodes the longer code costs no more.
  lemma SwapLengths(w: seq<int>, par: seq<int>, q: int, len: seq<int>, m: nat, a: int, x: int)
    requires |w| == |par| && Feasible(par, q, len, m) && Alive(par, q, a) && Alive(par, q, x) && a != x
    requires w[a] <= w[x] && len[a] <= len[x]
    ensures Feasible(par, q, len[a := len[x]][x := len[a]], m)
    ensures AliveSum(par, q, Costs(w, len[a := len[x]][x := len[a]])) <= AliveSum(par, q, Costs(w, len))
  {
    var len' := len[a := len[x]][x := len[a]];
    var t, t' := Terms(par, q, Shares(len, m)), Terms(par, q, Shares(len', m));
    assert t' == t[a := t[x]][x := t[a]];
    SumTwo(t, a, x, t[x], t[a]);
    var c, c' := Terms(par, q, Costs(w, len)), Terms(par, q, Costs(w, len'));
    assert c' == c[a := w[a] * len[x]][x := w[x] * len[a]];
    SumTwo(c, a, x, w[a] * len[x], w[x] * len[a]);
    SwapCost(w[a], w[x], len[a], len[x]);
  }

  // ---- a single longest code can be shortened -----------------------------

  lemma {:induction false} SumScale(t: seq<int>, k: seq<int>, c: int)
    requires |t| == |k| && forall i :: 0 <= i < |t| ==> t[i] == c * k[i]
    ensures Sum(t) == c * Sum(k)
  {
    if t != [] {
      var n := |t| - 1;
      SumScale(t[..n], k[..n], c);
      assert c * Sum(k) == c * Sum(k[..n]) + c * k[n];
    }
  }

  lemma OddFits(u: int, k: int, p: int)
    requires u > 0 && 2 * u * k + u <= 2 * u * p
    ensures 2 * u * k + 2 * u <= 2 * u * p
  {
    var d := 2 * u;
    if k < p {
      MulStep(k, p, d);
    } else if k > p {
      MulStep(p, k, d);
    }
  }

  ghost function Halved(par: seq<int>, q: int, len: seq<int>, x: int, top: int): (k: seq<int>)
    requires |len| == |par|
    ensures |k| == |par|
    ensures forall v :: 0 <= v < |par| ==> k[v] == if Alive(par, q, v) && v != x
            && 0 <= len[v] < top then Pow2(top - 1 - len[v]) else 0
  {
    seq(|par|, v requires 0 <= v < |par| => if Alive(par, q, v) && v != x
        && 0 <= len[v] < top then Pow2(top - 1 - len[v]) else 0)
  }

  // A longest length among those alive, and no other like it.
  ghost predicate LoneLongest(par: seq<int>, q: int, len: seq<int>, m: nat, x: int) {
    && Feasible(par, q, len, m) && Alive(par, q, x) && len[x] > 0
    && forall v :: Alive(par, q, v) && v != x ==> len[v] < len[x]
  }

  // A shorter code's share is an even number of the longest's.
  lemma EvenShare(m: nat, top: nat, l: nat)
    requires l < top <= m
    ensures Pow2(m - l) == 2 * Pow2(m - top) * Pow2(top - 1 - l)
  {
    Pow2Add(m - top + 1, top - 1 - l);
    assert m - top + 1 + (top - 1 - l) == m - l;
    assert Pow2(m - top + 1) == 2 * Pow2(m - top);
  }

  // All shares but the longest code's, in twice its units.
  lemma SharesEven(par: seq<int>, q: int, len: seq<int>, m: nat, x: int)
    requires LoneLongest(par, q, len, m, x)
    ensures Sum(Terms(par, q, Shares(len, m))[x := 0]) == 2 * Pow2(m - len[x]) * Sum(Halved(par, q, len, x, len[x]))
  {
    var top: nat := len[x];
    var t, k := Terms(par, q, Shares(len, m)), Halved(par, q, len, x, top);
    forall v | 0 <= v < |par| ensures t[x := 0][v] == 2 * Pow2(m - top) * k[v] {
      if Alive(par, q, v) && v != x {
        EvenShare(m, top, len[v]);
      }
    }
    SumScale(t[x := 0], k, 2 * Pow2(m - top));
  }

  // Kraft's sum with the longest code's share apart, and then with twice that share.
  lemma ShareApart(par: seq<int>, q: int, len: seq<int>, m: nat, x: int)
    requires LoneLongest(par, q, len, m, x)
    ensures var rest := Sum(Terms(par, q, Shares(len, m))[x := 0]);
            && AliveSum(par, q, Shares(len, m)) == rest + Pow2(m - len[x])
            && AliveSum(par, q, Shares(len[x := len[x] - 1], m)) == rest + 2 * Pow2(m - len[x])
  {
    var t := Terms(par, q, Shares(len, m));
    assert Terms(par, q, Shares(len[x := len[x] - 1], m)) == t[x := 2 * Pow2(m - len[x])];
    SumUpdate(t, x, 0);
    SumUpdate(t, x, 2 * Pow2(m - len[x]));
  }

  // Kraft's sum without the longest code is even, in units of its share: so there is room for twice that share.
  lemma ShortenFits(par: seq<int>, q: int, len: seq<int>, m: nat, x: int)
    requires LoneLongest(par, q, len, m, x)
    ensures Feasible(par, q, len[x := len[x] - 1], m)
  {
    hide Terms, Shares, Halved;
    SharesEven(par, q, len, m, x);
    ShareApart(par, q, len, m, x);
    EvenShare(m, len[x], 0);
    OddFits(Pow2(m - len[x]), Sum(Halved(par, q, len, x, len[x])), Pow2(len[x] - 1));
  }

  lemma ShortenCost(w: seq<int>, par: seq<int>, q: int, len: seq<int>, x: int)
    requires |w| == |par| == |len| && Alive(par, q, x) && w[x] >= 0
    ensures AliveSum(par, q, Costs(w, len[x := len[x] - 1])) <= AliveSum(par, q, Costs(w, len))
  {
    var c := Terms(par, q, Costs(w, len));
    assert Terms(par, q, Costs(w, len[x := len[x] - 1])) == c[x := w[x] * (len[x] - 1)];
    SumUpdate(c, x, w[x] * (len[x] - 1));
  }

  // ---- two lightest nodes of greatest length ------------------------------

  lemma {:induction false} Longest(par: seq<int>, q: int, len: seq<int>, a: int, n: nat) returns (x: int)
    requires |len| == |par| && Alive(par, q, a) && n <= |par|
    ensures Alive(par, q, x) && len[a] <= len[x]
    ensures forall v :: Alive(par, q, v) && v < n ==> len[v] <= len[x]
  {
    if n == 0 {
      x := a;
    } else {
      x := Longest(par, q, len, a, n - 1);
      if Alive(par, q, n - 1) && len[n - 1] > len[x] {
        x := n - 1;
      }
    }
  }

  lemma TwoTerms(par: seq<int>, q: int, f: seq<int>, a: int, b: int)
    requires |f| == |par| && Alive(par, q, a) && Alive(par, q, b) && a != b
    requires forall v :: 0 <= v < |f| ==> 0 <= f[v]
    ensures f[a] + f[b] <= AliveSum(par, q, f)
  {
    var t := Terms(par, q, f);
    SumTwo(t, a, b, 0, 0);
    SumNonNegative(t[a := 0][b := 0]);
  }

  // Two alive nodes cannot both have length zero.
  lemma SomeLength(par: seq<int>, q: int, len: seq<int>, m: nat, a: int, b: int)
    requires Feasible(par, q, len, m) && Alive(par, q, a) && Alive(par, q, b) && a != b
    ensures len[a] > 0 || len[b] > 0
  {
    TwoTerms(par, q, Shares(len, m), a, b);
  }

  // a and b are alive and no other alive node is lighter than either.
  ghost predicate Lightest(w: seq<int>, par: seq<int>, q: int, a: int, b: int) {
    && |w| == |par| && Alive(par, q, a) && Alive(par, q, b) && a != b
    && (forall v :: 0 <= v < |w| ==> w[v] >= 0)
    && forall v {:trigger Alive(par, q, v)} :: Alive(par, q, v) && v != a && v != b ==> w[a] <= w[v] && w[b] <= w[v]
  }

  // Two nodes x and y have the greatest length: hand it to a and b.
  lemma HandOver(w: seq<int>, par: seq<int>, q: int, len: seq<int>, m: nat, a: int, b: int, x: int, y: int)
    returns (r: seq<int>)
    requires Lightest(w, par, q, a, b) && Feasible(par, q, len, m)
    requires Alive(par, q, x) && Alive(par, q, y) && x != y && len[x] == len[y]
    requires forall v :: Alive(par, q, v) ==> len[v] <= len[x]
    ensures Feasible(par, q, r, m) && r[a] == r[b] == len[x]
    ensures AliveSum(par, q, Costs(w, r)) <= AliveSum(par, q, Costs(w, len))
  {
    var top := len[x];
    r := len;
    var other := if x == a then y else x;
    if len[a] != top {
      var give := if x != b then x else y;
      other := if x != b then y else x;
      SwapLengths(w, par, q, len, m, a, give);
      r := len[a := len[give]][give := len[a]];
    }
    assert r[a] == top && r[other] == top && other != a && Alive(par, q, other);
    if r[b] != top {
      SwapLengths(w, par, q, r, m, b, other);
      r := r[b := r[other]][other := r[b]];
    }
  }

  lemma {:induction false} Normalize(w: seq<int>, par: seq<int>, q: int, len: seq<int>, m: nat, a: int, b: int)
    returns (r: seq<int>)
    requires Lightest(w, par, q, a, b) && Feasible(par, q, len, m)
    ensures Feasible(par, q, r, m) && r[a] == r[b] > 0
    ensures AliveSum(par, q, Costs(w, r)) <= AliveSum(par, q, Costs(w, len))
    decreases Sum(len)
  {
    var x := Longest(par, q, len, a, |par|);
    SomeLength(par, q, len, m, a, b);
    assert len[b] <= len[x];
    if y :| Alive(par, q, y) && y != x && len[y] == len[x] {
      r := HandOver(w, par, q, len, m, a, b, x, y);
    } else {
      ShortenFits(par, q, len, m, x);
      ShortenCost(w, par, q, len, x);
      SumUpdate(len, x, len[x] - 1);
      SumNonNegative(len);
      r := Normalize(w, par, q, len[x := len[x] - 1], m, a, b);
    }
  }

  // ---- the theorem --------------------------------------------------------

  // Nodes not alive do not matter.
  lemma DeadEntry(par: seq<int>, q: int, f: seq<int>, g: seq<int>, p: int)
    requires |f| == |g| == |par| && 0 <= p < |par| && !Alive(par, q, p)
    requires forall v :: 0 <= v < |par| && v != p ==> f[v] == g[v]
    ensures AliveSum(par, q, f) == AliveSum(par, q, g)
  {
    assert Terms(par, q, f) == Terms(par, q, g);
  }

  lemma MergedLightest(w: seq<int>, par: seq<int>, kids: seq<Kids>, alpha: int, p: int)
    requires Tree(w, par, kids, alpha) && alpha < p < 2 * alpha && |w| > 0 && w[0] >= 0
    ensures Lightest(w, par, p - 1, kids[p].a, kids[p].b)
  {
    assert Merged(w, par, p, kids[p].a, kids[p].b);
  }

  // Lengths at one stage give lengths at the next: the merged node takes one bit less.
  lemma MergeLengths(w: seq<int>, par: seq<int>, p: int, a: int, b: int, len: seq<int>, m: nat)
    requires Merged(w, par, p, a, b) && Climbs(par) && Feasible(par, p - 1, len, m) && len[a] == len[b] > 0
    ensures Feasible(par, p, len[p := len[a] - 1], m)
    ensures AliveSum(par, p - 1, Costs(w, len)) == AliveSum(par, p, Costs(w, len[p := len[a] - 1])) + w[a] + w[b]
  {
    var len' := len[p := len[a] - 1];
    StageSum(w, par, p, a, b, Shares(len', m));
    StageSum(w, par, p, a, b, Costs(w, len'));
    DeadEntry(par, p - 1, Shares(len', m), Shares(len, m), p);
    DeadEntry(par, p - 1, Costs(w, len'), Costs(w, len), p);
    Distribute(w[a], w[b], len[a]);
  }

  lemma Distribute(x: int, y: int, l: int)
    ensures x * l + y * l - (x + y) * (l - 1) == x + y
  {
  }

  lemma DepthCost(w: seq<int>, par: seq<int>, kids: seq<Kids>, alpha: int, p: int)
    requires Tree(w, par, kids, alpha) && alpha < p < 2 * alpha
    ensures var a, b := kids[p].a, kids[p].b;
            0 <= a < |w| && 0 <= b < |w|
            && AliveSum(par, p - 1, Costs(w, Depths(par))) == AliveSum(par, p, Costs(w, Depths(par))) + w[a] + w[b]
  {
    var a, b := kids[p].a, kids[p].b;
    StageSum(w, par, p, a, b, Costs(w, Depths(par)));
    assert Depths(par)[a] == Depths(par)[p] + 1 == Depths(par)[b];
    Distribute(w[a], w[b], Depths(par)[a]);
  }

  lemma {:induction false} OptimalStages(w: seq<int>, par: seq<int>, kids: seq<Kids>, alpha: int, q: int, len: seq<int>,
                                         m: nat)
    requires Tree(w, par, kids, alpha) && alpha <= q < 2 * alpha && w[0] >= 0
    requires Feasible(par, q, len, m)
    ensures AliveSum(par, q, Costs(w, Depths(par))) <= AliveSum(par, q, Costs(w, len))
    decreases 2 * alpha - q
  {
    if q == 2 * alpha - 1 {
      RootSum(w, par, kids, alpha, Costs(w, Depths(par)));
      RootSum(w, par, kids, alpha, Costs(w, len));
    } else {
      var p := q + 1;
      var a, b := kids[p].a, kids[p].b;
      MergedLightest(w, par, kids, alpha, p);
      var len2 := Normalize(w, par, q, len, m, a, b);
      MergeLengths(w, par, p, a, b, len2, m);
      OptimalStages(w, par, kids, alpha, p, len2[p := len2[a] - 1], m);
      DepthCost(w, par, kids, alpha, p);
    }
  }

  // Total cost of coding symbols of the given weights with codes of the given lengths.
  ghost function Cost(w: seq<int>, len: seq<int>): int
    requires |w| == |len|
  {
    Sum(Costs(w, len))
  }

  lemma LeafCosts(w: seq<int>, par: seq<int>, kids: seq<Kids>, alpha: int, all: seq<int>, len: seq<int>)
    requires Tree(w, par, kids, alpha) && |all| == |par| && |len| == alpha
    requires forall i :: 0 <= i < alpha ==> len[i] == all[i + 1]
    ensures Cost(w[1..alpha + 1], len) == AliveSum(par, alpha, Costs(w, all))
  {
    LeafSum(w, par, kids, alpha, Costs(w, all), Costs(w[1..alpha + 1], len));
  }

  function Padded(len: seq<int>): (r: seq<int>)
    requires |len| > 0
    ensures |r| == 2 * |len| && forall v :: 0 <= v < |r| ==> r[v] == if 1 <= v <= |len| then len[v - 1] else 0
  {
    ([0] + len) + seq(|len| - 1, i => 0)
  }

  lemma PaddedFeasible(w: seq<int>, par: seq<int>, kids: seq<Kids>, alpha: int, len: seq<int>, m: nat)
    requires Tree(w, par, kids, alpha) && |len| == alpha && Within(len, m) && Sum(Shares(len, m)) <= Pow2(m)
    ensures Feasible(par, alpha, Padded(len), m)
  {
    LeafShares(w, par, kids, alpha, Padded(len), len, m);
  }

  // No code for the same alphabet costs less.
  lemma Optimal(w: seq<int>, par: seq<int>, kids: seq<Kids>, alpha: int, len: seq<int>, m: nat)
    requires Tree(w, par, kids, alpha) && w[0] >= 0 && |len| == alpha && Within(len, m)
    requires Sum(Shares(len, m)) <= Pow2(m)
    ensures Cost(w[1..alpha + 1], Lengths(par, alpha)) <= Cost(w[1..alpha + 1], len)
  {
    var all := Padded(len);
    PaddedFeasible(w, par, kids, alpha, len, m);
    OptimalStages(w, par, kids, alpha, alpha, all, m);
    LeafCosts(w, par, kids, alpha, all, len);
    LeafCosts(w, par, kids, alpha, Depths(par), Lengths(par, alpha));
  }
}
