// What each merge of BZ2_hbMakeCodeLengths keeps: the forest, its total weight, and how heavy a tree
// of a given depth must be.
module HuffmanGrowth {
  import opened Common
  import opened HuffmanTree

  const BZ_MAX_ALPHA_SIZE := 258

  // ---- packed weights: the weight above an 8-bit depth --------------------

  // All but the low eight bits, as a number; by repeated subtraction, so that facts about it stay linear.
  function WeightOf(x: int): (r: int)
    ensures x >= 0 ==> 256 * r <= x < 256 * r + 256
  {
    if x < 256 then 0 else 1 + WeightOf(x - 256)
  }

  // The low eight bits.
  function DepthOf(x: int): (d: int)
    ensures x >= 0 ==> 0 <= d < 256
  {
    x - 256 * WeightOf(x)
  }

  function Max(x: int, y: int): int {
    if x > y then x else y
  }

  // The source ORs the new depth in, which is an addition as long as the depth stays under 256.
  function AddWeights(x: int, y: int): (r: int)
    requires 0 <= x && 0 <= y && DepthOf(x) < 255 && DepthOf(y) < 255
    ensures WeightOf(r) == WeightOf(x) + WeightOf(y)
    ensures DepthOf(r) == 1 + Max(DepthOf(x), DepthOf(y))
  {
    (WeightOf(x) + WeightOf(y)) * 256 + (1 + Max(DepthOf(x), DepthOf(y)))
  }

  lemma PackedOrder(x: int, y: int)
    requires x <= y
    ensures WeightOf(x) <= WeightOf(y)
  {
  }

  function Unpacked(weight: seq<int>, n: int): (w: seq<int>)
    requires 0 <= n < |weight|
    ensures |w| == n + 1 && forall v :: 0 <= v <= n ==> w[v] == WeightOf(weight[v])
  {
    seq(n + 1, v requires 0 <= v <= n => WeightOf(weight[v]))
  }

  // ---- how deep a tree of a given weight can be ---------------------------

  function Fib(n: nat): (f: nat)
  {
    if n == 0 then 0 else if n == 1 then 1 else Fib(n - 1) + Fib(n - 2)
  }

  lemma {:induction false} FibMonotone(m: nat, n: nat)
    requires m <= n
    ensures Fib(m) <= Fib(n)
    decreases n - m
  {
    if m < n {
      FibMonotone(m + 1, n);
    }
  }

  lemma FibFacts()
    ensures Fib(20) == 6765 && Fib(35) == 9227465
  {
    assert Fib(10) == 55 && Fib(11) == 89;
    assert Fib(12) == 144 && Fib(13) == 233;
    assert Fib(14) == 377 && Fib(15) == 610;
    assert Fib(16) == 987 && Fib(17) == 1597;
    assert Fib(18) == 2584 && Fib(19) == 4181;
    assert Fib(20) == 6765 && Fib(21) == 10946;
    assert Fib(22) == 17711 && Fib(23) == 28657;
    assert Fib(24) == 46368 && Fib(25) == 75025;
    assert Fib(26) == 121393 && Fib(27) == 196418;
    assert Fib(28) == 317811 && Fib(29) == 514229;
    assert Fib(30) == 832040 && Fib(31) == 1346269;
    assert Fib(32) == 2178309 && Fib(33) == 3524578;
    assert Fib(34) == 5702887;
  }

  ghost predicate HeavyFor(x: int) {
    x >= 0 && Fib(DepthOf(x) + 2) <= WeightOf(x)
  }

  ghost predicate HeavyBeside(x: int, y: int) {
    y >= 0 && Fib(DepthOf(y) + 1) <= WeightOf(x)
  }

  // A node of height d weighs at least Fib(d + 2), and every other node alive at least Fib(d + 1).
  ghost predicate Heavy(weight: seq<int>, par: seq<int>, q: int) {
    && 0 <= q < |weight| && q < |par|
    && (forall v {:trigger HeavyFor(weight[v])} :: Alive(par, q, v) ==> HeavyFor(weight[v]))
    && forall u, v {:trigger HeavyBeside(weight[u], weight[v])} :: Alive(par, q, u) && Alive(par, q, v) ==>
         HeavyBeside(weight[u], weight[v])
  }

  // Nodes weigh together what the symbols do, so none is deep.
  lemma Shallow(weight: seq<int>, par: seq<int>, q: int, v: int, total: int)
    requires Heavy(weight, par, q) && Alive(par, q, v) && |par| == q + 1
    requires (forall u :: 0 <= u <= q ==> weight[u] >= 0) && AliveSum(par, q, Unpacked(weight, q)) == total < 0x80_0000
    ensures DepthOf(weight[v]) < 33 && WeightOf(weight[v]) <= total
    ensures Fib(DepthOf(weight[v]) + 2) <= total
  {
    SumAtLeastTerm(Terms(par, q, Unpacked(weight, q)), v);
    assert HeavyFor(weight[v]);
    FibFacts();
    if DepthOf(weight[v]) >= 33 {
      FibMonotone(35, DepthOf(weight[v]) + 2);
    }
  }

  // ---- the forest as it grows ---------------------------------------------

  // A merged node is deeper inside than the nodes under it; symbols have depth zero.
  ghost predicate Higher(weight: seq<int>, par: seq<int>, v: int) {
    && 0 <= v < |par| <= |weight|
    && (0 <= par[v] < |par| ==> DepthOf(weight[v]) < DepthOf(weight[par[v]]))
  }

  ghost predicate Heights(weight: seq<int>, par: seq<int>, alpha: int, q: int) {
    && |par| == q + 1 <= |weight|
    && (forall v :: 1 <= v <= q && v <= alpha ==> DepthOf(weight[v]) == 0)
    && forall v {:trigger Higher(weight, par, v)} :: 1 <= v <= q ==> Higher(weight, par, v)
  }

  ghost predicate Growing(weight: seq<int>, par: seq<int>, kids: seq<Kids>, alpha: int, q: int, total: int) {
    && 0 < alpha <= q && |par| == q + 1 <= |weight| && weight[0] == 0
    && (forall v :: 1 <= v <= q ==> weight[v] >= 256)
    && Forest(Unpacked(weight, q), par, kids, alpha, q)
    && AliveSum(par, q, Unpacked(weight, q)) == total < 0x80_0000
    && Heavy(weight, par, q) && Heights(weight, par, alpha, q)
  }

  // Nodes a and b are the two lightest alive.
  ghost predicate TwoLightest(weight: seq<int>, par: seq<int>, q: int, a: int, b: int) {
    && q < |weight| && Alive(par, q, a) && Alive(par, q, b) && a != b && weight[a] <= weight[b]
    && forall v {:trigger Alive(par, q, v)} :: Alive(par, q, v) && v != a && v != b ==> weight[b] <= weight[v]
  }

  function Joined(par: seq<int>, q: int, a: int, b: int): seq<int>
    requires 0 <= a < |par| && 0 <= b < |par|
  {
    par[a := q + 1][b := q + 1] + [-1]
  }

  lemma AliveJoined(par: seq<int>, q: int, a: int, b: int, v: int)
    requires |par| == q + 1 && 1 <= a <= q && 1 <= b <= q
    ensures forall p :: p <= q ==>
              (Alive(Joined(par, q, a, b), p, v) <==> Alive(par, p, v) || (1 <= v <= p && (v == a || v == b)))
    ensures (forall u :: 1 <= u <= q ==> par[u] <= q) ==>
              (Alive(Joined(par, q, a, b), q + 1, v) <==> v == q + 1 || (Alive(par, q, v) && v != a && v != b))
  {
  }

  lemma ForestStep(w: seq<int>, par: seq<int>, kids: seq<Kids>, alpha: int, q: int, a: int, b: int)
    requires Forest(w, par, kids, alpha, q) && Alive(par, q, a) && Alive(par, q, b) && a != b
    requires forall v {:trigger Alive(par, q, v)} :: Alive(par, q, v) && v != a && v != b ==>
               w[a] <= w[v] && w[b] <= w[v]
    ensures Forest(w + [w[a] + w[b]], Joined(par, q, a, b), kids + [Kids(a, b)], alpha, q + 1)
  {
    var w', par', kids' := w + [w[a] + w[b]], Joined(par, q, a, b), kids + [Kids(a, b)];
    forall p | alpha < p <= q + 1 ensures Merged(w', par', p, kids'[p].a, kids'[p].b) {
      if p <= q {
        assert kids'[p] == kids[p];
        MergedStill(w, par, p, kids[p].a, kids[p].b, q, a, b);
      } else {
        forall v | Alive(par', q, v) && v != a && v != b ensures w'[a] <= w'[v] && w'[b] <= w'[v] {
          AliveJoined(par, q, a, b, v);
        }
      }
    }
  }

  lemma MergedStill(w: seq<int>, par: seq<int>, p: int, c: int, d: int, q: int, a: int, b: int)
    requires Merged(w, par, p, c, d) && |par| == q + 1 && p <= q && Alive(par, q, a) && Alive(par, q, b)
    requires forall v :: 1 <= v <= q ==> par[v] <= q
    ensures Merged(w + [w[a] + w[b]], Joined(par, q, a, b), p, c, d)
  {
    var par' := Joined(par, q, a, b);
    forall v | Alive(par', p - 1, v) && v != c && v != d ensures w[c] <= w[v] && w[d] <= w[v] {
      AliveJoined(par, q, a, b, v);
      assert Alive(par, p - 1, v);
    }
  }

  lemma SumStep(w: seq<int>, par: seq<int>, kids: seq<Kids>, alpha: int, q: int, a: int, b: int)
    requires Forest(w, par, kids, alpha, q) && Alive(par, q, a) && Alive(par, q, b) && a != b
    requires Forest(w + [w[a] + w[b]], Joined(par, q, a, b), kids + [Kids(a, b)], alpha, q + 1)
    ensures AliveSum(Joined(par, q, a, b), q + 1, w + [w[a] + w[b]]) == AliveSum(par, q, w)
  {
    var w', par', kids' := w + [w[a] + w[b]], Joined(par, q, a, b), kids + [Kids(a, b)];
    assert kids'[q + 1] == Kids(a, b);
    assert Merged(w', par', q + 1, a, b);
    StageSum(w', par', q + 1, a, b, w');
    forall v | 0 <= v < |par| ensures Alive(par', q, v) <==> Alive(par, q, v) {
      AliveJoined(par, q, a, b, v);
    }
    assert Terms(par', q, w') == Terms(par, q, w) + [0];
    SumConcat(Terms(par, q, w), [0]);
  }

  lemma FibNext(n: nat)
    ensures Fib(n + 2) == Fib(n + 1) + Fib(n)
  {
  }

  // The merged node is heavy enough for its height: its deeper part for one height less, the other for two.
  lemma HeavyMerged(wc: int, ws: int, d: nat)
    requires Fib(d + 2) <= wc && Fib(d + 1) <= ws
    ensures Fib(d + 1 + 2) <= wc + ws
  {
    FibNext(d + 1);
    assert d + 1 + 2 == (d + 1) + 2;
  }

  lemma HeavyX(wa: int, wb: int, x: int)
    requires HeavyFor(wa) && HeavyFor(wb) && HeavyBeside(wa, wb) && HeavyBeside(wb, wa)
    requires DepthOf(wa) < 255 && DepthOf(wb) < 255 && x == AddWeights(wa, wb)
    ensures HeavyFor(x)
    ensures Fib(DepthOf(x) + 1) <= WeightOf(wa) || Fib(DepthOf(x) + 1) <= WeightOf(wb)
  {
    hide Fib;
    if DepthOf(wa) > DepthOf(wb) {
      HeavyMerged(WeightOf(wa), WeightOf(wb), DepthOf(wa));
    } else {
      HeavyMerged(WeightOf(wb), WeightOf(wa), DepthOf(wb));
    }
  }

  // Beside the merged node x of a and b, and with it.
  lemma HeavyPair(wa: int, wb: int, x: int, y: int)
    requires HeavyFor(wa) && HeavyFor(wb) && HeavyBeside(wa, wb) && HeavyBeside(wb, wa)
    requires DepthOf(wa) < 255 && DepthOf(wb) < 255 && x == AddWeights(wa, wb)
    ensures wa <= y && wb <= y ==> HeavyBeside(y, x)
    ensures HeavyBeside(x, x)
    ensures HeavyBeside(wa, y) ==> HeavyBeside(x, y)
  {
    HeavyX(wa, wb, x);
    FibMonotone(DepthOf(x) + 1, DepthOf(x) + 2);
    if wa <= y && wb <= y {
      PackedOrder(wa, y);
      PackedOrder(wb, y);
    }
  }

  lemma HeavyStep(weight: seq<int>, par: seq<int>, q: int, a: int, b: int, x: int)
    requires Heavy(weight, par, q) && |par| == q + 1 < |weight|
             && (forall v :: 1 <= v <= q ==> weight[v] >= 256 && par[v] <= q)
    requires TwoLightest(weight, par, q, a, b) && DepthOf(weight[a]) < 255 && DepthOf(weight[b]) < 255
    requires x == AddWeights(weight[a], weight[b])
    ensures Heavy(weight[q + 1 := x], Joined(par, q, a, b), q + 1)
  {
    var weight', par' := weight[q + 1 := x], Joined(par, q, a, b);
    assert HeavyFor(weight[a]) && HeavyFor(weight[b]);
    assert HeavyBeside(weight[a], weight[b]) && HeavyBeside(weight[b], weight[a]);
    HeavyX(weight[a], weight[b], x);
    forall v | Alive(par', q + 1, v) ensures HeavyFor(weight'[v]) {
      AliveJoined(par, q, a, b, v);
      assert v != q + 1 ==> HeavyFor(weight[v]);
    }
    forall u, v | Alive(par', q + 1, u) && Alive(par', q + 1, v) ensures HeavyBeside(weight'[u], weight'[v]) {
      AliveJoined(par, q, a, b, u);
      AliveJoined(par, q, a, b, v);
      HeavyPair(weight[a], weight[b], x, if v == q + 1 then weight'[u] else weight'[v]);
      assert u != q + 1 && v != q + 1 ==> HeavyBeside(weight[u], weight[v]);
      assert v != q + 1 ==> HeavyBeside(weight[a], weight[v]);
    }
  }

  lemma HeightsStep(weight: seq<int>, par: seq<int>, alpha: int, q: int, a: int, b: int, x: int)
    requires Heights(weight, par, alpha, q) && alpha <= q && q + 1 < |weight|
             && (forall v :: 1 <= v <= q ==> par[v] <= q)
    requires 1 <= a <= q && 1 <= b <= q && DepthOf(weight[a]) < DepthOf(x) && DepthOf(weight[b]) < DepthOf(x)
    ensures Heights(weight[q + 1 := x], Joined(par, q, a, b), alpha, q + 1)
  {
    var weight', par' := weight[q + 1 := x], Joined(par, q, a, b);
    forall v | 1 <= v <= q + 1 ensures Higher(weight', par', v) {
      assert v <= q ==> Higher(weight, par, v);
    }
  }

  lemma GrowStep(weight: seq<int>, par: seq<int>, kids: seq<Kids>, alpha: int, q: int, total: int, a: int, b: int)
    requires Growing(weight, par, kids, alpha, q, total) && q + 1 < |weight| && TwoLightest(weight, par, q, a, b)
    ensures DepthOf(weight[a]) < 33 && DepthOf(weight[b]) < 33 && weight[a] >= 256 && weight[b] >= 256
    ensures Growing(weight[q + 1 := AddWeights(weight[a], weight[b])], Joined(par, q, a, b), kids + [Kids(a, b)],
            alpha, q + 1, total)
  {
    var w := Unpacked(weight, q);
    Shallow(weight, par, q, a, total);
    Shallow(weight, par, q, b, total);
    var x := AddWeights(weight[a], weight[b]);
    var weight' := weight[q + 1 := x];
    forall v | Alive(par, q, v) && v != a && v != b ensures w[a] <= w[v] && w[b] <= w[v] {
      PackedOrder(weight[a], weight[v]);
      PackedOrder(weight[b], weight[v]);
    }
    assert Unpacked(weight', q + 1) == w + [w[a] + w[b]];
    ForestStep(w, par, kids, alpha, q, a, b);
    SumStep(w, par, kids, alpha, q, a, b);
    HeavyStep(weight, par, q, a, b, x);
    HeightsStep(weight, par, alpha, q, a, b, x);
  }

  // ---- starting -----------------------------------------------------------

  // Symbols 1..alpha, alone, with the given weights.
  ghost predicate Fresh(weight: seq<int>, par: seq<int>, lw: seq<int>) {
    && 0 < |lw| && |par| == |lw| + 1 <= |weight| && weight[0] == 0
    && (forall v :: 1 <= v <= |lw| ==> par[v] == -1)
    && forall i :: 0 <= i < |lw| ==> lw[i] >= 1 && weight[i + 1] == lw[i] * 256
  }

  lemma FreshGrowing(weight: seq<int>, par: seq<int>, lw: seq<int>)
    requires Fresh(weight, par, lw) && Sum(lw) < 0x80_0000
    ensures Growing(weight, par, seq(|lw| + 1, i => Kids(0, 0)), |lw|, |lw|, Sum(lw))
  {
    var alpha := |lw|;
    forall v | 1 <= v <= alpha ensures WeightOf(weight[v]) == lw[v - 1] && DepthOf(weight[v]) == 0
        && Higher(weight, par, v) {
      assert weight[v - 1 + 1] == lw[v - 1] * 256;
    }
    forall u, v | Alive(par, alpha, u) && Alive(par, alpha, v) ensures HeavyFor(weight[v])
        && HeavyBeside(weight[u], weight[v]) {
      assert Fib(1) == 1 && Fib(2) == 1;
    }
    assert Terms(par, alpha, Unpacked(weight, alpha)) == [0] + lw;
    SumConcat([0], lw);
    assert Sum([0]) == 0 by {
      SumZero([0]);
    }
  }

  // ---- the end ------------------------------------------------------------

  lemma {:induction false} DepthUnderHeight(weight: seq<int>, par: seq<int>, alpha: int, q: int, root: int, v: int)
    requires Heights(weight, par, alpha, q) && Climbs(par) && 1 <= v <= q && 1 <= root <= q
    requires forall u :: 1 <= u <= q && par[u] < 0 ==> u == root
    ensures Depth(par, v) + DepthOf(weight[v]) <= DepthOf(weight[root])
    decreases q - v
  {
    if par[v] >= 0 {
      assert Higher(weight, par, v);
      DepthUnderHeight(weight, par, alpha, q, root, par[v]);
    }
  }

  lemma FibLarge(n: nat)
    requires n >= 20
    ensures Fib(n) >= 6765
  {
    FibFacts();
    FibMonotone(20, n);
  }

  // When the forest has become one tree, a code of more than 17 bits means plenty of weight.
  lemma TooLong(weight: seq<int>, par: seq<int>, kids: seq<Kids>, alpha: int, total: int, i: int)
    requires Growing(weight, par, kids, alpha, 2 * alpha - 1, total)
    requires Tree(Unpacked(weight, 2 * alpha - 1), par, kids, alpha)
    requires 1 <= i <= alpha
    ensures Depth(par, i) < 33
    ensures Depth(par, i) >= 18 ==> total >= 6765
  {
    var root := 2 * alpha - 1;
    assert Alive(par, root, root);
    Shallow(weight, par, root, root, total);
    DepthUnderHeight(weight, par, alpha, root, root, i);
    if Depth(par, i) >= 18 {
      FibLarge(DepthOf(weight[root]) + 2);
    }
  }
}
