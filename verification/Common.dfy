// Shared vocabulary: bytes, repeated elements, sums, powers of two, permutations of an index range.
module Common {

  type Byte = b: int | 0 <= b < 256

  datatype Option<+T> = None | Some(value: T)

  // ---- repetition -------------------------------------------------------

  function Rep<T>(x: T, n: nat): (s: seq<T>)
    ensures |s| == n && forall i :: 0 <= i < n ==> s[i] == x
  {
    seq(n, i => x)
  }

  // ---- sums -------------------------------------------------------------

  ghost function Sum(s: seq<int>): int {
    if s == [] then 0 else Sum(s[..|s| - 1]) + s[|s| - 1]
  }

  lemma {:induction false} SumUpdate(s: seq<int>, i: int, v: int)
    requires 0 <= i < |s|
    ensures Sum(s[i := v]) == Sum(s) - s[i] + v
  {
    var n := |s| - 1;
    if i == n {
      assert s[i := v][..n] == s[..n];
    } else {
      assert s[i := v][..n] == s[..n][i := v];
      SumUpdate(s[..n], i, v);
    }
  }

  lemma {:induction false} SumConcat(s: seq<int>, t: seq<int>)
    ensures Sum(s + t) == Sum(s) + Sum(t)
  {
    if t == [] {
      assert s + t == s;
    } else {
      var n := |t| - 1;
      assert (s + t)[..|s + t| - 1] == s + t[..n];
      SumConcat(s, t[..n]);
    }
  }

  lemma {:induction false} SumMonotone(s: seq<int>, t: seq<int>)
    requires |s| == |t|
    requires forall i :: 0 <= i < |s| ==> s[i] <= t[i]
    ensures Sum(s) <= Sum(t)
  {
    if s != [] {
      SumMonotone(s[..|s| - 1], t[..|s| - 1]);
    }
  }

  // A part of a sum of non-negative terms is no larger than the whole.
  lemma {:induction false} SumAtLeastTerm(s: seq<int>, i: int)
    requires 0 <= i < |s|
    requires forall k :: 0 <= k < |s| ==> 0 <= s[k]
    ensures 0 <= s[i] <= Sum(s)
  {
    var n := |s| - 1;
    if i < n {
      SumAtLeastTerm(s[..n], i);
    } else {
      SumNonNegative(s[..n]);
    }
  }

  lemma {:induction false} SumNonNegative(s: seq<int>)
    requires forall k :: 0 <= k < |s| ==> 0 <= s[k]
    ensures 0 <= Sum(s)
  {
    if s != [] {
      SumNonNegative(s[..|s| - 1]);
    }
  }

  // ---- powers of two ----------------------------------------------------

  function Pow2(n: nat): (p: nat)
    ensures p >= 1
  {
    if n == 0 then 1 else 2 * Pow2(n - 1)
  }

  lemma {:induction false} Pow2Add(m: nat, n: nat)
    ensures Pow2(m + n) == Pow2(m) * Pow2(n)
  {
    if n > 0 {
      Pow2Add(m, n - 1);
      assert Pow2(m + n) == 2 * Pow2(m + (n - 1));
    }
  }

  lemma Pow2Of32()
    ensures Pow2(8) == 256 && Pow2(16) == 65536 && Pow2(32) == 0x1_0000_0000
  {
    assert Pow2(4) == 16;
    Pow2Add(4, 4);
    Pow2Add(8, 8);
    Pow2Add(16, 16);
  }

  // ---- permutations of 0..n-1 -------------------------------------------

  ghost predicate Injective(s: seq<int>) {
    forall i, j :: 0 <= i < j < |s| ==> s[i] != s[j]
  }

  ghost predicate IsPerm(s: seq<int>) {
    && (forall i :: 0 <= i < |s| ==> 0 <= s[i] < |s|)
    && Injective(s)
  }

  ghost function Elements(s: seq<int>): set<int> {
    set x | x in s
  }

  lemma {:induction false} InjectiveSize(s: seq<int>)
    requires Injective(s)
    ensures |Elements(s)| == |s|
  {
    if s != [] {
      var n := |s| - 1;
      InjectiveSize(s[..n]);
      assert s[n] !in s[..n];
      assert Elements(s) == Elements(s[..n]) + {s[n]} by {
        assert s == s[..n] + [s[n]];
      }
    }
  }

  ghost function Upto(n: nat): (s: set<int>)
    ensures |s| == n && forall i :: i in s <==> 0 <= i < n
  {
    if n == 0 then {} else Upto(n - 1) + {n - 1}
  }

  lemma SubsetSize<T>(a: set<T>, b: set<T>)
    requires a <= b
    ensures |a| <= |b|
    ensures |a| == |b| ==> a == b
  {
    assert b == a + (b - a);
  }

  // A permutation of 0..n-1 hits every index.
  lemma PermSurjective(s: seq<int>, v: int)
    requires IsPerm(s) && 0 <= v < |s|
    ensures exists i :: 0 <= i < |s| && s[i] == v
  {
    InjectiveSize(s);
    SubsetSize(Elements(s), Upto(|s|));
    assert v in Elements(s);
  }

  // ---- remainders -------------------------------------------------------

  lemma {:induction false} MulStep(a: int, b: int, m: nat)
    requires a < b
    ensures a * m + m <= b * m
    decreases b - a
  {
    assert b * m == (b - 1) * m + m;
    if a < b - 1 {
      MulStep(a, b - 1, m);
    }
  }

  lemma Remainder(q: int, m: nat, r: nat)
    requires r < m
    ensures (q * m + r) % m == r
  {
    var x := q * m + r;
    var p := x / m;
    assert x == p * m + x % m;
    if p < q {
      MulStep(p, q, m);
    } else if p > q {
      MulStep(q, p, m);
    }
  }
}
