// Numbers as strings of bits, most significant first.
module Bits {
  import opened Common

  function ToBits(v: nat, n: nat): (s: seq<bool>)
    ensures |s| == n
  {
    if n == 0 then [] else ToBits(v / 2, n - 1) + [v % 2 == 1]
  }

  function FromBits(s: seq<bool>): nat {
    if s == [] then 0 else 2 * FromBits(s[..|s| - 1]) + (if s[|s| - 1] then 1 else 0)
  }

  lemma {:induction false} FromToBits(v: nat, n: nat)
    requires v < Pow2(n)
    ensures FromBits(ToBits(v, n)) == v
  {
    if n > 0 {
      FromToBits(v / 2, n - 1);
      assert ToBits(v, n)[..n - 1] == ToBits(v / 2, n - 1);
    }
  }

  lemma {:induction false} ToFromBits(s: seq<bool>)
    ensures FromBits(s) < Pow2(|s|) && ToBits(FromBits(s), |s|) == s
  {
    if s != [] {
      ToFromBits(s[..|s| - 1]);
    }
  }

  // v shifted up k places
  function Shl(v: nat, k: nat): nat {
    if k == 0 then v else 2 * Shl(v, k - 1)
  }

  lemma {:induction false} ShlAdd(v: nat, w: nat, k: nat)
    ensures Shl(v + w, k) == Shl(v, k) + Shl(w, k)
  {
    if k > 0 {
      ShlAdd(v, w, k - 1);
    }
  }

  lemma {:induction false} ShlShl(v: nat, j: nat, k: nat)
    ensures Shl(Shl(v, j), k) == Shl(v, j + k)
  {
    if k > 0 {
      ShlShl(v, j, k - 1);
      assert Shl(v, j + k) == 2 * Shl(v, j + k - 1);
    }
  }

  lemma Shl8(x: nat)
    ensures Shl(x, 8) == 256 * x
  {
    assert Shl(x, 1) == 2 * x;
    assert Shl(x, 2) == 4 * x;
    assert Shl(x, 3) == 8 * x;
    assert Shl(x, 4) == 16 * x;
    assert Shl(x, 5) == 32 * x;
    assert Shl(x, 6) == 64 * x;
    assert Shl(x, 7) == 128 * x;
  }

  lemma {:induction false} ShlLess(v: nat, n: nat, k: nat)
    requires v < Pow2(n)
    ensures Shl(v, k) < Pow2(n + k)
  {
    if k > 0 {
      ShlLess(v, n, k - 1);
      assert Pow2(n + k) == 2 * Pow2(n + (k - 1));
    }
  }

  lemma {:induction false} FromBitsConcat(s: seq<bool>, t: seq<bool>)
    ensures FromBits(s + t) == Shl(FromBits(s), |t|) + FromBits(t)
  {
    if t == [] {
      assert s + t == s;
    } else {
      var n := |t| - 1;
      FromBitsConcat(s, t[..n]);
      assert (s + t)[..|s + t| - 1] == s + t[..n];
    }
  }

  // v without its lowest k bits
  function Shr(v: nat, k: nat): nat {
    if k == 0 then v else Shr(v / 2, k - 1)
  }

  lemma {:induction false} ToBitsPrefix(v: nat, n: nat, k: nat)
    requires k <= n
    ensures ToBits(v, n)[..n - k] == ToBits(Shr(v, k), n - k)
  {
    if k > 0 {
      ToBitsPrefix(v / 2, n - 1, k - 1);
      assert ToBits(v, n)[..n - k] == ToBits(v / 2, n - 1)[..n - k];
    }
  }

  lemma {:induction false} ShrBounds(v: nat, k: nat, x: nat)
    ensures x * Pow2(k) <= v <==> x <= Shr(v, k)
  {
    if k > 0 {
      ShrBounds(v / 2, k - 1, x);
      assert x * Pow2(k) == 2 * (x * Pow2(k - 1));
    }
  }

  // High bits, then low bits.
  lemma {:induction false} ToBitsJoin(a: nat, b: nat, n: nat, k: nat)
    requires b < Pow2(k)
    ensures ToBits(Shl(a, k) + b, n + k) == ToBits(a, n) + ToBits(b, k)
  {
    if k == 0 {
      assert ToBits(a, n) + [] == ToBits(a, n);
    } else {
      var v := Shl(a, k) + b;
      assert v / 2 == Shl(a, k - 1) + b / 2 && v % 2 == b % 2;
      ToBitsJoin(a, b / 2, n, k - 1);
      assert n + k - 1 == n + (k - 1);
    }
  }
}
