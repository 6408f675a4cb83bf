// The fallback sort's table of bucket-head bits, 32 to a word, and its two scans that skip
// whole words of ones or of zeroes.
module Bhtab {
  import opened Common

  // bit k of a word
  function Bit(w: nat, k: nat): bool {
    if k == 0 then w % 2 == 1 else Bit(w / 2, k - 1)
  }

  // w | (1 << k), or w & ~(1 << k)
  function WithBit(w: nat, k: nat, v: bool): nat {
    if k == 0 then w - w % 2 + (if v then 1 else 0) else 2 * WithBit(w / 2, k - 1, v) + w % 2
  }

  lemma {:induction false} BitOfWithBit(w: nat, k: nat, v: bool, j: nat)
    ensures Bit(WithBit(w, k, v), j) == if j == k then v else Bit(w, j)
  {
    if j > 0 && k > 0 {
      BitOfWithBit(w / 2, k - 1, v, j - 1);
    }
  }

  lemma {:induction false} AllOnes(n: nat, j: nat)
    requires j < n
    ensures Bit(Pow2(n) - 1, j)
  {
    if j > 0 {
      assert (Pow2(n) - 1) / 2 == Pow2(n - 1) - 1;
      AllOnes(n - 1, j - 1);
    }
  }

  lemma {:induction false} AllZeroes(j: nat)
    ensures !Bit(0, j)
  {
    if j > 0 {
      AllZeroes(j - 1);
    }
  }

  // ISSET_BH
  function IsSet(bhtab: seq<nat>, k: nat): bool
    requires k / 32 < |bhtab|
  {
    Bit(bhtab[k / 32], k % 32)
  }

  ghost function Bits(bhtab: seq<nat>): (s: seq<bool>)
    ensures |s| == 32 * |bhtab|
    ensures forall k :: 0 <= k < |s| ==> s[k] == IsSet(bhtab, k)
  {
    seq(32 * |bhtab|, k requires 0 <= k < 32 * |bhtab| => IsSet(bhtab, k))
  }

  method SetBh(bhtab: array<nat>, k: nat)
    requires k < 32 * bhtab.Length
    modifies bhtab
    ensures Bits(bhtab[..]) == Bits(old(bhtab[..]))[k := true]
  {
    ghost var was := bhtab[..];
    bhtab[k / 32] := WithBit(bhtab[k / 32], k % 32, true);
    forall j | 0 <= j < 32 * bhtab.Length
      ensures IsSet(bhtab[..], j) == (j == k || IsSet(was, j))
    {
      BitOfWithBit(was[k / 32], k % 32, true, j % 32);
    }
  }

  method ClearBh(bhtab: array<nat>, k: nat)
    requires k < 32 * bhtab.Length
    modifies bhtab
    ensures Bits(bhtab[..]) == Bits(old(bhtab[..]))[k := false]
  {
    ghost var was := bhtab[..];
    bhtab[k / 32] := WithBit(bhtab[k / 32], k % 32, false);
    forall j | 0 <= j < 32 * bhtab.Length
      ensures IsSet(bhtab[..], j) == (j != k && IsSet(was, j))
    {
      BitOfWithBit(was[k / 32], k % 32, false, j % 32);
    }
  }

  method ClearAll(bhtab: array<nat>, words: nat)
    requires words <= bhtab.Length
    modifies bhtab
    ensures forall k :: 0 <= k < 32 * words ==> !Bits(bhtab[..])[k]
  {
    for i := 0 to words
      invariant forall w :: 0 <= w < i ==> bhtab[w] == 0
    {
      bhtab[i] := 0;
    }
    forall k | 0 <= k < 32 * words ensures !IsSet(bhtab[..], k) {
      AllZeroes(k % 32);
    }
  }

  // The first position from k on whose bit is v.
  ghost predicate FirstIs(bits: seq<bool>, v: bool, k: nat, r: nat) {
    k <= r < |bits| && bits[r] == v && forall j :: k <= j < r ==> bits[j] == !v
  }

  // All 32 bits of the word at k are the same, so none of them can be the one sought.
  lemma SkipWord(bhtab: seq<nat>, k: nat, v: bool, goal: nat)
    requires k % 32 == 0 && k / 32 < |bhtab| && k <= goal < 32 * |bhtab|
    requires bhtab[k / 32] == if v then 0 else 0xffff_ffff
    requires Bits(bhtab)[goal] == v
    ensures k + 32 <= goal
    ensures forall j :: k <= j < k + 32 ==> Bits(bhtab)[j] == !v
  {
    Pow2Of32();
    forall j | k <= j < k + 32 ensures j < 32 * |bhtab| && IsSet(bhtab, j) == !v {
      assert j / 32 == k / 32;
      AllOnes(32, j % 32);
      AllZeroes(j % 32);
    }
    assert IsSet(bhtab, goal) == v;
  }

  // Scans for a bit of the given value: bit by bit to a word boundary, then by words, then by bits.
  method Find(bhtab: array<nat>, v: bool, k0: nat, ghost goal: nat) returns (k: nat)
    requires k0 <= goal < 32 * bhtab.Length && Bits(bhtab[..])[goal] == v
    ensures k <= goal && FirstIs(Bits(bhtab[..]), v, k0, k)
  {
    k := k0;
    ghost var bits := Bits(bhtab[..]);
    while IsSet(bhtab[..], k) != v && k % 32 != 0
      decreases goal - k
      invariant k0 <= k <= goal && forall j :: k0 <= j < k ==> bits[j] == !v
    {
      k := k + 1;
    }
    if IsSet(bhtab[..], k) != v {
      while bhtab[k / 32] == if v then 0 else 0xffff_ffff
        decreases goal - k
        invariant k0 <= k <= goal && forall j :: k0 <= j < k ==> bits[j] == !v
        invariant k % 32 == 0
      {
        SkipWord(bhtab[..], k, v, goal);
        k := k + 32;
      }
      while IsSet(bhtab[..], k) != v
        decreases goal - k
        invariant k0 <= k <= goal && forall j :: k0 <= j < k ==> bits[j] == !v
      {
        k := k + 1;
      }
    }
  }
}
