// Undoing the block sort: the T vectors of the decompressor and the theorem that walking
// one from origPtr spells the original block.
module InverseBwt {
  import opened Common
  import opened Counting
  import opened Rotations

  // ---- the T permutation of a column ------------------------------------

  // Where a stable sort of the column by value puts entry i.
  function Lf(l: seq<Byte>, i: nat): nat
    requires i < |l|
  {
    CountBelow(l, l[i], |l|) + Count(l, l[i], i)
  }

  lemma LfOrder(l: seq<Byte>, i: nat, j: nat)
    requires i < |l| && j < |l|
    requires l[i] < l[j] || (l[i] == l[j] && i < j)
    ensures Lf(l, i) < Lf(l, j)
  {
    CountGrows(l, l[i], i, |l|);
    if l[i] < l[j] {
      CountSplit(l, l[i], l[j], |l|);
    } else {
      CountGrows(l, l[i], i, j);
    }
  }

  lemma LfBound(l: seq<Byte>, i: nat)
    requires i < |l|
    ensures Lf(l, i) < |l|
    ensures CountBelow(l, l[i], |l|) <= Lf(l, i) < CountBelow(l, l[i] as int + 1, |l|)
  {
    CountGrows(l, l[i], i, |l|);
    CountSplit(l, l[i], l[i] as int + 1, |l|);
  }

  lemma LfInjective(l: seq<Byte>, i: nat, j: nat)
    requires i < |l| && j < |l| && Lf(l, i) == Lf(l, j)
    ensures i == j
  {
    if l[i] < l[j] || (l[i] == l[j] && i < j) {
      LfOrder(l, i, j);
    } else if i != j {
      LfOrder(l, j, i);
    }
  }

  ghost function LfSeq(l: seq<Byte>): (s: seq<int>)
    ensures |s| == |l| && forall i :: 0 <= i < |l| ==> s[i] == Lf(l, i)
  {
    seq(|l|, i requires 0 <= i < |l| => Lf(l, i))
  }

  lemma LfPerm(l: seq<Byte>)
    ensures IsPerm(LfSeq(l))
  {
    forall i | 0 <= i < |l| ensures Lf(l, i) < |l| {
      LfBound(l, i);
    }
    forall i, j | 0 <= i < j < |l| ensures Lf(l, i) != Lf(l, j) {
      if Lf(l, i) == Lf(l, j) {
        LfInjective(l, i, j);
      }
    }
  }

  ghost function Inv(l: seq<Byte>, x: nat): (i: nat)
    requires x < |l|
    ensures i < |l| && Lf(l, i) == x
  {
    LfPerm(l);
    PermSurjective(LfSeq(l), x);
    var i: nat :| i < |l| && LfSeq(l)[i] == x;
    i
  }

  // Position in the column of the k-th byte emitted when the walk starts at row orig.
  ghost function WalkPos(l: seq<Byte>, orig: nat, k: nat): (x: nat)
    requires orig < |l|
    ensures x < |l|
  {
    if k == 0 then Inv(l, orig) else Inv(l, WalkPos(l, orig, k - 1))
  }

  ghost function WalkByte(l: seq<Byte>, orig: nat, k: nat): Byte
    requires orig < |l|
  {
    l[WalkPos(l, orig, k)]
  }

  // ---- the last column of a block sort ----------------------------------

  function LastColumn(b: seq<Byte>, p: seq<int>): (l: seq<Byte>)
    requires |p| == |b|
    requires forall i :: 0 <= i < |p| ==> 0 <= p[i] < |b|
    ensures |l| == |b|
  {
    seq(|b|, x requires 0 <= x < |b| => b[Prev(|b|, p[x])])
  }

  // The last column is the same whichever way a sort breaks ties between equal rotations.
  lemma LastColumnUnique(b: seq<Byte>, p: seq<int>, q: seq<int>)
    requires SortedRotations(b, p) && SortedRotations(b, q)
    ensures LastColumn(b, p) == LastColumn(b, q)
  {
    forall x | 0 <= x < |b| ensures LastColumn(b, p)[x] == LastColumn(b, q)[x] {
      SortsAgree(b, p, q, x);
      AtLast(b, p[x]);
      AtLast(b, q[x]);
    }
  }

  // Row Lf(x) holds a rotation equal to the one that starts a byte before row x's.
  lemma LfStepsBack(b: seq<Byte>, p: seq<int>, x: nat)
    requires SortedRotations(b, p) && x < |b|
    ensures var l := LastColumn(b, p);
            Lf(l, x) < |b| && Same(b, p[Lf(l, x)], Prev(|b|, p[x]))
  {
    var l := LastColumn(b, p);
    var n := |b|;
    LfPerm(l);
    var q := seq(n, y requires 0 <= y < n => Prev(n, p[Inv(l, y)]));
    forall u, v | 0 <= u < v < n ensures q[u] != q[v] && Leq(b, q[u], q[v]) {
      var i, j := Inv(l, u), Inv(l, v);
      if l[j] < l[i] || (l[j] == l[i] && j < i) {
        LfOrder(l, j, i);
      }
      if l[i] < l[j] {
        LessByFirst(b, q[u], q[v]);
        Trichotomy(b, q[u], q[v], n);
      } else {
        assert Leq(b, p[i], p[j]);
        LeqNext(b, q[u], q[v]);
      }
    }
    assert SortedRotations(b, q);
    LfBound(l, x);
    LfInjective(l, x, Inv(l, Lf(l, x)));
    SortsAgree(b, p, q, Lf(l, x));
  }

  lemma SameTrans(b: seq<Byte>, i: nat, j: nat, k: nat)
    requires |b| > 0 && Same(b, i, j) && Same(b, i, k)
    ensures Same(b, j, k)
  {
  }

  // One step of the walk: from a row holding rotation r to a row holding the next one.
  lemma WalkStep(b: seq<Byte>, p: seq<int>, row: nat, r: nat)
    requires SortedRotations(b, p) && row < |b| && r < |b| && Same(b, p[row], r)
    ensures var l := LastColumn(b, p); var x := Inv(l, row);
            l[x] == b[r] && Same(b, p[x], Next(|b|, r))
  {
    var n := |b|;
    var x := Inv(LastColumn(b, p), row);
    LfStepsBack(b, p, x);
    SameTrans(b, p[row], Prev(n, p[x]), r);
    SameNext(b, Prev(n, p[x]), r);
    AtZero(b, Prev(n, p[x]));
    AtZero(b, r);
  }

  // The walk from the row of rotation 0 spells the block, again and again.
  lemma {:induction false} WalkSpellsBlock(b: seq<Byte>, p: seq<int>, orig: nat, k: nat)
    requires SortedRotations(b, p) && orig < |b| && p[orig] == 0
    ensures Same(b, p[WalkPos(LastColumn(b, p), orig, k)], Rem(k + 1, |b|))
    ensures WalkByte(LastColumn(b, p), orig, k) == At(b, 0, k)
  {
    var l := LastColumn(b, p);
    var row := if k == 0 then orig else WalkPos(l, orig, k - 1);
    if k == 0 {
      assert Rem(k, |b|) == p[row];
    } else {
      WalkSpellsBlock(b, p, orig, k - 1);
      assert Rem(k - 1 + 1, |b|) == Rem(k, |b|);
    }
    assert Same(b, p[row], Rem(k, |b|));
    WalkStep(b, p, row, Rem(k, |b|));
    RemNext(k, |b|);
  }

  lemma SameNext(b: seq<Byte>, i: nat, j: nat)
    requires i < |b| && j < |b| && Same(b, i, j)
    ensures Same(b, Next(|b|, i), Next(|b|, j)) && At(b, i, 0) == At(b, j, 0)
  {
    EqBeyond(b, i, j, 1 + |b|);
    EqSplit(b, i, j, 1, |b|);
  }

  lemma {:induction false} RemNext(k: nat, n: nat)
    requires n > 0
    ensures Rem(k + 1, n) == Next(n, Rem(k, n))
  {
    if k >= n {
      RemNext(k - n, n);
    }
  }

  // The inversion theorem: n steps give back the block, periodic or not.
  lemma InversionTheorem(b: seq<Byte>, p: seq<int>, orig: nat)
    requires SortedRotations(b, p) && orig < |b| && p[orig] == 0
    ensures b == seq(|b|, k requires 0 <= k => WalkByte(LastColumn(b, p), orig, k))
  {
    forall k | 0 <= k < |b| ensures WalkByte(LastColumn(b, p), orig, k) == b[k] {
      WalkSpellsBlock(b, p, orig, k);
    }
  }
}
