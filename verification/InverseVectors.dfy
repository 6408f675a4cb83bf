// The decompressor's two vectors for walking a block backwards through its last column:
// one 32-bit word an entry (fast), or 20 bits an entry split over two arrays (small).
module InverseVectors {
  import opened Common
  import opened Counting
  import opened InverseBwt

  // cftab[c] counts the column's entries below c.
  ghost predicate IsCftab(cftab: seq<int>, l: seq<Byte>) {
    |cftab| == 257 && forall c :: 0 <= c <= 256 ==> cftab[c] == CountBelow(l, c, |l|)
  }

  ghost predicate IsUnzftab(unzftab: seq<int>, l: seq<Byte>) {
    |unzftab| == 256 && forall c :: 0 <= c < 256 ==> unzftab[c] == Count(l, c, |l|)
  }

  // Cumulative counts, and the check that none leaves 0..nblock: it never fails.
  method SetUpCftab(cftab: array<int>, unzftab: array<int>, nblock: nat, ghost l: seq<Byte>) returns (ok: bool)
    requires nblock == |l| && cftab != unzftab && cftab.Length == 257 && IsUnzftab(unzftab[..], l)
    modifies cftab
    ensures IsCftab(cftab[..], l) && ok
  {
    cftab[0] := 0;
    for i := 1 to 257
      invariant cftab[0] == 0
      invariant forall c :: 1 <= c < i ==> cftab[c] == Count(l, c - 1, |l|)
      invariant unzftab[..] == old(unzftab[..])
    {
      cftab[i] := unzftab[i - 1];
    }
    CountBelowEnds(l, 0, 256, |l|);
    for i := 1 to 257
      invariant forall c :: 0 <= c < i ==> cftab[c] == CountBelow(l, c, |l|)
      invariant forall c :: i <= c < 257 ==> cftab[c] == Count(l, c - 1, |l|)
    {
      CountSplit(l, i - 1, i, |l|);
      cftab[i] := cftab[i] + cftab[i - 1];
    }
    ok := true;
    for i := 0 to 257
      invariant ok
    {
      if cftab[i] < 0 || cftab[i] > nblock {
        ok := false;
      }
    }
  }

  // ---- the fast vector ----------------------------------------------------

  // Low byte: the column. Remaining bits: the inverse of the T permutation.
  ghost predicate IsFastVector(tt: seq<int>, l: seq<Byte>) {
    && |tt| >= |l|
    && forall x :: 0 <= x < |l| ==> tt[x] == l[x] + 256 * Inv(l, x)
  }

  lemma Unpack(v: int, c: Byte, q: nat)
    requires v == c + 256 * q
    ensures v % 256 == c && v / 256 == q
  {
  }

  lemma LfIsInv(l: seq<Byte>, i: nat)
    requires i < |l|
    ensures Lf(l, i) < |l| && Inv(l, Lf(l, i)) == i
  {
    LfBound(l, i);
    LfInjective(l, i, Inv(l, Lf(l, i)));
  }

  // The numbers in cftab after the first i column entries have been placed.
  ghost predicate Placed(cftab: seq<int>, l: seq<Byte>, i: nat)
    requires i <= |l|
  {
    |cftab| == 257 && forall c :: 0 <= c < 256 ==> cftab[c] == CountBelow(l, c, |l|) + Count(l, c, i)
  }

  lemma PlacedStep(cftab: seq<int>, l: seq<Byte>, i: nat)
    requires i < |l| && Placed(cftab, l, i)
    ensures cftab[l[i]] == Lf(l, i)
    ensures Placed(cftab[l[i] := cftab[l[i]] + 1], l, i + 1)
  {
  }

  // What the vector holds once the first i entries have been threaded through it.
  ghost function FastEntry(l: seq<Byte>, x: nat, i: nat): int
    requires x < |l|
  {
    l[x] + 256 * (if Inv(l, x) < i then Inv(l, x) else 0)
  }

  lemma FastEntryStep(l: seq<Byte>, x: nat, i: nat)
    requires x < |l| && i < |l|
    ensures FastEntry(l, x, i + 1) == FastEntry(l, x, i) + (if x == Lf(l, i) then i * 256 else 0)
  {
    LfIsInv(l, i);
  }

  // tt[cftab[uc]] |= i << 8; cftab[uc]++
  method ThreadEntry(tt: array<int>, cftab: array<int>, uc: nat, i: nat)
    requires tt != cftab && uc < cftab.Length && 0 <= cftab[uc] < tt.Length
    modifies tt, cftab
    ensures tt[..] == old(tt[..])[old(cftab[uc]) := old(tt[cftab[uc]]) + i * 256]
    ensures cftab[..] == old(cftab[..])[uc := old(cftab[uc]) + 1]
  {
    tt[cftab[uc]] := tt[cftab[uc]] + i * 256;
    cftab[uc] := cftab[uc] + 1;
  }

  ghost predicate Threaded(tt: seq<int>, l: seq<Byte>, i: nat) {
    |tt| >= |l| && forall x :: 0 <= x < |l| ==> tt[x] == FastEntry(l, x, i)
  }

  lemma ThreadedStep(tt: seq<int>, l: seq<Byte>, i: nat)
    requires Threaded(tt, l, i) && i < |l|
    ensures tt[i] % 256 == l[i] && Lf(l, i) < |l|
    ensures Threaded(tt[Lf(l, i) := tt[Lf(l, i)] + i * 256], l, i + 1)
  {
    Unpack(tt[i], l[i], if Inv(l, i) < i then Inv(l, i) else 0);
    LfBound(l, i);
    forall x | 0 <= x < |l|
      ensures FastEntry(l, x, i + 1) == FastEntry(l, x, i) + (if x == Lf(l, i) then i * 256 else 0)
    {
      FastEntryStep(l, x, i);
    }
  }

  // The vector and the counts, before and after one entry is threaded.
  lemma FastStep(tt: seq<int>, cftab: seq<int>, l: seq<Byte>, i: nat)
    requires Threaded(tt, l, i) && i < |l| && Placed(cftab, l, i)
    ensures |tt| >= |l| && |cftab| == 257 && tt[i] % 256 == l[i] && 0 <= cftab[l[i]] < |l|
    ensures Threaded(tt[cftab[l[i]] := tt[cftab[l[i]]] + i * 256], l, i + 1)
    ensures Placed(cftab[l[i] := cftab[l[i]] + 1], l, i + 1)
  {
    hide Lf, Inv, FastEntry;
    ThreadedStep(tt, l, i);
    PlacedStep(cftab, l, i);
  }

  lemma FastBuilt(tt: seq<int>, l: seq<Byte>)
    requires Threaded(tt, l, |l|)
    ensures IsFastVector(tt, l)
  {
  }

  lemma FastBegun(tt: seq<int>, cftab: seq<int>, l: seq<Byte>)
    requires IsCftab(cftab, l) && |tt| >= |l| && forall x :: 0 <= x < |l| ==> tt[x] == l[x]
    ensures Threaded(tt, l, 0) && Placed(cftab, l, 0)
  {
  }

  method BuildFast(tt: array<int>, cftab: array<int>, ghost l: seq<Byte>, nblock: nat)
    requires tt != cftab && nblock == |l| <= tt.Length && IsCftab(cftab[..], l)
    requires forall x :: 0 <= x < nblock ==> tt[x] == l[x]
    modifies tt, cftab
    ensures IsFastVector(tt[..], l)
  {
    hide IsCftab, IsFastVector, Threaded, Placed;
    ghost var t, c := tt[..], cftab[..];
    FastBegun(t, c, l);
    for i := 0 to nblock
      invariant tt[..] == t && cftab[..] == c && Threaded(t, l, i) && Placed(c, l, i)
    {
      FastStep(t, c, l, i);
      ThreadEntry(tt, cftab, tt[i] % 256, i);
      t, c := t[c[l[i]] := t[c[l[i]]] + i * 256], c[l[i] := c[l[i]] + 1];
    }
    FastBuilt(t, l);
  }

  // One step of the walk.
  method GetFast(tt: array<int>, tPos: nat, ghost l: seq<Byte>) returns (c: Byte, tPos': nat)
    requires IsFastVector(tt[..], l) && tPos < |l|
    ensures c == l[tPos] && tPos' == Inv(l, tPos)
  {
    var v := tt[tPos];
    assert tt[..][tPos] == v;
    Unpack(v, l[tPos], Inv(l, tPos));
    c := v % 256;
    tPos' := v / 256;
  }

  // ---- the small vector ---------------------------------------------------

  // 16 bits an entry in ll16, 4 bits an entry in the nibbles of ll4.
  function Nibble(ll4: seq<int>, i: nat): int
    requires i / 2 < |ll4|
  {
    if i % 2 == 0 then ll4[i / 2] % 16 else ll4[i / 2] / 16 % 16
  }

  function GetLl(ll16: seq<int>, ll4: seq<int>, i: nat): int
    requires i < |ll16| && i / 2 < |ll4|
  {
    ll16[i] + Nibble(ll4, i) * 65536
  }

  ghost predicate WellSized(ll16: seq<int>, ll4: seq<int>, n: nat) {
    && n <= |ll16| && n <= 2 * |ll4|
    && (forall i :: 0 <= i < |ll16| ==> 0 <= ll16[i] < 65536)
    && (forall i :: 0 <= i < |ll4| ==> 0 <= ll4[i] < 256)
  }

  method SetLl(ll16: array<int>, ll4: array<int>, i: nat, v: nat, ghost n: nat)
    requires ll16 != ll4 && WellSized(ll16[..], ll4[..], n) && i < n && v < 16 * 65536
    modifies ll16, ll4
    ensures WellSized(ll16[..], ll4[..], n)
    ensures GetLl(ll16[..], ll4[..], i) == v
    ensures forall k :: 0 <= k < n && k != i ==>
              GetLl(ll16[..], ll4[..], k) == old(GetLl(ll16[..], ll4[..], k)) && ll16[k] == old(ll16[k])
  {
    ll16[i] := v % 65536;
    var hi := v / 65536;
    if i % 2 == 0 {
      ll4[i / 2] := ll4[i / 2] / 16 * 16 + hi;
    } else {
      ll4[i / 2] := ll4[i / 2] % 16 + hi * 16;
    }
  }

  // Which bucket of the first column row indx lies in, by bisection.
  method IndexIntoF(indx: nat, cftab: array<int>, ghost l: seq<Byte>) returns (nb: Byte)
    requires IsCftab(cftab[..], l) && indx < |l|
    ensures CountBelow(l, nb, |l|) <= indx < CountBelow(l, nb as int + 1, |l|)
  {
    var lo, na := 0, 256;
    CountBelowEnds(l, 0, 256, |l|);
    while na - lo != 1
      invariant 0 <= lo < na <= 256
      invariant cftab[lo] <= indx < cftab[na]
      decreases na - lo
    {
      var mid := (lo + na) / 2;
      if indx >= cftab[mid] {
        lo := mid;
      } else {
        na := mid;
      }
    }
    nb := lo;
  }

  lemma FirstColumn(l: seq<Byte>, x: nat, c: Byte)
    requires x < |l| && CountBelow(l, c, |l|) <= x < CountBelow(l, c as int + 1, |l|)
    ensures c == l[Inv(l, x)]
  {
    var d := l[Inv(l, x)];
    LfBound(l, Inv(l, x));
    if c < d {
      CountSplit(l, c, d, |l|);
      CountSplit(l, c, c as int + 1, |l|);
    } else if d < c {
      CountSplit(l, d, c, |l|);
      CountSplit(l, d, d as int + 1, |l|);
    }
  }

  // After pointer reversal: the rows on orig's cycle lead to their T-inverse, and stay on it.
  ghost predicate IsSmallVector(ll16: seq<int>, ll4: seq<int>, l: seq<Byte>, cycle: set<int>) {
    && WellSized(ll16, ll4, |l|)
    && forall x :: x in cycle ==>
         0 <= x < |l| && GetLl(ll16, ll4, x) == Inv(l, x) && Inv(l, x) in cycle
  }

  // The T vector, built in place over the column's bytes.
  method BuildT(ll16: array<int>, ll4: array<int>, cftabCopy: array<int>, ghost l: seq<Byte>, nblock: nat)
    requires ll16 != ll4 && ll16 != cftabCopy && ll4 != cftabCopy
    requires nblock == |l| <= 16 * 65536 && WellSized(ll16[..], ll4[..], nblock)
    requires IsCftab(cftabCopy[..], l)
    requires forall x :: 0 <= x < nblock ==> ll16[x] == l[x]
    modifies ll16, ll4, cftabCopy
    ensures WellSized(ll16[..], ll4[..], nblock)
    ensures forall x :: 0 <= x < nblock ==> GetLl(ll16[..], ll4[..], x) == Lf(l, x)
  {
    for i := 0 to nblock
      invariant WellSized(ll16[..], ll4[..], nblock)
      invariant Placed(cftabCopy[..], l, i)
      invariant forall x :: i <= x < nblock ==> ll16[x] == l[x]
      invariant forall x :: 0 <= x < i ==> GetLl(ll16[..], ll4[..], x) == Lf(l, x)
    {
      var uc := ll16[i] % 256;
      LfBound(l, i);
      SetLl(ll16, ll4, i, cftabCopy[uc], nblock);
      cftabCopy[uc] := cftabCopy[uc] + 1;
    }
  }

  // The state of the reversal: done holds the rows already turned round, i the row last visited.
  ghost predicate Reversing(ll16: seq<int>, ll4: seq<int>, l: seq<Byte>, orig: nat, done: set<int>, i: nat) {
    && WellSized(ll16, ll4, |l|) && orig < |l| && i < |l|
    && (i == orig || i in done)
    && (forall x :: 0 <= x < |l| && x !in done ==> GetLl(ll16, ll4, x) == Lf(l, x))
    && (forall x :: x in done ==>
          0 <= x < |l| && GetLl(ll16, ll4, x) == Inv(l, x) && (Inv(l, x) == orig || Inv(l, x) in done))
    && (i != orig ==> forall x :: x in done ==> Inv(l, x) != i)
  }

  // The row that row i's pointer leads to is not turned round yet.
  lemma Ahead(ll16: seq<int>, ll4: seq<int>, l: seq<Byte>, orig: nat, done: set<int>, i: nat)
    requires Reversing(ll16, ll4, l, orig, done, i) && (i != orig || done == {})
    ensures Lf(l, i) < |l| && Lf(l, i) !in done && GetLl(ll16, ll4, Lf(l, i)) == Lf(l, Lf(l, i))
  {
    LfIsInv(l, i);
  }

  // Only row j's entry differs, and it points back to i.
  ghost predicate Turned(ll16: seq<int>, ll4: seq<int>, new16: seq<int>, new4: seq<int>, n: nat, i: nat, j: nat) {
    && WellSized(ll16, ll4, n) && WellSized(new16, new4, n) && j < n && GetLl(new16, new4, j) == i
    && forall k :: 0 <= k < n && k != j ==> GetLl(new16, new4, k) == GetLl(ll16, ll4, k)
  }

  lemma ReverseStep(ll16: seq<int>, ll4: seq<int>, new16: seq<int>, new4: seq<int>, l: seq<Byte>, orig: nat,
                    done: set<int>, i: nat)
    requires Reversing(ll16, ll4, l, orig, done, i) && (i != orig || done == {})
    requires Turned(ll16, ll4, new16, new4, |l|, i, Lf(l, i))
    ensures Reversing(new16, new4, l, orig, done + {Lf(l, i)}, Lf(l, i))
  {
    hide GetLl, WellSized, Lf, Inv;
    Ahead(ll16, ll4, l, orig, done, i);
    LfIsInv(l, i);
  }

  lemma CycleTurned(ll16: seq<int>, ll4: seq<int>, l: seq<Byte>, orig: nat, done: set<int>)
    requires Reversing(ll16, ll4, l, orig, done, orig) && orig in done
    ensures IsSmallVector(ll16, ll4, l, done)
  {
  }

  lemma ReverseBegun(ll16: seq<int>, ll4: seq<int>, l: seq<Byte>, orig: nat)
    requires orig < |l| && WellSized(ll16, ll4, |l|) && forall x :: 0 <= x < |l| ==> GetLl(ll16, ll4, x) == Lf(l, x)
    ensures Reversing(ll16, ll4, l, orig, {}, orig) && GetLl(ll16, ll4, orig) == Lf(l, orig)
  {
    LfBound(l, orig);
  }

  method ReverseCycle(ll16: array<int>, ll4: array<int>, orig: nat, ghost l: seq<Byte>) returns (ghost cycle: set<int>)
    requires ll16 != ll4 && orig < |l| <= 16 * 65536 && WellSized(ll16[..], ll4[..], |l|)
    requires forall x :: 0 <= x < |l| ==> GetLl(ll16[..], ll4[..], x) == Lf(l, x)
    modifies ll16, ll4
    ensures orig in cycle && IsSmallVector(ll16[..], ll4[..], l, cycle)
  {
    hide Lf, Inv, Nibble, IsSmallVector, Reversing;
    cycle := {};
    var i := orig;
    ReverseBegun(ll16[..], ll4[..], l, orig);
    var j := GetLl(ll16[..], ll4[..], i);
    var first := true;
    while first || i != orig
      invariant 0 <= i < |l| && (first ==> cycle == {} && i == orig) && (!first ==> i in cycle)
      invariant Reversing(ll16[..], ll4[..], l, orig, cycle, i) && WellSized(ll16[..], ll4[..], |l|)
      invariant first || i != orig ==> j == Lf(l, i)
      decreases Upto(|l|) - cycle, first
    {
      ghost var a, b := ll16[..], ll4[..];
      Ahead(a, b, l, orig, cycle, i);
      var tmp := GetLl(ll16[..], ll4[..], j);
      SetLl(ll16, ll4, j, i, |l|);
      assert Turned(a, b, ll16[..], ll4[..], |l|, i, j);
      ReverseStep(a, b, ll16[..], ll4[..], l, orig, cycle, i);
      cycle := cycle + {j};
      first := false;
      i, j := j, tmp;
    }
    CycleTurned(ll16[..], ll4[..], l, orig, cycle);
  }

  // One step of the walk.
  method GetSmall(ll16: array<int>, ll4: array<int>, cftab: array<int>, tPos: nat, ghost l: seq<Byte>,
                  ghost cycle: set<int>) returns (c: Byte, tPos': nat)
    requires IsSmallVector(ll16[..], ll4[..], l, cycle) && tPos in cycle && IsCftab(cftab[..], l)
    ensures tPos' == Inv(l, tPos) && c == l[tPos'] && tPos' in cycle
  {
    c := IndexIntoF(tPos, cftab, l);
    FirstColumn(l, tPos, c);
    tPos' := GetLl(ll16[..], ll4[..], tPos);
  }
}
