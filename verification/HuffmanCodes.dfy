// Canonical codes: BZ2_hbAssignCodes, the tables of BZ2_hbCreateDecodeTables, and reading a symbol with them.
module HuffmanCodes {
  import opened Common
  import opened Counting
  import opened HuffmanTree
  import opened Bits

  const BZ_MAX_CODE_LEN := 23

  // Lengths of a code, at least one bit and at most top, satisfying Kraft's inequality.
  ghost predicate CodeLengths(len: seq<int>, top: nat) {
    && (forall i :: 0 <= i < |len| ==> 1 <= len[i] <= top)
    && Sum(Shares(len, top)) <= Pow2(top)
  }

  // How many codes have n bits.
  function OfLength(len: seq<int>, n: int): nat {
    Count(len, n, |len|)
  }

  // The first code of n bits: what is left by the shorter ones, one bit longer.
  function FirstCode(len: seq<int>, n: nat): nat {
    if n == 0 then 0 else 2 * (FirstCode(len, n - 1) + OfLength(len, n - 1))
  }

  // One more than the last code of n bits.
  function EndCode(len: seq<int>, n: nat): nat {
    FirstCode(len, n) + OfLength(len, n)
  }

  function Code(len: seq<int>, i: nat): nat
    requires i < |len| && len[i] >= 0
  {
    FirstCode(len, len[i]) + Count(len, len[i], i)
  }

  // ---- codes fit their lengths --------------------------------------------

  // Code space taken by codes of at most n bits, in units of n-bit codes.
  ghost function Taken(len: seq<int>, n: nat): (r: seq<int>)
    ensures |r| == |len|
  {
    seq(|len|, i requires 0 <= i < |len| => if 0 <= len[i] <= n then Pow2(n - len[i]) else 0)
  }

  lemma {:induction false} TakenNext(len: seq<int>, n: nat)
    requires forall i :: 0 <= i < |len| ==> len[i] >= 0
    ensures Sum(Taken(len, n + 1)) == 2 * Sum(Taken(len, n)) + OfLength(len, n + 1)
  {
    if len != [] {
      var m := |len| - 1;
      TakenNext(len[..m], n);
      assert Taken(len, n)[..m] == Taken(len[..m], n);
      assert Taken(len, n + 1)[..m] == Taken(len[..m], n + 1);
      CountPrefixOf(len, n + 1, m);
    }
  }

  lemma {:induction false} CountPrefixOf(l: seq<int>, c: int, i: nat)
    requires i <= |l|
    ensures Count(l[..i], c, i) == Count(l, c, i)
  {
    CountSlice(l, c, i, i);
  }

  lemma {:induction false} CountSlice(l: seq<int>, c: int, m: nat, i: nat)
    requires i <= m <= |l|
    ensures Count(l[..m], c, i) == Count(l, c, i)
  {
    if i > 0 {
      CountSlice(l, c, m, i - 1);
    }
  }

  lemma {:induction false} NoneShort(len: seq<int>, i: nat)
    requires i <= |len| && forall i :: 0 <= i < |len| ==> len[i] >= 1
    ensures Count(len, 0, i) == 0
  {
    if i > 0 {
      NoneShort(len, i - 1);
    }
  }

  lemma {:induction false} TakenIsEnd(len: seq<int>, n: nat)
    requires forall i :: 0 <= i < |len| ==> len[i] >= 1
    ensures Sum(Taken(len, n)) == EndCode(len, n)
  {
    if n == 0 {
      NoneShort(len, |len|);
      SumZero(Taken(len, 0));
    } else {
      TakenNext(len, n - 1);
      TakenIsEnd(len, n - 1);
    }
  }

  lemma {:induction false} EndGrows(len: seq<int>, n: nat, m: nat)
    requires n <= m
    ensures EndCode(len, n) * Pow2(m - n) <= EndCode(len, m)
    ensures n < m ==> EndCode(len, n) * Pow2(m - n) <= FirstCode(len, m)
  {
    if n < m {
      EndGrows(len, n, m - 1);
      assert EndCode(len, n) * Pow2(m - n) == 2 * (EndCode(len, n) * Pow2(m - 1 - n));
    }
  }

  lemma EndFits(len: seq<int>, top: nat, n: nat)
    requires CodeLengths(len, top) && n <= top
    ensures EndCode(len, n) <= Pow2(n)
  {
    TakenIsEnd(len, top);
    assert Taken(len, top) == Shares(len, top);
    EndGrows(len, n, top);
    Pow2Add(n, top - n);
    if EndCode(len, n) > Pow2(n) {
      MulStrict(EndCode(len, n), Pow2(n), Pow2(top - n));
    }
  }

  lemma MulStrict(x: nat, y: nat, z: nat)
    requires x > y && z > 0
    ensures x * z > y * z
  {
  }

  // Every code fits its length.
  lemma CodeFits(len: seq<int>, top: nat, i: nat)
    requires CodeLengths(len, top) && i < |len|
    ensures FirstCode(len, len[i]) <= Code(len, i) < EndCode(len, len[i]) <= Pow2(len[i])
  {
    CountGrows(len, len[i], i, |len|);
    EndFits(len, top, len[i]);
  }

  // ---- codes are prefix-free ----------------------------------------------

  // Cut to n bits, a longer code is past all codes of n bits.
  lemma LongerAbove(len: seq<int>, top: nat, i: nat, n: nat)
    requires CodeLengths(len, top) && i < |len| && n < len[i]
    ensures Shr(Code(len, i), len[i] - n) >= EndCode(len, n)
  {
    EndGrows(len, n, len[i]);
    ShrBounds(Code(len, i), len[i] - n, EndCode(len, n));
  }

  lemma LongerDiffers(len: seq<int>, top: nat, i: nat, j: nat)
    requires CodeLengths(len, top) && i < |len| && j < |len| && len[i] < len[j]
    ensures ToBits(Code(len, j), len[j])[..len[i]] != ToBits(Code(len, i), len[i])
  {
    var k := len[j] - len[i];
    CodeFits(len, top, i);
    CodeFits(len, top, j);
    ToBitsPrefix(Code(len, j), len[j], k);
    FromToBits(Code(len, i), len[i]);
    LongerAbove(len, top, j, len[i]);
    ShrSmall(Code(len, j), len[i], k);
  }

  lemma EqualDiffers(len: seq<int>, top: nat, i: nat, j: nat)
    requires CodeLengths(len, top) && i < j < |len| && len[i] == len[j]
    ensures Code(len, i) != Code(len, j) && ToBits(Code(len, j), len[j]) != ToBits(Code(len, i), len[i])
  {
    CodeFits(len, top, i);
    CodeFits(len, top, j);
    CountGrows(len, len[i], i, j);
    FromToBits(Code(len, i), len[i]);
    FromToBits(Code(len, j), len[j]);
  }

  // No code is the start of another.
  lemma PrefixFree(len: seq<int>, top: nat, i: nat, j: nat)
    requires CodeLengths(len, top) && i < |len| && j < |len| && i != j && len[i] <= len[j]
    ensures ToBits(Code(len, j), len[j])[..len[i]] != ToBits(Code(len, i), len[i])
  {
    if len[i] < len[j] {
      LongerDiffers(len, top, i, j);
    } else {
      var s := ToBits(Code(len, j), len[j]);
      assert s[..len[i]] == s;
      if i < j {
        EqualDiffers(len, top, i, j);
      } else {
        EqualDiffers(len, top, j, i);
      }
    }
  }

  lemma ShrSmall(v: nat, n: nat, k: nat)
    requires v < Pow2(n + k)
    ensures Shr(v, k) < Pow2(n) && FromBits(ToBits(Shr(v, k), n)) == Shr(v, k)
  {
    Pow2Add(n, k);
    ShrBounds(v, k, Pow2(n));
    FromToBits(Shr(v, k), n);
  }

  // ---- assigning codes ----------------------------------------------------

  method AssignCodes(code: array<int>, length: array<int>, minLen: int, maxLen: int, alphaSize: int,
                     ghost len: seq<int>)
    requires code != length && 0 <= alphaSize <= code.Length && alphaSize <= length.Length && length[..alphaSize] == len
    requires 0 <= minLen <= maxLen && forall i :: 0 <= i < alphaSize ==> minLen <= len[i] <= maxLen
    modifies code
    ensures forall i :: 0 <= i < alphaSize ==> code[i] == Code(len, i)
  {
    var vec := 0;
    NothingBelow(len, minLen);
    for n := minLen to maxLen + 1
      invariant length[..alphaSize] == len && vec == FirstCode(len, n)
      invariant forall i :: 0 <= i < alphaSize && len[i] < n ==> code[i] == Code(len, i)
    {
      for i := 0 to alphaSize
        invariant length[..alphaSize] == len && vec == FirstCode(len, n) + Count(len, n, i)
        invariant forall j :: 0 <= j < alphaSize && (len[j] < n || (len[j] == n && j < i)) ==> code[j] == Code(len, j)
      {
        assert length[i] == len[i];
        if length[i] == n {
          code[i] := vec;
          vec := vec + 1;
        }
      }
      vec := vec * 2;
    }
  }

  lemma {:induction false} NothingBelow(len: seq<int>, n: nat)
    requires forall i :: 0 <= i < |len| ==> n <= len[i]
    ensures FirstCode(len, n) == 0
  {
    if n > 0 {
      NothingBelow(len, n - 1);
      NoneOf(len, n - 1, |len|);
    }
  }

  lemma {:induction false} NoneOf(l: seq<int>, c: int, i: nat)
    requires i <= |l| && forall k :: 0 <= k < |l| ==> l[k] != c
    ensures Count(l, c, i) == 0
  {
    if i > 0 {
      NoneOf(l, c, i - 1);
    }
  }

  // ---- the decoding tables ------------------------------------------------

  // A symbol's place when symbols are ordered by length, then by number.
  function Place(len: seq<int>, j: nat): nat
    requires j < |len|
  {
    CountBelow(len, len[j], |len|) + Count(len, len[j], j)
  }

  ghost predicate Permuted(len: seq<int>, perm: seq<int>) {
    |len| <= |perm| && forall j :: 0 <= j < |len| ==> Place(len, j) < |len| && perm[Place(len, j)] == j
  }

  ghost predicate Limits(len: seq<int>, minLen: int, maxLen: int, limit: seq<int>) {
    && 0 <= minLen <= maxLen < BZ_MAX_CODE_LEN <= |limit|
    && forall n :: minLen <= n <= maxLen ==> limit[n] == EndCode(len, n) - 1
  }

  ghost predicate Bases(len: seq<int>, minLen: int, maxLen: int, base: seq<int>) {
    && 0 <= minLen <= maxLen < BZ_MAX_CODE_LEN <= |base|
    && forall n :: minLen <= n <= maxLen ==> base[n] == FirstCode(len, n) - CountBelow(len, n, |len|)
  }

  // Symbols shorter than n bits, and those of n bits before symbol m, have been given their places.
  ghost predicate Placing(len: seq<int>, perm: seq<int>, n: int, m: nat, pp: int) {
    && m <= |len| <= |perm| && pp == CountBelow(len, n, |len|) + Count(len, n, m) <= |len|
    && forall j :: 0 <= j < |len| && (len[j] < n || (len[j] == n && j < m)) ==>
         Place(len, j) < pp && perm[Place(len, j)] == j
  }

  lemma PlacingStep(len: seq<int>, perm: seq<int>, n: int, m: nat, pp: int)
    requires Placing(len, perm, n, m, pp) && m < |len|
    ensures len[m] == n ==> 0 <= pp < |len| && Placing(len, perm[pp := m], n, m + 1, pp + 1)
    ensures len[m] != n ==> Placing(len, perm, n, m + 1, pp)
  {
    CountGrows(len, n, m + 1, |len|);
    CountSplit(len, n, n + 1, |len|);
  }

  lemma PlacingNext(len: seq<int>, perm: seq<int>, n: int, pp: int)
    requires Placing(len, perm, n, |len|, pp)
    ensures Placing(len, perm, n + 1, 0, pp)
  {
    CountSplit(len, n, n + 1, |len|);
  }

  // The symbols among the first m whose codes have n bits.
  function OfSize(len: seq<int>, n: int, m: nat): (r: seq<int>)
    requires m <= |len|
    ensures |r| == Count(len, n, m)
  {
    if m == 0 then [] else OfSize(len, n, m - 1) + (if len[m - 1] == n then [m - 1] else [])
  }

  // Symbols with codes of lo to hi - 1 bits, in the order of their lengths.
  function BySize(len: seq<int>, lo: int, hi: int): seq<int>
    decreases hi - lo
  {
    if hi <= lo then [] else BySize(len, lo, hi - 1) + OfSize(len, hi - 1, |len|)
  }

  // The front of p is listed so far, the rest as it was.
  ghost predicate Listed(p0: seq<int>, p: seq<int>, front: seq<int>) {
    && |front| <= |p| == |p0|
    && p[..|front|] == front && p[|front|..] == p0[|front|..]
  }

  lemma ListedMore(p0: seq<int>, p: seq<int>, front: seq<int>, x: int)
    requires Listed(p0, p, front) && |front| < |p|
    ensures Listed(p0, p[|front| := x], front + [x])
  {
    var q := p[|front| := x];
    assert q[..|front| + 1] == p[..|front|] + [x];
    forall k | |front| + 1 <= k < |p| ensures q[k] == p0[k] {
      assert p[|front|..][k - |front|] == p0[|front|..][k - |front|];
    }
  }

  lemma ListingStep(len: seq<int>, done: seq<int>, i: int, j: nat, front: seq<int>)
    requires j < |len| && front == done + OfSize(len, i, j)
    ensures len[j] == i ==> front + [j] == done + OfSize(len, i, j + 1)
    ensures len[j] != i ==> front == done + OfSize(len, i, j + 1)
  {
  }

  method FillPerm(perm: array<int>, length: array<int>, minLen: int, maxLen: int, alphaSize: int, ghost len: seq<int>)
    requires perm != length && 0 <= alphaSize <= perm.Length && alphaSize <= length.Length && length[..alphaSize] == len
    requires 0 <= minLen <= maxLen && forall i :: 0 <= i < alphaSize ==> minLen <= len[i] <= maxLen
    modifies perm
    ensures Permuted(len, perm[..]) && Listed(old(perm[..]), perm[..], BySize(len, minLen, maxLen + 1))
  {
    var pp := 0;
    ghost var p, p0, front := perm[..], perm[..], [];
    CountBelowEnds(len, minLen, maxLen + 1, alphaSize);
    for i := minLen to maxLen + 1
      invariant length[..alphaSize] == len && perm[..] == p && Placing(len, p, i, 0, pp)
      invariant pp == |front| && Listed(p0, p, front) && front == BySize(len, minLen, i)
    {
      ghost var done := front;
      assert done + [] == done;
      for j := 0 to alphaSize
        invariant length[..alphaSize] == len && perm[..] == p && Placing(len, p, i, j, pp)
        invariant pp == |front| && Listed(p0, p, front) && front == done + OfSize(len, i, j)
      {
        assert length[j] == len[j];
        PlacingStep(len, p, i, j, pp);
        ListingStep(len, done, i, j, front);
        if length[j] == i {
          ListedMore(p0, p, front, j);
          perm[pp] := j;
          p, front := p[pp := j], front + [j];
          pp := pp + 1;
        }
      }
      PlacingNext(len, p, i, pp);
    }
  }

  method CountLengths(base: array<int>, length: array<int>, alphaSize: int, ghost len: seq<int>)
    requires base != length && 0 <= alphaSize <= length.Length && length[..alphaSize] == len
    requires BZ_MAX_CODE_LEN <= base.Length
    requires forall i :: 0 <= i < alphaSize ==> 1 <= len[i] <= BZ_MAX_CODE_LEN - 3
    modifies base
    ensures forall n :: 0 <= n < BZ_MAX_CODE_LEN ==> base[n] == CountBelow(len, n, alphaSize)
  {
    for i := 0 to BZ_MAX_CODE_LEN
      invariant forall n :: 0 <= n < i ==> base[n] == 0
    {
      base[i] := 0;
    }
    for i := 0 to alphaSize
      invariant length[..alphaSize] == len
      invariant forall n :: 0 <= n < BZ_MAX_CODE_LEN ==> base[n] == Count(len, n - 1, i)
    {
      assert length[i] == len[i];
      base[length[i] + 1] := base[length[i] + 1] + 1;
    }
    NoneOf(len, -1, alphaSize);
    CountBelowEnds(len, 0, BZ_MAX_CODE_LEN, alphaSize);
    for i := 1 to BZ_MAX_CODE_LEN
      invariant forall n :: 0 <= n < i ==> base[n] == CountBelow(len, n, alphaSize)
      invariant forall n :: i <= n < BZ_MAX_CODE_LEN ==> base[n] == Count(len, n - 1, alphaSize)
    {
      CountSplit(len, i - 1, i, alphaSize);
      base[i] := base[i] + base[i - 1];
    }
  }

  method FillLimits(limit: array<int>, base: array<int>, minLen: int, maxLen: int, alphaSize: int, ghost len: seq<int>)
    requires limit != base && BZ_MAX_CODE_LEN <= base.Length && BZ_MAX_CODE_LEN <= limit.Length && alphaSize == |len|
    requires 0 <= minLen <= maxLen <= BZ_MAX_CODE_LEN - 3
             && forall i :: 0 <= i < alphaSize ==> minLen <= len[i] <= maxLen
    requires forall n :: 0 <= n < BZ_MAX_CODE_LEN ==> base[n] == CountBelow(len, n, alphaSize)
    modifies limit
    ensures Limits(len, minLen, maxLen, limit[..]) && LimitsAll(len, minLen, maxLen, limit[..])
  {
    for i := 0 to BZ_MAX_CODE_LEN
      invariant forall n :: 0 <= n < i ==> limit[n] == 0
    {
      limit[i] := 0;
    }
    var vec := 0;
    NothingBelow(len, minLen);
    for i := minLen to maxLen + 1
      invariant vec == FirstCode(len, i)
      invariant forall n :: minLen <= n < i ==> limit[n] == EndCode(len, n) - 1
      invariant forall n :: 0 <= n < BZ_MAX_CODE_LEN && !(minLen <= n < i) ==> limit[n] == 0
    {
      CountSplit(len, i, i + 1, alphaSize);
      vec := vec + (base[i + 1] - base[i]);
      limit[i] := vec - 1;
      vec := vec * 2;
    }
  }

  // The whole of the limit and base vectors, the lengths no code has included.
  ghost predicate LimitsAll(len: seq<int>, minLen: int, maxLen: int, limit: seq<int>) {
    && BZ_MAX_CODE_LEN <= |limit|
    && forall n: nat :: n < BZ_MAX_CODE_LEN ==> limit[n] == if minLen <= n <= maxLen then EndCode(len, n) - 1 else 0
  }

  ghost predicate BasesAll(len: seq<int>, minLen: int, maxLen: int, base: seq<int>) {
    && BZ_MAX_CODE_LEN <= |base|
    && forall n: nat :: n < BZ_MAX_CODE_LEN ==>
         base[n] == if minLen < n <= maxLen then FirstCode(len, n) - CountBelow(len, n, |len|)
                    else CountBelow(len, n, |len|)
  }

  method CreateDecodeTables(limit: array<int>, base: array<int>, perm: array<int>, length: array<int>, minLen: int,
                            maxLen: int, alphaSize: int, ghost len: seq<int>)
    requires limit != base && limit != perm && limit != length && base != perm && base != length && perm != length
    requires BZ_MAX_CODE_LEN <= base.Length && BZ_MAX_CODE_LEN <= limit.Length
    requires 0 <= alphaSize <= perm.Length && alphaSize <= length.Length && length[..alphaSize] == len
    requires 1 <= minLen <= maxLen <= BZ_MAX_CODE_LEN - 3
             && forall i :: 0 <= i < alphaSize ==> minLen <= len[i] <= maxLen
    modifies limit, base, perm
    ensures Limits(len, minLen, maxLen, limit[..]) && Bases(len, minLen, maxLen, base[..]) && Permuted(len, perm[..])
    ensures LimitsAll(len, minLen, maxLen, limit[..]) && BasesAll(len, minLen, maxLen, base[..])
    ensures Listed(old(perm[..]), perm[..], BySize(len, minLen, maxLen + 1))
  {
    hide LimitsAll, BasesAll, Permuted, BySize;
    FillPerm(perm, length, minLen, maxLen, alphaSize, len);
    CountLengths(base, length, alphaSize, len);
    FillLimits(limit, base, minLen, maxLen, alphaSize, len);
    SettleBases(limit, base, minLen, maxLen, len);
  }

  // Entries before i have been turned into differences.
  ghost predicate Settling(len: seq<int>, b0: seq<int>, b: seq<int>, minLen: int, i: int) {
    && |b| == |b0| && 0 <= minLen < i
    && (forall n :: minLen <= n < i && n < |b| ==> b[n] == FirstCode(len, n) - CountBelow(len, n, |len|))
    && forall n :: 0 <= n < |b| && !(minLen < n < i) ==> b[n] == b0[n]
  }

  lemma LimitBefore(len: seq<int>, minLen: int, maxLen: int, limit: seq<int>, i: int)
    requires Limits(len, minLen, maxLen, limit) && minLen < i <= maxLen
    ensures (limit[i - 1] + 1) * 2 == FirstCode(len, i)
  {
    assert limit[i - 1] == EndCode(len, i - 1) - 1;
  }

  // From how many codes are shorter to what must be subtracted from a code to get its place.
  method SettleBases(limit: array<int>, base: array<int>, minLen: int, maxLen: int, ghost len: seq<int>)
    requires limit != base && BZ_MAX_CODE_LEN <= base.Length && BZ_MAX_CODE_LEN <= limit.Length
    requires 1 <= minLen <= maxLen <= BZ_MAX_CODE_LEN - 3 && forall i :: 0 <= i < |len| ==> minLen <= len[i] <= maxLen
    requires Limits(len, minLen, maxLen, limit[..])
    requires forall n :: 0 <= n < BZ_MAX_CODE_LEN ==> base[n] == CountBelow(len, n, |len|)
    modifies base
    ensures Bases(len, minLen, maxLen, base[..]) && BasesAll(len, minLen, maxLen, base[..])
  {
    NothingBelow(len, minLen);
    CountBelowEnds(len, minLen, maxLen + 1, |len|);
    ghost var b0 := base[..];
    for i := minLen + 1 to maxLen + 1
      invariant Settling(len, b0, base[..], minLen, i)
    {
      LimitBefore(len, minLen, maxLen, limit[..], i);
      base[i] := (limit[i - 1] + 1) * 2 - base[i];
    }
  }

  // ---- reading one symbol -------------------------------------------------

  // A symbol read off the front of a bit string, and the bits after it.
  datatype Read = Read(symbol: int, rest: seq<bool>)

  // Bits are added one at a time until the code is within the limit for its length.
  function Scan(limit: seq<int>, zn: nat, zvec: nat, bits: seq<bool>): (r: Option<(nat, nat, seq<bool>)>)
    requires |limit| >= BZ_MAX_CODE_LEN
    ensures r.Some? ==> r.value.0 <= 20
    decreases |bits|
  {
    if zn > 20 then None
    else if zvec <= limit[zn] then Some((zn, zvec, bits))
    else if bits == [] then None
    else Scan(limit, zn + 1, 2 * zvec + (if bits[0] then 1 else 0), bits[1..])
  }

  function ReadSymbol(limit: seq<int>, base: seq<int>, perm: seq<int>, minLen: nat, bits: seq<bool>): Option<Read>
    requires |limit| >= BZ_MAX_CODE_LEN && |base| >= BZ_MAX_CODE_LEN
  {
    if |bits| < minLen then None
    else match Scan(limit, minLen, FromBits(bits[..minLen]), bits[minLen..])
      case Some((zn, zvec, rest)) =>
        if 0 <= zvec - base[zn] < |perm| then Some(Read(perm[zvec - base[zn]], rest)) else None
      case None => None
  }

  lemma {:induction false} ShrBit(v: nat, n: nat, k: nat)
    requires 0 < k <= n
    ensures Shr(v, k - 1) == 2 * Shr(v, k) + (if ToBits(v, n)[n - k] then 1 else 0)
  {
    if k > 1 {
      ShrBit(v / 2, n - 1, k - 1);
    }
  }

  lemma {:induction false} ScanFinds(len: seq<int>, top: nat, minLen: nat, maxLen: nat, limit: seq<int>, i: nat,
                                     zn: nat, rest: seq<bool>)
    requires CodeLengths(len, top) && Limits(len, minLen, maxLen, limit) && maxLen <= 20
    requires i < |len| && minLen <= zn <= len[i] <= maxLen
    ensures Scan(limit, zn, Shr(Code(len, i), len[i] - zn), ToBits(Code(len, i), len[i])[zn..] + rest)
            == Some((len[i], Code(len, i), rest))
    decreases len[i] - zn
  {
    hide FirstCode, Count, CountBelow, ToBits, Code;
    var c, n := Code(len, i), len[i];
    var bits := ToBits(c, n);
    CodeFits(len, top, i);
    if zn < n {
      LongerAbove(len, top, i, zn);
      ShrBit(c, n, n - zn);
      assert (bits[zn..] + rest)[1..] == bits[zn + 1..] + rest;
      ScanFinds(len, top, minLen, maxLen, limit, i, zn + 1, rest);
    } else {
      assert bits[n..] + rest == rest;
    }
  }

  // Reading back the code of a symbol takes exactly its bits and gives the symbol.
  lemma ReadsBack(len: seq<int>, top: nat, minLen: nat, maxLen: nat, limit: seq<int>, base: seq<int>, perm: seq<int>,
                  i: nat, rest: seq<bool>)
    requires CodeLengths(len, top) && maxLen <= 20 && i < |len| && minLen <= len[i] <= maxLen
    requires Limits(len, minLen, maxLen, limit) && Bases(len, minLen, maxLen, base) && Permuted(len, perm)
    ensures ReadSymbol(limit, base, perm, minLen, ToBits(Code(len, i), len[i]) + rest) == Some(Read(i, rest))
  {
    hide FirstCode, Count, CountBelow, ToBits, Scan;
    var c, n := Code(len, i), len[i];
    var bits := ToBits(c, n);
    CodeFits(len, top, i);
    ToBitsPrefix(c, n, n - minLen);
    Pow2Add(minLen, n - minLen);
    ShrSmall(c, minLen, n - minLen);
    assert (bits + rest)[..minLen] == bits[..minLen];
    assert (bits + rest)[minLen..] == bits[minLen..] + rest;
    ScanFinds(len, top, minLen, maxLen, limit, i, minLen, rest);
    assert c - base[n] == Place(len, i);
  }
}
