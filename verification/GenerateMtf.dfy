// makeMaps_e and generateMTFValues: from a sorted block to move-to-front symbols and their counts.
module GenerateMtf {
  import opened Common
  import opened Counting
  import opened Rotations
  import opened MoveToFront

  const BZ_MAX_ALPHA_SIZE := 258

  // ---- the maps between bytes and their ranks among the bytes in use ------

  function Used(inUse: seq<bool>, i: nat): (r: seq<int>)
    requires i <= |inUse|
    ensures |r| <= i && forall k :: 0 <= k < |r| ==> 0 <= r[k] < i && inUse[r[k]]
  {
    if i == 0 then [] else Used(inUse, i - 1) + (if inUse[i - 1] then [i - 1] else [])
  }

  // rank takes every byte in use to its index among them.
  ghost predicate Ranks(inUse: seq<bool>, rank: seq<int>, i: nat) {
    && i <= |inUse| == |rank|
    && forall c :: 0 <= c < i && inUse[c] ==> 0 <= rank[c] < |Used(inUse, i)| && Used(inUse, i)[rank[c]] == c
  }

  lemma UsedNext(inUse: seq<bool>, i: nat)
    requires i < |inUse|
    ensures Used(inUse, i + 1) == Used(inUse, i) + (if inUse[i] then [i] else [])
  {
  }

  lemma RanksStep(inUse: seq<bool>, rank: seq<int>, i: nat)
    requires i < |inUse| && Ranks(inUse, rank, i)
    ensures Ranks(inUse, if inUse[i] then rank[i := |Used(inUse, i)|] else rank, i + 1)
  {
    hide Used;
    var rank' := if inUse[i] then rank[i := |Used(inUse, i)|] else rank;
    var u := Used(inUse, i);
    UsedNext(inUse, i);
    forall c | 0 <= c < i + 1 && inUse[c]
      ensures 0 <= rank'[c] < |Used(inUse, i + 1)| && Used(inUse, i + 1)[rank'[c]] == c
    {
      assert c < i ==> u[rank[c]] == c;
    }
  }

  method MakeMapsE(inUse: array<bool>, unseqToSeq: array<int>) returns (nInUse: nat)
    requires inUse.Length == 256 == unseqToSeq.Length
    modifies unseqToSeq
    ensures nInUse == |Used(inUse[..], 256)| && Ranks(inUse[..], unseqToSeq[..], 256)
  {
    nInUse := 0;
    for i := 0 to 256
      invariant nInUse == |Used(inUse[..], i)| && Ranks(inUse[..], unseqToSeq[..], i)
    {
      RanksStep(inUse[..], unseqToSeq[..], i);
      if inUse[i] {
        ghost var rank := unseqToSeq[..];
        unseqToSeq[i] := nInUse;
        assert unseqToSeq[..] == rank[i := nInUse];
        nInUse := nInUse + 1;
      }
    }
  }

  // The decoder's makeMaps_d builds the list itself.
  method MakeMapsD(inUse: array<bool>, seqToUnseq: array<Byte>) returns (nInUse: nat)
    requires inUse.Length == 256 == seqToUnseq.Length && inUse as object != seqToUnseq
    modifies seqToUnseq
    ensures nInUse == |Used(inUse[..], 256)| && forall k :: 0 <= k < nInUse ==> seqToUnseq[k] == Used(inUse[..], 256)[k]
    ensures forall k :: nInUse <= k < 256 ==> seqToUnseq[k] == old(seqToUnseq[k])
  {
    ghost var u, s := inUse[..], seqToUnseq[..];
    nInUse := 0;
    for i := 0 to 256
      invariant nInUse == |Used(u, i)| && inUse[..] == u
                && forall k :: 0 <= k < nInUse ==> seqToUnseq[k] == Used(u, i)[k]
      invariant forall k :: nInUse <= k < 256 ==> seqToUnseq[k] == s[k]
    {
      if inUse[i] {
        seqToUnseq[nInUse] := i;
        nInUse := nInUse + 1;
      }
    }
  }

  // ---- symbol counts ------------------------------------------------------

  ghost predicate FreqIs(freq: seq<int>, out: seq<int>) {
    |freq| == BZ_MAX_ALPHA_SIZE && forall v :: 0 <= v < BZ_MAX_ALPHA_SIZE ==> freq[v] == Count(out, v, |out|)
  }

  lemma {:induction false} CountPrefix(out: seq<int>, x: int, v: int, i: nat)
    requires i <= |out|
    ensures Count(out + [x], v, i) == Count(out, v, i)
  {
    if i > 0 {
      CountPrefix(out, x, v, i - 1);
    }
  }

  lemma FreqAppend(freq: seq<int>, out: seq<int>, x: int)
    requires FreqIs(freq, out) && 0 <= x < BZ_MAX_ALPHA_SIZE
    ensures FreqIs(freq[x := freq[x] + 1], out + [x])
  {
    var freq', out' := freq[x := freq[x] + 1], out + [x];
    forall v | 0 <= v < BZ_MAX_ALPHA_SIZE ensures freq'[v] == Count(out', v, |out'|) {
      CountPrefix(out, x, v, |out|);
    }
  }

  method Emit(mtfv: array<int>, mtfFreq: array<int>, wr: nat, sym: int, ghost out: seq<int>) returns (wr': nat)
    requires mtfv != mtfFreq && wr == |out| < mtfv.Length && mtfv[..wr] == out && FreqIs(mtfFreq[..], out)
    requires 0 <= sym < BZ_MAX_ALPHA_SIZE
    modifies mtfv, mtfFreq
    ensures wr' == wr + 1 && mtfv[..wr'] == out + [sym] && FreqIs(mtfFreq[..], out + [sym])
  {
    ghost var freq := mtfFreq[..];
    FreqAppend(freq, out, sym);
    mtfv[wr] := sym;
    wr' := wr + 1;
    mtfFreq[sym] := mtfFreq[sym] + 1;
    assert mtfFreq[..] == freq[sym := freq[sym] + 1];
  }

  lemma NoDigits(o: seq<int>)
    ensures o + RunDigits(0) == o
  {
  }

  // One digit of the run moves from what is to be written to what is.
  lemma DigitMoves(o: seq<int>, zPend: nat, run: seq<int>)
    requires o + RunDigits(zPend + 1) == run
    ensures (o + [zPend % 2]) + RunDigits(zPend / 2) == run
  {
    assert RunDigits(zPend + 1) == [zPend % 2] + RunDigits(zPend / 2);
  }

  // Writes a pending run, if there is one.
  method FlushRun(mtfv: array<int>, mtfFreq: array<int>, wr: nat, zPend0: nat, ghost out: seq<int>) returns (wr': nat)
    requires mtfv != mtfFreq && wr == |out| && wr + zPend0 <= mtfv.Length && mtfv[..wr] == out
    requires FreqIs(mtfFreq[..], out)
    modifies mtfv, mtfFreq
    ensures wr' == |out + RunDigits(zPend0)| && wr' <= wr + zPend0
    ensures mtfv[..wr'] == out + RunDigits(zPend0) && FreqIs(mtfFreq[..], out + RunDigits(zPend0))
  {
    hide FreqIs, RunDigits;
    wr' := wr;
    if zPend0 == 0 {
      NoDigits(out);
      return;
    }
    var zPend := zPend0 - 1;
    ghost var o := out;
    while true
      invariant 0 <= zPend && wr' == |o| && |o| + zPend + 1 <= |out| + zPend0
      invariant mtfv[..wr'] == o && FreqIs(mtfFreq[..], o)
      invariant o + RunDigits(zPend + 1) == out + RunDigits(zPend0)
      decreases zPend
    {
      DigitMoves(o, zPend, out + RunDigits(zPend0));
      if zPend % 2 == 1 {
        wr' := Emit(mtfv, mtfFreq, wr', BZ_RUNB, o);
      } else {
        wr' := Emit(mtfv, mtfFreq, wr', BZ_RUNA, o);
      }
      o := o + [zPend % 2];
      if zPend < 2 {
        NoDigits(o);
        break;
      }
      zPend := (zPend - 2) / 2;
    }
  }

  // ---- one move -----------------------------------------------------------

  // Entries before j have moved one place on; the one taken out of place j is in hand.
  ghost predicate Pulling(yy0: seq<int>, yy: seq<int>, j: nat) {
    && 0 < j < |yy0| == |yy|
    && (forall x :: 0 < x <= j ==> yy[x] == yy0[x - 1])
    && forall x :: j < x < |yy| ==> yy[x] == yy0[x]
  }

  lemma PullStep(yy0: seq<int>, yy: seq<int>, j: nat)
    requires Pulling(yy0, yy, j) && j + 1 < |yy0|
    ensures Pulling(yy0, yy[j + 1 := yy0[j]], j + 1)
  {
  }

  lemma PullEnd(yy0: seq<int>, yy: seq<int>, j: nat)
    requires Pulling(yy0, yy, j)
    ensures yy[0 := yy0[j]] == Moved(yy0, j)
  {
    forall x | 0 <= x < |yy| ensures yy[0 := yy0[j]][x] == Moved(yy0, j)[x] {
      MovedAt(yy0, j, x);
    }
  }

  method MoveTo(yy: array<int>, n: nat, ll: int, ghost list: seq<int>) returns (j: nat)
    requires n <= yy.Length && yy[..n] == list && ll in list && list[0] != ll
    modifies yy
    ensures j == IndexOf(list, ll) > 0 && yy[..n] == Moved(list, j)
  {
    ghost var at := IndexOf(list, ll);
    var rtmp := yy[1];
    assert rtmp == list[1];
    yy[1] := yy[0];
    j := 1;
    ghost var y := list[1 := list[0]];
    while ll != rtmp
      invariant 0 < j <= at && yy[..n] == y && Pulling(list, y, j) && rtmp == list[j]
      decreases n - j
    {
      PullStep(list, y, j);
      j := j + 1;
      var rtmp2 := rtmp;
      rtmp := yy[j];
      assert rtmp == y[j];
      yy[j] := rtmp2;
      y := y[j := rtmp2];
    }
    PullEnd(list, y, j);
    yy[0] := rtmp;
    assert yy[..n] == y[0 := rtmp];
  }

  // ---- the whole pass -----------------------------------------------------

  function FirstList(n: nat): (r: seq<int>)
    ensures |r| == n && forall i :: 0 <= i < n ==> r[i] == i
  {
    seq(n, i => i)
  }

  // Ranks of the bytes before the rotations of ptr: the last column of the sorted block.
  ghost predicate Column(b: seq<Byte>, p: seq<int>, rank: seq<int>, col: seq<int>, nInUse: nat) {
    && |b| == |p| == |col| && |rank| == 256
    && forall x :: 0 <= x < |b| ==> 0 <= p[x] < |b| && col[x] == rank[b[Prev(|b|, p[x])]] && 0 <= col[x] < nInUse
  }

  lemma ColumnIn(col: seq<int>, n: nat, i: nat)
    requires i <= |col| && forall x :: 0 <= x < |col| ==> 0 <= col[x] < n
    ensures AllIn(col[..i], FirstList(n))
  {
    forall x | 0 <= x < i ensures col[..i][x] in FirstList(n) {
      assert FirstList(n)[col[x]] == col[x];
    }
  }

  lemma CodeNext(list: seq<int>, col: seq<int>, i: nat)
    requires i < |col| && AllIn(col[..i], list) && AllIn(col[..i + 1], list)
    ensures col[i] in CodeAll(list, col[..i]).list
    ensures CodeAll(list, col[..i + 1]) == CodeOne(CodeAll(list, col[..i]), col[i])
  {
    assert col[..i + 1][..i] == col[..i];
    assert col[..i + 1][i] == col[i];
  }

  // Reads the column entry at place i; the overlay of mtfv on ptr is safe because wr <= i here.
  method ColumnAt(ptr: array<int>, block: array<Byte>, unseqToSeq: array<int>, n: nat, i: nat, ghost b: seq<Byte>,
                  ghost p: seq<int>, ghost col: seq<int>, ghost nInUse: nat) returns (ll: int)
    requires i < n <= ptr.Length && n <= block.Length && block[..n] == b && ptr[..n] == p
    requires Column(b, p, unseqToSeq[..], col, nInUse)
    ensures ll == col[i]
  {
    var j := ptr[i] - 1;
    assert ptr[i] == p[i];
    if j < 0 {
      j := j + n;
    }
    assert j == Prev(n, p[i]) && block[j] == b[j];
    ll := unseqToSeq[block[j]];
  }

  method ZeroFreq(mtfFreq: array<int>)
    requires mtfFreq.Length == BZ_MAX_ALPHA_SIZE
    modifies mtfFreq
    ensures FreqIs(mtfFreq[..], [])
  {
    for i := 0 to BZ_MAX_ALPHA_SIZE
      invariant forall v :: 0 <= v < i ==> mtfFreq[v] == 0
    {
      mtfFreq[i] := 0;
    }
  }

  // The coder's state, as the arrays hold it.
  ghost predicate Coding(yy: seq<int>, zPend: int, wr: int, mtfv: seq<int>, freq: seq<int>, nInUse: nat, s: Coder) {
    && nInUse <= |yy| && yy[..nInUse] == s.list && zPend == s.zPend
    && wr == |s.out| <= |mtfv| && mtfv[..wr] == s.out && FreqIs(freq, s.out)
  }

  method CodeByte(mtfv: array<int>, mtfFreq: array<int>, yy: array<int>, nInUse: nat, zPend0: nat, wr0: nat, ll: int,
                  ghost s: Coder) returns (zPend: nat, wr: nat)
    requires mtfv != mtfFreq && yy != mtfv && yy != mtfFreq && 0 < nInUse <= 256
    requires Coding(yy[..], zPend0, wr0, mtfv[..], mtfFreq[..], nInUse, s) && wr0 + zPend0 < mtfv.Length && ll in s.list
    modifies mtfv, mtfFreq, yy
    ensures Coding(yy[..], zPend, wr, mtfv[..], mtfFreq[..], nInUse, CodeOne(s, ll)) && wr + zPend <= wr0 + zPend0 + 1
  {
    zPend, wr := zPend0, wr0;
    assert yy[..nInUse] == s.list && mtfv[..wr] == s.out;
    if yy[0] == ll {
      assert s.list[0] == ll;
      zPend := zPend + 1;
    } else {
      assert s.list[0] != ll;
      wr := FlushRun(mtfv, mtfFreq, wr, zPend, s.out);
      zPend := 0;
      var j := MoveTo(yy, nInUse, ll, s.list);
      wr := Emit(mtfv, mtfFreq, wr, j + 1, s.out + RunDigits(s.zPend));
      assert yy[..][..nInUse] == yy[..nInUse] && mtfv[..][..wr] == mtfv[..wr];
    }
  }

  // Before place i, what has been written and what is pending come to no more than i symbols: mtfv, which lies over
  // the first half of ptr, has not reached what is still to be read there.
  lemma {:induction false} WrittenBehind(list: seq<int>, col: seq<int>, i: nat)
    requires AllIn(col, list) && i <= |col|
    ensures AllIn(col[..i], list)
    ensures |CodeAll(list, col[..i]).out| + CodeAll(list, col[..i]).zPend <= i
  {
    if i > 0 {
      WrittenBehind(list, col, i - 1);
      CodeNext(list, col, i - 1);
      var s := CodeAll(list, col[..i - 1]);
      assert |RunDigits(s.zPend)| <= s.zPend;
    }
  }

  // Codes the column place by place.
  method CodeColumn(ptr: array<int>, block: array<Byte>, unseqToSeq: array<int>, mtfv: array<int>, mtfFreq: array<int>,
                    n: nat, nInUse: nat, ghost col: seq<int>, ghost first: seq<int>) returns (zPend: nat, wr: nat)
    requires 0 < n <= ptr.Length && n <= block.Length && n + 1 <= mtfv.Length && FreqIs(mtfFreq[..], [])
    requires 0 < nInUse <= 256 && Column(block[..n], ptr[..n], unseqToSeq[..], col, nInUse)
    requires first == FirstList(nInUse)
    requires mtfv != mtfFreq && mtfv != ptr && mtfv != unseqToSeq && mtfFreq != ptr && mtfFreq != unseqToSeq
    modifies mtfv, mtfFreq
    ensures AllIn(col, first) && wr + zPend <= n && wr == |CodeAll(first, col).out|
    ensures zPend == CodeAll(first, col).zPend
    ensures mtfv[..wr] == CodeAll(first, col).out && FreqIs(mtfFreq[..], mtfv[..wr])
  {
    ghost var b, p := block[..n], ptr[..n];
    wr, zPend := 0, 0;
    var yy := new int[256](i => i);
    ColumnIn(col, nInUse, 0);
    ghost var s := CodeAll(first, col[..0]);
    assert yy[..nInUse] == first;
    for i := 0 to n
      invariant AllIn(col[..i], first) && s == CodeAll(first, col[..i]) && wr + zPend <= i
      invariant Coding(yy[..], zPend, wr, mtfv[..], mtfFreq[..], nInUse, s)
    {
      ColumnIn(col, nInUse, i + 1);
      CodeNext(first, col, i);
      var ll := ColumnAt(ptr, block, unseqToSeq, n, i, b, p, col, nInUse);
      assert wr <= i;
      zPend, wr := CodeByte(mtfv, mtfFreq, yy, nInUse, zPend, wr, ll, s);
      s := CodeOne(s, ll);
    }
    assert col[..n] == col;
  }

  method GenerateMtfValues(ptr: array<int>, block: array<Byte>, unseqToSeq: array<int>, mtfv: array<int>,
                           mtfFreq: array<int>, n: nat, nInUse: nat, ghost col: seq<int>) returns (nMTF: nat)
    requires 0 < n <= ptr.Length && n <= block.Length && n + 1 <= mtfv.Length && mtfFreq.Length == BZ_MAX_ALPHA_SIZE
    requires 0 < nInUse <= 256 && Column(block[..n], ptr[..n], unseqToSeq[..], col, nInUse)
    requires mtfv != mtfFreq && mtfv != ptr && mtfv != unseqToSeq && mtfFreq != ptr && mtfFreq != unseqToSeq
    modifies mtfv, mtfFreq
    ensures AllIn(col, FirstList(nInUse)) && nMTF <= n + 1 <= mtfv.Length
    ensures mtfv[..nMTF] == Symbols(FirstList(nInUse), col, nInUse + 1)
    ensures FreqIs(mtfFreq[..], mtfv[..nMTF])
  {
    var eob := nInUse + 1;
    ZeroFreq(mtfFreq);
    ghost var first := FirstList(nInUse);
    var zPend, wr := CodeColumn(ptr, block, unseqToSeq, mtfv, mtfFreq, n, nInUse, col, first);
    ghost var s := CodeAll(first, col);
    wr := FlushRun(mtfv, mtfFreq, wr, zPend, s.out);
    nMTF := Emit(mtfv, mtfFreq, wr, eob, s.out + RunDigits(s.zPend));
  }
}
