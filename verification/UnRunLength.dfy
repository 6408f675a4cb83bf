// unRLE_obuf_to_output_FAST and _SMALL: a block walked through either vector and expanded into as much
// room as there is, call after call.
module UnRunLength {
  import opened Common
  import opened Counting
  import opened Crc
  import opened RunLength
  import opened InverseBwt
  import opened InverseVectors
  import opened Randomising

  // What is kept between calls: a run being put out, the byte fetched ahead, how many were fetched, where a randomised
  // block's table stands, the check.
  datatype Unpacking = Unpacking(ch: Byte, len: nat, used: nat, k0: Byte, rand: Rand, crc: Word)

  // The block a column and origPtr spell.
  ghost function Walked(col: seq<Byte>, orig: nat): (b: seq<Byte>)
    requires orig < |col|
    ensures |b| == |col|
  {
    seq(|col|, k requires 0 <= k < |col| => WalkByte(col, orig, k))
  }

  // The block, its bits flipped back if it was randomised.
  ghost function Spelt(col: seq<Byte>, orig: nat, randomised: bool): (b: seq<Byte>)
    requires orig < |col|
    ensures |b| == |col|
  {
    if randomised then Flipped(Walked(col, orig)) else Walked(col, orig)
  }

  // All but the bytes from used - 1 on has been expanded into done and the run being put out. Past the end
  // there is only the count that a block cut off in a run lacks.
  ghost predicate Expanding(b: seq<Byte>, u: Unpacking, done: seq<Byte>) {
    if u.used == |b| + 2 then !Whole(b)
    else
      && 1 <= u.used <= |b| + 1
      && Content(b[..u.used - 1]) == done + Rep(u.ch, u.len)
      && if u.used <= |b| then u.k0 == b[u.used - 1] && Fresh(b, u.used - 1) else Whole(b)
  }

  // Byte i of the block begins a run.
  ghost predicate Fresh(b: seq<Byte>, i: nat)
    requires i < |b|
  {
    var s := Expanded(b[..i]);
    s.count < 4 && (s.count > 0 ==> s.ch != b[i])
  }

  // Nothing is left of the block.
  predicate Finished(b: seq<Byte>, u: Unpacking) {
    u.used == |b| + 1 && u.len == 0
  }

  // A run of j equal bytes begins at byte i.
  ghost predicate RunFrom(b: seq<Byte>, i: nat, j: nat) {
    i + j <= |b| && 1 <= j <= 4 && Expanded(b[..i + j]) == Expansion(Content(b[..i]) + Rep(b[i], j), b[i], j)
  }

  lemma RunBegins(b: seq<Byte>, i: nat)
    requires i < |b| && Fresh(b, i)
    ensures RunFrom(b, i, 1)
  {
    assert b[..i + 1] == b[..i] + [b[i]] && Rep(b[i], 1) == [b[i]];
    ExpandedAppend(b[..i], b[i]);
  }

  lemma RunGoesOn(b: seq<Byte>, i: nat, j: nat)
    requires RunFrom(b, i, j) && i + j < |b| && j < 4
    ensures b[i + j] == b[i] ==> RunFrom(b, i, j + 1)
    ensures b[i + j] != b[i] ==> Fresh(b, i + j)
    ensures Content(b[..i + j]) == Content(b[..i]) + Rep(b[i], j)
  {
    assert b[..i + j + 1] == b[..i + j] + [b[i + j]];
    ExpandedAppend(b[..i + j], b[i + j]);
    assert Rep(b[i], j) + [b[i]] == Rep(b[i], j + 1);
  }

  lemma RunCounted(b: seq<Byte>, i: nat)
    requires RunFrom(b, i, 4) && i + 4 < |b|
    ensures Content(b[..i + 5]) == Content(b[..i]) + Rep(b[i], b[i + 4] as int + 4)
    ensures if i + 5 < |b| then Fresh(b, i + 5) else b[..|b|] == b && Whole(b)
  {
    assert b[..i + 5] == b[..i + 4] + [b[i + 4]] && b[..|b|] == b;
    ExpandedAppend(b[..i + 4], b[i + 4]);
    assert Rep(b[i], 4) + Rep(b[i], b[i + 4]) == Rep(b[i], b[i + 4] as int + 4);
    assert Content(b[..i]) + Rep(b[i], 4) + Rep(b[i], b[i + 4]) == Content(b[..i])
        + (Rep(b[i], 4) + Rep(b[i], b[i + 4]));
  }

  lemma RunCutOff(b: seq<Byte>, i: nat, j: nat)
    requires RunFrom(b, i, j) && i + j == |b|
    ensures Content(b) == Content(b[..i]) + Rep(b[i], j) && (Whole(b) <==> j < 4) && b[..|b|] == b
  {
    assert b[..i + j] == b;
  }

  // ---- putting out --------------------------------------------------------

  // As much of the run as there is room for.
  method PutOut(table: Table, u: Unpacking, availOut: nat, ghost b: seq<Byte>, ghost done: seq<Byte>)
    returns (u': Unpacking, out: seq<Byte>)
    requires Expanding(b, u, done)
    ensures |out| == (if u.len <= availOut then u.len else availOut)
    ensures u' == u.(len := u.len - |out|, crc := UpdateAll(table, u.crc, out)) && Expanding(b, u', done + out)
  {
    u', out := u, [];
    while u'.len > 0 && |out| < availOut
      invariant 0 <= u'.len <= u.len && |out| == u.len - u'.len <= availOut && out == Rep(u.ch, |out|)
      invariant u' == u.(len := u.len - |out|, crc := UpdateAll(table, u.crc, out))
    {
      UpdateAppend(table, u.crc, out, u.ch);
      out := out + [u.ch];
      u' := u'.(len := u'.len - 1, crc := Update(table, u'.crc, u.ch));
    }
    assert Rep(u.ch, |out|) + Rep(u.ch, u'.len) == Rep(u.ch, u.len);
    assert done + out + Rep(u.ch, u'.len) == done + (out + Rep(u.ch, u'.len));
  }

  // ---- the fast vector ----------------------------------------------------

  // Where the walk stands after so many bytes were fetched.
  ghost predicate WalkingFast(col: seq<Byte>, orig: nat, tPos: nat, used: nat) {
    orig < |col| && tPos == WalkPos(col, orig, used)
  }

  method FetchFast(tt: array<int>, tPos: nat, ghost col: seq<Byte>, ghost orig: nat, ghost used: nat)
    returns (c: Byte, tPos': nat)
    requires IsFastVector(tt[..], col) && WalkingFast(col, orig, tPos, used)
    ensures WalkingFast(col, orig, tPos', used + 1) && (used < |col| ==> c == Walked(col, orig)[used])
  {
    c, tPos' := GetFast(tt, tPos, col);
  }

  // A new run: up to three more bytes equal to the first, or four and a count.
  method NextRunFast(tt: array<int>, tPos: nat, u: Unpacking, ghost col: seq<Byte>, ghost orig: nat,
                     ghost done: seq<Byte>, saveNblock: nat) returns (u': Unpacking, tPos': nat)
    requires orig < |col| == saveNblock && IsFastVector(tt[..], col) && WalkingFast(col, orig, tPos, u.used)
    requires u.len == 0 && u.used <= |col| && Expanding(Walked(col, orig), u, done)
    ensures WalkingFast(col, orig, tPos', u'.used) && Expanding(Walked(col, orig), u', done)
    ensures u.used < u'.used && 0 < u'.len && u'.crc == u.crc
  {
    hide Whole, Content, IsFastVector, WalkingFast, Fresh, RunFrom, Walked;
    ghost var b := Walked(col, orig);
    ghost var i := u.used - 1;
    var k1;
    RunBegins(b, i);
    u' := u.(ch := u.k0, len := 1);
    k1, tPos' := FetchFast(tt, tPos, col, orig, u'.used);
    u' := u'.(used := u'.used + 1);
    if i + 1 == |b| {
      RunCutOff(b, i, 1);
    } else {
      RunGoesOn(b, i, 1);
    }
    if k1 != u'.k0 {
      u' := u'.(k0 := k1);
      return;
    }
    if u'.used == saveNblock + 1 {
      return;
    }
    u' := u'.(len := 2);
    k1, tPos' := FetchFast(tt, tPos', col, orig, u'.used);
    u' := u'.(used := u'.used + 1);
    if u'.used == saveNblock + 1 {
      RunCutOff(b, i, 2);
      return;
    }
    RunGoesOn(b, i, 2);
    if k1 != u'.k0 {
      u' := u'.(k0 := k1);
      return;
    }
    u' := u'.(len := 3);
    k1, tPos' := FetchFast(tt, tPos', col, orig, u'.used);
    u' := u'.(used := u'.used + 1);
    if u'.used == saveNblock + 1 {
      RunCutOff(b, i, 3);
      return;
    }
    RunGoesOn(b, i, 3);
    if k1 != u'.k0 {
      u' := u'.(k0 := k1);
      return;
    }
    k1, tPos' := FetchFast(tt, tPos', col, orig, u'.used);
    u' := u'.(used := u'.used + 1, len := k1 as int + 4);
    if i + 4 == |b| {
      RunCutOff(b, i, 4);
    } else {
      RunCounted(b, i);
    }
    var k0;
    k0, tPos' := FetchFast(tt, tPos', col, orig, u'.used);
    u' := u'.(used := u'.used + 1, k0 := k0);
  }
  // Fills the room there is, or reaches the end. Only a block cut off in a run is found corrupt.
  method UnRleFast(table: Table, tt: array<int>, tPos0: nat, u0: Unpacking, availOut: nat, saveNblock: nat,
                   ghost col: seq<Byte>, ghost orig: nat, ghost done: seq<Byte>)
    returns (corrupt: bool, tPos: nat, u: Unpacking, out: seq<Byte>)
    requires orig < |col| == saveNblock && IsFastVector(tt[..], col) && WalkingFast(col, orig, tPos0, u0.used)
    requires Expanding(Walked(col, orig), u0, done)
    ensures corrupt ==> !Whole(Walked(col, orig))
    ensures !corrupt ==> WalkingFast(col, orig, tPos, u.used) && Expanding(Walked(col, orig), u, done + out)
    ensures |out| <= availOut && u.crc == UpdateAll(table, u0.crc, out)
    ensures !corrupt ==> |out| == availOut || Finished(Walked(col, orig), u)
  {
    hide Whole, Content, IsFastVector, WalkingFast, Expanding, Walked;
    tPos, u, out := tPos0, u0, [];
    assert done + out == done;
    while true
      invariant Expanding(Walked(col, orig), u, done + out) && WalkingFast(col, orig, tPos, u.used)
      invariant |out| <= availOut && u.crc == UpdateAll(table, u0.crc, out)
      decreases saveNblock + 2 - u.used
    {
      UsedAtMost(Walked(col, orig), u, done + out);
      var put;
      u, put := PutOut(table, u, availOut - |out|, Walked(col, orig), done + out);
      UpdateConcat(table, u0.crc, out, put);
      assert done + out + put == done + (out + put);
      out := out + put;
      if u.len > 0 {
        return false, tPos, u, out;
      }
      if u.used > saveNblock + 1 {
        CutOff(Walked(col, orig), u, done + out);
        return true, tPos, u, out;
      }
      if u.used == saveNblock + 1 {
        return false, tPos, u, out;
      }
      u, tPos := NextRunFast(tt, tPos, u, col, orig, done + out, saveNblock);
      UsedAtMost(Walked(col, orig), u, done + out);
    }
  }

  lemma UsedAtMost(b: seq<Byte>, u: Unpacking, done: seq<Byte>)
    requires Expanding(b, u, done)
    ensures u.used <= |b| + 2
  {
  }

  lemma CutOff(b: seq<Byte>, u: Unpacking, done: seq<Byte>)
    requires Expanding(b, u, done) && u.used > |b| + 1
    ensures !Whole(b)
  {
  }

  // When nothing is left, all of a block's content has been put out, and it was not cut off in a run.
  lemma AllPutOut(b: seq<Byte>, u: Unpacking, done: seq<Byte>)
    requires Expanding(b, u, done) && Finished(b, u)
    ensures done == Content(b) && Whole(b)
  {
    assert b[..|b|] == b;
    assert done + Rep(u.ch, 0) == done;
  }

  // ---- either vector, randomised or not ------------------------------------

  ghost predicate WalkingSmall(col: seq<Byte>, orig: nat, tPos: nat, used: nat, cycle: set<int>) {
    orig < |col| && tPos in cycle && tPos == if used == 0 then orig else WalkPos(col, orig, used - 1)
  }

  method FetchSmall(ll16: array<int>, ll4: array<int>, cftab: array<int>, tPos: nat, ghost col: seq<Byte>,
                    ghost orig: nat, ghost used: nat, ghost cycle: set<int>) returns (c: Byte, tPos': nat)
    requires IsSmallVector(ll16[..], ll4[..], col, cycle) && IsCftab(cftab[..], col)
    requires WalkingSmall(col, orig, tPos, used, cycle)
    ensures WalkingSmall(col, orig, tPos', used + 1, cycle) && (used < |col| ==> c == Walked(col, orig)[used])
  {
    c, tPos' := GetSmall(ll16, ll4, cftab, tPos, col, cycle);
  }

  datatype Vector = Fast(tt: array<int>) | Small(ll16: array<int>, ll4: array<int>, cftab: array<int>)

  // The vector is the column's, and the walk through it stands where it should.
  ghost predicate WalkingIn(v: Vector, col: seq<Byte>, orig: nat, tPos: nat, used: nat, cycle: set<int>)
    reads if v.Fast? then {v.tt} else {v.ll16, v.ll4, v.cftab}
  {
    match v
    case Fast(tt) => IsFastVector(tt[..], col) && WalkingFast(col, orig, tPos, used)
    case Small(ll16, ll4, cftab) =>
      && IsSmallVector(ll16[..], ll4[..], col, cycle) && IsCftab(cftab[..], col)
      && WalkingSmall(col, orig, tPos, used, cycle)
  }

  // The walk, and in a randomised block the table.
  ghost predicate Walks(v: Vector, randomised: bool, col: seq<Byte>, orig: nat, tPos: nat, u: Unpacking,
                        cycle: set<int>)
    reads if v.Fast? then {v.tt} else {v.ll16, v.ll4, v.cftab}
  {
    WalkingIn(v, col, orig, tPos, u.used, cycle) && (randomised ==> u.rand == RandAt(u.used))
  }

  method FetchPlain(v: Vector, tPos: nat, ghost col: seq<Byte>, ghost orig: nat, ghost used: nat, ghost cycle: set<int>)
    returns (c: Byte, tPos': nat)
    requires orig < |col| && WalkingIn(v, col, orig, tPos, used, cycle)
    ensures WalkingIn(v, col, orig, tPos', used + 1, cycle) && (used < |col| ==> c == Walked(col, orig)[used])
  {
    hide IsFastVector, IsSmallVector, IsCftab, WalkingFast, WalkingSmall, Walked;
    match v
    case Fast(tt) =>
      c, tPos' := FetchFast(tt, tPos, col, orig, used);
    case Small(ll16, ll4, cftab) =>
      c, tPos' := FetchSmall(ll16, ll4, cftab, tPos, col, orig, used, cycle);
  }

  // BZ_GET_FAST or BZ_GET_SMALL, with BZ_RAND_UPD_MASK and the mask if the block is randomised; nblock_used goes up.
  method Fetch(v: Vector, randomised: bool, tPos: nat, u: Unpacking, ghost col: seq<Byte>, ghost orig: nat,
               ghost cycle: set<int>) returns (c: Byte, tPos': nat, u': Unpacking)
    requires orig < |col| && Walks(v, randomised, col, orig, tPos, u, cycle)
    ensures Walks(v, randomised, col, orig, tPos', u', cycle) && u' == u.(used := u.used + 1, rand := u'.rand)
    ensures u.used < |col| ==> c == Spelt(col, orig, randomised)[u.used]
  {
    hide WalkingIn, Walked, Updated, Masked;
    c, tPos' := FetchPlain(v, tPos, col, orig, u.used, cycle);
    u' := u.(used := u.used + 1);
    if randomised {
      u' := u'.(rand := Updated(u.rand));
      c := Masked(u'.rand, c);
    }
  }

  // A new run: up to three more bytes equal to the first, or four and a count.
  method NextRun(v: Vector, randomised: bool, tPos: nat, u: Unpacking, ghost col: seq<Byte>, ghost orig: nat,
                 ghost cycle: set<int>, ghost done: seq<Byte>, saveNblock: nat) returns (u': Unpacking, tPos': nat)
    requires orig < |col| == saveNblock && Walks(v, randomised, col, orig, tPos, u, cycle)
    requires u.len == 0 && u.used <= |col| && Expanding(Spelt(col, orig, randomised), u, done)
    ensures Walks(v, randomised, col, orig, tPos', u', cycle) && Expanding(Spelt(col, orig, randomised), u', done)
    ensures u.used < u'.used && 0 < u'.len && u'.crc == u.crc
  {
    hide Whole, Content, WalkingIn, Fresh, RunFrom, Spelt, RandAt;
    ghost var b := Spelt(col, orig, randomised);
    ghost var i := u.used - 1;
    var k1;
    RunBegins(b, i);
    u' := u.(ch := u.k0, len := 1);
    k1, tPos', u' := Fetch(v, randomised, tPos, u', col, orig, cycle);
    if u'.used == saveNblock + 1 {
      RunCutOff(b, i, 1);
      return;
    }
    RunGoesOn(b, i, 1);
    if k1 != u'.k0 {
      u' := u'.(k0 := k1);
      return;
    }
    u' := u'.(len := 2);
    k1, tPos', u' := Fetch(v, randomised, tPos', u', col, orig, cycle);
    if u'.used == saveNblock + 1 {
      RunCutOff(b, i, 2);
      return;
    }
    RunGoesOn(b, i, 2);
    if k1 != u'.k0 {
      u' := u'.(k0 := k1);
      return;
    }
    u' := u'.(len := 3);
    k1, tPos', u' := Fetch(v, randomised, tPos', u', col, orig, cycle);
    if u'.used == saveNblock + 1 {
      RunCutOff(b, i, 3);
      return;
    }
    RunGoesOn(b, i, 3);
    if k1 != u'.k0 {
      u' := u'.(k0 := k1);
      return;
    }
    k1, tPos', u' := Fetch(v, randomised, tPos', u', col, orig, cycle);
    u' := u'.(len := k1 as int + 4);
    if i + 4 == |b| {
      RunCutOff(b, i, 4);
    } else {
      RunCounted(b, i);
    }
    var k0;
    k0, tPos', u' := Fetch(v, randomised, tPos', u', col, orig, cycle);
    u' := u'.(k0 := k0);
  }

  // The loop the source writes out for the small vector, and for randomised blocks once more for each vector. It has
  // the contract of the fast form.
  method UnRle(table: Table, v: Vector, randomised: bool, tPos0: nat, u0: Unpacking, availOut: nat, saveNblock: nat,
               ghost col: seq<Byte>, ghost orig: nat, ghost cycle: set<int>, ghost done: seq<Byte>)
    returns (corrupt: bool, tPos: nat, u: Unpacking, out: seq<Byte>)
    requires orig < |col| == saveNblock && Walks(v, randomised, col, orig, tPos0, u0, cycle)
    requires Expanding(Spelt(col, orig, randomised), u0, done)
    ensures corrupt ==> !Whole(Spelt(col, orig, randomised))
    ensures !corrupt ==> Walks(v, randomised, col, orig, tPos, u, cycle)
    ensures !corrupt ==> Expanding(Spelt(col, orig, randomised), u, done + out)
    ensures |out| <= availOut && u.crc == UpdateAll(table, u0.crc, out)
    ensures !corrupt ==> |out| == availOut || Finished(Spelt(col, orig, randomised), u)
  {
    hide Whole, Content, WalkingIn, Expanding, Spelt, RandAt;
    tPos, u, out := tPos0, u0, [];
    assert done + out == done;
    while true
      invariant Expanding(Spelt(col, orig, randomised), u, done + out)
      invariant Walks(v, randomised, col, orig, tPos, u, cycle)
      invariant |out| <= availOut && u.crc == UpdateAll(table, u0.crc, out)
      decreases saveNblock + 2 - u.used
    {
      UsedAtMost(Spelt(col, orig, randomised), u, done + out);
      var put;
      u, put := PutOut(table, u, availOut - |out|, Spelt(col, orig, randomised), done + out);
      UpdateConcat(table, u0.crc, out, put);
      assert done + out + put == done + (out + put);
      out := out + put;
      if |out| == availOut {
        return false, tPos, u, out;
      }
      if u.used == saveNblock + 1 {
        return false, tPos, u, out;
      }
      if u.used > saveNblock + 1 {
        CutOff(Spelt(col, orig, randomised), u, done + out);
        return true, tPos, u, out;
      }
      u, tPos := NextRun(v, randomised, tPos, u, col, orig, cycle, done + out, saveNblock);
      UsedAtMost(Spelt(col, orig, randomised), u, done + out);
    }
  }

  // ---- the vectors of a block that has been read --------------------------

  method CountBytes(col: seq<Byte>) returns (unzftab: array<int>)
    ensures fresh(unzftab) && IsUnzftab(unzftab[..], col)
  {
    unzftab := new int[256](i => 0);
    for i := 0 to |col|
      invariant forall c :: 0 <= c < 256 ==> unzftab[c] == Count(col, c, i)
    {
      unzftab[col[i]] := unzftab[col[i]] + 1;
    }
  }

  method Tally(col: seq<Byte>) returns (cftab: array<int>)
    ensures fresh(cftab) && IsCftab(cftab[..], col)
  {
    var unzftab := CountBytes(col);
    cftab := new int[257];
    var ok := SetUpCftab(cftab, unzftab, |col|, col);
    assert ok;
  }

  method SetUpFast(col: seq<Byte>, origPtr: nat) returns (tt: array<int>, tPos: nat)
    requires origPtr < |col|
    ensures fresh(tt) && IsFastVector(tt[..], col) && WalkingFast(col, origPtr, tPos, 0)
  {
    hide IsCftab, IsFastVector, Walked;
    var cftab := Tally(col);
    tt := new int[|col|](i requires 0 <= i < |col| => col[i]);
    BuildFast(tt, cftab, col, |col|);
    var c;
    c, tPos := GetFast(tt, origPtr, col);
  }

  method SetUpSmall(col: seq<Byte>, origPtr: nat)
    returns (ll16: array<int>, ll4: array<int>, cftab: array<int>, tPos: nat, ghost cycle: set<int>)
    requires origPtr < |col| <= 900000
    ensures fresh(ll16) && fresh(ll4) && fresh(cftab) && IsSmallVector(ll16[..], ll4[..], col, cycle)
    ensures IsCftab(cftab[..], col)
    ensures WalkingSmall(col, origPtr, tPos, 0, cycle)
  {
    hide IsCftab, IsSmallVector, Walked;
    cftab := Tally(col);
    var cftabCopy := new int[cftab.Length](i requires 0 <= i < cftab.Length reads cftab => cftab[i]);
    assert cftabCopy[..] == cftab[..];
    ll16 := new int[|col|](i requires 0 <= i < |col| => col[i]);
    ll4 := new int[(1 + |col|) / 2](i => 0);
    BuildT(ll16, ll4, cftabCopy, col, |col|);
    cycle := ReverseCycle(ll16, ll4, origPtr, col);
    tPos := origPtr;
  }
}
