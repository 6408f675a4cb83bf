// The decoder's move-to-front list: 256 entries kept in 16 windows of a 4096-slot buffer, so that a
// move shifts entries within one window and only nudges the windows below it.
module MtfWindows {
  import opened Common
  import opened MoveToFront

  const MTFA_SIZE := 4096
  const MTFL_SIZE := 16
  const WINDOWS := 256 / MTFL_SIZE

  // Slots at..at+len of the buffer hold the entries of the list from 'from' on.
  ghost predicate Shows(a: seq<Byte>, at: int, list: seq<int>, from: int, len: nat) {
    && 0 <= at && at + len <= |a| && 0 <= from && from + len <= |list|
    && forall x :: at <= x < at + len ==> a[x] == list[x - at + from]
  }

  // Windows lie apart and in order; the one at 'narrow' (if any) is a slot short, its first.
  ghost predicate Apart(base: seq<int>, narrow: int) {
    && |base| == WINDOWS && 0 <= base[0]
    && (forall w :: 0 <= w < WINDOWS - 1 ==> base[w] + MTFL_SIZE - (if w == narrow then 1 else 0) <= base[w + 1])
    && base[WINDOWS - 1] + MTFL_SIZE - (if WINDOWS - 1 == narrow then 1 else 0) <= MTFA_SIZE
  }

  ghost predicate Holds(a: seq<Byte>, base: seq<int>, list: seq<int>) {
    && |a| == MTFA_SIZE && |list| == 256 && Apart(base, -1)
    && forall w :: 0 <= w < WINDOWS ==> Shows(a, base[w], list, w * MTFL_SIZE, MTFL_SIZE)
  }

  lemma {:induction false} BasesOrdered(base: seq<int>, narrow: int, u: nat, w: nat)
    requires Apart(base, narrow) && u < w < WINDOWS
    ensures base[u] + MTFL_SIZE - (if u == narrow then 1 else 0) <= base[w]
  {
    if u + 1 < w {
      BasesOrdered(base, narrow, u, w - 1);
      assert base[w - 1] + MTFL_SIZE - 1 <= base[w - 1 + 1];
    }
  }

  lemma BasesWithin(base: seq<int>, narrow: int, u: nat)
    requires Apart(base, narrow) && u < WINDOWS
    ensures 0 <= base[u] && base[u] + MTFL_SIZE - (if u == narrow then 1 else 0) <= MTFA_SIZE
  {
    if u > 0 {
      BasesOrdered(base, narrow, 0, u);
    }
    if u < WINDOWS - 1 {
      BasesOrdered(base, narrow, u, WINDOWS - 1);
    }
  }

  lemma ShowsElsewhere(a: seq<Byte>, at: int, list: seq<int>, from: int, len: nat, k: int, v: Byte)
    requires Shows(a, at, list, from, len) && 0 <= k < |a| && !(at <= k < at + len)
    ensures Shows(a[k := v], at, list, from, len)
  {
  }

  // ---- one move, window by window -----------------------------------------

  // Windows above lno are final; the one at lno lacks its first entry; those below are as they were,
  // so that they show entries one place further down the new list.
  ghost predicate Nudging(a: seq<Byte>, base: seq<int>, list: seq<int>, lno: nat) {
    && |a| == MTFA_SIZE && |list| == 256 && lno < WINDOWS && Apart(base, lno) && 0 < base[0]
    && (forall w :: lno < w < WINDOWS ==> Shows(a, base[w], list, w * MTFL_SIZE, MTFL_SIZE))
    && Shows(a, base[lno], list, lno * MTFL_SIZE + 1, MTFL_SIZE - 1)
    && (forall w :: 0 <= w < lno ==> Shows(a, base[w], list, w * MTFL_SIZE + 1, MTFL_SIZE))
  }

  // Where the missing entry goes: just below the window, clear of all the others.
  lemma NudgeSlot(base: seq<int>, lno: nat)
    requires Apart(base, lno) && 0 < base[0] && lno < WINDOWS
    ensures 0 <= base[lno] - 1 < MTFA_SIZE
    ensures forall w :: lno < w < WINDOWS ==> base[lno] - 1 < base[w]
    ensures forall w :: 0 <= w < lno ==> base[w] + MTFL_SIZE <= base[lno]
  {
    BasesWithin(base, lno, lno);
    forall w | lno < w < WINDOWS ensures base[lno] - 1 < base[w] {
      BasesOrdered(base, lno, lno, w);
    }
    forall w | 0 <= w < lno ensures base[w] + MTFL_SIZE <= base[lno] {
      BasesOrdered(base, lno, w, lno);
    }
    if lno > 0 {
      BasesOrdered(base, lno, 0, lno);
    }
  }

  lemma NudgeApart(base: seq<int>, lno: nat)
    requires Apart(base, lno) && 0 < base[0] && 0 < lno < WINDOWS
    ensures Apart(base[lno := base[lno] - 1], lno - 1)
  {
    NudgeSlot(base, lno);
    var base' := base[lno := base[lno] - 1];
    forall w | 0 <= w < WINDOWS - 1
      ensures base'[w] + MTFL_SIZE - (if w == lno - 1 then 1 else 0) <= base'[w + 1]
    {
      assert base[w] + MTFL_SIZE - 1 <= base[w + 1];
    }
  }

  // The last entry of the window below moves into the slot before this one's.
  lemma NudgeStep(a: seq<Byte>, base: seq<int>, list: seq<int>, lno: nat)
    requires Nudging(a, base, list, lno) && lno > 0
    ensures 0 <= base[lno] - 1 < MTFA_SIZE && 0 <= base[lno - 1] && base[lno - 1] + MTFL_SIZE - 1 < MTFA_SIZE
    ensures var at := base[lno] - 1;
            Nudging(a[at := a[base[lno - 1] + MTFL_SIZE - 1]], base[lno := at], list, lno - 1)
  {
    NudgeSlot(base, lno);
    BasesWithin(base, lno, lno - 1);
    var at, v := base[lno] - 1, a[base[lno - 1] + MTFL_SIZE - 1];
    var base' := base[lno := at];
    assert base[lno - 1] + MTFL_SIZE <= base[lno - 1 + 1];
    assert v == list[lno * MTFL_SIZE];
    forall w | lno < w < WINDOWS ensures Shows(a[at := v], base'[w], list, w * MTFL_SIZE, MTFL_SIZE) {
      ShowsElsewhere(a, base[w], list, w * MTFL_SIZE, MTFL_SIZE, at, v);
    }
    forall w | 0 <= w < lno - 1 ensures Shows(a[at := v], base'[w], list, w * MTFL_SIZE + 1, MTFL_SIZE) {
      BasesOrdered(base, lno, w, lno - 1);
      ShowsElsewhere(a, base[w], list, w * MTFL_SIZE + 1, MTFL_SIZE, at, v);
    }
    NudgeApart(base, lno);
  }

  lemma NudgeEnd(a: seq<Byte>, base: seq<int>, list: seq<int>, uc: Byte)
    requires Nudging(a, base, list, 0) && list[0] == uc
    ensures Holds(a[base[0] - 1 := uc], base[0 := base[0] - 1], list)
  {
    NudgeSlot(base, 0);
    var at := base[0] - 1;
    var base' := base[0 := at];
    forall w | 0 < w < WINDOWS ensures Shows(a[at := uc], base'[w], list, w * MTFL_SIZE, MTFL_SIZE) {
      ShowsElsewhere(a, base[w], list, w * MTFL_SIZE, MTFL_SIZE, at, uc);
    }
    assert Apart(base', -1) by {
      forall w | 0 <= w < WINDOWS - 1 ensures base'[w] + MTFL_SIZE <= base'[w + 1] {
        assert base[w] + MTFL_SIZE - 1 <= base[w + 1];
      }
    }
  }

  // ---- the shift within a window ------------------------------------------

  // Slots after pp have taken the entries before them; the rest is as it was in a0.
  ghost predicate Shifting(a0: seq<Byte>, a: seq<Byte>, low: int, pp: int, top: int) {
    && |a| == |a0| && 0 <= low <= pp <= top < |a0|
    && (forall x :: pp < x <= top ==> a[x] == a0[x - 1])
    && forall x :: 0 <= x < |a0| && !(pp < x <= top) ==> a[x] == a0[x]
  }

  lemma ShiftStep(a0: seq<Byte>, a: seq<Byte>, low: int, pp: int, top: int)
    requires Shifting(a0, a, low, pp, top) && low < pp
    ensures Shifting(a0, a[pp := a[pp - 1]], low, pp - 1, top)
  {
  }

  // How a stretch of slots the shift left alone relates to the list after the move.
  lemma ShowsAbove(a0: seq<Byte>, a: seq<Byte>, at: int, list: seq<int>, from: int, len: nat, k: nat)
    requires Shows(a0, at, list, from, len) && k < from && k < |list| && |a| == |a0|
    requires forall x :: at <= x < at + len ==> a[x] == a0[x]
    ensures Shows(a, at, Moved(list, k), from, len)
  {
    forall x | at <= x < at + len ensures a[x] == Moved(list, k)[x - at + from] {
      MovedAt(list, k, x - at + from);
    }
  }

  lemma ShowsBelow(a0: seq<Byte>, a: seq<Byte>, at: int, list: seq<int>, from: int, len: nat, k: nat)
    requires Shows(a0, at, list, from, len) && from + len <= k < |list| && |a| == |a0|
    requires forall x :: at <= x < at + len ==> a[x] == a0[x]
    ensures Shows(a, at, Moved(list, k), from + 1, len)
  {
    forall x | at <= x < at + len ensures a[x] == Moved(list, k)[x - at + from + 1] {
      MovedAt(list, k, x - at + from + 1);
    }
  }

  lemma ShowsShifted(a0: seq<Byte>, a: seq<Byte>, at: int, list: seq<int>, from: int, len: nat, off: nat)
    requires Shows(a0, at, list, from, len) && off < len && Shifting(a0, a, at, at, at + off)
    ensures Shows(a, at + 1, Moved(list, from + off), from + 1, len - 1)
  {
    forall x | at + 1 <= x < at + len ensures a[x] == Moved(list, from + off)[x - at + from] {
      MovedAt(list, from + off, x - at + from);
    }
  }

  lemma ShiftedAbove(a0: seq<Byte>, a: seq<Byte>, base: seq<int>, list: seq<int>, lno: nat, off: nat, w: nat)
    requires Holds(a0, base, list) && lno < w < WINDOWS && off < MTFL_SIZE
    requires Shifting(a0, a, base[lno], base[lno], base[lno] + off)
    ensures Shows(a, base[w], Moved(list, lno * MTFL_SIZE + off), w * MTFL_SIZE, MTFL_SIZE)
  {
    BasesOrdered(base, -1, lno, w);
    ShowsAbove(a0, a, base[w], list, w * MTFL_SIZE, MTFL_SIZE, lno * MTFL_SIZE + off);
  }

  lemma ShiftedBelow(a0: seq<Byte>, a: seq<Byte>, base: seq<int>, list: seq<int>, lno: nat, off: nat, w: nat)
    requires Holds(a0, base, list) && w < lno < WINDOWS && off < MTFL_SIZE
    requires Shifting(a0, a, base[lno], base[lno], base[lno] + off)
    ensures Shows(a, base[w], Moved(list, lno * MTFL_SIZE + off), w * MTFL_SIZE + 1, MTFL_SIZE)
  {
    BasesOrdered(base, -1, w, lno);
    ShowsBelow(a0, a, base[w], list, w * MTFL_SIZE, MTFL_SIZE, lno * MTFL_SIZE + off);
  }

  lemma NarrowApart(base: seq<int>, lno: nat)
    requires Apart(base, -1) && lno < WINDOWS
    ensures Apart(base[lno := base[lno] + 1], lno)
  {
    var base' := base[lno := base[lno] + 1];
    forall w | 0 <= w < WINDOWS - 1
      ensures base'[w] + MTFL_SIZE - (if w == lno then 1 else 0) <= base'[w + 1]
    {
      assert base[w] + MTFL_SIZE <= base[w + 1];
    }
  }

  // After the shift in window lno, its base nudged up, the windows are ready to be nudged down.
  lemma ShiftedNudging(a0: seq<Byte>, a: seq<Byte>, base: seq<int>, list: seq<int>, lno: nat, off: nat)
    requires Holds(a0, base, list) && 0 < base[0] && lno < WINDOWS && off < MTFL_SIZE
    requires Shifting(a0, a, base[lno], base[lno], base[lno] + off)
    ensures Nudging(a, base[lno := base[lno] + 1], Moved(list, lno * MTFL_SIZE + off), lno)
  {
    hide Shows;
    var k := lno * MTFL_SIZE + off;
    var base' := base[lno := base[lno] + 1];
    forall w | lno < w < WINDOWS ensures Shows(a, base'[w], Moved(list, k), w * MTFL_SIZE, MTFL_SIZE) {
      ShiftedAbove(a0, a, base, list, lno, off, w);
    }
    forall w | 0 <= w < lno ensures Shows(a, base'[w], Moved(list, k), w * MTFL_SIZE + 1, MTFL_SIZE) {
      ShiftedBelow(a0, a, base, list, lno, off, w);
    }
    ShowsShifted(a0, a, base[lno], list, lno * MTFL_SIZE, MTFL_SIZE, off);
    NarrowApart(base, lno);
  }

  // A move within the first window needs no nudging.
  lemma ShiftedFirst(a0: seq<Byte>, a: seq<Byte>, base: seq<int>, list: seq<int>, nn: nat)
    requires Holds(a0, base, list) && nn < MTFL_SIZE
    requires Shifting(a0, a, base[0], base[0], base[0] + nn)
    ensures a0[base[0] + nn] == list[nn]
    ensures Holds(a[base[0] := a0[base[0] + nn]], base, Moved(list, nn))
  {
    var list' := Moved(list, nn);
    var a' := a[base[0] := a0[base[0] + nn]];
    forall i | 0 <= i < 256 ensures list'[i] == if i == 0 then list[nn] else if i <= nn then list[i - 1] else list[i] {
      MovedAt(list, nn, i);
    }
    assert Shows(a0, base[0], list, 0 * MTFL_SIZE, MTFL_SIZE);
    forall w | 0 <= w < WINDOWS ensures Shows(a', base[w], list', w * MTFL_SIZE, MTFL_SIZE) {
      if w > 0 {
        BasesOrdered(base, -1, 0, w);
        assert Shows(a0, base[w], list, w * MTFL_SIZE, MTFL_SIZE);
      }
    }
  }

  // ---- starting, and moving all windows back to the top --------------------

  const TOP := MTFA_SIZE - 256

  // Windows from 'based' on are in their places at the top of the buffer, and so are entries from x on.
  ghost predicate Packing(a: seq<Byte>, base: seq<int>, list: seq<int>, based: nat, x: nat) {
    && |a| == MTFA_SIZE && |list| == 256 && |base| == WINDOWS
    && (forall w :: based <= w < WINDOWS ==> base[w] == TOP + w * MTFL_SIZE)
    && forall i :: TOP + x <= i < MTFA_SIZE ==> a[i] == list[i - TOP]
  }

  // Of the first x entries, how many belong to window w.
  function Part(x: nat, w: nat): (n: nat)
    ensures n <= MTFL_SIZE
  {
    if x <= w * MTFL_SIZE then 0 else if x >= (w + 1) * MTFL_SIZE then MTFL_SIZE else x - w * MTFL_SIZE
  }

  // The other entries are still where they were, below where they belong.
  ghost predicate Repacking(a: seq<Byte>, base: seq<int>, list: seq<int>, based: nat, x: nat) {
    && Packing(a, base, list, based, x) && based <= WINDOWS
    && forall w :: 0 <= w < based ==>
         base[w] <= TOP + w * MTFL_SIZE && Shows(a, base[w], list, w * MTFL_SIZE, Part(x, w))
  }

  lemma {:induction false} BaseBound(base: seq<int>, w: nat)
    requires Apart(base, -1) && w < WINDOWS
    ensures base[w] <= TOP + w * MTFL_SIZE
    decreases WINDOWS - w
  {
    if w < WINDOWS - 1 {
      BaseBound(base, w + 1);
      assert base[w] + MTFL_SIZE <= base[w + 1];
    }
  }

  lemma RepackStart(a: seq<Byte>, base: seq<int>, list: seq<int>)
    requires Holds(a, base, list)
    ensures Repacking(a, base, list, WINDOWS, 256)
  {
    forall w | 0 <= w < WINDOWS ensures base[w] <= TOP + w * MTFL_SIZE {
      BaseBound(base, w);
    }
  }

  lemma RepackStep(a: seq<Byte>, base: seq<int>, list: seq<int>, ii: nat, jj: nat)
    requires ii < WINDOWS && jj < MTFL_SIZE && Repacking(a, base, list, ii + 1, ii * MTFL_SIZE + jj + 1)
    ensures 0 <= base[ii] && base[ii] + jj < MTFA_SIZE
    ensures Repacking(a[TOP + ii * MTFL_SIZE + jj := a[base[ii] + jj]], base, list, ii + 1, ii * MTFL_SIZE + jj)
  {
    var x := ii * MTFL_SIZE + jj;
    var a' := a[TOP + x := a[base[ii] + jj]];
    assert Shows(a, base[ii], list, ii * MTFL_SIZE, Part(x + 1, ii));
    assert a[base[ii] + jj] == list[x];
    forall w | 0 <= w < ii + 1 ensures Shows(a', base[w], list, w * MTFL_SIZE, Part(x, w)) {
      assert Shows(a, base[w], list, w * MTFL_SIZE, Part(x + 1, w));
      assert base[w] <= TOP + w * MTFL_SIZE;
    }
  }

  lemma RepackNext(a: seq<Byte>, base: seq<int>, list: seq<int>, ii: nat)
    requires ii < WINDOWS && Repacking(a, base, list, ii + 1, ii * MTFL_SIZE)
    ensures Repacking(a, base[ii := TOP + ii * MTFL_SIZE], list, ii, ii * MTFL_SIZE)
  {
  }

  lemma Packed(a: seq<Byte>, base: seq<int>, list: seq<int>)
    requires |base| == WINDOWS && forall w :: 0 <= w < WINDOWS ==> base[w] == TOP + w * MTFL_SIZE
    requires |a| == MTFA_SIZE && |list| == 256 && forall x :: TOP <= x < MTFA_SIZE ==> a[x] == list[x - TOP]
    ensures Holds(a, base, list) && base[0] == TOP
  {
  }

  class Windows {
    const mtfa: array<Byte>
    const mtfbase: array<int>
    ghost var list: seq<int>

    ghost predicate Valid()
      reads this, mtfa, mtfbase
    {
      mtfa as object != mtfbase && Holds(mtfa[..], mtfbase[..], list) && 0 < mtfbase[0]
    }

    // The buffers have their sizes.
    predicate Laid() {
      mtfa as object != mtfbase && mtfa.Length == MTFA_SIZE && mtfbase.Length == WINDOWS
    }

    constructor ()
      ensures Laid() && Valid() && fresh(mtfa) && fresh(mtfbase)
      ensures list == seq(256, i => i)
    {
      mtfa, mtfbase := new Byte[MTFA_SIZE](i => 0), new int[WINDOWS](i => 0);
      list := [];
      new;
      Init();
    }

    // MTF init: the list starts as 0..255, packed at the top of the buffer.
    method Init()
      requires Laid()
      modifies this, mtfa, mtfbase
      ensures Valid() && list == seq(256, i => i)
    {
      list := seq(256, i => i);
      var kk := MTFA_SIZE - 1;
      for ii := WINDOWS downto 0
        invariant kk == TOP + ii * MTFL_SIZE - 1 && list == seq(256, i => i)
        invariant Packing(mtfa[..], mtfbase[..], list, ii, ii * MTFL_SIZE)
      {
        for jj := MTFL_SIZE downto 0
          invariant kk == TOP + ii * MTFL_SIZE + jj - 1 && list == seq(256, i => i)
          invariant Packing(mtfa[..], mtfbase[..], list, ii + 1, ii * MTFL_SIZE + jj)
        {
          mtfa[kk] := ii * MTFL_SIZE + jj;
          kk := kk - 1;
        }
        mtfbase[ii] := kk + 1;
      }
      Packed(mtfa[..], mtfbase[..], list);
    }

    // The entry at the front.
    method First() returns (uc: Byte)
      requires Valid()
      ensures uc == list[0]
    {
      assert Shows(mtfa[..], mtfbase[0], list, 0 * MTFL_SIZE, MTFL_SIZE);
      BasesWithin(mtfbase[..], -1, 0);
      uc := mtfa[mtfbase[0]];
    }

    // Moves slot pp - 1 of a shift under way into slot pp.
    method ShiftOne(pp: int, ghost a0: seq<Byte>, ghost a: seq<Byte>, ghost low: int, ghost top: int)
      requires mtfa[..] == a && low < pp && Shifting(a0, a, low, pp, top)
      modifies mtfa
      ensures Shifting(a0, mtfa[..], low, pp - 1, top)
    {
      ShiftStep(a0, a, low, pp, top);
      mtfa[pp] := mtfa[pp - 1];
      assert mtfa[..] == a[pp := a[pp - 1]];
    }

    // Shifts the first nn entries of the first window, four at a time while that is possible.
    method ShiftNear(nn: nat)
      requires mtfbase.Length == WINDOWS && 0 <= mtfbase[0] && mtfbase[0] + nn < mtfa.Length
      requires mtfa as object != mtfbase
      modifies mtfa
      ensures Shifting(old(mtfa[..]), mtfa[..], mtfbase[0], mtfbase[0], mtfbase[0] + nn)
    {
      ghost var a0 := mtfa[..];
      var pp, n := mtfbase[0], nn;
      while n > 3
        invariant 0 <= n <= nn && Shifting(a0, mtfa[..], pp, pp + n, pp + nn)
      {
        var z := pp + n;
        ShiftOne(z, a0, mtfa[..], pp, pp + nn);
        ShiftOne(z - 1, a0, mtfa[..], pp, pp + nn);
        ShiftOne(z - 2, a0, mtfa[..], pp, pp + nn);
        ShiftOne(z - 3, a0, mtfa[..], pp, pp + nn);
        n := n - 4;
      }
      while n > 0
        invariant 0 <= n <= nn && Shifting(a0, mtfa[..], pp, pp + n, pp + nn)
      {
        ShiftOne(pp + n, a0, mtfa[..], pp, pp + nn);
        n := n - 1;
      }
    }

    // A move near the front, in the first window.
    method MoveNear(nn: nat) returns (uc: Byte)
      requires Valid() && nn < MTFL_SIZE
      modifies this, mtfa
      ensures Valid() && list == Moved(old(list), nn) && uc == old(list)[nn]
    {
      ghost var a0, base := mtfa[..], mtfbase[..];
      BasesWithin(base, -1, 0);
      var pp := mtfbase[0];
      uc := mtfa[pp + nn];
      ShiftNear(nn);
      ShiftedFirst(a0, mtfa[..], base, list, nn);
      ghost var a := mtfa[..];
      mtfa[pp] := uc;
      list := Moved(list, nn);
      assert mtfa[..] == a[pp := uc];
    }

    // Copies all windows to the top of the buffer, from the last entry down.
    method Repack()
      requires mtfa as object != mtfbase && Holds(mtfa[..], mtfbase[..], list)
      modifies mtfa, mtfbase
      ensures Valid()
    {
      ghost var a, base := mtfa[..], mtfbase[..];
      RepackStart(a, base, list);
      var kk := MTFA_SIZE - 1;
      for ii := WINDOWS downto 0
        invariant mtfa[..] == a && mtfbase[..] == base && kk == TOP + ii * MTFL_SIZE - 1
        invariant Repacking(a, base, list, ii, ii * MTFL_SIZE)
      {
        for jj := MTFL_SIZE downto 0
          invariant mtfa[..] == a && mtfbase[..] == base && kk == TOP + ii * MTFL_SIZE + jj - 1
          invariant Repacking(a, base, list, ii + 1, ii * MTFL_SIZE + jj)
        {
          RepackStep(a, base, list, ii, jj);
          mtfa[kk] := mtfa[mtfbase[ii] + jj];
          a := a[kk := a[base[ii] + jj]];
          kk := kk - 1;
        }
        RepackNext(a, base, list, ii);
        mtfbase[ii] := kk + 1;
        base := base[ii := kk + 1];
      }
      Packed(a, base, list);
    }

    // A move from beyond the first window.
    method MoveFar(nn: nat) returns (uc: Byte)
      requires Valid() && nn < 256
      modifies this, mtfa, mtfbase
      ensures Valid() && list == Moved(old(list), nn) && uc == old(list)[nn]
    {
      uc := TakeOut(nn);
      NudgeDown(nn / MTFL_SIZE);
      PutFirst(uc);
      if mtfbase[0] == 0 {
        Repack();
      }
    }

    // Closes the gap that taking out entry nn leaves in its window, and narrows the window.
    method TakeOut(nn: nat) returns (uc: Byte)
      requires Valid() && nn < 256
      modifies this, mtfa, mtfbase
      ensures list == Moved(old(list), nn) && uc == list[0] == old(list)[nn]
      ensures Nudging(mtfa[..], mtfbase[..], list, nn / MTFL_SIZE)
    {
      ghost var a0, base := mtfa[..], mtfbase[..];
      var lno, off := nn / MTFL_SIZE, nn % MTFL_SIZE;
      BasesWithin(base, -1, lno);
      assert Shows(a0, base[lno], list, lno * MTFL_SIZE, MTFL_SIZE);
      uc := mtfa[mtfbase[lno] + off];
      ShiftDown(lno, off);
      ShiftedNudging(a0, mtfa[..], base, list, lno, off);
      mtfbase[lno] := mtfbase[lno] + 1;
      list := Moved(list, nn);
      assert mtfbase[..] == base[lno := base[lno] + 1];
    }

    method ShiftDown(lno: nat, off: nat)
      requires Valid() && lno < WINDOWS && off < MTFL_SIZE
      modifies mtfa
      ensures Shifting(old(mtfa[..]), mtfa[..], mtfbase[lno], mtfbase[lno], mtfbase[lno] + off)
    {
      ghost var a0, low := mtfa[..], mtfbase[lno];
      BasesWithin(mtfbase[..], -1, lno);
      var pp := mtfbase[lno] + off;
      while pp > mtfbase[lno]
        invariant Shifting(a0, mtfa[..], low, pp, low + off)
      {
        ShiftOne(pp, a0, mtfa[..], low, low + off);
        pp := pp - 1;
      }
    }

    method PutFirst(uc: Byte)
      requires mtfa as object != mtfbase && Nudging(mtfa[..], mtfbase[..], list, 0) && list[0] == uc
      modifies mtfa, mtfbase
      ensures Holds(mtfa[..], mtfbase[..], list)
    {
      ghost var a, base := mtfa[..], mtfbase[..];
      NudgeEnd(a, base, list, uc);
      NudgeSlot(base, 0);
      mtfbase[0] := mtfbase[0] - 1;
      mtfa[mtfbase[0]] := uc;
      assert mtfa[..] == a[base[0] - 1 := uc] && mtfbase[..] == base[0 := base[0] - 1];
    }

    // Nudges windows lno to 1 down a slot, each taking the last entry of the one below.
    method NudgeDown(lno: nat)
      requires mtfa as object != mtfbase && Nudging(mtfa[..], mtfbase[..], list, lno)
      modifies mtfa, mtfbase
      ensures Nudging(mtfa[..], mtfbase[..], list, 0)
    {
      ghost var a, base := mtfa[..], mtfbase[..];
      var l: nat := lno;
      while l > 0
        invariant mtfa[..] == a && mtfbase[..] == base && Nudging(a, base, list, l)
      {
        NudgeStep(a, base, list, l);
        var at := mtfbase[l] - 1;
        mtfbase[l] := at;
        mtfa[at] := mtfa[mtfbase[l - 1] + MTFL_SIZE - 1];
        a, base := a[at := a[base[l - 1] + MTFL_SIZE - 1]], base[l := at];
        l := l - 1;
      }
    }

    // Takes out entry nn and puts it first.
    method MoveToFront(nn: nat) returns (uc: Byte)
      requires Valid() && nn < 256
      modifies this, mtfa, mtfbase
      ensures Valid() && list == Moved(old(list), nn) && uc == old(list)[nn]
    {
      if nn < MTFL_SIZE {
        uc := MoveNear(nn);
      } else {
        uc := MoveFar(nn);
      }
    }
  }
}
