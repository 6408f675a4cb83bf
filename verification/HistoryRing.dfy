// The command history of the line editor: a fixed ring of records, each with its length before and after it.
// It is a list of commands with a place in it; the oldest records go as new ones need their room.
module HistoryRing {
  import opened Common

  // ---- the ring -----------------------------------------------------------

  // _ModIndex: sizes are powers of two, so masking is taking the remainder.
  function ModIndex(ind: int, adj: int, size: nat): (r: int)
    requires size > 0
    ensures 0 <= r < size
  {
    (ind + adj) % size
  }

  lemma ModIndexWraps(ind: int, adj: int, size: nat)
    requires 0 <= ind < size && 0 - size <= adj <= size
    ensures var x := ind + adj;
            ModIndex(ind, adj, size) == if x < 0 then x + size else if x < size then x else x - size
  {
    var x := ind + adj;
    var y := if x < 0 then x + size else if x < size then x else x - size;
    var q := if x < 0 then -1 else if x < size then 0 else 1;
    assert x == q * size + y;
    Remainder(q, size, y);
  }

  // Index k places on, going round at most once.
  function Wrap(i: nat, size: nat): nat {
    if i < size then i else i - size
  }

  // What lies k places on from p.
  function Cell(a: seq<int>, p: nat, k: nat): int
    requires p < |a| && k <= |a|
  {
    a[Wrap(p + k, |a|)]
  }

  // The ring holds s from start on.
  ghost predicate Holds(a: seq<int>, start: nat, s: seq<int>) {
    && start < |a| && |s| <= |a|
    && forall k :: 0 <= k < |s| ==> Cell(a, start, k) == s[k]
  }

  lemma HoldsMore(a: seq<int>, start: nat, s: seq<int>, x: int)
    requires Holds(a, start, s) && |s| < |a|
    ensures Holds(a[Wrap(start + |s|, |a|) := x], start, s + [x])
  {
  }

  lemma HoldsLess(a: seq<int>, start: nat, s: seq<int>, j: nat)
    requires Holds(a, start, s) && j <= |s|
    ensures Holds(a, Wrap(start + j, |a|), s[j..])
  {
    forall k | 0 <= k < |s[j..]| ensures Cell(a, Wrap(start + j, |a|), k) == s[j..][k] {
      assert Cell(a, Wrap(start + j, |a|), k) == Cell(a, start, j + k);
      assert s[j..][k] == s[j + k];
    }
  }

  // ---- records ------------------------------------------------------------

  function Record(cmd: seq<int>): (r: seq<int>)
    ensures |r| == |cmd| + 2
  {
    [|cmd|] + cmd + [|cmd|]
  }

  function Flat(list: seq<seq<int>>): seq<int> {
    if list == [] then [] else Record(list[0]) + Flat(list[1..])
  }

  lemma {:induction false} FlatConcat(l: seq<seq<int>>, m: seq<seq<int>>)
    ensures Flat(l + m) == Flat(l) + Flat(m)
  {
    if l == [] {
      assert l + m == m;
    } else {
      FlatConcat(l[1..], m);
      assert (l + m)[1..] == l[1..] + m;
      assert Flat(l + m) == Record(l[0]) + (Flat(l[1..]) + Flat(m));
    }
  }

  lemma FlatOne(cmd: seq<int>)
    ensures Flat([cmd]) == Record(cmd)
  {
    assert Flat([]) == [];
  }

  // Where record i begins.
  function Offset(list: seq<seq<int>>, i: nat): nat
    requires i <= |list|
  {
    |Flat(list[..i])|
  }

  // A record stands between its offset and the next.
  lemma RecordAt(list: seq<seq<int>>, i: nat)
    requires i < |list|
    ensures Offset(list, i + 1) == Offset(list, i) + |list[i]| + 2 <= |Flat(list)|
    ensures Flat(list)[Offset(list, i)..Offset(list, i + 1)] == Record(list[i])
  {
    assert list[..i + 1] == list[..i] + [list[i]] && list == list[..i + 1] + list[i + 1..];
    FlatConcat(list[..i], [list[i]]);
    FlatOne(list[i]);
    FlatConcat(list[..i + 1], list[i + 1..]);
  }

  lemma OffsetEnds(list: seq<seq<int>>)
    ensures Offset(list, 0) == 0 && Offset(list, |list|) == |Flat(list)|
  {
    assert list[..0] == [] && list[..|list|] == list;
  }

  lemma {:induction false} OffsetGrows(list: seq<seq<int>>, i: nat, j: nat)
    requires i < j <= |list|
    ensures Offset(list, i) + 2 <= Offset(list, j) <= |Flat(list)|
    decreases j - i
  {
    RecordAt(list, j - 1);
    if i < j - 1 {
      OffsetGrows(list, i, j - 1);
    }
  }

  // A record written as far as byte i of the command.
  function Begun(cmd: seq<int>, i: nat): (r: seq<int>)
    requires i <= |cmd|
    ensures |r| == 1 + i
  {
    [|cmd|] + cmd[..i]
  }

  lemma BegunMore(cmd: seq<int>, i: nat)
    requires i < |cmd|
    ensures Begun(cmd, i + 1) == Begun(cmd, i) + [cmd[i]]
  {
  }

  lemma BegunEnds(cmd: seq<int>)
    ensures Begun(cmd, 0) == [] + [|cmd|] && Begun(cmd, |cmd|) + [|cmd|] == Record(cmd)
  {
    assert cmd[..|cmd|] == cmd;
  }

  // ---- making room --------------------------------------------------------

  // The oldest records go, and no more of them than must, for so much room.
  function Fit(list: seq<seq<int>>, need: nat, size: nat): seq<seq<int>> {
    if list == [] || |Flat(list)| + need <= size then list else Fit(list[1..], need, size)
  }

  // What is left is the end of the list; it fits, and with one record more it would not.
  lemma {:induction false} FitIsLongest(list: seq<seq<int>>, need: nat, size: nat) returns (gone: nat)
    ensures gone <= |list| && Fit(list, need, size) == list[gone..]
    ensures gone < |list| ==> |Flat(list[gone..])| + need <= size
    ensures gone > 0 ==> |Flat(list[gone - 1..])| + need > size
  {
    gone := 0;
    if list != [] && |Flat(list)| + need > size {
      var rest := FitIsLongest(list[1..], need, size);
      TailOfTail(list, rest);
      if rest > 0 {
        TailOfTail(list, rest - 1);
      }
      gone := 1 + rest;
    }
  }

  lemma TailOfTail(list: seq<seq<int>>, i: nat)
    requires list != [] && i <= |list| - 1
    ensures list[1..][i..] == list[i + 1..]
  {
  }

  lemma {:induction false} FitAgain(list: seq<seq<int>>, j: nat, size: nat)
    ensures Fit(Fit(list, j, size), j + 1, size) == Fit(list, j + 1, size)
  {
    if list != [] && |Flat(list)| + j > size {
      FitAgain(list[1..], j, size);
    }
  }

  // One more byte: nothing goes unless the ring is full, and then one record does.
  lemma FitStep(list: seq<seq<int>>, l: seq<seq<int>>, j: nat, size: nat)
    requires l == Fit(list, j, size) && |Flat(l)| + j <= size && j < size
    ensures Fit(list, j + 1, size) == if |Flat(l)| + j == size then l[1..] else l
    ensures |Flat(l)| + j == size ==> l != []
  {
    FitAgain(list, j, size);
    assert Flat([]) == [];
  }

  // ---- the history --------------------------------------------------------

  class History {
    const saveArea: array<int>
    const size: nat
    // How many values a cell of SaveArea tells apart: a char on DOS, an unsigned int of 16 bits on OS/2.
    const cells: nat
    var firstCmd: nat
    var firstFree: nat
    var currCmd: nat
    var lastWasNext: bool
    ghost var list: seq<seq<int>>
    ghost var cur: nat

    // The ring holds the records of l and then part of another.
    ghost predicate Partly(l: seq<seq<int>>, part: seq<int>)
      reads this, saveArea
    {
      && size == saveArea.Length && size >= 2 && cells >= 256
      && Holds(saveArea[..], firstCmd, Flat(l) + part) && firstFree == Wrap(firstCmd + |Flat(l) + part|, size)
    }

    // Only the oldest record may be empty: the one a new history begins with.
    ghost predicate Valid()
      reads this, saveArea
    {
      && list != [] && Partly(list, []) && cur < |list| && currCmd == Wrap(firstCmd + Offset(list, cur), size)
      && forall i :: 1 <= i < |list| ==> list[i] != []
    }

    // The record last shown; the length of the list when there is none after it.
    ghost function Place(): nat
      reads this
    {
      if lastWasNext then cur else cur + 1
    }

    // InitSave, with no saved file to go by: 512 places, or 4096 on OS/2.
    constructor (dos: bool)
      ensures Valid() && fresh(saveArea) && list == [[]] && Place() == 1
      ensures if dos then size == 512 && cells == 256 else size == 4096 && cells == 65536
    {
      size := if dos then 512 else 4096;
      cells := if dos then 256 else 65536;
      saveArea := new int[if dos then 512 else 4096](i => 0);
      firstCmd, currCmd, lastWasNext, firstFree := 0, 0, false, 2;
      list, cur := [[]], 0;
      new;
      FlatOne([]);
      OffsetEnds(list);
      assert Flat(list) + [] == [0, 0];
      assert Offset(list, 0) == 0;
    }

    // ---- writing ----------------------------------------------------------

    method SaveByte(ch: int, ghost l: seq<seq<int>>, ghost part: seq<int>) returns (ghost l': seq<seq<int>>)
      requires Partly(l, part) && |part| < size && |Flat(l)| + |part| > 0 && 0 <= ch < cells
      modifies this`firstCmd, this`firstFree, saveArea
      ensures l' == (if |Flat(l)| + |part| == size then l[1..] else l) && (|Flat(l)| + |part| == size ==> l != [])
      ensures Partly(l', part + [ch])
      ensures Wrap(firstCmd + |Flat(l')|, size) == old(Wrap(firstCmd + |Flat(l)|, size))
    {
      hide Holds;
      InBounds(l, part);
      l' := l;
      if firstFree == firstCmd {
        l' := DropFirst(l, part);
      }
      InBounds(l', part);
      HoldsMore(saveArea[..], firstCmd, Flat(l') + part, ch);
      ghost var a := saveArea[..];
      assert Flat(l') + part + [ch] == Flat(l') + (part + [ch]);
      saveArea[firstFree] := ch % cells;
      assert saveArea[..] == a[firstFree := ch];
      ModIndexWraps(firstFree, 1, size);
      firstFree := ModIndex(firstFree, 1, size);
    }

    lemma InBounds(l: seq<seq<int>>, part: seq<int>)
      requires Partly(l, part)
      ensures firstCmd < saveArea.Length && |Flat(l) + part| <= size
    {
    }

    method DropFirst(ghost l: seq<seq<int>>, ghost part: seq<int>) returns (ghost l': seq<seq<int>>)
      requires Partly(l, part) && |part| < |Flat(l) + part|
      modifies this`firstCmd
      ensures l != [] && l' == l[1..] && Partly(l', part) && |Flat(l')| + |l[0]| + 2 == |Flat(l)|
      ensures Wrap(firstCmd + |Flat(l')|, size) == old(Wrap(firstCmd + |Flat(l)|, size))
    {
      hide Holds;
      InBounds(l, part);
      FirstRecord(l, part);
      HoldsLess(saveArea[..], firstCmd, Flat(l) + part, |l[0]| + 2);
      assert (Flat(l) + part)[|l[0]| + 2..] == Flat(l[1..]) + part;
      ModIndexWraps(firstCmd, saveArea[firstCmd] + 2, size);
      firstCmd := ModIndex(firstCmd, saveArea[firstCmd] + 2, size);
      l' := l[1..];
    }

    // The full ring's oldest record begins with its length.
    lemma FirstRecord(l: seq<seq<int>>, part: seq<int>)
      requires Partly(l, part) && |part| < |Flat(l) + part|
      ensures l != [] && saveArea[firstCmd] == |l[0]| && Flat(l) == Record(l[0]) + Flat(l[1..])
    {
      assert (Flat(l) + part)[0] == |l[0]|;
      assert Cell(saveArea[..], firstCmd, 0) == (Flat(l) + part)[0];
    }

    method SaveIt(cmd: seq<int>)
      requires Valid() && 0 < |cmd| && Storable(cmd)
      modifies this`firstCmd, this`firstFree, this`currCmd, this`list, this`cur, saveArea
      ensures Valid() && list == Fit(old(list), |cmd| + 2, size) + [cmd] && cur == |list| - 1
    {
      hide Holds, Flat, Fit, Wrap;
      currCmd := firstFree;
      NothingGone();
      ghost var l := WriteRecord(cmd);
      ghost var gone := FitIsLongest(list, |cmd| + 2, size);
      SuffixFilled(list, gone, l);
      Saved(l, cmd);
      cur := |l|;
      list := l + [cmd];
    }

    // The command can be kept: it fits the ring, and its bytes and its length fit cells.
    predicate Storable(cmd: seq<int>) {
      |cmd| + 2 <= size && |cmd| < cells && forall k :: 0 <= k < |cmd| ==> 0 <= cmd[k] < 256 <= cells
    }

    // A record has been written as far as byte i, and the oldest records are gone that were in its way.
    ghost predicate Writing(l: seq<seq<int>>, cmd: seq<int>, i: nat)
      requires i <= |cmd|
      reads this, saveArea
    {
      && Storable(cmd) && l == Fit(list, 1 + i, size) && Partly(l, Begun(cmd, i))
      && currCmd == Wrap(firstCmd + |Flat(l)|, size)
    }

    method WriteLength(cmd: seq<int>) returns (ghost l: seq<seq<int>>)
      requires Partly(list, []) && list != [] && Storable(cmd) && currCmd == firstFree
      modifies this`firstCmd, this`firstFree, saveArea
      ensures Writing(l, cmd, 0)
    {
      assert 0 <= |cmd| < cells && 0 < size;
      hide *;
      NothingGone();
      BegunEnds(cmd);
      l := SaveStep(|cmd|, list, []);
      StartsWriting(l, cmd);
    }

    lemma StartsWriting(l: seq<seq<int>>, cmd: seq<int>)
      requires Storable(cmd) && l == Fit(list, 1, size) && Partly(l, [] + [|cmd|])
      requires currCmd == Wrap(firstCmd + |Flat(l)|, size)
      ensures Writing(l, cmd, 0)
    {
      hide Partly, Flat, Fit, Wrap, Record;
      BegunEnds(cmd);
    }

    method WriteByte(cmd: seq<int>, i: nat, ghost l: seq<seq<int>>) returns (ghost l': seq<seq<int>>)
      requires i < |cmd| && Writing(l, cmd, i)
      modifies this`firstCmd, this`firstFree, saveArea
      ensures Writing(l', cmd, i + 1)
    {
      hide Partly, Flat, Fit, Wrap, Begun, Record;
      BegunMore(cmd, i);
      l' := SaveStep(cmd[i], l, Begun(cmd, i));
    }

    method WriteEnd(cmd: seq<int>, ghost l: seq<seq<int>>) returns (ghost l': seq<seq<int>>)
      requires Writing(l, cmd, |cmd|)
      modifies this`firstCmd, this`firstFree, saveArea
      ensures l' == Fit(list, |cmd| + 2, size) && Partly(l', Record(cmd))
      ensures currCmd == Wrap(firstCmd + |Flat(l')|, size)
    {
      hide Partly, Flat, Fit, Wrap, Begun, Record;
      BegunEnds(cmd);
      l' := SaveStep(|cmd|, l, Begun(cmd, |cmd|));
    }

    method WriteRecord(cmd: seq<int>) returns (ghost l: seq<seq<int>>)
      requires Partly(list, []) && list != [] && 0 < |cmd| && Storable(cmd) && currCmd == firstFree
      modifies this`firstCmd, this`firstFree, saveArea
      ensures l == Fit(list, |cmd| + 2, size) && Partly(l, Record(cmd)) && currCmd == Wrap(firstCmd + |Flat(l)|, size)
    {
      hide Writing, Partly, Flat, Fit, Wrap, Record;
      l := WriteLength(cmd);
      var i := 0;
      while i < |cmd|
        invariant i <= |cmd| && list == old(list) && Writing(l, cmd, i)
      {
        l := WriteByte(cmd, i, l);
        i := i + 1;
      }
      l := WriteEnd(cmd, l);
    }

    lemma NothingGone()
      requires Partly(list, []) && list != []
      ensures Fit(list, 0, size) == list && |Flat(list)| > 0 && firstFree == Wrap(firstCmd + |Flat(list)|, size)
    {
      InBounds(list, []);
      assert Flat(list) + [] == Flat(list);
      OffsetGrows(list, 0, |list|);
      OffsetEnds(list);
    }

    // A byte written, and the oldest record gone if that was in the way.
    method SaveStep(ch: int, ghost l: seq<seq<int>>, ghost part: seq<int>) returns (ghost l': seq<seq<int>>)
      requires Partly(l, part) && |part| < size && |Flat(l)| + |part| > 0 && l == Fit(list, |part|, size)
      requires 0 <= ch < cells
      requires currCmd == Wrap(firstCmd + |Flat(l)|, size)
      modifies this`firstCmd, this`firstFree, saveArea
      ensures l' == Fit(list, |part| + 1, size) && Partly(l', part + [ch])
      ensures currCmd == Wrap(firstCmd + |Flat(l')|, size)
    {
      hide Holds, Flat, Fit;
      InBounds(l, part);
      FitStep(list, l, |part|, size);
      l' := SaveByte(ch, l, part);
    }

    lemma Saved(l: seq<seq<int>>, cmd: seq<int>)
      requires Partly(l, Record(cmd)) && |cmd| > 0 && forall i :: 1 <= i < |l| ==> l[i] != []
      ensures Partly(l + [cmd], []) && Offset(l + [cmd], |l|) == |Flat(l)|
      ensures forall i :: 1 <= i < |l + [cmd]| ==> (l + [cmd])[i] != []
    {
      hide Holds;
      FlatConcat(l, [cmd]);
      FlatOne(cmd);
      assert (l + [cmd])[..|l|] == l;
      assert Flat(l + [cmd]) + [] == Flat(l) + Record(cmd);
    }

    // ---- looking ----------------------------------------------------------

    // What the ring holds where record i begins.
    lemma AtRecord(i: nat)
      requires Partly(list, []) && i < |list|
      ensures Holds(saveArea[..], Wrap(firstCmd + Offset(list, i), size), Record(list[i]))
    {
      hide Flat;
      assert Flat(list) + [] == Flat(list);
      RecordAt(list, i);
      RingAt(saveArea[..], firstCmd, Flat(list), Offset(list, i), |list[i]| + 2);
    }

    // The length that opens the record at a place, and the one that closes it.
    lemma RecordLengths(i: nat, at: nat)
      requires Partly(list, []) && i < |list| && at == Wrap(firstCmd + Offset(list, i), size)
      ensures at < size && |list[i]| + 2 <= size
      ensures saveArea[at] == |list[i]| && saveArea[Wrap(at + |list[i]| + 1, size)] == |list[i]|
    {
      hide Flat, Offset, Partly;
      AtRecord(i);
      Sizes();
      var a, m := saveArea[..], |list[i]|;
      assert Cell(a, at, 0) == Record(list[i])[0] && Cell(a, at, m + 1) == Record(list[i])[m + 1];
    }

    lemma Sizes()
      requires Partly(list, [])
      ensures size == saveArea.Length && size >= 2 && firstCmd < size
    {
    }

    // One record's end lies a record's size past its start, all the way round if it must.
    lemma EndOfRecord(i: nat)
      requires Partly(list, []) && i < |list|
      ensures var at := Wrap(firstCmd + Offset(list, i), size);
              at < size && |list[i]| + 2 <= size
              && Wrap(firstCmd + Offset(list, i + 1), size) == Wrap(at + |list[i]| + 2, size)
    {
      hide Holds, Flat, Offset;
      InBounds(list, []);
      assert Flat(list) + [] == Flat(list);
      RecordAt(list, i);
    }

    // From a record's end, back to its start.
    method StepBack(end: nat, ghost i: nat) returns (at: nat)
      requires Partly(list, []) && i < |list| && end == Wrap(firstCmd + Offset(list, i + 1), size)
      ensures at == Wrap(firstCmd + Offset(list, i), size)
    {
      hide Partly, Flat, Offset;
      ghost var start := Wrap(firstCmd + Offset(list, i), size);
      Sizes();
      EndOfRecord(i);
      RecordLengths(i, start);
      ModIndexWraps(end, -1, size);
      at := ModIndex(end, -1, size);
      assert at == Wrap(start + |list[i]| + 1, size);
      ModIndexWraps(at, -(|list[i]| + 1), size);
      at := ModIndex(at, -(saveArea[at] + 1), size);
    }

    // From a record's start, on to the next.
    method StepOn(at: nat, ghost i: nat) returns (next: nat)
      requires Partly(list, []) && i < |list| && at == Wrap(firstCmd + Offset(list, i), size)
      ensures next == Wrap(firstCmd + Offset(list, i + 1), size)
    {
      hide Partly, Flat, Offset;
      Sizes();
      EndOfRecord(i);
      RecordLengths(i, at);
      ModIndexWraps(at, |list[i]| + 2, size);
      next := ModIndex(at, saveArea[at] + 2, size);
    }

    // The bytes of a record. Its length is not zero, or the count would go round.
    method ReadRecord(at: nat, ghost i: nat) returns (cmd: seq<int>)
      requires Partly(list, []) && i < |list| && at == Wrap(firstCmd + Offset(list, i), size) && list[i] != []
      ensures cmd == list[i]
    {
      hide Partly, Flat, Offset;
      Sizes();
      AtRecord(i);
      RecordLengths(i, at);
      var cnt, curr := saveArea[at], at;
      cmd := [];
      while cnt != 0
        invariant 0 <= cnt && cmd == list[i][..|list[i]| - cnt] && |cmd| + cnt == |list[i]|
        invariant curr == Wrap(at + |cmd|, size)
      {
        ModIndexWraps(curr, 1, size);
        curr := ModIndex(curr, 1, size);
        assert Cell(saveArea[..], at, |cmd| + 1) == Record(list[i])[|cmd| + 1];
        cmd := cmd + [saveArea[curr]];
        cnt := cnt - 1;
      }
    }

    // Only the first record begins at FirstCmd, and only past the last is FirstFree.
    lemma Ends(i: nat)
      requires Partly(list, []) && i <= |list|
      ensures i < |list| ==> (Wrap(firstCmd + Offset(list, i), size) == firstCmd <==> i == 0)
      ensures i > 0 ==> (Wrap(firstCmd + Offset(list, i), size) == firstFree <==> i == |list|)
    {
      hide Holds, Flat, Offset;
      InBounds(list, []);
      assert Flat(list) + [] == Flat(list);
      OffsetEnds(list);
      if 0 < i {
        OffsetGrows(list, 0, i);
      }
      if i < |list| {
        OffsetGrows(list, i, |list|);
      }
    }

    // ---- saving and browsing ----------------------------------------------

    // SaveCmd: the newest command is not saved twice running; the place is past the end again.
    method SaveCmd(cmd: seq<int>)
      requires Valid() && Storable(cmd)
      modifies this, saveArea
      ensures Valid() && Place() == |list|
      ensures list == if cmd == [] || cmd == old(list)[|old(list)| - 1] then old(list)
                      else Fit(old(list), |cmd| + 2, size) + [cmd]
    {
      lastWasNext := false;
      Ends(|list|);
      currCmd := StepBack(firstFree, |list| - 1);
      cur := |list| - 1;
      if |cmd| != 0 {
        var same := SameAsNewest(cmd);
        if !same {
          SaveIt(cmd);
        }
      }
    }

    method SameAsNewest(cmd: seq<int>) returns (same: bool)
      requires Valid() && cur == |list| - 1
      ensures same <==> cmd == list[cur]
    {
      hide Partly, Flat, Offset;
      Sizes();
      AtRecord(cur);
      RecordLengths(cur, currCmd);
      var chk := currCmd;
      if saveArea[chk] != |cmd| {
        return false;
      }
      var chkLen := 0;
      while chkLen < |cmd|
        invariant 0 <= chkLen <= |cmd| == |list[cur]| && cmd[..chkLen] == list[cur][..chkLen]
        invariant chk == Wrap(currCmd + chkLen, size)
      {
        ModIndexWraps(chk, 1, size);
        chk := ModIndex(chk, 1, size);
        assert Cell(saveArea[..], currCmd, chkLen + 1) == Record(list[cur])[chkLen + 1];
        if saveArea[chk] != cmd[chkLen] {
          return false;
        }
        chkLen := chkLen + 1;
      }
      assert cmd[..|cmd|] == cmd && list[cur][..|cmd|] == list[cur];
      same := true;
    }

    // PrevCmd: one place back; the oldest record stands for there being none.
    method PrevCmd() returns (cmd: seq<int>)
      requires Valid()
      modifies this`currCmd, this`lastWasNext, this`cur
      ensures Valid() && Place() == if old(Place()) == 0 then 0 else old(Place()) - 1
      ensures cmd == if Place() == 0 then [] else list[Place()]
    {
      hide Holds, Flat, Offset;
      Ends(cur);
      if currCmd == firstCmd {
        lastWasNext := true;
        return [];
      }
      var curr := currCmd;
      ghost var k := cur;
      currCmd := StepBack(currCmd, cur - 1);
      cur := cur - 1;
      if lastWasNext {
        Ends(cur);
        if currCmd == firstCmd {
          return [];
        }
        curr := currCmd;
        k := cur;
        currCmd := StepBack(currCmd, cur - 1);
        cur := cur - 1;
      }
      lastWasNext := false;
      cmd := ReadRecord(curr, k);
    }

    // NextCmd: one place on; past the newest record there is none.
    method NextCmd() returns (cmd: seq<int>)
      requires Valid()
      modifies this`currCmd, this`lastWasNext, this`cur
      ensures Valid() && Place() == if old(Place()) == |list| then |list| else old(Place()) + 1
      ensures cmd == if Place() == |list| then [] else list[Place()]
    {
      hide Holds, Flat, Offset;
      var curr := StepOn(currCmd, cur);
      ghost var k := cur + 1;
      if !lastWasNext {
        Ends(k);
        if curr == firstFree {
          return [];
        }
        currCmd := curr;
        cur := k;
        curr := StepOn(curr, k);
        k := k + 1;
      }
      lastWasNext := false;
      Ends(k);
      if curr == firstFree {
        return [];
      }
      lastWasNext := true;
      currCmd := curr;
      cur := k;
      cmd := ReadRecord(curr, k);
    }

    // ToFirstCmd and ToLastCmd come to an end: no record they pass is empty.
    method ToFirstCmd()
      requires Valid()
      modifies this`currCmd, this`lastWasNext, this`cur
      ensures Valid() && Place() == 0
    {
      var cmd := PrevCmd();
      while |cmd| != 0
        invariant Valid() && cmd == if Place() == 0 then [] else list[Place()]
        decreases Place()
      {
        cmd := PrevCmd();
      }
    }

    method ToLastCmd()
      requires Valid()
      modifies this`currCmd, this`lastWasNext, this`cur
      ensures Valid() && Place() == |list|
    {
      var cmd := NextCmd();
      while |cmd| != 0
        invariant Valid() && cmd == if Place() == |list| then [] else list[Place()]
        decreases |list| - Place()
      {
        cmd := NextCmd();
      }
    }
  }

  lemma SuffixFilled(list: seq<seq<int>>, gone: nat, l: seq<seq<int>>)
    requires gone <= |list| && l == list[gone..] && forall i :: 1 <= i < |list| ==> list[i] != []
    ensures forall i :: 1 <= i < |l| ==> l[i] != []
  {
  }

  // A stretch of what the ring holds.
  lemma RingAt(a: seq<int>, start: nat, s: seq<int>, o: nat, m: nat)
    requires Holds(a, start, s) && o + m <= |s| && m > 0
    ensures Holds(a, Wrap(start + o, |a|), s[o..o + m])
  {
    var p, t := Wrap(start + o, |a|), s[o..o + m];
    forall k | 0 <= k < |t| ensures Cell(a, p, k) == t[k] {
      assert t[k] == s[o + k];
      assert Cell(a, p, k) == Cell(a, start, o + k);
    }
  }
}
