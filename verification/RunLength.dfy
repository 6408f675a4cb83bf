// The first stage: four equal bytes are followed by a count of how many more there are, 251 at the most.
module RunLength {
  import opened Common

  const MAX_RUN := 255
  const NO_CHAR := 256

  // ---- what a block stands for --------------------------------------------

  // A block read from the left: the bytes it gives, and how many equal ones stand at its end, up to the
  // four that a count must follow.
  datatype Expansion = Expansion(out: seq<Byte>, ch: Byte, count: nat)

  function Expand1(s: Expansion, b: Byte): Expansion {
    if s.count == 4 then Expansion(s.out + Rep(s.ch, b), s.ch, 0)
    else if s.count > 0 && b == s.ch then Expansion(s.out + [b], b, s.count + 1)
    else Expansion(s.out + [b], b, 1)
  }

  function Expanded(block: seq<Byte>): (s: Expansion)
    ensures s.count <= 4
  {
    if block == [] then Expansion([], 0, 0)
    else Expand1(Expanded(block[..|block| - 1]), block[|block| - 1])
  }

  function Content(block: seq<Byte>): seq<Byte> {
    Expanded(block).out
  }

  // No run is left without its count.
  predicate Whole(block: seq<Byte>) {
    Expanded(block).count < 4
  }

  lemma ExpandedAppend(block: seq<Byte>, b: Byte)
    ensures Expanded(block + [b]) == Expand1(Expanded(block), b)
  {
    assert (block + [b])[..|block|] == block;
  }

  // ---- the coder ----------------------------------------------------------

  // The block so far, and the run not yet put into it.
  datatype Runs = Runs(block: seq<Byte>, ch: int, len: int)

  function Pair(ch: Byte, len: int): seq<Byte>
    requires 1 <= len <= MAX_RUN
  {
    if len < 4 then Rep(ch, len) else Rep(ch, 4) + [len - 4]
  }

  predicate Pending(r: Runs) {
    (0 <= r.ch < NO_CHAR && 1 <= r.len <= MAX_RUN) || (r.ch == NO_CHAR && r.len == 0)
  }

  function AddPair(r: Runs): seq<Byte>
    requires Pending(r)
  {
    if r.ch < NO_CHAR then r.block + Pair(r.ch, r.len) else r.block
  }

  function AddChar(r: Runs, c: Byte): Runs
    requires Pending(r)
  {
    if c != r.ch || r.len == MAX_RUN then Runs(AddPair(r), c, 1) else Runs(r.block, r.ch, r.len + 1)
  }

  function Flush(r: Runs): Runs
    requires Pending(r)
  {
    Runs(AddPair(r), NO_CHAR, 0)
  }

  // What has been taken in so far.
  function Meaning(r: Runs): seq<Byte>
    requires Pending(r)
  {
    Content(r.block) + if r.ch < NO_CHAR then Rep(r.ch as Byte, r.len) else []
  }

  // The pending run cannot be mistaken for more of the block's last one; without one the block is new.
  ghost predicate Coding(r: Runs) {
    && Pending(r) && Whole(r.block) && (r.ch == NO_CHAR ==> r.block == [])
    && (r.ch < NO_CHAR && Expanded(r.block).count > 0 ==> Expanded(r.block).ch != r.ch)
  }

  // One, two or three equal bytes after different ones.
  lemma {:induction false} FewExpand(block: seq<Byte>, ch: Byte, n: nat)
    requires Whole(block) && (Expanded(block).count > 0 ==> Expanded(block).ch != ch) && 1 <= n <= 4
    ensures Expanded(block + Rep(ch, n)) == Expansion(Content(block) + Rep(ch, n), ch, n)
  {
    hide Expanded;
    if n == 1 {
      assert Rep(ch, 1) == [ch];
      ExpandedAppend(block, ch);
    } else {
      FewExpand(block, ch, n - 1);
      assert Rep(ch, n) == Rep(ch, n - 1) + [ch];
      assert block + Rep(ch, n) == block + Rep(ch, n - 1) + [ch];
      ExpandedAppend(block + Rep(ch, n - 1), ch);
    }
  }

  lemma PairExpands(r: Runs)
    requires Coding(r) && r.ch < NO_CHAR
    ensures Expanded(AddPair(r)) == Expansion(Meaning(r), r.ch, if r.len < 4 then r.len else 0)
    ensures |r.block| < |AddPair(r)| <= |r.block| + 5
  {
    if r.len < 4 {
      FewExpand(r.block, r.ch, r.len);
      assert Pair(r.ch, r.len) == Rep(r.ch as Byte, r.len);
      assert Meaning(r) == Content(r.block) + Rep(r.ch as Byte, r.len);
    } else {
      FewExpand(r.block, r.ch, 4);
      var four, more := r.block + Rep(r.ch as Byte, 4), Rep(r.ch as Byte, r.len - 4);
      assert AddPair(r) == four + [r.len - 4];
      ExpandedAppend(four, r.len - 4);
      assert Content(r.block) + Rep(r.ch as Byte, 4) + more == Content(r.block) + (Rep(r.ch as Byte, 4) + more);
      assert Rep(r.ch as Byte, 4) + more == Rep(r.ch as Byte, r.len);
    }
  }

  lemma PairAdded(r: Runs)
    requires Coding(r) && r.ch < NO_CHAR
    ensures 1 <= r.len <= MAX_RUN && 0 <= r.ch
    ensures Content(AddPair(r)) == Content(r.block) + Rep(r.ch as Byte, r.len)
    ensures AddPair(r) == if r.len < 4 then r.block + Rep(r.ch as Byte, r.len)
                          else r.block + Rep(r.ch as Byte, 4) + [r.len - 4]
  {
    PairExpands(r);
  }

  // Every byte taken in is accounted for, and a block grows by five at the most.
  lemma CharCoded(r: Runs, c: Byte)
    requires Coding(r)
    ensures Coding(AddChar(r, c)) && Meaning(AddChar(r, c)) == Meaning(r) + [c]
    ensures |r.block| <= |AddChar(r, c).block| <= |r.block| + 5
  {
    if c != r.ch || r.len == MAX_RUN {
      assert Rep(c, 1) == [c];
      if r.ch < NO_CHAR {
        PairExpands(r);
      }
    } else {
      assert Rep(c, r.len + 1) == Rep(c, r.len) + [c];
    }
  }

  lemma FlushCoded(r: Runs)
    requires Coding(r)
    ensures Whole(AddPair(r)) && Meaning(Flush(r)) == Meaning(r) == Content(AddPair(r))
    ensures |r.block| <= |AddPair(r)| <= |r.block| + 5 && (r.ch < NO_CHAR ==> |r.block| < |AddPair(r)|)
  {
    if r.ch < NO_CHAR {
      PairExpands(r);
    }
  }

  // ---- a whole string -----------------------------------------------------

  function AddAll(x: seq<Byte>): (r: Runs)
    ensures Pending(r)
  {
    if x == [] then Runs([], NO_CHAR, 0) else AddChar(AddAll(x[..|x| - 1]), x[|x| - 1])
  }

  lemma NothingCoded()
    ensures Coding(Runs([], NO_CHAR, 0)) && Meaning(Runs([], NO_CHAR, 0)) == []
  {
  }

  // Coding and expanding are inverse on every string of bytes.
  lemma {:induction false} RunLengthRoundTrip(x: seq<Byte>)
    ensures Coding(AddAll(x)) && Meaning(AddAll(x)) == x
    ensures Whole(Flush(AddAll(x)).block) && Content(Flush(AddAll(x)).block) == x
  {
    hide Coding, Meaning, Whole, Content, AddPair, AddChar;
    if x != [] {
      RunLengthRoundTrip(x[..|x| - 1]);
      CharCoded(AddAll(x[..|x| - 1]), x[|x| - 1]);
      assert x[..|x| - 1] + [x[|x| - 1]] == x;
    } else {
      NothingCoded();
    }
    FlushCoded(AddAll(x));
  }
}
