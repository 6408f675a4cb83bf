// The move-to-front stage on values: a list of symbols, positions in it, and runs of position zero
// written as bijective base-2 numbers in RUNA and RUNB.
module MoveToFront {
  import opened Common

  const BZ_RUNA := 0
  const BZ_RUNB := 1

  function Moved(list: seq<int>, k: nat): (r: seq<int>)
    requires k < |list|
    ensures |r| == |list|
  {
    [list[k]] + list[..k] + list[k + 1..]
  }

  lemma MovedAt(list: seq<int>, k: nat, i: nat)
    requires k < |list| && i < |list|
    ensures Moved(list, k)[i] == if i == 0 then list[k] else if i <= k then list[i - 1] else list[i]
  {
  }

  // A longer list whose tail is not reached moves the same way.
  lemma MovedTail(list: seq<int>, tail: seq<int>, k: nat)
    requires k < |list|
    ensures Moved(list + tail, k) == Moved(list, k) + tail
  {
    assert (list + tail)[k + 1..] == list[k + 1..] + tail;
    assert (list + tail)[..k] == list[..k];
  }

  lemma MovedMembers(list: seq<int>, k: nat, c: int)
    requires k < |list|
    ensures c in Moved(list, k) <==> c in list
  {
    assert list == list[..k] + [list[k]] + list[k + 1..];
  }

  function IndexOf(list: seq<int>, c: int): (k: nat)
    requires c in list
    ensures k < |list| && list[k] == c && forall i :: 0 <= i < k ==> list[i] != c
  {
    if list[0] == c then 0 else 1 + IndexOf(list[1..], c)
  }

  // ---- run lengths --------------------------------------------------------

  // Digits of z, least significant first, the digit values being 1 (RUNA) and 2 (RUNB).
  function RunDigits(z: nat): (d: seq<int>)
    ensures forall i :: 0 <= i < |d| ==> d[i] == BZ_RUNA || d[i] == BZ_RUNB
    ensures |d| <= z && (z > 0 ==> |d| > 0)
  {
    if z == 0 then [] else [(z - 1) % 2] + RunDigits((z - 1) / 2)
  }

  // ---- the encoder --------------------------------------------------------

  // The list, a count of pending zeros, and the symbols written.
  datatype Coder = Coder(list: seq<int>, zPend: nat, out: seq<int>)

  function CodeOne(s: Coder, c: int): Coder
    requires c in s.list
  {
    if s.list[0] == c then s.(zPend := s.zPend + 1)
    else
      var k := IndexOf(s.list, c);
      Coder(Moved(s.list, k), 0, s.out + RunDigits(s.zPend) + [k + 1])
  }

  ghost predicate AllIn(col: seq<int>, list: seq<int>) {
    forall i :: 0 <= i < |col| ==> col[i] in list
  }

  function CodeAll(list: seq<int>, col: seq<int>): (s: Coder)
    requires AllIn(col, list)
    ensures |s.list| == |list| && forall c :: c in s.list <==> c in list
  {
    if col == [] then Coder(list, 0, [])
    else
      var m := |col| - 1;
      var s := CodeAll(list, col[..m]);
      CodeOneMembers(s, col[m]);
      CodeOne(s, col[m])
  }

  lemma CodeOneMembers(s: Coder, c: int)
    requires c in s.list
    ensures |CodeOne(s, c).list| == |s.list| && forall x :: x in CodeOne(s, c).list <==> x in s.list
  {
    if s.list[0] != c {
      forall x ensures x in CodeOne(s, c).list <==> x in s.list {
        MovedMembers(s.list, IndexOf(s.list, c), x);
      }
    }
  }

  // All the symbols for a column, the end marker last.
  function Symbols(list: seq<int>, col: seq<int>, eob: int): seq<int>
    requires AllIn(col, list)
  {
    var s := CodeAll(list, col);
    s.out + RunDigits(s.zPend) + [eob]
  }

  // ---- the decoder --------------------------------------------------------

  // The list, the run read so far with the weight of its next digit, and the column written.
  datatype Decoder = Decoder(list: seq<int>, run: nat, weight: nat, col: seq<int>)

  function DecodeOne(s: Decoder, sym: int): (r: Option<Decoder>)
  {
    if sym == BZ_RUNA then
      Some(s.(run := s.run + s.weight, weight := s.weight + s.weight))
    else if sym == BZ_RUNB then
      Some(s.(run := s.run + s.weight + s.weight, weight := s.weight + s.weight))
    else if 2 <= sym <= |s.list| then
      Some(Decoder(Moved(s.list, sym - 1), 0, 1, s.col + Rep(s.list[0], s.run) + [s.list[sym - 1]]))
    else
      None
  }

  function DecodeAll(s: Decoder, syms: seq<int>): Option<Decoder> {
    if syms == [] then Some(s)
    else match DecodeAll(s, syms[..|syms| - 1])
      case Some(t) => DecodeOne(t, syms[|syms| - 1])
      case None => None
  }

  lemma {:induction false} DecodeConcat(s: Decoder, a: seq<int>, b: seq<int>)
    ensures DecodeAll(s, a + b) == match DecodeAll(s, a) case Some(t) => DecodeAll(t, b) case None => None
  {
    if b == [] {
      assert a + b == a;
    } else {
      var m := |b| - 1;
      assert (a + b)[..|a + b| - 1] == a + b[..m];
      DecodeConcat(s, a, b[..m]);
    }
  }

  lemma DecodeSnoc(s: Decoder, a: seq<int>, sym: int)
    ensures DecodeAll(s, a + [sym]) == match DecodeAll(s, a) case Some(t) => DecodeOne(t, sym) case None => None
  {
    assert (a + [sym])[..|a|] == a;
  }

  // ---- the round trip -----------------------------------------------------

  // What the digits of z add up to when the first weighs w.
  function Weighed(z: nat, w: nat): nat {
    if z == 0 then 0
    else (if (z - 1) % 2 == BZ_RUNA then w else w + w) + Weighed((z - 1) / 2, w + w)
  }

  lemma {:induction false} WeighedIsProduct(z: nat, w: nat)
    ensures Weighed(z, w) == z * w
  {
    if z > 0 {
      var y := (z - 1) / 2;
      WeighedIsProduct(y, w + w);
      ProductParts(z, w, if (z - 1) % 2 == BZ_RUNA then 1 else 2, y);
    }
  }

  lemma ProductParts(z: int, w: int, d: int, y: int)
    requires z == d + y + y && (d == 1 || d == 2)
    ensures z * w == (if d == 1 then w else w + w) + y * (w + w)
  {
    assert z * w == d * w + y * w + y * w;
    assert y * (w + w) == y * w + y * w;
  }

  // Decoding syms leaves the list and column alone and the run at the given length.
  ghost predicate ReadsRun(s: Decoder, syms: seq<int>, run: nat, weight: nat) {
    DecodeAll(s, syms) == Some(s.(run := run, weight := weight))
  }

  lemma {:induction false} DigitsRead(s: Decoder, z: nat) returns (w: nat)
    ensures ReadsRun(s, RunDigits(z), s.run + Weighed(z, s.weight), w)
    decreases z
  {
    if z == 0 {
      w := s.weight;
    } else {
      var d, y := (z - 1) % 2, (z - 1) / 2;
      var t := s.(run := if d == BZ_RUNA then s.run + s.weight else s.run + s.weight + s.weight,
          weight := s.weight + s.weight);
      DecodeConcat(s, [d], RunDigits(y));
      DecodeSnoc(s, [], d);
      assert [] + [d] == [d];
      w := DigitsRead(t, y);
    }
  }

  // Reading the digits of z back gives z.
  lemma RunRead(s: Decoder, z: nat) returns (w: nat)
    requires s.run == 0 && s.weight == 1
    ensures ReadsRun(s, RunDigits(z), z, w)
  {
    w := DigitsRead(s, z);
    WeighedIsProduct(z, 1);
  }

  // The decoder is level with the encoder: same list, and the pending zeros are all it lacks.
  ghost predicate Level(s: Coder, d: Decoder, col: seq<int>) {
    && d.list == s.list && d.run == 0 && d.weight == 1 && |s.list| > 0
    && col == d.col + Rep(s.list[0], s.zPend)
  }

  // Coding a symbol that is not first, and decoding what that writes.
  lemma MoveDecodes(start: Decoder, s: Coder, d: Decoder, col: seq<int>, c: int) returns (r: Decoder)
    requires c in s.list && s.list[0] != c && Level(s, d, col)
    requires DecodeAll(start, s.out) == Some(d)
    ensures DecodeAll(start, CodeOne(s, c).out) == Some(r)
    ensures Level(CodeOne(s, c), r, col + [c])
  {
    var k := IndexOf(s.list, c);
    var digits := RunDigits(s.zPend);
    var w := RunRead(d, s.zPend);
    DecodeConcat(start, s.out, digits);
    DecodeSnoc(start, s.out + digits, k + 1);
    r := Decoder(Moved(s.list, k), 0, 1, d.col + Rep(s.list[0], s.zPend) + [c]);
    assert r.col + Rep(r.list[0], 0) == r.col;
  }

  lemma StepDecodes(start: Decoder, s: Coder, d: Decoder, col: seq<int>, c: int) returns (r: Decoder)
    requires c in s.list && Level(s, d, col) && DecodeAll(start, s.out) == Some(d)
    ensures DecodeAll(start, CodeOne(s, c).out) == Some(r)
    ensures Level(CodeOne(s, c), r, col + [c])
  {
    if s.list[0] == c {
      r := d;
      assert d.col + Rep(c, s.zPend + 1) == (d.col + Rep(c, s.zPend)) + [c];
    } else {
      r := MoveDecodes(start, s, d, col, c);
    }
  }

  lemma Snoc(col: seq<int>)
    requires |col| > 0
    ensures col[..|col| - 1] + [col[|col| - 1]] == col
  {
  }

  lemma {:induction false} CodedDecodes(list: seq<int>, col: seq<int>) returns (d: Decoder)
    requires AllIn(col, list) && |list| > 0
    ensures DecodeAll(Decoder(list, 0, 1, []), CodeAll(list, col).out) == Some(d)
    ensures Level(CodeAll(list, col), d, col)
  {
    var start := Decoder(list, 0, 1, []);
    if col == [] {
      d := start;
    } else {
      var m := |col| - 1;
      var c := col[m];
      var s := CodeAll(list, col[..m]);
      d := CodedDecodes(list, col[..m]);
      Snoc(col);
      d := StepDecodes(start, s, d, col[..m], c);
    }
  }

  // Decoding every symbol but the end marker, then the last run, gives the column back.
  lemma MtfRoundTrip(list: seq<int>, col: seq<int>, eob: int)
    requires AllIn(col, list) && |list| > 0
    ensures var syms := Symbols(list, col, eob);
            match DecodeAll(Decoder(list, 0, 1, []), syms[..|syms| - 1])
            case Some(d) => d.list != [] && d.col + Rep(d.list[0], d.run) == col
            case None => false
  {
    var s, syms, start := CodeAll(list, col), Symbols(list, col, eob), Decoder(list, 0, 1, []);
    var d := CodedDecodes(list, col);
    assert syms[..|syms| - 1] == s.out + RunDigits(s.zPend);
    DecodeConcat(start, s.out, RunDigits(s.zPend));
    var w := RunRead(d, s.zPend);
  }
}
