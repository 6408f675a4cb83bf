// The bit buffers of both directions: bsW fills a 32-bit word from the top, GET_BITS drains one from the bottom.
module BitIO {
  import opened Common
  import opened Bits

  const WORD := 0x1_0000_0000

  function ByteBits(b: Byte): seq<bool> {
    ToBits(b, 8)
  }

  function BytesBits(s: seq<Byte>): (r: seq<bool>)
    ensures |r| == 8 * |s|
  {
    if s == [] then [] else BytesBits(s[..|s| - 1]) + ByteBits(s[|s| - 1])
  }

  lemma BytesBitsAppend(s: seq<Byte>, b: Byte)
    ensures BytesBits(s + [b]) == BytesBits(s) + ByteBits(b)
  {
    assert (s + [b])[..|s|] == s;
  }

  lemma {:induction false} BytesBitsConcat(s: seq<Byte>, t: seq<Byte>)
    ensures BytesBits(s + t) == BytesBits(s) + BytesBits(t)
  {
    hide ByteBits;
    if t == [] {
      assert s + t == s;
    } else {
      var m := |t| - 1;
      BytesBitsConcat(s, t[..m]);
      assert (s + t)[..|s + t| - 1] == s + t[..m];
    }
  }

  // ---- writing ------------------------------------------------------------

  // The word holds the pending bits at its top, zeros below.
  ghost predicate OnTop(bsBuff: int, pending: seq<bool>) {
    |pending| <= 32 && bsBuff == Shl(FromBits(pending), 32 - |pending|)
  }

  lemma OnTopBelowWord(bsBuff: int, pending: seq<bool>)
    requires OnTop(bsBuff, pending)
    ensures 0 <= bsBuff < WORD
  {
    ToFromBits(pending);
    Pow2Of32();
    ShlLess(FromBits(pending), |pending|, 32 - |pending|);
  }

  lemma Split8(p: seq<bool>)
    requires 8 <= |p| <= 32
    ensures Shl(FromBits(p), 32 - |p|) == Shl(FromBits(p[..8]), 24) + Shl(FromBits(p[8..]), 32 - |p|)
  {
    hide FromBits, Shl;
    var j, k := |p| - 8, 32 - |p|;
    assert p == p[..8] + p[8..] && |p[8..]| == j;
    FromBitsConcat(p[..8], p[8..]);
    ShlAdd(Shl(FromBits(p[..8]), j), FromBits(p[8..]), k);
    ShlShl(FromBits(p[..8]), j, k);
    assert j + k == 24;
  }

  lemma ShlBy8(x: nat, k: nat)
    ensures Shl(x, k + 8) == 256 * Shl(x, k)
  {
    ShlShl(x, k, 8);
    Shl8(Shl(x, k));
  }

  lemma {:induction false} ShlZero(k: nat)
    ensures Shl(0, k) == 0
  {
    if k > 0 {
      ShlZero(k - 1);
    }
  }

  lemma Shl24(x: nat)
    ensures Shl(x, 24) == 0x100_0000 * x
  {
    Shl8(x);
    Shl8(Shl(x, 8));
    Shl8(Shl(Shl(x, 8), 8));
    ShlShl(x, 8, 8);
    ShlShl(x, 16, 8);
  }

  lemma Split8Bounds(p: seq<bool>)
    requires 8 <= |p| <= 32
    ensures Shl(FromBits(p[8..]), 32 - |p|) < 0x100_0000 && FromBits(p[..8]) < 256
  {
    var q, j, k := p[8..], |p| - 8, 32 - |p|;
    Pow2Of32();
    Pow2Add(8, 16);
    ToFromBits(p[..8]);
    ToFromBits(q);
    ShlLess(FromBits(q), j, k);
    assert j + k == 24;
  }

  // Taking a byte off the top.
  lemma FlushByte(bsBuff: int, p: seq<bool>)
    requires OnTop(bsBuff, p) && |p| >= 8
    ensures bsBuff / 0x100_0000 == FromBits(p[..8]) < 256
    ensures OnTop(bsBuff * 256 % WORD, p[8..])
  {
    Split8(p);
    Split8Bounds(p);
    Shl24(FromBits(p[..8]));
    ShlBy8(FromBits(p[8..]), 32 - |p|);
    TopByte(bsBuff, FromBits(p[..8]), Shl(FromBits(p[8..]), 32 - |p|));
  }

  lemma TopByte(x: int, a: int, b: int)
    requires x == a * 0x100_0000 + b && 0 <= b < 0x100_0000 && 0 <= a < 256
    ensures x / 0x100_0000 == a && x * 256 % WORD == b * 256
  {
    assert x * 256 == a * WORD + b * 256;
  }

  // Putting n bits below those pending. The source ORs them in: the bits there are zero, so that is a sum.
  lemma AddBits(bsBuff: int, p: seq<bool>, n: nat, v: nat)
    requires OnTop(bsBuff, p) && |p| + n <= 32 && v < Pow2(n)
    ensures OnTop(bsBuff + Shl(v, 32 - |p| - n), p + ToBits(v, n))
  {
    hide FromBits, ToBits, Shl;
    var k := 32 - |p| - n;
    FromBitsConcat(p, ToBits(v, n));
    FromToBits(v, n);
    ShlAdd(Shl(FromBits(p), n), v, k);
    ShlShl(FromBits(p), n, k);
  }

  // The byte now leading goes out.
  lemma WrittenByte(done: seq<Byte>, p: seq<bool>, b: Byte)
    requires |p| >= 8 && b == FromBits(p[..8])
    ensures BytesBits(done + [b]) + p[8..] == BytesBits(done) + p
  {
    BytesBitsAppend(done, b);
    ToFromBits(p[..8]);
    assert p == p[..8] + p[8..];
  }

  class BitWriter {
    const zbits: array<Byte>
    var numZ: nat
    var bsBuff: int
    var bsLive: int
    ghost var pending: seq<bool>

    ghost predicate Valid()
      reads this, zbits
    {
      numZ <= zbits.Length && bsLive == |pending| && OnTop(bsBuff, pending)
    }

    // All bits written since the bytes were last taken away.
    ghost function Written(): seq<bool>
      reads this, zbits
      requires Valid()
    {
      BytesBits(zbits[..numZ]) + pending
    }

    // How many more bits there is room for.
    ghost function Spare(): int
      reads this, zbits
      requires Valid()
    {
      8 * zbits.Length - |Written()|
    }

    // BZ2_bsInitWrite on an empty output area.
    constructor (room: nat)
      ensures Valid() && fresh(zbits) && Written() == [] && zbits.Length == room && numZ == 0 && bsLive == 0
    {
      zbits := new Byte[room](i => 0);
      numZ, bsBuff, bsLive := 0, 0, 0;
      pending := [];
      ShlZero(32);
    }

    // The byte at the top of the word goes out.
    method ShiftOut()
      requires numZ < zbits.Length && |pending| >= 8 && OnTop(bsBuff, pending)
      modifies this, zbits
      ensures numZ == old(numZ) + 1 && bsLive == old(bsLive) - 8
      ensures OnTop(bsBuff, pending) && pending == old(pending)[8..]
      ensures BytesBits(zbits[..numZ]) + pending == old(BytesBits(zbits[..numZ]) + pending)
    {
      hide OnTop, BytesBits, FromBits;
      FlushByte(bsBuff, pending);
      ghost var done := zbits[..numZ];
      WrittenByte(done, pending, bsBuff / 0x100_0000);
      zbits[numZ] := bsBuff / 0x100_0000;
      assert zbits[..numZ + 1] == done + [zbits[numZ]];
      numZ := numZ + 1;
      bsBuff := bsBuff * 256 % WORD;
      bsLive := bsLive - 8;
      pending := pending[8..];
    }

    method PutByte()
      requires Valid() && bsLive >= 8 && Spare() >= 0
      modifies this, zbits
      ensures Valid() && bsLive == old(bsLive) - 8 && Written() == old(Written())
    {
      hide OnTop, BytesBits;
      ShiftOut();
    }

    // bsNEEDW
    method NeedW()
      requires Valid() && Spare() >= 0
      modifies this, zbits
      ensures Valid() && bsLive < 8 && Written() == old(Written())
    {
      while bsLive >= 8
        invariant Valid() && Written() == old(Written())
      {
        PutByte();
      }
    }

    // bsW
    method W(n: nat, v: nat)
      requires Valid() && n <= 24 && v < Pow2(n) && Spare() >= n
      modifies this, zbits
      ensures Valid() && Written() == old(Written()) + ToBits(v, n) && 0 <= bsBuff < WORD
    {
      hide FromBits, ToBits, BytesBits, Shl;
      NeedW();
      AddBits(bsBuff, pending, n, v);
      bsBuff := bsBuff + Shl(v, 32 - bsLive - n);
      bsLive := bsLive + n;
      pending := pending + ToBits(v, n);
      OnTopBelowWord(bsBuff, pending);
    }

    // bsFinishWrite: the last byte is filled up with zeros, and the count of live bits may fall below zero.
    method FinishWrite()
      requires Valid() && Spare() >= 7
      modifies this, zbits
      ensures bsLive <= 0 && numZ <= zbits.Length
      ensures exists k: nat :: k < 8 && BytesBits(zbits[..numZ]) == old(Written()) + Rep(false, k)
    {
      assert |pending| <= 32;
      hide OnTop, BytesBits, FromBits;
      ghost var m: nat := (bsLive + 7) / 8;
      ghost var k: nat := 8 * m - bsLive;
      ghost var w := Written();
      Pad(k);
      while bsLive > 0
        invariant k < 8 && bsLive == 8 * m - k && |pending| == 8 * m && numZ + m <= zbits.Length
        invariant OnTop(bsBuff, pending) && BytesBits(zbits[..numZ]) + pending == w + Rep(false, k)
        decreases m
      {
        ShiftOut();
        m := m - 1;
      }
      assert pending == [];
      assert k < 8 && BytesBits(zbits[..numZ]) == w + Rep(false, k);
    }

    // Zero bits below those pending are there already.
    ghost method Pad(k: nat)
      requires Valid() && |pending| + k <= 32
      modifies this`pending
      ensures pending == old(pending) + Rep(false, k) && OnTop(bsBuff, pending)
    {
      Pow2Positive(k);
      AddBits(bsBuff, pending, k, 0);
      ShlZero(32 - |pending| - k);
      ZeroBits(k);
      pending := pending + Rep(false, k);
    }

    // BZ2_bsInitWrite
    method InitWrite()
      requires Valid() && pending == []
      modifies this
      ensures Valid() && Written() == old(Written()) && numZ == old(numZ)
    {
      bsLive, bsBuff := 0, 0;
      ShlZero(32);
    }

    // The bytes are handed over and the area is used afresh; bits pending stay.
    method TakeAway()
      requires Valid()
      modifies this
      ensures Valid() && numZ == 0 && Written() == old(pending) == pending
    {
      numZ := 0;
      assert zbits[..0] == [];
    }
  }

  lemma {:induction false} ZeroBits(n: nat)
    ensures ToBits(0, n) == Rep(false, n)
  {
    if n > 0 {
      ZeroBits(n - 1);
    }
  }

  lemma Pow2Positive(n: nat)
    ensures 0 < Pow2(n)
  {
  }
}
