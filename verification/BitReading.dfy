// GET_BITS: bits are taken from the low end of a 32-bit word that bytes are shifted into, and a call for more
// bits than there are waits for the next byte of input.
module BitReading {
  import opened Common
  import opened Bits
  import opened BitIO

  // The word's 32 bits; the last bsLive of them are still to be read.
  ghost predicate InWord(bsBuff: int, bsLive: int, word: seq<bool>) {
    |word| == 32 && 0 <= bsLive <= 32 && bsBuff == FromBits(word)
  }

  lemma {:induction false} ShlIsProduct(v: nat, k: nat)
    ensures Shl(v, k) == v * Pow2(k)
  {
    if k > 0 {
      ShlIsProduct(v, k - 1);
      assert v * Pow2(k) == 2 * (v * Pow2(k - 1));
    }
  }

  lemma LowBits(a: seq<bool>, b: seq<bool>)
    ensures FromBits(a + b) % Pow2(|b|) == FromBits(b)
  {
    FromBitsConcat(a, b);
    ShlIsProduct(FromBits(a), |b|);
    ToFromBits(b);
    Remainder(FromBits(a), Pow2(|b|), FromBits(b));
  }

  lemma {:induction false} HighBits(s: seq<bool>, k: nat)
    requires k <= |s|
    ensures Shr(FromBits(s), k) == FromBits(s[..|s| - k])
  {
    if k == 0 {
      assert s[..|s|] == s;
    } else {
      var t := s[..|s| - 1];
      HighBits(t, k - 1);
      assert t[..|t| - (k - 1)] == s[..|s| - k];
    }
  }

  // A byte goes in at the low end, and the oldest one falls off the top.
  lemma ByteShiftedIn(bsBuff: int, bsLive: int, word: seq<bool>, b: Byte) returns (word': seq<bool>)
    requires InWord(bsBuff, bsLive, word) && bsLive <= 24
    ensures InWord((bsBuff * 256 + b) % WORD, bsLive + 8, word')
    ensures word'[24 - bsLive..] == word[32 - bsLive..] + ByteBits(b)
  {
    word' := word[8..] + ByteBits(b);
    var all := word + ByteBits(b);
    FromBitsConcat(word, ByteBits(b));
    Shl8(FromBits(word));
    Pow2Of32();
    FromToBits(b, 8);
    assert all == word[..8] + word';
    LowBits(word[..8], word');
  }

  // The oldest n of the bits still to be read.
  lemma BitsTaken(bsBuff: int, bsLive: int, word: seq<bool>, n: nat)
    requires InWord(bsBuff, bsLive, word) && n <= bsLive
    ensures Shr(bsBuff, bsLive - n) % Pow2(n) == FromBits(word[32 - bsLive..32 - bsLive + n])
  {
    var k := bsLive - n;
    HighBits(word, k);
    var high := word[..32 - k];
    assert high == word[..32 - bsLive] + word[32 - bsLive..32 - bsLive + n];
    LowBits(word[..32 - bsLive], word[32 - bsLive..32 - bsLive + n]);
  }

  class BitReader {
    var bsBuff: nat
    var bsLive: nat
    ghost var word: seq<bool>

    ghost predicate Valid()
      reads this
    {
      InWord(bsBuff, bsLive, word)
    }

    // Bits read from the input and not yet used.
    ghost function Unread(): (s: seq<bool>)
      reads this
      requires Valid()
      ensures |s| == bsLive
    {
      word[32 - bsLive..]
    }

    constructor ()
      ensures Valid() && Unread() == []
    {
      bsBuff, bsLive, word := 0, 0, Rep(false, 32);
      new;
      ZeroWord(32);
    }

    method Feed(b: Byte)
      requires Valid() && bsLive <= 24
      modifies this
      ensures Valid() && Unread() == old(Unread()) + ByteBits(b)
    {
      ghost var word' := ByteShiftedIn(bsBuff, bsLive, word, b);
      bsBuff := (bsBuff * 256 + b) % WORD;
      bsLive := bsLive + 8;
      word := word';
    }

    method Take(n: nat) returns (v: nat)
      requires Valid() && n <= bsLive
      modifies this
      ensures Valid() && v == FromBits(old(Unread())[..n]) && Unread() == old(Unread())[n..]
    {
      BitsTaken(bsBuff, bsLive, word, n);
      assert Unread()[..n] == word[32 - bsLive..32 - bsLive + n];
      v := Shr(bsBuff, bsLive - n) % Pow2(n);
      bsLive := bsLive - n;
    }

    // GET_BITS with the input at hand: as many bytes go in as are wanted and there are.
    method GetBits(n: nat, input: seq<Byte>) returns (got: bool, v: nat, used: nat)
      requires Valid() && n <= 24
      modifies this
      ensures Valid() && used <= |input|
      ensures got ==> |old(Unread()) + BytesBits(input[..used])| >= n
                      && v == FromBits((old(Unread()) + BytesBits(input[..used]))[..n])
                      && Unread() == (old(Unread()) + BytesBits(input[..used]))[n..]
      ensures !got ==> used == |input| && Unread() == old(Unread()) + BytesBits(input) && |Unread()| < n
    {
      hide InWord, FromBits, BytesBits, ByteBits, ToBits;
      used := 0;
      ghost var was := Unread();
      NoBytes(input[..0], was);
      while bsLive < n && used < |input|
        invariant Valid() && used <= |input| && Unread() == was + BytesBits(input[..used])
        decreases |input| - used
      {
        BytesBitsAppend(input[..used], input[used]);
        assert input[..used + 1] == input[..used] + [input[used]];
        assert was + BytesBits(input[..used]) + ByteBits(input[used]) == was
            + (BytesBits(input[..used]) + ByteBits(input[used]));
        Feed(input[used]);
        used := used + 1;
      }
      assert input[..|input|] == input;
      if bsLive < n {
        return false, 0, used;
      }
      got := true;
      v := Take(n);
    }
  }

  lemma NoBytes(s: seq<Byte>, was: seq<bool>)
    requires s == []
    ensures was + BytesBits(s) == was
  {
  }

  lemma {:induction false} ZeroWord(n: nat)
    ensures FromBits(Rep(false, n)) == 0
  {
    if n > 0 {
      ZeroWord(n - 1);
      assert Rep(false, n)[..n - 1] == Rep(false, n - 1);
    }
  }
}
