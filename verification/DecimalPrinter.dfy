// 64-bit counts kept in eight bytes, and their decimal numerals by division in base 256.
module DecimalPrinter {
  import opened Common

  // ---- numbers in bytes ---------------------------------------------------

  // The number whose bytes these are, the lowest first.
  function Number(s: seq<Byte>): nat {
    if s == [] then 0 else s[0] + 256 * Number(s[1..])
  }

  lemma {:induction false} NumberBelow(s: seq<Byte>)
    ensures Number(s) < Power(256, |s|)
  {
    if s != [] {
      NumberBelow(s[1..]);
    }
  }

  function Power(b: nat, n: nat): nat {
    if n == 0 then 1 else b * Power(b, n - 1)
  }

  lemma {:induction false} NumberZero(s: seq<Byte>)
    ensures Number(s) == 0 <==> forall i :: 0 <= i < |s| ==> s[i] == 0
  {
    if s != [] {
      NumberZero(s[1..]);
      assert forall i :: 1 <= i < |s| ==> s[i] == s[1..][i - 1];
    }
  }

  // ---- numerals -----------------------------------------------------------

  function Digit(d: nat): char
    requires d < 10
  {
    '0' + d as char
  }

  // The decimal numeral, with no digit more than it needs.
  function Numeral(n: nat): (s: string)
    ensures |s| > 0
  {
    if n < 10 then [Digit(n)] else Numeral(n / 10) + [Digit(n % 10)]
  }

  function DigitValue(c: char): int {
    c as int - '0' as int
  }

  function Read(s: string): int {
    if s == [] then 0 else 10 * Read(s[..|s| - 1]) + DigitValue(s[|s| - 1])
  }

  // A numeral stands for its number, in digits, the first of which is not zero unless it is the only one.
  lemma {:induction false} NumeralReads(n: nat)
    ensures Read(Numeral(n)) == n && (forall i :: 0 <= i < |Numeral(n)| ==> '0' <= Numeral(n)[i] <= '9')
    ensures n > 0 ==> Numeral(n)[0] != '0'
  {
    if n < 10 {
      assert Read([]) == 0;
    } else {
      NumeralReads(n / 10);
      assert Numeral(n)[..|Numeral(n)| - 1] == Numeral(n / 10);
    }
  }

  lemma {:induction false} NumeralLength(n: nat, k: nat)
    requires n < Power(10, k) && k > 0
    ensures |Numeral(n)| <= k
  {
    if n >= 10 {
      assert k > 1 by {
        assert Power(10, 1) == 10 * Power(10, 0);
      }
      assert n / 10 < Power(10, k - 1);
      NumeralLength(n / 10, k - 1);
    }
  }

  // Twenty digits are enough for 64 bits.
  lemma SixtyFourBits(n: nat)
    requires n < Power(256, 8)
    ensures |Numeral(n)| <= 20
  {
    assert Power(256, 2) == 65536 && Power(256, 4) == 0x1_0000_0000;
    assert Power(256, 6) == 0x1_0000_0000_0000 && Power(256, 8) == 0x1_0000_0000_0000_0000;
    assert Power(10, 2) == 100 && Power(10, 4) == 10000 && Power(10, 6) == 1000000 && Power(10, 8) == 100000000;
    assert Power(10, 10) == 10000000000 && Power(10, 12) == 1000000000000 && Power(10, 14) == 100000000000000;
    assert Power(10, 16) == 10000000000000000 && Power(10, 18) == 1000000000000000000;
    assert Power(10, 20) == 100000000000000000000;
    NumeralLength(n, 20);
  }

  // ---- the eight bytes ----------------------------------------------------

  class UInt64 {
    const b: array<Byte>

    ghost predicate Valid()
      reads this
    {
      b.Length == 8
    }

    ghost function Value(): nat
      reads this, b
    {
      Number(b[..])
    }

    // uInt64_from_UInt32s
    constructor (lo32: nat, hi32: nat)
      requires lo32 < 0x1_0000_0000 && hi32 < 0x1_0000_0000
      ensures Valid() && fresh(b) && Value() == 0x1_0000_0000 * hi32 + lo32
    {
      b := new Byte[8][lo32 % 256, lo32 / 256 % 256, lo32 / 65536 % 256, lo32 / 0x100_0000,
                       hi32 % 256, hi32 / 256 % 256, hi32 / 65536 % 256, hi32 / 0x100_0000];
      new;
      FourBytes(b[..], lo32);
      assert b[..][4..][1..] == b[..][5..];
      FourBytes(b[..][4..], hi32);
      assert b[..][4..][4..] == [];
    }

    // A copy, as the assignment of the struct makes it.
    constructor Copy(n: UInt64)
      requires n.Valid()
      ensures Valid() && fresh(b) && Value() == n.Value()
    {
      b := new Byte[8](i requires 0 <= i < 8 == n.b.Length reads n.b => n.b[i]);
      new;
      assert b[..] == n.b[..];
    }

    // uInt64_isZero
    method IsZero() returns (zero: bool)
      requires Valid()
      ensures zero <==> Value() == 0
    {
      NumberZero(b[..]);
      for i := 0 to 8
        invariant forall k :: 0 <= k < i ==> b[..][k] == 0
      {
        if b[i] != 0 {
          assert b[..][i] != 0;
          return false;
        }
      }
      zero := true;
    }

    // uInt64_qrm10: division by ten, a byte at a time from the top, and the remainder.
    method Qrm10() returns (rem: nat)
      requires Valid()
      modifies b
      ensures rem < 10 && old(Value()) == 10 * Value() + rem
    {
      ghost var s := b[..];
      rem := 0;
      var i := 8;
      assert s[8..] == [];
      while i > 0
        invariant 0 <= i <= 8 && rem < 10 && b[..i] == s[..i]
        invariant Number(s[i..]) == 10 * Number(b[i..]) + rem
      {
        i := i - 1;
        var tmp := rem * 256 + b[i];
        ghost var high := b[i + 1..];
        assert b[i] == s[i] && s[i..][1..] == s[i + 1..];
        b[i] := tmp / 10;
        rem := tmp % 10;
        assert b[i..][1..] == high;
      }
      assert s[0..] == s && b[0..] == b[..];
    }
  }

  // The number in the first four bytes, and what follows them.
  lemma FourBytes(s: seq<Byte>, v: nat)
    requires |s| >= 4 && v < 0x1_0000_0000
    requires s[0] == v % 256 && s[1] == v / 256 % 256 && s[2] == v / 65536 % 256 && s[3] == v / 0x100_0000
    ensures Number(s) == v + 0x1_0000_0000 * Number(s[4..])
  {
    var t1, t2, t3, t4 := s[1..], s[2..], s[3..], s[4..];
    assert t1[1..] == t2 && t2[1..] == t3 && t3[1..] == t4;
    assert Number(t3) == s[3] + 256 * Number(t4);
    assert Number(t2) == s[2] + 256 * Number(t3);
    assert Number(t1) == s[1] + 256 * Number(t2);
    assert Number(s) == s[0] + 256 * Number(t1);
    ByteParts(v);
  }

  lemma ByteParts(v: nat)
    requires v < 0x1_0000_0000
    ensures v == v % 256 + 256 * (v / 256 % 256) + 65536 * (v / 65536 % 256) + 0x100_0000 * (v / 0x100_0000)
  {
    var a := v / 256;
    var b := a / 256;
    var c := b / 256;
    assert v == 65536 * b + (256 * (a % 256) + v % 256);
    assert v / 65536 == b;
    assert v == 0x100_0000 * c + (65536 * (b % 256) + 256 * (a % 256) + v % 256);
    assert v / 0x100_0000 == c;
  }

  // ---- printing -----------------------------------------------------------

  // The digits so far, the last first, come after the numeral of what is left.
  ghost predicate Printed(n: nat, left: nat, digits: string) {
    if left == 0 && digits != [] then Backwards(digits) == Numeral(n)
    else Numeral(left) + Backwards(digits) == Numeral(n)
  }

  function Backwards(s: string): (r: string)
    ensures |r| == |s| && forall i :: 0 <= i < |s| ==> r[i] == s[|s| - 1 - i]
  {
    if s == [] then [] else Backwards(s[1..]) + [s[0]]
  }

  lemma {:induction false} BackwardsMore(s: string, c: char)
    ensures Backwards(s + [c]) == [c] + Backwards(s)
  {
    if s != [] {
      BackwardsMore(s[1..], c);
      assert (s + [c])[1..] == s[1..] + [c];
    } else {
      assert Backwards([c]) == [c];
    }
  }

  lemma OneMoreDigit(n: nat, left: nat, q: nat, rem: nat, digits: string)
    requires (digits == [] || left > 0) && Printed(n, left, digits) && left == 10 * q + rem && rem < 10
    ensures Printed(n, q, digits + [Digit(rem)])
  {
    BackwardsMore(digits, Digit(rem));
    assert left / 10 == q && left % 10 == rem;
    if q > 0 {
      assert Numeral(left) == Numeral(q) + [Digit(rem)];
      assert Numeral(q) + [Digit(rem)] + Backwards(digits) == Numeral(q) + ([Digit(rem)] + Backwards(digits));
    }
  }

  // uInt64_toAscii: the numeral and a zero byte, and at most twenty digits of buf.
  method ToAscii(outbuf: array<char>, n: UInt64) returns (nBuf: nat)
    requires n.Valid() && outbuf.Length >= 21
    modifies outbuf
    ensures 1 <= nBuf <= 20 && outbuf[..nBuf] == Numeral(n.Value()) && outbuf[nBuf] == '\0'
  {
    ghost var value := n.Value();
    NumberBelow(n.b[..]);
    SixtyFourBits(value);
    var copy := new UInt64.Copy(n);
    var buf := new char[32](i => ' ');
    ghost var digits: string := [];
    assert Backwards([]) == [] && Numeral(value) + [] == Numeral(value);
    nBuf := 0;
    var more := true;
    while more
      invariant copy.Valid() && fresh(copy.b) && nBuf == |digits| <= 20 && buf[..nBuf] == digits
      invariant Printed(value, copy.Value(), digits) && (more <==> digits == [] || copy.Value() > 0)
      decreases copy.Value(), more
    {
      ghost var left := copy.Value();
      PrintedLength(value, left, digits);
      var q := copy.Qrm10();
      OneMoreDigit(value, left, copy.Value(), q, digits);
      buf[nBuf] := Digit(q);
      digits := digits + [Digit(q)];
      nBuf := nBuf + 1;
      var zero := copy.IsZero();
      more := !zero;
    }
    outbuf[nBuf] := '\0';
    for i := 0 to nBuf
      invariant forall k :: 0 <= k < i ==> outbuf[k] == Numeral(value)[k]
      invariant outbuf[nBuf] == '\0' && buf[..nBuf] == digits
    {
      outbuf[i] := buf[nBuf - i - 1];
      assert buf[nBuf - i - 1] == digits[nBuf - i - 1];
    }
    assert n.Value() == value;
  }

  lemma PrintedLength(n: nat, left: nat, digits: string)
    requires Printed(n, left, digits) && (digits == [] || left > 0)
    ensures |digits| < |Numeral(n)|
  {
  }
}
