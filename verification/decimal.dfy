/** Decimal text for integers, as JavaScript renders a whole number with
    `toString()` and pads it with `padStart`, together with a reader that
    turns the digits back into the number. */
module Decimal {

  predicate IsDigit(c: char) {
    '0' <= c <= '9'
  }

  predicate AllDigits(s: string) {
    forall i :: 0 <= i < |s| ==> IsDigit(s[i])
  }

  function DigitValue(c: char): (d: nat)
    requires IsDigit(c)
    ensures d < 10
  {
    c as int - '0' as int
  }

  function DigitChar(d: nat): (c: char)
    requires d < 10
    ensures IsDigit(c) && DigitValue(c) == d
  {
    ('0' as int + d) as char
  }

  /** The shortest decimal rendering of `n`, most significant digit first. */
  function NatToString(n: nat): string {
    if n < 10 then [DigitChar(n)] else NatToString(n / 10) + [DigitChar(n % 10)]
  }

  /** The rendering is digits only, with no leading zero, and a single digit
      exactly for numbers below ten. */
  lemma {:induction false} NatToStringShape(n: nat)
    ensures 1 <= |NatToString(n)| && AllDigits(NatToString(n))
    ensures 1 < |NatToString(n)| ==> NatToString(n)[0] != '0'
    ensures |NatToString(n)| == 1 <==> n < 10
  {
    if n >= 10 {
      NatToStringShape(n / 10);
    }
  }

  /** JavaScript's `Number.prototype.toString` on a whole number whose
      magnitude is at most 2^53. Every such number is exact as a double, so
      JavaScript prints its digits. Above that, JavaScript prints the shortest
      digits that read back as the same double, and from 10^21 it switches to
      exponent notation. No value here comes near either. */
  function IntToString(i: int): (s: string)
    ensures 0 <= i ==> s == NatToString(i)
    ensures i < 0 ==> |s| >= 2 && s[0] == '-' && s[1..] == NatToString(-i)
  {
    if i < 0 then
      NatToStringShape(-i);
      "-" + NatToString(-i)
    else NatToString(i)
  }

  /** The rendering reads back as the number: plain digits for a
      non-negative number, and digits of the magnitude after the minus sign
      for a negative one. */
  lemma IntToStringReadsBack(i: int)
    ensures 0 <= i ==> AllDigits(IntToString(i)) && ParseNat(IntToString(i)) == i
    ensures i < 0 ==> AllDigits(IntToString(i)[1..]) && ParseNat(IntToString(i)[1..]) == -i
  {
    if i < 0 {
      ParseNatToString(-i);
    } else {
      ParseNatToString(i);
    }
  }

  /** JavaScript's `s.padStart(width, fill)`. */
  function PadStart(s: string, width: nat, fill: char): (r: string)
    ensures |r| == if |s| < width then width else |s|
    ensures r[|r| - |s|..] == s
    ensures forall i :: 0 <= i < |r| - |s| ==> r[i] == fill
  {
    if |s| < width then seq(width - |s|, _ => fill) + s else s
  }

  /** Reads a string of decimal digits as a number (most significant first). */
  function ParseNat(s: string): nat
    requires AllDigits(s)
  {
    if |s| == 0 then 0 else ParseNat(s[..|s| - 1]) * 10 + DigitValue(s[|s| - 1])
  }

  /** Reading back the rendering of `n` gives `n`. */
  lemma {:induction false} ParseNatToString(n: nat)
    ensures AllDigits(NatToString(n)) && ParseNat(NatToString(n)) == n
  {
    NatToStringShape(n);
    if n >= 10 {
      var s := NatToString(n);
      assert s[..|s| - 1] == NatToString(n / 10);
      ParseNatToString(n / 10);
    }
  }

  /** Leading zeros do not change the value read. */
  lemma {:induction false} ParseNatLeadingZeros(z: nat, s: string)
    requires AllDigits(s)
    ensures AllDigits(seq(z, _ => '0') + s)
    ensures ParseNat(seq(z, _ => '0') + s) == ParseNat(s)
  {
    var t := seq(z, _ => '0') + s;
    if |s| == 0 {
      assert t == seq(z, _ => '0');
      ParseNatZeros(z);
    } else {
      assert t[..|t| - 1] == seq(z, _ => '0') + s[..|s| - 1];
      ParseNatLeadingZeros(z, s[..|s| - 1]);
    }
  }

  lemma {:induction false} ParseNatZeros(z: nat)
    ensures AllDigits(seq(z, _ => '0'))
    ensures ParseNat(seq(z, _ => '0')) == 0
  {
    if z > 0 {
      assert seq(z, _ => '0')[..z - 1] == seq(z - 1, _ => '0');
      ParseNatZeros(z - 1);
    }
  }
}
