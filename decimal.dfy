/** Decimal digit strings: Python's `int()` on a digit string and the `d` format with zero padding. */
module Decimal {
  import opened Wrappers
  import opened Strings

  predicate IsDigit(c: char) {
    '0' <= c <= '9'
  }

  predicate AllDigits(s: string) {
    forall i :: 0 <= i < |s| ==> IsDigit(s[i])
  }

  function DigitChar(d: nat): (c: char)
    requires d < 10
    ensures IsDigit(c) && c as int - '0' as int == d
  {
    ('0' as int + d) as char
  }

  /** The value of a string of decimal digits (leading zeros allowed). */
  function ParseDigits(s: string): nat
    requires AllDigits(s)
  {
    if s == [] then 0 else ParseDigits(s[..|s| - 1]) * 10 + (s[|s| - 1] as int - '0' as int)
  }

  /** The shortest decimal spelling of `n`. */
  function Digits(n: nat): (r: string)
    ensures |r| >= 1 && AllDigits(r)
    ensures r[0] == '0' ==> n == 0
  {
    if n < 10 then [DigitChar(n)] else Digits(n / 10) + [DigitChar(n % 10)]
  }

  function Zeros(k: nat): (r: string)
    ensures |r| == k && AllDigits(r)
    ensures forall i :: 0 <= i < k ==> r[i] == '0'
  {
    seq(k, _ => '0')
  }

  /** Python's `d` format with zero fill to `width`, for `n >= 0`: the digits, zero-padded on the left to at least `width`. */
  function ZeroPadded(n: nat, width: nat): (r: string)
    ensures AllDigits(r)
    ensures |r| == if |Digits(n)| >= width then |Digits(n)| else width
  {
    var d := Digits(n);
    if |d| >= width then d else Zeros(width - |d|) + d
  }

  /** Python's `int(s)` on the strings this model admits: a non-empty run of ASCII digits. */
  function PyInt(s: string): (r: Option<nat>)
    ensures r.Some? <==> s != [] && AllDigits(s)
  {
    if s != [] && AllDigits(s) then Some(ParseDigits(s)) else None
  }

  /** Python's `int()` on a string: surrounding whitespace, an optional sign, then digits. */
  function IntOfString(s: string): (r: Option<int>)
    ensures AllDigits(Strip(s)) && Strip(s) != [] ==> r == Some(ParseDigits(Strip(s)))
  {
    var t := Strip(s);
    if t != [] && (t[0] == '-' || t[0] == '+') then
      match PyInt(t[1..])
      case None => None
      case Some(n) =>
        var m: int := n;
        Some(if t[0] == '-' then -m else m)
    else
      match PyInt(t)
      case None => None
      case Some(n) => Some(n)
  }

  /** `int()` reads the decimal digits of `n` back as `n`, and with a leading minus or plus sign as `-n` or `n`. */
  lemma IntOfStringOfDigits(n: nat)
    ensures IntOfString(Digits(n)) == Some(n)
    ensures IntOfString("-" + Digits(n)) == Some(-(n as int))
    ensures IntOfString("+" + Digits(n)) == Some(n)
  {
    var d := Digits(n);
    ParseDigitsOfDigits(n);
    assert !IsSpace(d[0]) && !IsSpace(d[|d| - 1]);
    StripOfUnpadded(d);
    SignedDigits('-', n);
    SignedDigits('+', n);
  }

  lemma SignedDigits(sign: char, n: nat)
    requires sign == '-' || sign == '+'
    ensures IntOfString([sign] + Digits(n)) == Some(if sign == '-' then -(n as int) else n)
  {
    var d := Digits(n);
    var s := [sign] + d;
    ParseDigitsOfDigits(n);
    assert !IsSpace(s[0]) && s[|s| - 1] == d[|d| - 1] && !IsSpace(d[|d| - 1]);
    StripOfUnpadded(s);
    assert s[1..] == d;
    assert PyInt(d) == Some(n);
  }

  /** A string that is not a run of digits after whitespace and an optional sign is refused. */
  lemma IntOfStringRefuses(s: string)
    requires Strip(s) == [] || (!AllDigits(Strip(s)) && !(Strip(s)[0] in "+-"))
    ensures IntOfString(s) == None
  {
  }

  /** `int()` answers a negative number only for a string holding a minus sign. */
  lemma IntOfStringNegative(s: string)
    ensures IntOfString(s).Some? && IntOfString(s).value < 0 ==> '-' in s
  {
    var i, j := StripIsSlice(s);
    var t := Strip(s);
    if t != [] {
      assert t[0] == s[i];
    }
  }

  lemma {:induction false} ParseDigitsOfDigits(n: nat)
    ensures ParseDigits(Digits(n)) == n
  {
    if n >= 10 {
      var d := Digits(n);
      assert d[..|d| - 1] == Digits(n / 10);
      ParseDigitsOfDigits(n / 10);
    }
  }

  lemma {:induction false} ParseIgnoresLeadingZeros(k: nat, s: string)
    requires AllDigits(s)
    ensures ParseDigits(Zeros(k) + s) == ParseDigits(s)
  {
    if s == [] {
      assert Zeros(k) + s == Zeros(k);
      ZerosParseToZero(k);
    } else {
      assert (Zeros(k) + s)[..|Zeros(k) + s| - 1] == Zeros(k) + s[..|s| - 1];
      ParseIgnoresLeadingZeros(k, s[..|s| - 1]);
    }
  }

  lemma {:induction false} ZerosParseToZero(k: nat)
    ensures ParseDigits(Zeros(k)) == 0
  {
    if k > 0 {
      assert Zeros(k)[..k - 1] == Zeros(k - 1);
      ZerosParseToZero(k - 1);
    }
  }

  /** Reading back a zero-padded number gives the number. */
  lemma ZeroPaddedRoundTrip(n: nat, width: nat)
    ensures PyInt(ZeroPadded(n, width)) == Some(n)
  {
    ParseDigitsOfDigits(n);
    var d := Digits(n);
    if |d| < width {
      ParseIgnoresLeadingZeros(width - |d|, d);
    }
  }

  lemma DigitsLength(n: nat)
    ensures n < 10 ==> |Digits(n)| == 1
    ensures 10 <= n < 100 ==> |Digits(n)| == 2
    ensures 100 <= n < 1000 ==> |Digits(n)| == 3
    ensures 1000 <= n < 10000 ==> |Digits(n)| == 4
    ensures n >= 1000 ==> |Digits(n)| >= 4
  {
    if n >= 10 {
      DigitsLength(n / 10);
    }
  }
}
