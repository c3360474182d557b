/**
 * Decimal text of integers, as std::format("{}") and std::to_string write it,
 * and the value of a run of decimal digits.
 */
module Decimal {
  import opened Utf8

  predicate IsDigit(b: Byte)
  {
    '0' <= b <= '9'
  }

  predicate AllDigits(s: Bytes)
  {
    forall i :: 0 <= i < |s| ==> IsDigit(s[i])
  }

  function DigitChar(d: nat): (b: Byte)
    requires d < 10
    ensures IsDigit(b) && b as int - '0' as int == d
  {
    ('0' as int + d) as char
  }

  /** The shortest decimal digits of n: no leading zero, "0" for zero. */
  function NatText(n: nat): (r: Bytes)
    ensures |r| >= 1 && AllDigits(r)
    ensures n >= 10 ==> r[0] != '0'
    decreases n
  {
    if n < 10 then [DigitChar(n)] else NatText(n / 10) + [DigitChar(n % 10)]
  }

  /** std::format("{}", n) for a signed integer: a '-' before the digits of a negative one. */
  function IntText(n: int): (r: Bytes)
    ensures |r| >= 1
    ensures n < 0 <==> r[0] == '-'
  {
    if n < 0 then ['-'] + NatText(-n) else NatText(n)
  }

  /** Each integer written in decimal, in order. */
  function DecimalTexts(values: seq<int>): (r: seq<Bytes>)
    ensures |r| == |values|
    ensures forall i :: 0 <= i < |values| ==> r[i] == IntText(values[i])
  {
    if values == [] then [] else [IntText(values[0])] + DecimalTexts(values[1..])
  }

  /** The value of a run of decimal digits, most significant first (only ever applied to digits). */
  function DigitsValue(s: Bytes): int
  {
    if s == [] then 0 else DigitsValue(s[..|s| - 1]) * 10 + (s[|s| - 1] as int - '0' as int)
  }

  lemma {:induction false} DigitsValueOfNatText(n: nat)
    ensures DigitsValue(NatText(n)) == n
    decreases n
  {
    var r := NatText(n);
    if n >= 10 {
      DigitsValueOfNatText(n / 10);
      assert r[..|r| - 1] == NatText(n / 10);
    }
  }
}

/**
 * std::from_chars for a base-10 int: an optional '-', then the longest run
 * of digits; no digits is an error, and so is a value outside int32.
 */
module CharConv {
  import opened Utf8
  import opened Decimal
  import opened Options

  type I32 = n: int | -0x8000_0000 <= n < 0x8000_0000

  /** The longest prefix of s made of digits. */
  function LeadingDigits(s: Bytes): Bytes
  {
    if s != [] && IsDigit(s[0]) then [s[0]] + LeadingDigits(s[1..]) else []
  }

  /** LeadingDigits is a prefix, made of digits, that stops at the first non-digit. */
  lemma {:induction false} LeadingDigitsIsLongestDigitPrefix(s: Bytes)
    ensures LeadingDigits(s) <= s && AllDigits(LeadingDigits(s))
    ensures |LeadingDigits(s)| == |s| || !IsDigit(s[|LeadingDigits(s)|])
  {
    if s != [] && IsDigit(s[0]) {
      LeadingDigitsIsLongestDigitPrefix(s[1..]);
    }
  }

  function FromChars(s: Bytes): Option<I32>
  {
    var negative := s != [] && s[0] == '-';
    var digits := LeadingDigits(if negative then s[1..] else s);
    var v := if negative then -DigitsValue(digits) else DigitsValue(digits);
    if digits == [] || !(-0x8000_0000 <= v < 0x8000_0000) then None else Some(v)
  }

  lemma LeadingDigitsOfDigits(s: Bytes)
    requires AllDigits(s)
    ensures LeadingDigits(s) == s
  {
  }

  /** Parsing the decimal text of any int32 gives the value back. */
  lemma {:induction false} FromCharsOfIntText(n: I32)
    ensures FromChars(IntText(n)) == Some(n)
  {
    var m: nat := if n < 0 then -(n as int) else n;
    LeadingDigitsOfDigits(NatText(m));
    DigitsValueOfNatText(m);
    if n < 0 {
      assert IntText(n)[1..] == NatText(m);
    } else {
      assert NatText(m)[0] != '-';
    }
  }
}
