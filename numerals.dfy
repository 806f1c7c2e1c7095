/**
 * Decimal text: the leading-integer scan of the C library's atoi and of
 * std::stoi (leading white space, an optional sign, the longest run of
 * digits), and the decimal rendering of std::to_string and of jsoncpp's
 * asString on integers.
 */
module Numerals {
  import opened Wrappers

  /** The characters isspace accepts in the C locale: space, and tab through carriage return. */
  predicate IsSpace(c: char)
  {
    c == ' ' || ('\t' <= c <= '\r')
  }

  predicate IsDigit(c: char)
  {
    '0' <= c <= '9'
  }

  function DigitValue(c: char): (d: nat)
    requires IsDigit(c)
    ensures d < 10
  {
    (c - '0') as nat
  }

  function DigitChar(d: nat): (c: char)
    requires d < 10
    ensures IsDigit(c) && DigitValue(c) == d
  {
    '0' + d as char
  }

  /** The number of white-space characters s starts with. */
  function SpaceCount(s: string): (n: nat)
    ensures n <= |s|
    ensures forall k :: 0 <= k < n ==> IsSpace(s[k])
    ensures n < |s| ==> !IsSpace(s[n])
  {
    if s != [] && IsSpace(s[0]) then 1 + SpaceCount(s[1..]) else 0
  }

  /** The length of the run of digits starting at i. */
  function DigitRun(s: string, i: nat): (n: nat)
    requires i <= |s|
    ensures i + n <= |s|
    ensures forall k :: i <= k < i + n ==> IsDigit(s[k])
    ensures i + n < |s| ==> !IsDigit(s[i + n])
    decreases |s| - i
  {
    if i < |s| && IsDigit(s[i]) then 1 + DigitRun(s, i + 1) else 0
  }

  /** The value of a string of digits, most significant first. */
  function DigitsValue(ds: string): nat
    requires forall k :: 0 <= k < |ds| ==> IsDigit(ds[k])
  {
    if ds == [] then 0 else DigitsValue(ds[..|ds| - 1]) * 10 + DigitValue(ds[|ds| - 1])
  }

  /**
   * The integer s starts with: white space, then an optional '+' or '-',
   * then at least one digit, all the digits that follow being part of it.
   * None when there is no digit where one is needed.
   */
  function LeadingInteger(s: string): Option<int>
  {
    var i := SpaceCount(s);
    var neg := i < |s| && s[i] == '-';
    var j := if i < |s| && (s[i] == '-' || s[i] == '+') then i + 1 else i;
    var n := DigitRun(s, j);
    if n == 0 then None
    else
      var v: int := DigitsValue(s[j..j + n]);
      Some(if neg then -v else v)
  }

  /** atoi: the leading integer, 0 when there is none. Values beyond int's range are undefined in C. */
  function Atoi(s: string): (v: int)
    ensures LeadingInteger(s).None? ==> v == 0
    ensures LeadingInteger(s).Some? ==> v == LeadingInteger(s).value
  {
    match LeadingInteger(s)
    case None => 0
    case Some(v) => v
  }

  const INT_MIN: int := -0x8000_0000
  const INT_MAX: int := 0x7FFF_FFFF

  /** std::stoi: the leading integer; it throws when there is none or when it does not fit an int. */
  function Stoi(s: string): (r: Result<int>)
    ensures r.Ok? <==> LeadingInteger(s).Some? && INT_MIN <= LeadingInteger(s).value <= INT_MAX
    ensures r.Ok? ==> r.value == LeadingInteger(s).value
  {
    match LeadingInteger(s)
    case None => Failure("stoi")
    case Some(v) => if INT_MIN <= v <= INT_MAX then Ok(v) else Failure("stoi")
  }

  /** The decimal digits of n, without leading zeros. */
  function NatDigits(n: nat): (ds: string)
    ensures ds != [] && forall k :: 0 <= k < |ds| ==> IsDigit(ds[k])
  {
    if n < 10 then [DigitChar(n)] else NatDigits(n / 10) + [DigitChar(n % 10)]
  }

  /** The decimal representation of n, with a leading '-' when negative. */
  function DecimalString(n: int): (s: string)
    ensures s != []
  {
    if n < 0 then "-" + NatDigits(-n) else NatDigits(n)
  }

  /** Reading the digits back gives the number. */
  lemma {:induction false} NatDigitsValue(n: nat)
    ensures DigitsValue(NatDigits(n)) == n
  {
    if n >= 10 {
      NatDigitsValue(n / 10);
      var ds := NatDigits(n);
      assert ds[..|ds| - 1] == NatDigits(n / 10);
    }
  }

  /** A digit run, whole, starting after a prefix of s. */
  lemma DigitRunWhole(s: string, j: nat, ds: string, rest: string)
    requires j <= |s| && s == s[..j] + ds + rest
    requires forall k :: 0 <= k < |ds| ==> IsDigit(ds[k])
    requires rest == [] || !IsDigit(rest[0])
    ensures DigitRun(s, j) == |ds| && s[j..j + |ds|] == ds
    decreases |ds|
  {
    if ds != [] {
      assert s == s[..j + 1] + ds[1..] + rest;
      DigitRunWhole(s, j + 1, ds[1..], rest);
    }
  }

  /**
   * atoi, std::stoi and jsoncpp read back what DecimalString writes, even
   * with text after it that does not start with a digit.
   */
  lemma LeadingIntegerOfDecimal(n: int, rest: string)
    requires rest == [] || !IsDigit(rest[0])
    ensures LeadingInteger(DecimalString(n) + rest) == Some(n)
  {
    if n < 0 {
      NegativeDecimal(-n, rest);
    } else {
      NonNegativeDecimal(n, rest);
    }
  }

  lemma NegativeDecimal(m: nat, rest: string)
    requires m > 0 && (rest == [] || !IsDigit(rest[0]))
    ensures LeadingInteger("-" + NatDigits(m) + rest) == Some(0 - m)
  {
    var ds := NatDigits(m);
    NatDigitsValue(m);
    var s := "-" + ds + rest;
    assert s[..1] == "-";
    DigitRunWhole(s, 1, ds, rest);
    LeadingIntegerAt(s, 1, true, |ds|);
  }

  lemma NonNegativeDecimal(m: nat, rest: string)
    requires rest == [] || !IsDigit(rest[0])
    ensures LeadingInteger(NatDigits(m) + rest) == Some(m)
  {
    var ds := NatDigits(m);
    NatDigitsValue(m);
    var s := ds + rest;
    assert s[..0] + ds + rest == s;
    DigitRunWhole(s, 0, ds, rest);
    LeadingIntegerAt(s, 0, false, |ds|);
  }

  /** LeadingInteger, when s starts with an optional '-' and a digit run of length n. */
  lemma LeadingIntegerAt(s: string, j: nat, neg: bool, n: nat)
    requires j == (if neg then 1 else 0) && j < |s| && j + n <= |s|
    requires neg ==> s[0] == '-'
    requires !neg ==> IsDigit(s[0])
    requires DigitRun(s, j) == n && n > 0
    ensures var v: int := DigitsValue(s[j..j + n]); LeadingInteger(s) == Some(if neg then -v else v)
  {
    assert SpaceCount(s) == 0;
  }

  lemma AtoiOverPortRange()
    ensures Atoi("70000") == 70000
  {
    assert DecimalString(70000) == "70000" by {
      assert NatDigits(7) == "7";
      assert NatDigits(70) == "70";
      assert NatDigits(700) == "700";
      assert NatDigits(7000) == "7000";
    }
    LeadingIntegerOfDecimal(70000, "");
    assert "70000" + "" == "70000";
  }

  lemma AtoiWithoutDigits()
    ensures Atoi("abc") == 0
  {
    assert SpaceCount("abc") == 0;
    assert DigitRun("abc", 0) == 0;
  }
}
