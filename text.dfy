/** Decimal rendering of integers, as `std::ostream << int` writes them, with
    the parser that inverts it, and a splitting fact about separators. */
module Text {

  predicate IsDigit(c: char) {
    '0' <= c <= '9'
  }

  predicate IsDigits(s: string) {
    forall i :: 0 <= i < |s| ==> IsDigit(s[i])
  }

  /** A string that `IntToString` can produce: an optional minus sign, then digits. */
  predicate IsIntText(s: string) {
    IsDigits(s) || (|s| > 0 && s[0] == '-' && IsDigits(s[1..]))
  }

  function DigitChar(d: nat): (c: char)
    requires d < 10
    ensures IsDigit(c) && (c as int) - ('0' as int) == d
  {
    (('0' as int) + d) as char
  }

  function DigitValue(c: char): (d: nat)
    requires IsDigit(c)
    ensures d < 10 && DigitChar(d) == c
  {
    (c as int) - ('0' as int)
  }

  /** The decimal digits of `n`, most significant first, without leading zeros. */
  function NatToString(n: nat): string
    decreases n
  {
    if n < 10 then [DigitChar(n)] else NatToString(n / 10) + [DigitChar(n % 10)]
  }

  /** At least one digit, only digits, and no leading zero. */
  lemma {:induction false} NatToStringDigits(n: nat)
    ensures var s := NatToString(n);
      |s| >= 1 && IsDigits(s) && (|s| > 1 ==> s[0] != '0')
    decreases n
  {
    if n >= 10 {
      NatToStringDigits(n / 10);
      var s := NatToString(n / 10);
      var t := s + [DigitChar(n % 10)];
      assert NatToString(n) == t;
      assert forall i :: 0 <= i < |s| ==> t[i] == s[i];
    }
  }

  /** The text `std::ostream` writes for an `int`. */
  function IntToString(x: int): string {
    if x < 0 then "-" + NatToString(-x) else NatToString(x)
  }

  /** The rendering is a sign and digits, so it holds neither a blank nor a line break. */
  lemma IntToStringShape(x: int)
    ensures IsIntText(IntToString(x))
    ensures ' ' !in IntToString(x) && '\n' !in IntToString(x)
  {
    var n := if x < 0 then -x else x;
    NatToStringDigits(n);
    var d := NatToString(n);
    if x < 0 {
      assert IntToString(x) == "-" + d && IntToString(x)[1..] == d;
    }
  }

  function ParseNat(s: string): nat
    requires IsDigits(s)
    decreases |s|
  {
    if s == [] then 0 else ParseNat(s[..|s| - 1]) * 10 + DigitValue(s[|s| - 1])
  }

  function ParseInt(s: string): int
    requires IsIntText(s)
  {
    if |s| > 0 && s[0] == '-' then -(ParseNat(s[1..]) as int) else ParseNat(s)
  }

  lemma {:induction false} ParseNatOfNatToString(n: nat)
    ensures IsDigits(NatToString(n)) && ParseNat(NatToString(n)) == n
    decreases n
  {
    NatToStringDigits(n);
    if n >= 10 {
      var s := NatToString(n / 10);
      ParseNatOfNatToString(n / 10);
      assert (s + [DigitChar(n % 10)])[..|s|] == s;
    }
  }

  /** Parsing inverts rendering, so two integers render alike only if they are equal. */
  lemma ParseIntOfIntToString(x: int)
    ensures IsIntText(IntToString(x)) && ParseInt(IntToString(x)) == x
  {
    IntToStringShape(x);
    if x < 0 {
      ParseNatOfNatToString(-x);
      assert IntToString(x)[1..] == NatToString(-x);
    } else {
      ParseNatOfNatToString(x);
    }
  }

  lemma IntToStringInjective(x: int, y: int)
    requires IntToString(x) == IntToString(y)
    ensures x == y
  {
    ParseIntOfIntToString(x);
    ParseIntOfIntToString(y);
  }

  /** A separator that occurs in neither left part splits both strings at the same place. */
  lemma SplitAtSeparator(a: string, b: string, c: string, d: string, sep: char)
    requires sep !in a && sep !in c
    requires a + [sep] + b == c + [sep] + d
    ensures a == c && b == d
  {
    var s := a + [sep] + b;
    assert |a| == |c| by {
      assert s[|a|] == sep;
      assert s[|c|] == sep;
    }
    assert a == s[..|a|] == c;
    assert b == s[|a| + 1..] == d;
  }
}
