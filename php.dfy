/**
 * The slice of PHP's value semantics that the plugin relies on: boolean
 * conversion of option values, the integer cast behind absint(), decimal
 * printing of integers, trim() and substr() with a negative length.
 */
module Php {

  /** A PHP scalar as the plugin receives it from options, settings arrays and form input. */
  datatype Value = Null | Bool(b: bool) | Int(i: int) | Str(s: string)

  /** PHP's conversion to bool: null, false, 0, "" and "0" are falsy. */
  predicate Truthy(v: Value) {
    match v
    case Null => false
    case Bool(b) => b
    case Int(i) => i != 0
    case Str(s) => s != "" && s != "0"
  }

  predicate IsDigit(c: char) { '0' <= c <= '9' }

  /** The whitespace PHP skips before the digits of a numeric string. */
  predicate IsNumericSpace(c: char) {
    c == ' ' || c == '\t' || c == '\n' || c == '\r' || c == '\U{0B}' || c == '\U{0C}'
  }

  /** Characters removed by trim() with its default character list. */
  predicate IsTrimChar(c: char) {
    c == ' ' || c == '\t' || c == '\n' || c == '\r' || c == '\0' || c == '\U{0B}'
  }

  function DigitValue(c: char): nat
    requires IsDigit(c)
  {
    c as int - '0' as int
  }

  function DigitChar(d: nat): (c: char)
    requires d < 10
    ensures IsDigit(c) && DigitValue(c) == d
  {
    ('0' as int + d) as char
  }

  /** Length of the run of decimal digits at the start of `s`. */
  function DigitRun(s: string): (n: nat)
    ensures n <= |s|
    ensures forall j | 0 <= j < n :: IsDigit(s[j])
    ensures n < |s| ==> !IsDigit(s[n])
  {
    if s != [] && IsDigit(s[0]) then 1 + DigitRun(s[1..]) else 0
  }

  /** The number written by a string of decimal digits. */
  function DecimalValue(s: string): nat
    requires forall j | 0 <= j < |s| :: IsDigit(s[j])
  {
    if s == [] then 0 else 10 * DecimalValue(s[..|s| - 1]) + DigitValue(s[|s| - 1])
  }

  /** Decimal notation of a natural number, as PHP prints an integer. */
  function NatToString(n: nat): (r: string)
    ensures |r| > 0
    ensures forall j | 0 <= j < |r| :: IsDigit(r[j])
    ensures DecimalValue(r) == n
    decreases n
  {
    if n < 10 then [DigitChar(n)]
    else
      var r := NatToString(n / 10) + [DigitChar(n % 10)];
      assert r[..|r| - 1] == NatToString(n / 10);
      r
  }

  /** Decimal notation of an integer, with a leading minus sign when negative. */
  function IntToString(i: int): string {
    if i < 0 then "-" + NatToString(-i) else NatToString(i)
  }

  function SkipNumericSpace(s: string): (r: string)
    ensures |r| <= |s| && r == s[|s| - |r|..]
    ensures r != [] ==> !IsNumericSpace(r[0])
  {
    if s != [] && IsNumericSpace(s[0]) then SkipNumericSpace(s[1..]) else s
  }

  /** The value of the run of digits at the start of `t`. */
  function LeadingDecimal(t: string): nat {
    DecimalValue(t[..DigitRun(t)])
  }

  /**
   * The (int) cast of a string as PHP 5 and 7.0 perform it: leading
   * whitespace and a sign, then the run of leading decimal digits. The
   * result is unbounded here; an exponent ("5e2") is not read.
   */
  function StringToInt(s: string): int {
    var t := SkipNumericSpace(s);
    if t != [] && t[0] == '-' then -(LeadingDecimal(t[1..]) as int)
    else if t != [] && t[0] == '+' then LeadingDecimal(t[1..])
    else LeadingDecimal(t)
  }

  /** PHP's (int) cast. */
  function IntVal(v: Value): int {
    match v
    case Null => 0
    case Bool(b) => if b then 1 else 0
    case Int(i) => i
    case Str(s) => StringToInt(s)
  }

  function Abs(i: int): nat { if i < 0 then -i else i }

  /** WordPress's absint(): the absolute value of the integer cast. */
  function AbsInt(v: Value): nat { Abs(IntVal(v)) }

  /** A digit string is read back as the whole of itself. */
  lemma DigitRunOfDigits(s: string, rest: string)
    requires forall j | 0 <= j < |s| :: IsDigit(s[j])
    requires rest == [] || !IsDigit(rest[0])
    ensures DigitRun(s + rest) == |s|
  {
    if s != [] {
      assert (s + rest)[1..] == s[1..] + rest;
      DigitRunOfDigits(s[1..], rest);
    }
  }

  /** Reading back a printed natural number. */
  lemma {:induction false} NatToStringReadBack(n: nat)
    ensures SkipNumericSpace(NatToString(n)) == NatToString(n)
    ensures LeadingDecimal(NatToString(n)) == n
  {
    var d := NatToString(n);
    DigitRunOfDigits(d, []);
    assert d + [] == d;
    assert d[..DigitRun(d)] == d;
  }

  /** A string starting with a digit is cast by its leading digits alone. */
  lemma UnsignedCast(s: string)
    requires s != [] && IsDigit(s[0])
    ensures StringToInt(s) == LeadingDecimal(s)
  {
    assert !IsNumericSpace(s[0]);
    assert SkipNumericSpace(s) == s;
  }

  /** A minus sign followed by a digit is cast as the negated leading digits. */
  lemma NegativeCast(s: string)
    requires |s| > 1 && s[0] == '-' && IsDigit(s[1])
    ensures StringToInt(s) == -(LeadingDecimal(s[1..]) as int)
  {
    assert !IsNumericSpace(s[0]);
    assert SkipNumericSpace(s) == s;
  }

  /** Printing an integer and casting the text back gives the integer again. */
  lemma {:induction false} IntToStringRoundTrip(i: int)
    ensures StringToInt(IntToString(i)) == i
  {
    var d := NatToString(Abs(i));
    NatToStringReadBack(Abs(i));
    if i < 0 {
      var s := "-" + d;
      assert s[1..] == d;
      NegativeCast(s);
    } else {
      UnsignedCast(d);
    }
  }

  /** Number of trim characters at the start of `s`. */
  function TrimLeftCount(s: string): (n: nat)
    ensures n <= |s|
    ensures forall j | 0 <= j < n :: IsTrimChar(s[j])
    ensures n < |s| ==> !IsTrimChar(s[n])
  {
    if s != [] && IsTrimChar(s[0]) then 1 + TrimLeftCount(s[1..]) else 0
  }

  /** Number of trim characters at the end of `s`. */
  function TrimRightCount(s: string): (n: nat)
    ensures n <= |s|
    ensures forall j | |s| - n <= j < |s| :: IsTrimChar(s[j])
    ensures n < |s| ==> !IsTrimChar(s[|s| - n - 1])
  {
    if s != [] && IsTrimChar(s[|s| - 1]) then 1 + TrimRightCount(s[..|s| - 1]) else 0
  }

  /** PHP's trim(): the middle of `s` once leading and trailing trim characters are gone. */
  function Trim(s: string): (r: string)
    ensures exists i, j | 0 <= i <= j <= |s| :: r == s[i..j]
    ensures r != [] ==> !IsTrimChar(r[0]) && !IsTrimChar(r[|r| - 1])
    ensures forall j | 0 <= j < |s| :: !IsTrimChar(s[j]) ==> r != []
  {
    var i := TrimLeftCount(s);
    var rest := s[i..];
    var k := TrimRightCount(rest);
    var r := rest[..|rest| - k];
    assert r == s[i..|s| - k];
    forall j | 0 <= j < |s| && !IsTrimChar(s[j]) ensures r != [] {
      assert i <= j;
      assert j - i < |rest| - k;
    }
    r
  }

  /**
   * PHP's substr($s, start, -drop): the part of `s` after its first `start`
   * characters and before its last `drop`; empty when these overlap.
   */
  function SubstrDropEnds(s: string, start: nat, drop: nat): (r: string)
    ensures start + drop <= |s| ==> |r| == |s| - start - drop
    ensures start + drop > |s| ==> r == ""
    ensures forall x, y, m | |x| == start && |y| == drop && s == x + m + y :: r == m
  {
    if start + drop <= |s| then
      var r := s[start..|s| - drop];
      assert forall x, y, m | |x| == start && |y| == drop && s == x + m + y :: r == m by {
        forall x, y, m | |x| == start && |y| == drop && s == x + m + y ensures r == m {
          assert s[start..|s| - drop] == (x + m + y)[|x|..|x| + |m|];
        }
      }
      r
    else ""
  }

  /** strpos($haystack, $needle) !== false: `sub` occurs somewhere in `s`. */
  predicate Contains(s: string, sub: string)
    decreases |s|
  {
    sub <= s || (s != [] && Contains(s[1..], sub))
  }

  /** An occurrence at a given offset is an occurrence. */
  lemma {:induction false} ContainsAt(s: string, sub: string, i: nat)
    requires i + |sub| <= |s| && s[i..i + |sub|] == sub
    ensures Contains(s, sub)
  {
    if i > 0 {
      assert s[1..][i - 1..i - 1 + |sub|] == s[i..i + |sub|];
      ContainsAt(s[1..], sub, i - 1);
    }
  }

  /**
   * PHP 7's loose comparison of a value against a non-numeric string
   * literal, as a switch statement does it: strings compare as strings, a
   * boolean compares with the literal's truthiness (true), an integer
   * compares with the literal cast to an integer (0), and null equals only
   * the empty string.
   */
  predicate LooseEqualsWord(v: Value, word: string)
    requires word != "" && word != "0" && DigitRun(word) == 0
  {
    match v
    case Str(s) => s == word
    case Bool(b) => b
    case Int(i) => i == 0
    case Null => false
  }
}
