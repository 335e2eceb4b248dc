/**
 * The PHP value conversions the merge-tag code relies on, for string operands: truthiness (`!$x`),
 * `is_numeric`, `intval`, `floatval(...) > 0`, `trim` with a character list and `ucwords`.
 */
module Php {
  import opened Strings

  /** A PHP string is falsy exactly when it is `""` or `"0"`. */
  predicate Truthy(s: string) {
    s != "" && s != "0"
  }

  predicate IsSpace(c: char) {
    c == ' ' || c == '\t' || c == '\n' || c == '\r' || c == 11 as char || c == 12 as char
  }

  predicate IsDigit(c: char) {
    '0' <= c <= '9'
  }

  /** `s` without its leading white space. */
  function SkipSpace(s: string): (t: string)
    ensures |t| <= |s| && t == s[|s| - |t|..]
    ensures t == [] || !IsSpace(t[0])
    decreases |s|
  {
    if |s| > 0 && IsSpace(s[0]) then SkipSpace(s[1..]) else s
  }

  /** The longest prefix of `s` made of decimal digits. */
  function DigitPrefix(s: string): (d: string)
    ensures |d| <= |s| && d == s[..|d|]
    ensures forall i :: 0 <= i < |d| ==> IsDigit(d[i])
    ensures |d| == |s| || !IsDigit(s[|d|])
    decreases |s|
  {
    if |s| > 0 && IsDigit(s[0]) then [s[0]] + DigitPrefix(s[1..]) else []
  }

  function DigitValue(c: char): nat
    requires IsDigit(c)
  {
    c as int - '0' as int
  }

  /** The value of a string of decimal digits. */
  function DigitsValue(d: string): nat
    requires forall i :: 0 <= i < |d| ==> IsDigit(d[i])
    decreases |d|
  {
    if d == [] then 0 else DigitsValue(d[..|d| - 1]) * 10 + DigitValue(d[|d| - 1])
  }

  /** A string of digits is its own longest digit prefix. */
  lemma {:induction false} DigitPrefixOfDigits(s: string)
    requires forall i :: 0 <= i < |s| ==> IsDigit(s[i])
    ensures DigitPrefix(s) == s
    decreases |s|
  {
    if |s| > 0 {
      DigitPrefixOfDigits(s[1..]);
    }
  }

  /** The sign-free decimal mantissa at the front of `u` (`12`, `12.5`, `.5`, `12.`) and what follows it. */
  function Mantissa(u: string): (r: (string, string, string))
    ensures |r.0| + |r.1| <= |u|
  {
    var a := DigitPrefix(u);
    var rest := u[|a|..];
    if |rest| > 0 && rest[0] == '.' then
      var b := DigitPrefix(rest[1..]);
      (a, b, rest[1 + |b|..])
    else
      (a, "", rest)
  }

  /** An exponent part `e12`, `E-3`, `e+7` that runs to the end of the string. */
  predicate IsExponent(e: string) {
    |e| >= 2 && (e[0] == 'e' || e[0] == 'E') &&
    var f := if e[1] == '-' || e[1] == '+' then e[2..] else e[1..];
    |f| >= 1 && DigitPrefix(f) == f
  }

  function DropSign(t: string): string {
    if |t| > 0 && (t[0] == '-' || t[0] == '+') then t[1..] else t
  }

  /** `n` with `k` zeros appended: `n * 10^k`. */
  function Shift(n: nat, k: nat): nat {
    if k == 0 then n else 10 * Shift(n, k - 1)
  }

  /** `n` with its last `k` digits dropped: `n / 10^k`, rounded toward zero. */
  function Unshift(n: nat, k: nat): nat {
    if k == 0 then n else Unshift(n / 10, k - 1)
  }

  /** The exponent an `e12`, `E-3`, `e+7` at the front of `r` gives, 0 when `r` does not start with one. */
  function LeadingExponent(r: string): int {
    if |r| >= 2 && (r[0] == 'e' || r[0] == 'E') then
      var f := if r[1] == '-' || r[1] == '+' then r[2..] else r[1..];
      var d := DigitPrefix(f);
      if |d| == 0 then 0 else if r[1] == '-' then 0 - DigitsValue(d) else DigitsValue(d)
    else 0
  }

  /**
   * `intval($s)` (PHP 7.1 and later): optional white space and sign, then the leading decimal number
   * with its fraction and exponent, truncated toward zero (0 when there is none).
   */
  function IntVal(s: string): int {
    var t := SkipSpace(s);
    var m := Mantissa(DropSign(t));
    var digits := Shift(DigitsValue(m.0), |m.1|) + DigitsValue(m.1);
    var k := LeadingExponent(m.2) - |m.1|;
    var magnitude := if k >= 0 then Shift(digits, k) else Unshift(digits, 0 - k);
    if |t| > 0 && t[0] == '-' then 0 - magnitude else magnitude
  }

  /** `is_numeric($s)` for a string: leading white space, a sign, a decimal mantissa and an exponent. */
  predicate IsNumeric(s: string) {
    var m := Mantissa(DropSign(SkipSpace(s)));
    |m.0| + |m.1| >= 1 && (m.2 == "" || IsExponent(m.2))
  }

  predicate HasNonZeroDigit(d: string) {
    exists i :: 0 <= i < |d| && d[i] != '0'
  }

  /** `floatval($s) > 0`: the leading number of `s` is positive. */
  predicate FloatPositive(s: string) {
    var t := SkipSpace(s);
    var m := Mantissa(DropSign(t));
    !(|t| > 0 && t[0] == '-') && (HasNonZeroDigit(m.0) || HasNonZeroDigit(m.1))
  }

  /** `trim($s, $chars)`: `s` without the characters of `chars` at either end. */
  function Trim(s: string, chars: set<char>): (t: string)
    ensures |t| <= |s|
    ensures t == [] || (t[0] !in chars && t[|t| - 1] !in chars)
    ensures (forall i :: 0 <= i < |s| ==> s[i] !in chars) ==> t == s
    decreases |s|
  {
    if |s| > 0 && s[0] in chars then Trim(s[1..], chars)
    else if |s| > 0 && s[|s| - 1] in chars then Trim(s[..|s| - 1], chars)
    else s
  }

  /** Cutting `s[..a]` and `s[b..]` off `s` removes listed characters only. */
  predicate StripsTo(s: string, chars: set<char>, a: int, b: int) {
    0 <= a <= b <= |s| && (forall i :: 0 <= i < a ==> s[i] in chars) && (forall i :: b <= i < |s| ==> s[i] in chars)
  }

  /** `trim` keeps a slice of `s` whose cut-off ends are listed characters only. */
  lemma {:induction false} TrimSlice(s: string, chars: set<char>)
    ensures exists a, b :: StripsTo(s, chars, a, b) && Trim(s, chars) == s[a..b]
    decreases |s|
  {
    if |s| > 0 && s[0] in chars {
      TrimSlice(s[1..], chars);
      var a, b :| StripsTo(s[1..], chars, a, b) && Trim(s[1..], chars) == s[1..][a..b];
      StripsFront(s, chars, a, b);
    } else if |s| > 0 && s[|s| - 1] in chars {
      TrimSlice(s[..|s| - 1], chars);
      var a, b :| StripsTo(s[..|s| - 1], chars, a, b) && Trim(s[..|s| - 1], chars) == s[..|s| - 1][a..b];
      StripsBack(s, chars, a, b);
    } else {
      assert StripsTo(s, chars, 0, |s|) && s[0..|s|] == s;
    }
  }

  lemma StripsFront(s: string, chars: set<char>, a: int, b: int)
    requires |s| > 0 && s[0] in chars && StripsTo(s[1..], chars, a, b)
    ensures StripsTo(s, chars, a + 1, b + 1) && s[1..][a..b] == s[a + 1..b + 1]
  {
    assert forall i :: 0 < i < |s| ==> s[i] == s[1..][i - 1];
  }

  lemma StripsBack(s: string, chars: set<char>, a: int, b: int)
    requires |s| > 0 && s[|s| - 1] in chars && StripsTo(s[..|s| - 1], chars, a, b)
    ensures StripsTo(s, chars, a, b) && s[..|s| - 1][a..b] == s[a..b]
  {
    assert forall i :: 0 <= i < |s| - 1 ==> s[i] == s[..|s| - 1][i];
  }

  function Upper(c: char): char {
    if 'a' <= c <= 'z' then (c as int - 32) as char else c
  }

  /** `ucwords($s)`: the first character and every character after a white-space delimiter upper-cased. */
  function UcWords(s: string): (r: string)
    ensures |r| == |s|
    ensures forall i :: 0 <= i < |s| ==> r[i] == WordChar(s, i)
  {
    seq(|s|, i requires 0 <= i < |s| => WordChar(s, i))
  }

  /** The `i`-th character of `ucwords($s)`. */
  function WordChar(s: string, i: nat): char
    requires i < |s|
  {
    if i == 0 || IsSpace(s[i - 1]) then Upper(s[i]) else s[i]
  }

  /** The digits `NatToString` prints read back as the same number. */
  lemma {:induction false} DigitsValueOfNat(n: nat)
    ensures DigitsValue(NatToString(n)) == n
    decreases n
  {
    var s := NatToString(n);
    if n >= 10 {
      DigitsValueOfNat(n / 10);
      assert s[..|s| - 1] == NatToString(n / 10);
    }
  }

  lemma SkipSpaceNoSpace(t: string)
    requires |t| > 0 && !IsSpace(t[0])
    ensures SkipSpace(t) == t
  {
  }

  /** `intval` of a string of digits. */
  lemma IntValOfDigits(t: string)
    requires |t| >= 1 && forall i :: 0 <= i < |t| ==> IsDigit(t[i])
    ensures IntVal(t) == DigitsValue(t)
  {
    MantissaOfDigits(t);
    UnsignedStart(t);
    IntValOfWholeMantissa(t, t);
  }

  lemma UnsignedStart(t: string)
    requires |t| >= 1 && IsDigit(t[0])
    ensures SkipSpace(t) == t && DropSign(t) == t && t[0] != '-'
  {
    SkipSpaceNoSpace(t);
  }

  /** `intval` of a string of digits preceded by `-`. */
  lemma IntValOfNegativeDigits(t: string)
    requires |t| >= 1 && forall i :: 0 <= i < |t| ==> IsDigit(t[i])
    ensures IntVal("-" + t) == 0 - DigitsValue(t)
  {
    MantissaOfDigits(t);
    NegativeStart(t);
    IntValOfWholeMantissa("-" + t, t);
  }

  lemma NegativeStart(t: string)
    ensures SkipSpace("-" + t) == "-" + t && DropSign("-" + t) == t && ("-" + t)[0] == '-'
  {
    SkipSpaceNoSpace("-" + t);
  }

  /** A number without fraction or exponent is read as its digits, negated after a `-`. */
  lemma IntValOfWholeMantissa(s: string, d: string)
    requires forall i :: 0 <= i < |d| ==> IsDigit(d[i])
    requires Mantissa(DropSign(SkipSpace(s))) == (d, "", "")
    ensures IntVal(s) == if |SkipSpace(s)| > 0 && SkipSpace(s)[0] == '-' then 0 - DigitsValue(d) else DigitsValue(d)
  {
    assert LeadingExponent("") == 0;
  }

  /** The longest digit prefix stops at the first character that is not a digit. */
  lemma {:induction false} DigitPrefixStop(d: string, rest: string)
    requires forall i :: 0 <= i < |d| ==> IsDigit(d[i])
    requires rest == [] || !IsDigit(rest[0])
    ensures DigitPrefix(d + rest) == d
    decreases |d|
  {
    if |d| > 0 {
      assert (d + rest)[1..] == d[1..] + rest;
      DigitPrefixStop(d[1..], rest);
    }
  }

  /** The mantissa of `a.b` followed by something that is not a digit. */
  lemma MantissaWithFraction(a: string, b: string, rest: string)
    requires forall i :: 0 <= i < |a| ==> IsDigit(a[i])
    requires forall i :: 0 <= i < |b| ==> IsDigit(b[i])
    requires rest == [] || !IsDigit(rest[0])
    ensures Mantissa(a + "." + b + rest) == (a, b, rest)
  {
    var tail := "." + b + rest;
    assert a + "." + b + rest == a + tail;
    MantissaSplit(a, tail);
    assert tail[1..] == b + rest;
    DigitPrefixStop(b, rest);
    assert (b + rest)[|b|..] == rest;
  }

  /** The digits `a` are the mantissa's integer part and `tail` is what follows them. */
  lemma MantissaSplit(a: string, tail: string)
    requires forall i :: 0 <= i < |a| ==> IsDigit(a[i])
    requires tail == [] || !IsDigit(tail[0])
    ensures DigitPrefix(a + tail) == a && (a + tail)[|a|..] == tail
  {
    DigitPrefixStop(a, tail);
  }

  /** A negative exponent counts: `intval("5e-1")` is 0, not 5. */
  lemma IntValNegativeExponent()
    ensures IntVal("5e-1") == 0
  {
    SkipSpaceNoSpace("5e-1");
    assert "5e-1" == "5" + "e-1";
    DigitPrefixStop("5", "e-1");
    assert Mantissa("5e-1") == ("5", "", "e-1");
    assert "e-1"[2..] == "1";
    DigitPrefixOfDigits("1");
    assert LeadingExponent("e-1") == -1;
  }

  /** A fraction is read before the exponent is applied: `intval("1.5e3")` is 1500. */
  lemma IntValFractionExponent()
    ensures IntVal("1.5e3") == 1500
  {
    SkipSpaceNoSpace("1.5e3");
    MantissaWithFraction("1", "5", "e3");
    assert "1" + "." + "5" + "e3" == "1.5e3";
    assert "e3"[1..] == "3";
    DigitPrefixOfDigits("3");
    assert LeadingExponent("e3") == 3;
    assert DigitsValue("1") == 1 && DigitsValue("5") == 5;
    assert Shift(1, 1) + 5 == 15;
    assert Shift(15, 2) == 1500;
  }

  /** A fraction is cut toward zero: `intval("-2.9")` is -2. */
  lemma IntValTruncates()
    ensures IntVal("-2.9") == -2
  {
    SkipSpaceNoSpace("-2.9");
    assert DropSign("-2.9") == "2.9";
    MantissaWithFraction("2", "9", "");
    assert "2" + "." + "9" + "" == "2.9";
    assert DigitsValue("2") == 2 && DigitsValue("9") == 9;
    assert LeadingExponent("") == 0;
    assert Shift(2, 1) + 9 == 29;
    assert Unshift(29, 1) == 2;
  }

  /** `intval` reads back what PHP prints for a natural number. */
  lemma IntValOfNat(n: nat)
    ensures IntVal(NatToString(n)) == n
  {
    IntValOfDigits(NatToString(n));
    DigitsValueOfNat(n);
  }

  /** Printing a number and reading it with `intval` is the identity, for negative numbers too. */
  lemma IntValOfInt(i: int)
    ensures IntVal(IntToString(i)) == i
  {
    if i < 0 {
      IntValOfNegative(i);
    } else {
      assert IntToString(i) == NatToString(i);
      IntValOfNat(i);
    }
  }

  lemma IntValOfNegative(i: int)
    requires i < 0
    ensures IntVal(IntToString(i)) == i
  {
    var n: nat := -i;
    assert IntToString(i) == "-" + NatToString(n);
    IntValOfNegativeDigits(NatToString(n));
    DigitsValueOfNat(n);
  }

  /** The mantissa of a string of digits is the whole string. */
  lemma MantissaOfDigits(s: string)
    requires |s| >= 1 && forall i :: 0 <= i < |s| ==> IsDigit(s[i])
    ensures Mantissa(s) == (s, "", "")
  {
    DigitPrefixOfDigits(s);
    assert s[|s|..] == [];
  }

  /** A printed natural number is a numeric string, positive exactly when the number is. */
  lemma NatStringNumeric(n: nat)
    ensures IsNumeric(NatToString(n))
    ensures FloatPositive(NatToString(n)) <==> n > 0
  {
    var s := NatToString(n);
    SkipSpaceNoSpace(s);
    assert DropSign(s) == s;
    MantissaOfDigits(s);
    assert !HasNonZeroDigit("");
    DigitsValueOfNat(n);
    if HasNonZeroDigit(s) {
      var i :| 0 <= i < |s| && s[i] != '0';
      NonZeroDigitValue(s, i);
    } else {
      ZeroDigitsValue(s);
    }
  }

  lemma {:induction false} NonZeroDigitValue(d: string, i: nat)
    requires forall k :: 0 <= k < |d| ==> IsDigit(d[k])
    requires i < |d| && d[i] != '0'
    ensures DigitsValue(d) > 0
    decreases |d|
  {
    if i < |d| - 1 {
      NonZeroDigitValue(d[..|d| - 1], i);
    }
  }

  lemma {:induction false} ZeroDigitsValue(d: string)
    requires forall k :: 0 <= k < |d| ==> d[k] == '0'
    ensures DigitsValue(d) == 0
    decreases |d|
  {
    if d != [] {
      ZeroDigitsValue(d[..|d| - 1]);
    }
  }
}
