/** JavaScript's `parseInt(s, 10)`, the part of the number runtime the version
    comparator relies on, together with the canonical decimal rendering of a
    natural number that it inverts. Results are exact integers; `None` stands
    for `NaN`. */
module JsNumber {
  import opened Wrappers

  predicate IsDigit(c: char)
  {
    '0' <= c <= '9'
  }

  /** The characters `parseInt` skips before the number: ECMAScript's
      WhiteSpace (tab, vertical tab, form feed, no-break space, the byte order
      mark and every space separator of Unicode category Zs) and
      LineTerminator (line feed, carriage return, U+2028, U+2029). */
  predicate IsWhiteSpace(c: char)
  {
    c == '\t' || c == '\n' || c == '\U{000B}' || c == '\U{000C}' || c == '\r'
    || c == ' ' || c == '\U{00A0}' || c == '\U{1680}'
    || ('\U{2000}' <= c <= '\U{200A}')
    || c == '\U{2028}' || c == '\U{2029}' || c == '\U{202F}' || c == '\U{205F}'
    || c == '\U{3000}' || c == '\U{FEFF}'
  }

  function DigitValue(c: char): nat
    requires IsDigit(c)
  {
    (c as int) - ('0' as int)
  }

  predicate AllDigits(s: string)
  {
    forall i :: 0 <= i < |s| ==> IsDigit(s[i])
  }

  /** `s` without its leading white space. */
  function TrimStart(s: string): (r: string)
    ensures |r| <= |s| && r == s[|s| - |r|..]
    ensures r == [] || !IsWhiteSpace(r[0])
    decreases |s|
  {
    if |s| > 0 && IsWhiteSpace(s[0]) then TrimStart(s[1..]) else s
  }

  /** The longest prefix of `s` made of decimal digits. */
  function DigitRun(s: string): (r: string)
    ensures AllDigits(r) && r <= s
    ensures |r| < |s| ==> !IsDigit(s[|r|])
    decreases |s|
  {
    if |s| > 0 && IsDigit(s[0]) then [s[0]] + DigitRun(s[1..]) else []
  }

  /** The number a digit string denotes, most significant digit first. */
  function DigitsValue(ds: string): nat
    requires AllDigits(ds)
  {
    if |ds| == 0 then 0 else DigitsValue(ds[..|ds| - 1]) * 10 + DigitValue(ds[|ds| - 1])
  }

  /** `parseInt(s, 10)`: skip leading white space, take an optional sign, then
      the longest run of digits; `NaN` (here `None`) when that run is empty.
      Whatever follows the digits is ignored. */
  function ParseInt(s: string): (r: Option<int>)
    ensures r.Some? ==> exists k :: 0 <= k < |s| && IsDigit(s[k])
    ensures |s| > 0 && AllDigits(s) ==> r == Some(DigitsValue(s))
  {
    var t := TrimStart(s);
    assert |s| > 0 && AllDigits(s) ==> t == s && ParseDigits(t) == Some(DigitsValue(s)) by {
      if |s| > 0 && AllDigits(s) {
        assert !IsWhiteSpace(s[0]);
        DigitRunOfDigitsThen(s, []);
        assert s + [] == s;
      }
    }
    if |t| > 0 && t[0] == '-' then
      DigitsFromInput(s, t[1..]);
      Negate(ParseDigits(t[1..]))
    else if |t| > 0 && t[0] == '+' then
      DigitsFromInput(s, t[1..]);
      ParseDigits(t[1..])
    else
      DigitsFromInput(s, t);
      ParseDigits(t)
  }

  /** A digit run read from a suffix of `s` is made of digits of `s`. */
  lemma DigitsFromInput(s: string, u: string)
    requires |u| <= |s| && u == s[|s| - |u|..]
    ensures ParseDigits(u).Some? ==> exists k :: 0 <= k < |s| && IsDigit(s[k])
  {
    if ParseDigits(u).Some? {
      assert DigitRun(u)[0] == u[0];
      assert s[|s| - |u|] == u[0];
    }
  }

  /** The value of the leading digit run of `s`, `None` when there is none. */
  function ParseDigits(s: string): Option<int>
  {
    var ds := DigitRun(s);
    if |ds| == 0 then None else Some(DigitsValue(ds))
  }

  function Negate(x: Option<int>): Option<int>
  {
    match x
    case None => None
    case Some(v) => Some(-v)
  }

  /** The canonical decimal rendering of `n`: digits only, no leading zero. */
  function Decimal(n: nat): (r: string)
    ensures |r| >= 1 && AllDigits(r)
    ensures r[0] != '0' || n == 0
    ensures DigitsValue(r) == n
  {
    var d := ['0' + ((n % 10) as char)];
    if n < 10 then d
    else
      var r := Decimal(n / 10) + d;
      assert r[..|r| - 1] == Decimal(n / 10);
      r
  }

  /** A digit run is cut at the first character that is not a digit. */
  lemma {:induction false} DigitRunOfDigitsThen(ds: string, rest: string)
    requires AllDigits(ds)
    requires rest == [] || !IsDigit(rest[0])
    ensures DigitRun(ds + rest) == ds
    decreases |ds|
  {
    if |ds| > 0 {
      assert (ds + rest)[1..] == ds[1..] + rest;
      DigitRunOfDigitsThen(ds[1..], rest);
      assert [ds[0]] + ds[1..] == ds;
    }
  }

  /** Text that starts with a digit is read as its leading digit run. */
  lemma ParseIntUnsigned(s: string)
    requires |s| > 0 && IsDigit(s[0])
    ensures ParseInt(s) == ParseDigits(s)
  {
    assert !IsWhiteSpace(s[0]);
    assert TrimStart(s) == s;
  }

  /** Text that starts with '-' is read as the negated leading digit run of
      the rest. */
  lemma ParseIntMinus(s: string)
    requires |s| > 0 && s[0] == '-'
    ensures ParseInt(s) == Negate(ParseDigits(s[1..]))
  {
    assert !IsWhiteSpace(s[0]);
    assert TrimStart(s) == s;
  }

  lemma ParseDigitsThen(ds: string, rest: string)
    requires |ds| > 0 && AllDigits(ds)
    requires rest == [] || !IsDigit(rest[0])
    ensures ParseDigits(ds + rest) == Some(DigitsValue(ds))
  {
    DigitRunOfDigitsThen(ds, rest);
  }

  /** `parseInt` reads back the canonical decimal rendering of `n`, and any
      text after it that does not begin with a digit (as in "3-beta") is
      ignored. */
  lemma ParseIntDecimal(n: nat, suffix: string)
    requires suffix == [] || !IsDigit(suffix[0])
    ensures ParseInt(Decimal(n) + suffix) == Some(n)
  {
    var d := Decimal(n);
    ParseIntUnsigned(d + suffix);
    ParseDigitsThen(d, suffix);
  }

  /** Leading white space does not change what `parseInt` reads. */
  lemma ParseIntAfterSpace(space: string, t: string)
    requires forall i :: 0 <= i < |space| ==> IsWhiteSpace(space[i])
    requires |t| > 0 && !IsWhiteSpace(t[0])
    ensures ParseInt(space + t) == ParseInt(t)
  {
    TrimSpace(space, t);
    assert TrimStart(t) == t;
  }

  /** A leading minus sign, after any white space, negates the result. */
  lemma ParseIntNegative(space: string, n: nat)
    requires forall i :: 0 <= i < |space| ==> IsWhiteSpace(space[i])
    ensures ParseInt(space + "-" + Decimal(n)) == Some(-(n as int))
  {
    var d := Decimal(n);
    var t := ['-'] + d;
    assert space + "-" + d == space + t;
    ParseIntAfterSpace(space, t);
    ParseIntMinus(t);
    assert t[1..] == d + [];
    ParseDigitsThen(d, []);
  }

  /** Leading white space is dropped up to the first other character. */
  lemma {:induction false} TrimSpace(space: string, rest: string)
    requires forall i :: 0 <= i < |space| ==> IsWhiteSpace(space[i])
    requires rest == [] || !IsWhiteSpace(rest[0])
    ensures TrimStart(space + rest) == rest
    decreases |space|
  {
    if |space| > 0 {
      assert (space + rest)[1..] == space[1..] + rest;
      TrimSpace(space[1..], rest);
    }
  }

  /** Text with no digit after its white space and sign is `NaN`. */
  lemma ParseIntNoDigits(s: string)
    requires |s| > 0 && !IsDigit(s[0]) && !IsWhiteSpace(s[0]) && s[0] != '-' && s[0] != '+'
    ensures ParseInt(s) == None
  {
  }
}
