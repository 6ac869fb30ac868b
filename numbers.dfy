/**
 * Number parsing as the pipeline uses it: the box-office amount is
 * `parseFloat(s.replace(/[$,]/g, ''))`, a year option's value is
 * `parseInt(value)`. Amounts are whole dollars; a string without a leading
 * digit is what JavaScript parses to NaN and is `None` here.
 */
module Numbers {
  import opened Wrappers

  predicate IsDigit(c: char)
  {
    '0' <= c <= '9'
  }

  predicate AllDigits(s: string)
  {
    forall i :: 0 <= i < |s| ==> IsDigit(s[i])
  }

  function DigitValue(c: char): nat
    requires IsDigit(c)
  {
    c as int - '0' as int
  }

  function DigitChar(d: nat): char
    requires d < 10
  {
    ('0' as int + d) as char
  }

  /** The length of the run of digits `s` starts with. */
  function DigitRun(s: string): (n: nat)
    ensures n <= |s|
    ensures AllDigits(s[..n])
    ensures n < |s| ==> !IsDigit(s[n])
  {
    if s != [] && IsDigit(s[0]) then
      var n := 1 + DigitRun(s[1..]);
      assert s[..n] == [s[0]] + s[1..][..n - 1];
      n
    else
      0
  }

  /** The value of a string of decimal digits, most significant first. */
  function DigitsValue(ds: string): nat
    requires AllDigits(ds)
  {
    if ds == [] then 0 else 10 * DigitsValue(ds[..|ds| - 1]) + DigitValue(ds[|ds| - 1])
  }

  /**
   * The whole-number part of `parseFloat`: the value of the leading run of
   * digits, or `None` (NaN) when `s` does not start with a digit.
   */
  function ParseWhole(s: string): (r: Option<nat>)
    ensures r.None? <==> (s == [] || !IsDigit(s[0]))
    ensures r.Some? ==> exists n :: 0 < n <= |s| && AllDigits(s[..n]) && (n < |s| ==> !IsDigit(s[n]))
                                 && r.value == DigitsValue(s[..n])
  {
    var n := DigitRun(s);
    if n == 0 then None else Some(DigitsValue(s[..n]))
  }

  /** The decimal rendering of `n`, as `${n}` produces it. */
  function DecimalString(n: nat): (r: string)
    ensures |r| > 0 && AllDigits(r)
  {
    if n < 10 then [DigitChar(n)] else DecimalString(n / 10) + [DigitChar(n % 10)]
  }

  lemma {:induction false} DecimalStringValue(n: nat)
    ensures DigitsValue(DecimalString(n)) == n
  {
    var r := DecimalString(n);
    if n >= 10 {
      DecimalStringValue(n / 10);
      assert r[..|r| - 1] == DecimalString(n / 10);
    }
  }

  lemma {:induction false} DigitRunOfDigits(ds: string, rest: string)
    requires AllDigits(ds)
    requires rest == [] || !IsDigit(rest[0])
    ensures DigitRun(ds + rest) == |ds|
  {
    if ds != [] {
      assert (ds + rest)[1..] == ds[1..] + rest;
      DigitRunOfDigits(ds[1..], rest);
    }
  }

  /** Parsing the rendering of `n`, followed by anything that is not a digit, gives back `n`. */
  lemma ParseWholeDecimal(n: nat, rest: string)
    requires rest == [] || !IsDigit(rest[0])
    ensures ParseWhole(DecimalString(n) + rest) == Some(n)
  {
    var d := DecimalString(n);
    DigitRunOfDigits(d, rest);
    assert (d + rest)[..|d|] == d;
    DecimalStringValue(n);
  }

  /** `s.replace(/[$,]/g, '')`. */
  function StripCurrency(s: string): (r: string)
    ensures |r| <= |s|
    ensures forall i :: 0 <= i < |r| ==> r[i] != '$' && r[i] != ','
  {
    if s == [] then []
    else (if s[0] == '$' || s[0] == ',' then [] else [s[0]]) + StripCurrency(s[1..])
  }

  lemma {:induction false} StripCurrencyAppend(a: string, b: string)
    ensures StripCurrency(a + b) == StripCurrency(a) + StripCurrency(b)
  {
    if a != [] {
      assert (a + b)[1..] == a[1..] + b;
      StripCurrencyAppend(a[1..], b);
    } else {
      assert a + b == b;
    }
  }

  /**
   * On one character: `$` and `,` become nothing, any other character is
   * kept. With `StripCurrencyAppend` this fixes the result on every text.
   */
  lemma StripCurrencyChar(c: char)
    ensures StripCurrency([c]) == if c == '$' || c == ',' then [] else [c]
  {
    assert [c][1..] == [];
  }

  /** Only `$` and `,` are removed: a string without them is left as it is. */
  lemma {:induction false} StripCurrencyKeeps(s: string)
    requires forall i :: 0 <= i < |s| ==> s[i] != '$' && s[i] != ','
    ensures StripCurrency(s) == s
  {
    if s != [] {
      StripCurrencyKeeps(s[1..]);
    }
  }

  /** The numeric value of a box-office text such as "$2,923,706,026"; `None` is NaN. */
  function ParseBoxOffice(s: string): Option<nat>
  {
    ParseWhole(StripCurrency(s))
  }

  /** Three digits, zero-padded: the group after a thousands separator. */
  function Pad3(m: nat): (r: string)
    requires m < 1000
    ensures |r| == 3 && AllDigits(r)
  {
    [DigitChar(m / 100), DigitChar(m / 10 % 10), DigitChar(m % 10)]
  }

  /** `n` written with a comma between groups of three digits, as the data set writes amounts. */
  function Grouped(n: nat): string
  {
    if n < 1000 then DecimalString(n) else Grouped(n / 1000) + "," + Pad3(n % 1000)
  }

  lemma DivModFacts(n: nat)
    requires n >= 1000
    ensures n / 10 >= 100 && n / 100 >= 10
    ensures n / 10 / 10 == n / 100 && n / 100 / 10 == n / 1000
    ensures n % 1000 / 100 == n / 100 % 10
    ensures n % 1000 / 10 % 10 == n / 10 % 10
    ensures n % 1000 % 10 == n % 10
  {
    var q, r := n / 1000, n % 1000;
    assert n == 1000 * q + r;
    assert n / 10 == 100 * q + r / 10;
    assert n / 100 == 10 * q + r / 100;
  }

  lemma DecimalStringSplit(n: nat)
    requires n >= 1000
    ensures DecimalString(n) == DecimalString(n / 1000) + Pad3(n % 1000)
  {
    DivModFacts(n);
    calc {
      DecimalString(n);
      DecimalString(n / 10) + [DigitChar(n % 10)];
      DecimalString(n / 100) + [DigitChar(n / 10 % 10)] + [DigitChar(n % 10)];
      DecimalString(n / 1000) + [DigitChar(n / 100 % 10)] + [DigitChar(n / 10 % 10)] + [DigitChar(n % 10)];
      DecimalString(n / 1000) + Pad3(n % 1000);
    }
  }

  /** Removing the separators from a grouped amount leaves its plain decimal rendering. */
  lemma {:induction false} StripGrouped(n: nat)
    ensures StripCurrency(Grouped(n)) == DecimalString(n)
  {
    if n < 1000 {
      StripCurrencyKeeps(DecimalString(n));
    } else {
      var p := Pad3(n % 1000);
      StripGrouped(n / 1000);
      StripCurrencyAppend(Grouped(n / 1000) + ",", p);
      StripCurrencyAppend(Grouped(n / 1000), ",");
      StripCurrencyKeeps(p);
      DecimalStringSplit(n);
    }
  }

  /** A dollar amount in the data set's format parses back to the amount. */
  lemma ParseBoxOfficeRoundTrip(n: nat)
    ensures ParseBoxOffice("$" + Grouped(n)) == Some(n)
  {
    var d := DecimalString(n);
    StripCurrencyAppend("$", Grouped(n));
    assert StripCurrency("$") == [];
    StripGrouped(n);
    assert StripCurrency("$" + Grouped(n)) == d;
    ParseWholeDecimal(n, "");
    assert d + "" == d;
  }

  /** `parseInt`: an optional sign, then the leading run of digits; `None` is NaN. */
  function ParseInt(s: string): (r: Option<int>)
    ensures r.None? <==> ParseWhole(if s != [] && (s[0] == '-' || s[0] == '+') then s[1..] else s).None?
  {
    if s != [] && s[0] == '-' then
      match ParseWhole(s[1..])
      case Some(n) => Some(-(n as int))
      case None => None
    else if s != [] && s[0] == '+' then
      match ParseWhole(s[1..])
      case Some(n) => Some(n)
      case None => None
    else
      match ParseWhole(s)
      case Some(n) => Some(n)
      case None => None
  }

  /** The text `${y}` renders for a year. */
  function IntString(y: int): string
  {
    if y < 0 then "-" + DecimalString(-y) else DecimalString(y)
  }

  /** A minus sign before digits negates their value. */
  lemma ParseIntNegative(d: string, n: nat)
    requires ParseWhole(d) == Some(n)
    ensures ParseInt("-" + d) == Some(-(n as int))
  {
    assert ("-" + d)[1..] == d;
  }

  /** Digits without a sign parse as `parseFloat` reads them. */
  lemma ParseIntUnsigned(d: string, n: nat)
    requires ParseWhole(d) == Some(n)
    ensures ParseInt(d) == Some(n)
  {
  }

  /** A rendered year parses back to itself. */
  lemma ParseIntRoundTrip(y: int)
    ensures ParseInt(IntString(y)) == Some(y)
  {
    var n: nat := if y < 0 then -y else y;
    var d := DecimalString(n);
    ParseWholeDecimal(n, "");
    assert d + "" == d;
    if y < 0 {
      ParseIntNegative(d, n);
    } else {
      ParseIntUnsigned(d, n);
    }
  }
}
