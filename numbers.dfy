/** Python's `float()` on the cleaned amount strings of a statement, and the
    amount cleaner shared by backend/test_app.py and backend/bank_parsers.py.
    Values are exact `real`s: binary rounding is not modelled. */
module Numbers {
  import opened Text

  function DigitValue(c: char): (d: nat)
    requires IsDigit(c)
    ensures d <= 9
  {
    c as int - '0' as int
  }

  /** The natural number a string of decimal digits denotes. */
  function DigitsValue(s: string): nat
    requires AllDigits(s)
  {
    if s == [] then 0 else DigitsValue(s[..|s| - 1]) * 10 + DigitValue(s[|s| - 1])
  }

  function Pow10(n: nat): (r: nat)
    ensures r >= 1
  {
    if n == 0 then 1 else 10 * Pow10(n - 1)
  }

  /** Index of the first character of `s` in `cs`, or `|s|` when there is none. */
  function IndexOfAny(s: string, cs: set<char>): (k: nat)
    ensures k <= |s|
    ensures k < |s| ==> s[k] in cs
    ensures forall i :: 0 <= i < k ==> s[i] !in cs
  {
    if s == [] then 0
    else if s[0] in cs then 0
    else 1 + IndexOfAny(s[1..], cs)
  }

  /** The value of the decimal numeral `whole.frac`. */
  function DecimalValue(whole: string, frac: string): (v: real)
    requires AllDigits(whole) && AllDigits(frac)
    ensures v >= 0.0
  {
    DigitsValue(whole) as real + DigitsValue(frac) as real / Pow10(|frac|) as real
  }

  /** `digits`, `digits.`, `digits.digits` or `.digits`: the unsigned mantissa. */
  function ParseMantissa(m: string): (r: Option<real>)
    ensures r.Some? ==> r.value >= 0.0
  {
    var p := IndexOfAny(m, {'.'});
    var whole := m[..p];
    var frac := if p < |m| then m[p + 1..] else "";
    if AllDigits(whole) && AllDigits(frac) && |whole| + |frac| >= 1 then
      Some(DecimalValue(whole, frac))
    else None
  }

  /** The exponent after `e`/`E`: an optional sign and at least one digit. */
  function ParseExponent(e: string): Option<int>
  {
    var digits := if |e| > 0 && (e[0] == '+' || e[0] == '-') then e[1..] else e;
    if |digits| >= 1 && AllDigits(digits) then
      Some(if |e| > 0 && e[0] == '-' then -(DigitsValue(digits) as int) else DigitsValue(digits))
    else None
  }

  /** `x` times ten to the `e`. */
  function Scale(x: real, e: int): (r: real)
    requires x >= 0.0
    ensures r >= 0.0
  {
    if e >= 0 then x * Pow10(e) as real else x / Pow10(-e) as real
  }

  /** `float(s)` for a string without whitespace: an optional sign, a mantissa
      and an optional exponent.  `nan`, `inf` and digit underscores are not
      modelled. */
  function ParseFloat(s: string): (r: Option<real>)
    ensures r.Some? ==> |s| > 0
    ensures r.Some? && r.value < 0.0 ==> s[0] == '-'
  {
    var body := if |s| > 0 && (s[0] == '+' || s[0] == '-') then s[1..] else s;
    var e := IndexOfAny(body, {'e', 'E'});
    var mant := ParseMantissa(body[..e]);
    var exp := if e < |body| then ParseExponent(body[e + 1..]) else Some(0);
    if mant.Some? && exp.Some? then
      var v := Scale(mant.value, exp.value);
      Some(if |s| > 0 && s[0] == '-' then -v else v)
    else None
  }

  /** `IndexOfAny` finds nothing in a string that has none of `cs`. */
  lemma {:induction false} IndexOfAnyAbsent(s: string, cs: set<char>)
    requires forall i :: 0 <= i < |s| ==> s[i] !in cs
    ensures IndexOfAny(s, cs) == |s|
  {
    if s != [] {
      IndexOfAnyAbsent(s[1..], cs);
    }
  }

  /** `IndexOfAny` finds the first `c` of `cs` after a stretch `a` free of `cs`. */
  lemma {:induction false} IndexOfAnyAfter(a: string, c: char, b: string, cs: set<char>)
    requires forall i :: 0 <= i < |a| ==> a[i] !in cs
    requires c in cs
    ensures IndexOfAny(a + [c] + b, cs) == |a|
  {
    if a != [] {
      assert (a + [c] + b)[1..] == a[1..] + [c] + b;
      IndexOfAnyAfter(a[1..], c, b, cs);
    }
  }

  lemma {:induction false} NoDotNoE(s: string)
    requires AllDigits(s)
    ensures IndexOfAny(s, {'.'}) == |s| && IndexOfAny(s, {'e', 'E'}) == |s|
  {
    IndexOfAnyAbsent(s, {'.'});
    IndexOfAnyAbsent(s, {'e', 'E'});
  }

  /** With no sign and no exponent, `float` is the mantissa. */
  lemma {:induction false} ParseFloatPlain(s: string)
    requires |s| > 0 && IsDigit(s[0])
    requires forall i :: 0 <= i < |s| ==> s[i] !in {'e', 'E'}
    ensures ParseFloat(s) == ParseMantissa(s)
  {
    IndexOfAnyAbsent(s, {'e', 'E'});
    assert s[..|s|] == s;
    assert s[0] != '+' && s[0] != '-';
    var m := ParseMantissa(s);
    if m.Some? {
      assert Pow10(0) == 1;
      assert Scale(m.value, 0) == m.value;
    }
  }

  /** A plain run of digits parses to the number it spells. */
  lemma {:induction false} ParseDigits(s: string)
    requires |s| > 0 && AllDigits(s)
    ensures ParseFloat(s) == Some(DigitsValue(s) as real)
  {
    NoDotNoE(s);
    ParseFloatPlain(s);
    assert s[..|s|] == s;
    assert DecimalValue(s, "") == DigitsValue(s) as real;
    assert ParseMantissa(s) == Some(DecimalValue(s, ""));
  }

  lemma {:induction false} MantissaDecimal(whole: string, frac: string)
    requires AllDigits(whole) && AllDigits(frac) && |whole| > 0
    ensures ParseMantissa(whole + "." + frac)
         == Some(DecimalValue(whole, frac))
  {
    var s := whole + "." + frac;
    assert s == whole + ['.'] + frac;
    IndexOfAnyAfter(whole, '.', frac, {'.'});
    var p := IndexOfAny(s, {'.'});
    assert p == |whole| && p < |s|;
    assert s[..p] == whole;
    assert s[p + 1..] == frac;
  }

  /** `whole.frac` parses to `whole + frac / 10^|frac|`. */
  lemma {:induction false} ParseDecimal(whole: string, frac: string)
    requires |whole| > 0 && AllDigits(whole) && AllDigits(frac)
    ensures ParseFloat(whole + "." + frac)
         == Some(DecimalValue(whole, frac))
  {
    var s := whole + "." + frac;
    forall i | 0 <= i < |s| ensures s[i] !in {'e', 'E'} {
      if i < |whole| { assert s[i] == whole[i]; }
      else if i > |whole| { assert s[i] == frac[i - |whole| - 1]; }
    }
    assert s[0] == whole[0];
    ParseFloatPlain(s);
    MantissaDecimal(whole, frac);
  }

  /** Characters `re.sub(r'[₹,\s]', '', ...)` removes from an amount. */
  predicate IsAmountNoise(c: char) {
    c == '\U{20B9}' || c == ',' || IsSpace(c)
  }

  /** `clean_amount` / `_clean_amount`: strip, then drop the rupee sign,
      thousands commas and whitespace. */
  function CleanAmount(text: string): (r: string)
    ensures forall i :: 0 <= i < |r| ==> !IsAmountNoise(r[i])
    ensures |r| <= |text|
  {
    RemoveChars(Strip(text), IsAmountNoise)
  }

  /** Cleaning a cleaned amount changes nothing. */
  lemma {:induction false} CleanAmountIdempotent(text: string)
    ensures CleanAmount(CleanAmount(text)) == CleanAmount(text)
  {
    var c := CleanAmount(text);
    assert NoSpace(c) by {
      forall i | 0 <= i < |c| ensures !IsSpace(c[i]) {
        assert !IsAmountNoise(c[i]);
      }
    }
    assert Strip(c) == c;
  }
}
