/** The cell-level helpers of the statement extractor in backend/test_app.py:
    recognising dates and amounts, normalising a date to `YYYY-MM-DD` and
    guessing a category from a description. */
module Cells {
  import opened Text
  import opened Numbers
  import opened Patterns

  predicate IsNewline(c: char) {
    c == '\n'
  }

  /** The whitespace normalisation both date helpers apply after their own
      newline handling: collapse whitespace runs to one space, then drop the
      spaces around `/` and around `-`. */
  function TidyDate(t: string): string
  {
    SqueezeAround(SqueezeAround(CollapseSpaces(Strip(t)), '/', false), '-', false)
  }

  /** A string already in tidy form passes through the normalisation unchanged. */
  lemma {:induction false} TidyDateFixes(t: string)
    requires Tidy(t)
    ensures TidyDate(t) == t
  {
    TidyStrip(t);
    CollapseTidy(t);
    SqueezeTidy(t, '/', false);
    SqueezeTidy(t, '-', false);
  }

  /** The ten whole-string shapes `is_date` tries, in its order. */
  predicate DateShape(t: string) {
    || DayMonthYear(t, {'/'})
    || DayMonthYear(t, {'-'})
    || DateWithClock(t, {'/'}, false)
    || DateWithClock(t, {'-'}, false)
    || CompactMonthDate(t)
    || SpacedMonthDate(t)
    || YearMonthDay(t, {'/'})
    || YearMonthDay(t, {'-'})
    || DateWithClock(t, {'/'}, true)
    || DateWithClock(t, {'-'}, true)
  }

  /** `is_date`: newlines removed, whitespace tidied, then one of the ten shapes. */
  predicate IsDate(text: string) {
    text != [] && DateShape(TidyDate(RemoveChars(text, IsNewline)))
  }

  /** `is_amount`: non-empty, and `float()` accepts it once cleaned. */
  predicate IsAmount(text: string) {
    text != [] && ParseFloat(CleanAmount(text)).Some?
  }

  /** `float(clean_amount(text))` for a cell `IsAmount` accepted. */
  function AmountOf(text: string): real
    requires IsAmount(text)
  {
    ParseFloat(CleanAmount(text)).value
  }

  /** The twelve keys of `month_map`, in calendar order. */
  const MonthKeys: seq<string> :=
    ["jan", "feb", "mar", "apr", "may", "jun", "jul", "aug", "sep", "oct", "nov", "dec"]

  /** `n` written with two decimal digits. */
  function TwoDigits(n: nat): (r: string)
    requires n < 100
    ensures |r| == 2 && AllDigits(r)
  {
    [(('0' as int) + n / 10) as char, (('0' as int) + n % 10) as char]
  }

  /** The numbers `month_map` gives the first three letters of a month name,
      and `'01'` for anything else. */
  function MonthNumber(name: string): (r: string)
    ensures |r| == 2 && AllDigits(r)
  {
    MonthOfKey(Take(Lower(name), 3))
  }

  /** `month_map.get(key, '01')`; every key of the map has three letters, so
      the lookup compares letter by letter. */
  function MonthOfKey(key: string): (r: string)
    ensures |r| == 2 && AllDigits(r)
  {
    if |key| != 3 then "01" else MonthOfLetters(key[0], key[1], key[2])
  }

  function MonthOfLetters(a: char, b: char, c: char): (r: string)
    ensures |r| == 2 && AllDigits(r)
  {
    if a == 'j' && b == 'a' && c == 'n' then "01"
    else if a == 'f' && b == 'e' && c == 'b' then "02"
    else if a == 'm' && b == 'a' && c == 'r' then "03"
    else if a == 'a' && b == 'p' && c == 'r' then "04"
    else if a == 'm' && b == 'a' && c == 'y' then "05"
    else if a == 'j' && b == 'u' && c == 'n' then "06"
    else if a == 'j' && b == 'u' && c == 'l' then "07"
    else if a == 'a' && b == 'u' && c == 'g' then "08"
    else if a == 's' && b == 'e' && c == 'p' then "09"
    else if a == 'o' && b == 'c' && c == 't' then "10"
    else if a == 'n' && b == 'o' && c == 'v' then "11"
    else if a == 'd' && b == 'e' && c == 'c' then "12"
    else "01"
  }

  /** A name whose first three letters, lower-cased, are the key in position
      `k` of the table is month `k + 1`. */
  lemma {:induction false} MonthNumberKnown(name: string, k: nat)
    requires k < |MonthKeys| && Take(Lower(name), 3) == MonthKeys[k]
    ensures MonthNumber(name) == TwoDigits(k + 1)
  {
    var key := MonthKeys[k];
    assert |key| == 3;
    assert MonthOfKey(key) == MonthOfLetters(key[0], key[1], key[2]);
    if k < 6 { EarlyMonth(k); } else { LateMonth(k); }
  }

  lemma {:induction false} EarlyMonth(k: nat)
    requires k < 6
    ensures MonthOfLetters(MonthKeys[k][0], MonthKeys[k][1], MonthKeys[k][2]) == TwoDigits(k + 1)
  {
  }

  lemma {:induction false} LateMonth(k: nat)
    requires 6 <= k < 12
    ensures MonthOfLetters(MonthKeys[k][0], MonthKeys[k][1], MonthKeys[k][2]) == TwoDigits(k + 1)
  {
  }

  /** Any other name is month `'01'`. */
  lemma {:induction false} MonthNumberUnknown(name: string)
    requires Take(Lower(name), 3) !in MonthKeys
    ensures MonthNumber(name) == "01"
  {
    var key := Take(Lower(name), 3);
    if |key| == 3 {
      forall k | 0 <= k < |MonthKeys| ensures [key[0], key[1], key[2]] != MonthKeys[k] {
        assert key == [key[0], key[1], key[2]];
      }
    }
  }

  /** The `DD/MM/YY[YY]` branch of `format_date`: split on `/` when there is
      one and on `-` otherwise; anything but three parts raises, which the
      function answers with today's date. */
  function DayFirst(datePart: string, today: string): string
  {
    var parts := SplitBy(datePart, if '/' in datePart then {'/'} else {'-'});
    if |parts| != 3 then today
    else
      var year := if |parts[2]| == 2 then "20" + parts[2] else parts[2];
      year + "-" + ZFill(parts[1], 2) + "-" + ZFill(parts[0], 2)
  }

  /** `format_date`: today's date (`today`, a parameter) unless the string
      starts with a day-first numeric date or has a `DD MMM YYYY` shape. */
  function FormatDate(dateStr: string, today: string): string
  {
    FormatCleaned(TidyDate(ReplaceChar(dateStr, '\n', ' ')), today)
  }

  /** `format_date` from the cleaned string on.  When a day-first date starts
      the string, `date_part` is that prefix, and it matches again. */
  function FormatCleaned(cleaned: string, today: string): string
  {
    match DmyPrefix(cleaned)
    case Some(k) => DayFirst(cleaned[..k], today)
    case None => MonthFirst(cleaned, today)
  }

  /** The `DD MMM YYYY` branch of `format_date`, taken when no day-first
      numeric date starts the cleaned string. */
  function MonthFirst(cleaned: string, today: string): string
    requires DmyPrefix(cleaned).None?
  {
    if MonthPrefix(cleaned, false) then MonthWords(RegexSplitWs(Strip(ReplaceChar(cleaned, '\n', ' '))), today)
    else today
  }

  /** The `DD MMM YYYY` branch once `re.split(r'\s+', ...)` has run: with
      fewer than three parts nothing is returned there and the function
      falls through to today's date. */
  function MonthWords(parts: seq<string>, today: string): string
  {
    if |parts| >= 3 then parts[2] + "-" + MonthNumber(parts[1]) + "-" + ZFill(parts[0], 2)
    else today
  }

  /** `detect_category` of backend/test_app.py: the first keyword group the
      lower-cased description contains decides. */
  function DetectCategory(description: string): (r: string)
    ensures r in {"Digital Payment", "Cash Withdrawal", "Salary", "Interest", "Others"}
  {
    var d := Lower(description);
    if ContainsAny(d, ["upi", "gpay", "paytm", "phonepe", "bhim"]) then "Digital Payment"
    else if ContainsAny(d, ["atm", "cash withdrawal", "cwd"]) then "Cash Withdrawal"
    else if ContainsAny(d, ["salary", "sal"]) then "Salary"
    else if ContainsAny(d, ["interest", "int"]) then "Interest"
    else "Others"
  }

  /** The description clean-up of the row extractors: newlines become spaces,
      the ends are stripped, and text longer than `limit` is cut to `limit`
      characters followed by `...`. */
  function CleanDescription(description: string, limit: nat): (r: string)
    ensures |r| <= limit + 3
    ensures '\n' !in r
    ensures var d := Strip(ReplaceChar(description, '\n', ' '));
      if |d| <= limit then r == d
      else |r| == limit + 3 && r[..limit] == d[..limit] && r[limit..] == "..."
  {
    var d := Strip(ReplaceChar(description, '\n', ' '));
    StripKeepsOut(ReplaceChar(description, '\n', ' '), '\n');
    if |d| > limit then
      var r := d[..limit] + "...";
      assert r[..limit] == d[..limit] && r[limit..] == "...";
      r
    else d
  }

  /** A cleaned description is left as it is by a second clean-up: a cut
      description keeps its first `limit` characters and its `...`. */
  lemma {:induction false} CleanDescriptionIdempotent(description: string, limit: nat)
    ensures CleanDescription(CleanDescription(description, limit), limit) == CleanDescription(description, limit)
  {
    var d := Strip(ReplaceChar(description, '\n', ' '));
    var r := CleanDescription(description, limit);
    ReplaceAbsent(r, '\n', ' ');
    if |d| > limit {
      assert r == d[..limit] + "...";
      assert r[|r| - 1] == '.';
      if limit > 0 { assert r[0] == d[0]; } else { assert r[0] == '.'; }
      StripUnpadded(r);
      assert r[..limit] == d[..limit];
    } else {
      StripUnpadded(r);
    }
  }

  // ---------------------------------------------------------------------
  // What the date helpers accept and produce
  // ---------------------------------------------------------------------

  /** The digits of a day-first numeric date `D[D]/M[M]/YY[YY]` (or with `-`). */
  predicate DayFirstFields(d: string, m: string, y: string, sep: char) {
    DigitsBetween(d, 1, 2) && DigitsBetween(m, 1, 2) && DigitsBetween(y, 2, 4) && sep in {'/', '-'}
  }

  /** What `format_date` makes of a day-first date: two-digit years get the
      `20` prefix, day and month are zero-padded; no range is checked. */
  function IsoOf(d: string, m: string, y: string): string {
    (if |y| == 2 then "20" + y else y) + "-" + ZFill(m, 2) + "-" + ZFill(d, 2)
  }

  lemma {:induction false} SplitThree(d: string, m: string, y: string, sep: char)
    requires DayFirstFields(d, m, y, sep)
    ensures SplitBy(d + [sep] + m + [sep] + y, {sep}) == [d, m, y]
    ensures ('/' in d + [sep] + m + [sep] + y) <==> sep == '/'
  {
    var s := d + [sep] + m + [sep] + y;
    assert s == d + [sep] + (m + [sep] + y);
    SplitCons(d, sep, m + [sep] + y, {sep});
    SplitCons(m, sep, y, {sep});
    SplitNone(y, {sep});
    if sep != '/' {
      forall i | 0 <= i < |s| ensures s[i] != '/' {
        if i < |d| { assert s[i] == d[i]; }
        else if i == |d| { assert s[i] == sep; }
        else if i < |d| + 1 + |m| { assert s[i] == m[i - |d| - 1]; }
        else if i == |d| + 1 + |m| { assert s[i] == sep; }
        else { assert s[i] == y[i - |d| - |m| - 2]; }
      }
    } else {
      assert s[|d|] == '/';
    }
  }

  /** The scanner for `\d{1,2}[/-]\d{1,2}[/-]\d{2,4}` stops exactly after the
      year when no further digit follows. */
  lemma {:induction false} DayFirstPrefix(d: string, m: string, y: string, sep: char, rest: string)
    requires DayFirstFields(d, m, y, sep)
    requires rest == [] || !IsDigit(rest[0])
    ensures DmyPrefix(d + [sep] + m + [sep] + y + rest) == Some(|d| + |m| + |y| + 2)
  {
    var x := d + [sep] + m + [sep] + y + rest;
    var a, b, c := |d|, |d| + 1 + |m|, |d| + |m| + |y| + 2;
    assert x[..a] == d;
    assert x[a + 1..b] == m;
    assert x[b + 1..c] == y;
    DigitRunEndIs(x, 0, a);
    DigitRunEndIs(x, a + 1, b);
    if rest != [] { assert x[c] == rest[0]; }
    DigitRunEndIs(x, b + 1, c);
  }

  /** Both date helpers leave a tidy string as it is. */
  lemma {:induction false} TidyCleans(x: string)
    requires Tidy(x)
    ensures TidyDate(ReplaceChar(x, '\n', ' ')) == x
    ensures TidyDate(RemoveChars(x, IsNewline)) == x
  {
    TidyNoNewline(x);
    ReplaceAbsent(x, '\n', ' ');
    assert forall i :: 0 <= i < |x| ==> !IsNewline(x[i]);
    TidyDateFixes(x);
  }

  lemma {:induction false} TidyNoNewline(x: string)
    requires forall i :: 0 <= i < |x| && IsSpace(x[i]) ==> x[i] == ' '
    ensures '\n' !in x
  {
    forall i | 0 <= i < |x| ensures x[i] != '\n' {
      if x[i] == '\n' { assert IsSpace(x[i]); }
    }
  }

  /** The day-first branch on exactly `D[D]/M[M]/YY[YY]`. */
  lemma {:induction false} DayFirstOf(d: string, m: string, y: string, sep: char, today: string)
    requires DayFirstFields(d, m, y, sep)
    ensures DayFirst(d + [sep] + m + [sep] + y, today) == IsoOf(d, m, y)
  {
    SplitThree(d, m, y, sep);
  }

  /** `x` starts with `a` digits, `sep`, `b` digits, `sep` and `c` digits,
      and no digit follows them. */
  predicate DayFirstAt(x: string, a: nat, b: nat, c: nat, sep: char) {
    && 1 <= a <= 2 && 1 <= b <= 2 && 2 <= c <= 4 && a + b + c + 2 <= |x| && sep in {'/', '-'}
    && AllDigits(x[..a]) && x[a] == sep && AllDigits(x[a + 1..a + 1 + b]) && x[a + 1 + b] == sep
    && AllDigits(x[a + b + 2..a + b + 2 + c])
    && (a + b + c + 2 < |x| ==> !IsDigit(x[a + b + c + 2]))
  }

  /** The day-first branch on the date at the start of `s`, read by position. */
  lemma {:induction false} DayFirstSlices(s: string, a: nat, b: nat, c: nat, sep: char, today: string)
    requires DayFirstAt(s, a, b, c, sep) && |s| == a + b + c + 2
    ensures DayFirst(s, today) == IsoOf(s[..a], s[a + 1..a + 1 + b], s[a + b + 2..])
  {
    var d, m, y := s[..a], s[a + 1..a + 1 + b], s[a + b + 2..];
    assert y == s[a + b + 2..a + b + 2 + c];
    assert DayFirstFields(d, m, y, sep);
    assert s == d + [sep] + m + [sep] + y;
    DayFirstOf(d, m, y, sep, today);
  }

  /** The numeric-date scanner finds exactly the date at the start of `x`. */
  lemma {:induction false} DmyPrefixAt(x: string, a: nat, b: nat, c: nat, sep: char)
    requires DayFirstAt(x, a, b, c, sep)
    ensures DmyPrefix(x) == Some(a + b + c + 2)
  {
    DigitRunEndIs(x, 0, a);
    DigitRunEndIs(x, a + 1, a + 1 + b);
    DigitRunEndIs(x, a + b + 2, a + b + c + 2);
  }

  /** A tidy string that starts with a day-first date (typically followed by
      ` HH:MM:SS`) is formatted from the date's three fields alone. */
  lemma {:induction false} FormatDayFirstAt(x: string, a: nat, b: nat, c: nat, sep: char, today: string)
    requires DayFirstAt(x, a, b, c, sep) && Tidy(x)
    ensures FormatDate(x, today) == IsoOf(x[..a], x[a + 1..a + 1 + b], x[a + b + 2..a + b + 2 + c])
  {
    TidyCleans(x);
    CleanedDayFirstAt(x, a, b, c, sep, today);
    FormatViaCleaned(x, IsoOf(x[..a], x[a + 1..a + 1 + b], x[a + b + 2..a + b + 2 + c]), today);
  }

  lemma {:induction false} CleanedDayFirstAt(x: string, a: nat, b: nat, c: nat, sep: char, today: string)
    requires DayFirstAt(x, a, b, c, sep)
    ensures FormatCleaned(x, today) == IsoOf(x[..a], x[a + 1..a + 1 + b], x[a + b + 2..a + b + 2 + c])
  {
    DmyPrefixAt(x, a, b, c, sep);
    DayFirstValue(x, a, b, c, sep, today);
    CleanedFromPrefix(x, a + b + c + 2, IsoOf(x[..a], x[a + 1..a + 1 + b], x[a + b + 2..a + b + 2 + c]), today);
  }

  /** When the day-first pattern matches a prefix, only that prefix is formatted. */
  lemma {:induction false} CleanedFromPrefix(x: string, n: nat, r: string, today: string)
    requires DmyPrefix(x) == Some(n) && n <= |x|
    requires DayFirst(x[..n], today) == r
    ensures FormatCleaned(x, today) == r
  {
  }

  /** The day-first branch applied to the date at the start of `x`. */
  lemma {:induction false} DayFirstValue(x: string, a: nat, b: nat, c: nat, sep: char, today: string)
    requires DayFirstAt(x, a, b, c, sep)
    ensures DayFirst(x[..a + b + c + 2], today) == IsoOf(x[..a], x[a + 1..a + 1 + b], x[a + b + 2..a + b + 2 + c])
  {
    var n := a + b + c + 2;
    var s := x[..n];
    assert s[..a] == x[..a];
    assert s[a + 1..a + 1 + b] == x[a + 1..a + 1 + b];
    assert s[a + b + 2..] == x[a + b + 2..n];
    assert s[a] == sep && s[a + 1 + b] == sep;
    DayFirstSlices(s, a, b, c, sep, today);
  }

  /** Cleaning leaves a cleaned string as it is, so `format_date` is its
      second half applied to it. */
  lemma {:induction false} FormatViaCleaned(x: string, r: string, today: string)
    requires TidyDate(ReplaceChar(x, '\n', ' ')) == x
    requires FormatCleaned(x, today) == r
    ensures FormatDate(x, today) == r
  {
  }

  /** A day-first date followed by anything that does not continue the year
      (typically ` HH:MM:SS`), in tidy form, is formatted from its three
      fields alone. */
  lemma {:induction false} FormatDayFirst(d: string, m: string, y: string, sep: char, rest: string, today: string)
    requires DayFirstFields(d, m, y, sep)
    requires rest == [] || !IsDigit(rest[0])
    requires Tidy(d + [sep] + m + [sep] + y + rest)
    ensures FormatDate(d + [sep] + m + [sep] + y + rest, today) == IsoOf(d, m, y)
  {
    var x := d + [sep] + m + [sep] + y + rest;
    var a, b, c := |d|, |m|, |y|;
    assert x[..a] == d;
    assert x[a + 1..a + 1 + b] == m;
    assert x[a + b + 2..a + b + 2 + c] == y;
    if rest != [] { assert x[a + b + c + 2] == rest[0]; }
    FormatDayFirstAt(x, a, b, c, sep, today);
  }

  lemma {:induction false} NoSpaceDayFirst(d: string, m: string, y: string, sep: char)
    requires DayFirstFields(d, m, y, sep)
    ensures NoSpace(d + [sep] + m + [sep] + y)
  {
    var s := d + [sep] + m + [sep] + y;
    forall i | 0 <= i < |s| ensures !IsSpace(s[i]) {
      if i < |d| { assert s[i] == d[i]; }
      else if i == |d| { assert s[i] == sep; }
      else if i < |d| + 1 + |m| { assert s[i] == m[i - |d| - 1]; }
      else if i == |d| + 1 + |m| { assert s[i] == sep; }
      else { assert s[i] == y[i - |d| - |m| - 2]; }
    }
  }

  /** A tidy string of one of the accepted shapes passes `is_date`. */
  lemma {:induction false} TidyIsDate(x: string)
    requires x != [] && Tidy(x) && DateShape(x)
    ensures IsDate(x)
  {
    TidyCleans(x);
  }

  /** When no day-first date starts the string, the month-name branch decides. */
  lemma {:induction false} CleanedFromMonthFirst(x: string, r: string, today: string)
    requires DmyPrefix(x).None? && MonthFirst(x, today) == r
    ensures FormatCleaned(x, today) == r
  {
  }

  /** A single word has fewer than three parts: the month-name branch gives today. */
  lemma {:induction false} MonthFirstOneWord(x: string, today: string)
    requires x != [] && NoSpace(x) && DmyPrefix(x).None?
    ensures MonthFirst(x, today) == today
  {
    assert '\n' !in x by {
      forall i | 0 <= i < |x| ensures x[i] != '\n' {
        assert !IsSpace(x[i]);
      }
    }
    ReplaceAbsent(x, '\n', ' ');
    SplitWsOne(x);
  }

  /** On a tidy string the month-name branch splits the string itself into words. */
  lemma {:induction false} MonthFirstWords(x: string, today: string)
    requires x != [] && Tidy(x) && DmyPrefix(x).None? && MonthPrefix(x, false)
    ensures MonthFirst(x, today) == MonthWords(SplitWs(x), today)
  {
    TidyNoNewline(x);
    ReplaceAbsent(x, '\n', ' ');
    TidyStrip(x);
  }

  /** `is_date` accepts every `D[D]/M[M]/YY[YY]` and `D[D]-M[M]-YY[YY]`. */
  lemma {:induction false} DayFirstIsDate(d: string, m: string, y: string, sep: char)
    requires DayFirstFields(d, m, y, sep)
    ensures IsDate(d + [sep] + m + [sep] + y)
  {
    var s := d + [sep] + m + [sep] + y;
    NoSpaceDayFirst(d, m, y, sep);
    SplitThree(d, m, y, sep);
    assert DayMonthYear(s, {sep});
    TidyIsDate(s);
  }

  /** `format_date` turns `D[D]/M[M]/YY[YY]` into year, zero-padded month and day. */
  lemma {:induction false} DayFirstFormat(d: string, m: string, y: string, sep: char, today: string)
    requires DayFirstFields(d, m, y, sep)
    ensures FormatDate(d + [sep] + m + [sep] + y, today) == IsoOf(d, m, y)
  {
    var x := d + [sep] + m + [sep] + y;
    var a, b, c := |d|, |m|, |y|;
    NoSpaceDayFirst(d, m, y, sep);
    assert x[..a] == d;
    assert x[a + 1..a + 1 + b] == m;
    assert x[a + b + 2..a + b + 2 + c] == y;
    FormatDayFirstAt(x, a, b, c, sep, today);
  }

  /** Both halves: the date is accepted and formatted from its fields. */
  lemma {:induction false} DayFirstDate(d: string, m: string, y: string, sep: char, today: string)
    requires DayFirstFields(d, m, y, sep)
    ensures IsDate(d + [sep] + m + [sep] + y)
    ensures FormatDate(d + [sep] + m + [sep] + y, today) == IsoOf(d, m, y)
  {
    DayFirstIsDate(d, m, y, sep);
    DayFirstFormat(d, m, y, sep, today);
  }

  /** `date + " " + clock` is tidy when neither part has whitespace and the
      clock is digits and colons. */
  lemma {:induction false} TidyDateTime(s: string, clock: string)
    requires s != [] && NoSpace(s) && s[|s| - 1] !in {'/', '-'}
    requires clock != [] && forall i :: 0 <= i < |clock| ==> IsDigit(clock[i]) || clock[i] == ':'
    ensures NoSpace(clock)
    ensures Tidy(s + " " + clock)
  {
    var x := s + " " + clock;
    var n := |s|;
    assert forall i :: n < i < |x| ==> !IsSpace(x[i]) && x[i] !in {'/', '-'} by {
      forall i | n < i < |x| ensures !IsSpace(x[i]) && x[i] !in {'/', '-'} {
        assert x[i] == clock[i - n - 1];
      }
    }
    assert forall i :: 0 <= i < n ==> !IsSpace(x[i]) by {
      forall i | 0 <= i < n ensures !IsSpace(x[i]) {
        assert x[i] == s[i];
      }
    }
    assert x[n] == ' ' && x[n - 1] == s[n - 1];
  }

  /** A day-first date, a space and a clock: the shape `is_date` accepts. */
  lemma {:induction false} DayFirstClockShape(d: string, m: string, y: string, sep: char, clock: string)
    requires DayFirstFields(d, m, y, sep)
    requires IsClock(clock) && NoSpace(clock)
    ensures DateWithClock(d + [sep] + m + [sep] + y + " " + clock, {sep}, false)
  {
    var s := d + [sep] + m + [sep] + y;
    NoSpaceDayFirst(d, m, y, sep);
    assert clock != [] by { assert |SplitBy(clock, {':'})| >= 2; }
    SplitThree(d, m, y, sep);
    assert DayMonthYear(s, {sep});
    DateWithClockOf(s, clock, {sep}, false);
  }

  /** With a time of day after it, the date is still accepted. */
  lemma {:induction false} DayFirstClockIsDate(d: string, m: string, y: string, sep: char, clock: string)
    requires DayFirstFields(d, m, y, sep)
    requires IsClock(clock) && forall i :: 0 <= i < |clock| ==> IsDigit(clock[i]) || clock[i] == ':'
    ensures IsDate(d + [sep] + m + [sep] + y + " " + clock)
  {
    var s := d + [sep] + m + [sep] + y;
    var x := s + " " + clock;
    NoSpaceDayFirst(d, m, y, sep);
    assert clock != [] by { assert |SplitBy(clock, {':'})| >= 2; }
    assert s[|s| - 1] == y[|y| - 1];
    TidyDateTime(s, clock);
    DayFirstClockShape(d, m, y, sep, clock);
    TidyIsDate(x);
  }

  /** With a time of day after it, the date is formatted and the time is dropped. */
  lemma {:induction false} DayFirstClockFormat(d: string, m: string, y: string, sep: char, clock: string, today: string)
    requires DayFirstFields(d, m, y, sep)
    requires clock != [] && forall i :: 0 <= i < |clock| ==> IsDigit(clock[i]) || clock[i] == ':'
    ensures FormatDate(d + [sep] + m + [sep] + y + " " + clock, today) == IsoOf(d, m, y)
  {
    var s := d + [sep] + m + [sep] + y;
    var x := s + " " + clock;
    var a, b, c := |d|, |m|, |y|;
    NoSpaceDayFirst(d, m, y, sep);
    assert s[|s| - 1] == y[|y| - 1];
    TidyDateTime(s, clock);
    assert x[..a] == d;
    assert x[a + 1..a + 1 + b] == m;
    assert x[a + b + 2..a + b + 2 + c] == y;
    assert x[a + b + c + 2] == ' ';
    FormatDayFirstAt(x, a, b, c, sep, today);
  }

  /** Both halves for a date with a time of day. */
  lemma {:induction false} DayFirstDateTime(d: string, m: string, y: string, sep: char, clock: string, today: string)
    requires DayFirstFields(d, m, y, sep)
    requires IsClock(clock) && forall i :: 0 <= i < |clock| ==> IsDigit(clock[i]) || clock[i] == ':'
    ensures IsDate(d + [sep] + m + [sep] + y + " " + clock)
    ensures FormatDate(d + [sep] + m + [sep] + y + " " + clock, today) == IsoOf(d, m, y)
  {
    DayFirstClockIsDate(d, m, y, sep, clock);
    assert clock != [] by { assert |SplitBy(clock, {':'})| >= 2; }
    DayFirstClockFormat(d, m, y, sep, clock, today);
  }

  /** A string with no whitespace that does not start with a day-first
      numeric date is one word, so `format_date` cannot find the three parts
      it needs and falls back to today. */
  lemma {:induction false} FormatFallsBack(s: string, today: string)
    requires s != [] && NoSpace(s)
    requires DmyPrefix(s).None?
    ensures FormatDate(s, today) == today
  {
    TidyCleans(s);
    MonthFirstOneWord(s, today);
    CleanedFromMonthFirst(s, today, today);
    FormatViaCleaned(s, today, today);
  }

  lemma {:induction false} CompactNoSpace(s: string)
    requires CompactMonthDate(s)
    ensures NoSpace(s)
  {
    var k := |s| - 7;
    forall i | 0 <= i < |s| ensures !IsSpace(s[i]) {
      if i < k { assert s[i] == s[..k][i]; }
      else if i < k + 3 { assert s[i] == s[k..k + 3][i - k]; }
      else { assert s[i] == s[k + 3..][i - k - 3]; }
    }
  }

  /** The numeric-date scanner does not match `DDMMMYYYY`: it has no `/` or `-`. */
  lemma {:induction false} CompactNoDmy(s: string)
    requires CompactMonthDate(s)
    ensures DmyPrefix(s).None?
  {
    var k := |s| - 7;
    forall i | 0 <= i < |s| ensures !IsDateSep(s[i]) {
      if i < k { assert IsDigit(s[..k][i]); }
      else if i < k + 3 { assert IsWordChar(s[k..k + 3][i - k]); }
      else { assert IsDigit(s[k + 3..][i - k - 3]); }
    }
  }

  /** `DDMMMYYYY` (as in `15Jan2024`) passes `is_date`, but `format_date`
      cannot split it and returns today's date instead. */
  lemma {:induction false} CompactDateLost(s: string, today: string)
    requires CompactMonthDate(s)
    ensures IsDate(s)
    ensures FormatDate(s, today) == today
  {
    CompactNoSpace(s);
    TidyIsDate(s);
    CompactNoDmy(s);
    FormatFallsBack(s, today);
  }

  /** The three fields `split` found, joined back. */
  lemma {:induction false} JoinThree(s: string, sep: char)
    requires |SplitBy(s, {sep})| == 3
    ensures var p := SplitBy(s, {sep}); s == p[0] + [sep] + p[1] + [sep] + p[2]
  {
    var p := SplitBy(s, {sep});
    SplitJoin(s, sep);
    assert p[1..][1..] == [p[2]];
    assert Join(p[1..], sep) == p[1] + [sep] + p[2];
  }

  lemma {:induction false} YearFirstNoSpace(s: string, sep: char)
    requires sep in {'/', '-'} && YearMonthDay(s, {sep})
    ensures NoSpace(s) && |s| > 4 && AllDigits(s[..4])
  {
    var p := SplitBy(s, {sep});
    JoinThree(s, sep);
    forall i | 0 <= i < |s| ensures !IsSpace(s[i]) {
      if i < 4 { assert s[i] == p[0][i]; }
      else if i == 4 { assert s[i] == sep; }
      else if i < 5 + |p[1]| { assert s[i] == p[1][i - 5]; }
      else if i == 5 + |p[1]| { assert s[i] == sep; }
      else { assert s[i] == p[2][i - 6 - |p[1]|]; }
    }
    assert s[..4] == p[0];
  }

  /** Year-first dates (`2024-01-15`, `2024/01/15`) pass `is_date`, but
      `format_date` only knows day-first dates and returns today's date. */
  lemma {:induction false} YearFirstDateLost(s: string, sep: char, today: string)
    requires sep in {'/', '-'} && YearMonthDay(s, {sep})
    ensures IsDate(s)
    ensures FormatDate(s, today) == today
  {
    YearFirstNoSpace(s, sep);
    TidyIsDate(s);
    DigitRunEndAtLeast(s, 0, 4);
    FormatFallsBack(s, today);
  }

  /** Positions of `D[D] Mon YYYY`: whitespace only after the day and the month. */
  lemma {:induction false} SpacedMonthChars(d: string, mon: string, y: string)
    requires DigitsBetween(d, 1, 2) && |mon| == 3 && AllWordChars(mon) && DigitsBetween(y, 4, 4)
    ensures var s := d + " " + mon + " " + y;
      forall i :: 0 <= i < |s| && i != |d| && i != |d| + 4 ==> !IsSpace(s[i]) && s[i] !in {'/', '-'}
  {
    var s := d + " " + mon + " " + y;
    var n := |d|;
    forall i | 0 <= i < |s| && i != n && i != n + 4 ensures !IsSpace(s[i]) && s[i] !in {'/', '-'} {
      if i < n { assert s[i] == d[i]; }
      else if i < n + 4 { assert s[i] == mon[i - n - 1]; }
      else { assert s[i] == y[i - n - 5]; }
    }
  }

  /** `D[D] Mon YYYY` is tidy. */
  lemma {:induction false} SpacedMonthTidy(d: string, mon: string, y: string)
    requires DigitsBetween(d, 1, 2) && |mon| == 3 && AllWordChars(mon) && DigitsBetween(y, 4, 4)
    ensures Tidy(d + " " + mon + " " + y)
  {
    var s := d + " " + mon + " " + y;
    var n := |d|;
    SpacedMonthChars(d, mon, y);
    assert s[n] == ' ' && s[n + 4] == ' ';
  }

  /** `D[D] Mon YYYY` splits into its three words. */
  lemma {:induction false} SpacedMonthWords(d: string, mon: string, y: string)
    requires DigitsBetween(d, 1, 2) && |mon| == 3 && AllWordChars(mon) && DigitsBetween(y, 4, 4)
    ensures SplitWs(d + " " + mon + " " + y) == [d, mon, y]
  {
    assert NoSpace(d) by { forall i | 0 <= i < |d| ensures !IsSpace(d[i]) { assert IsDigit(d[i]); } }
    assert NoSpace(mon) by { forall i | 0 <= i < |mon| ensures !IsSpace(mon[i]) { assert IsWordChar(mon[i]); } }
    assert NoSpace(y) by { forall i | 0 <= i < |y| ensures !IsSpace(y[i]) { assert IsDigit(y[i]); } }
    SplitWsThree(d, mon, y);
  }

  /** `\d{1,2}\s*\w{3}\s*\d{4}` matches `D[D] Mon YYYY` with the day's own length,
      and the numeric-date scanner does not. */
  lemma {:induction false} SpacedMonthPrefix(d: string, mon: string, y: string)
    requires DigitsBetween(d, 1, 2) && |mon| == 3 && AllWordChars(mon) && DigitsBetween(y, 4, 4)
    ensures MonthPrefix(d + " " + mon + " " + y, false)
    ensures DmyPrefix(d + " " + mon + " " + y).None?
  {
    var s := d + " " + mon + " " + y;
    var n := |d|;
    assert s[..n] == d;
    DigitRunEndIs(s, 0, n);
    SpaceRunEndIs(s, n, n + 1);
    SpaceRunEndIs(s, n + 4, n + 5);
    assert s[n + 1..n + 4] == mon;
    assert s[n + 5..n + 9] == y;
    assert MonthAfterDay(s, n, false);
    assert IsDigit(s[0]) by { assert s[0] == d[0]; }
    if n == 2 { assert IsDigit(s[1]) by { assert s[1] == d[1]; } }
  }

  /** `D[D] Mon YYYY` passes `is_date`. */
  lemma {:induction false} SpacedMonthIsDate(d: string, mon: string, y: string)
    requires DigitsBetween(d, 1, 2) && |mon| == 3 && AllWordChars(mon) && DigitsBetween(y, 4, 4)
    ensures IsDate(d + " " + mon + " " + y)
  {
    var s := d + " " + mon + " " + y;
    SpacedMonthTidy(d, mon, y);
    SpacedMonthWords(d, mon, y);
    assert Unpadded(s) by { assert s[0] == d[0]; assert s[|s| - 1] == y[3]; }
    assert SpacedMonthDate(s);
    TidyIsDate(s);
  }

  /** `format_date` reads the month of `D[D] Mon YYYY` from its first three
      letters (`'01'` when they name no month). */
  lemma {:induction false} SpacedMonthFormat(d: string, mon: string, y: string, today: string)
    requires DigitsBetween(d, 1, 2) && |mon| == 3 && AllWordChars(mon) && DigitsBetween(y, 4, 4)
    ensures FormatDate(d + " " + mon + " " + y, today) == y + "-" + MonthNumber(mon) + "-" + ZFill(d, 2)
  {
    var s := d + " " + mon + " " + y;
    var r := y + "-" + MonthNumber(mon) + "-" + ZFill(d, 2);
    SpacedMonthTidy(d, mon, y);
    SpacedMonthWords(d, mon, y);
    SpacedMonthPrefix(d, mon, y);
    MonthFirstWords(s, today);
    assert MonthWords([d, mon, y], today) == r;
    CleanedFromMonthFirst(s, r, today);
    TidyCleans(s);
    FormatViaCleaned(s, r, today);
  }

  /** Both halves for `D[D] Mon YYYY`. */
  lemma {:induction false} SpacedMonthDateFormat(d: string, mon: string, y: string, today: string)
    requires DigitsBetween(d, 1, 2) && |mon| == 3 && AllWordChars(mon) && DigitsBetween(y, 4, 4)
    ensures IsDate(d + " " + mon + " " + y)
    ensures FormatDate(d + " " + mon + " " + y, today) == y + "-" + MonthNumber(mon) + "-" + ZFill(d, 2)
  {
    SpacedMonthIsDate(d, mon, y);
    SpacedMonthFormat(d, mon, y, today);
  }

  // ---------------------------------------------------------------------
  // Categories
  // ---------------------------------------------------------------------

  /** The category does not depend on letter case. */
  lemma {:induction false} DetectCategoryCaseless(description: string)
    ensures DetectCategory(Lower(description)) == DetectCategory(description)
  {
    LowerIdempotent(description);
  }

  /** `'salary'` and `'interest'` are redundant keywords: any text containing
      them also contains `'sal'` and `'int'`, so the category is decided by
      four shorter keyword groups. */
  lemma {:induction false} DetectCategoryShortKeywords(description: string)
    ensures DetectCategory(description) ==
      var d := Lower(description);
      if ContainsAny(d, ["upi", "gpay", "paytm", "phonepe", "bhim"]) then "Digital Payment"
      else if ContainsAny(d, ["atm", "cash withdrawal", "cwd"]) then "Cash Withdrawal"
      else if Contains(d, "sal") then "Salary"
      else if Contains(d, "int") then "Interest"
      else "Others"
  {
    var d := Lower(description);
    if Contains(d, "salary") { ContainsPrefix(d, "salary", 3); assert "salary"[..3] == "sal"; }
    if Contains(d, "interest") { ContainsPrefix(d, "interest", 3); assert "interest"[..3] == "int"; }
    ContainsAnyPair(d, "salary", "sal");
    ContainsAnyPair(d, "interest", "int");
  }

  lemma {:induction false} ContainsAnyPair(d: string, a: string, b: string)
    ensures ContainsAny(d, [a, b]) <==> Contains(d, a) || Contains(d, b)
  {
    if Contains(d, a) { assert [a, b][0] == a; }
    if Contains(d, b) { assert [a, b][1] == b; }
  }
}
