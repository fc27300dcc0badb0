/** backend/bank_parsers.py: choosing a parser by the statement's wording and
    the Indian Bank parser (table rows first, then text lines, then
    de-duplication).  Its cell tests and date and category helpers are its
    own narrower copies of the ones in backend/test_app.py.  A parsed
    transaction has no id here, which the model writes as id `0`. */
module BankParsers {
  import opened Text
  import opened Numbers
  import opened Patterns
  import Cells
  import opened Ledger
  import opened Dedup
  import opened Gathering

  // ---------------------------------------------------------------------
  // Cells
  // ---------------------------------------------------------------------

  /** `_is_date`: non-empty and, once stripped, a whole-string match of
      `D[D]S M[M]S YY[YY]`, `D[D] Mon YYYY` or `YYYYS M[M]S D[D]`, where each
      `S` is `/` or `-` (the two need not be the same). */
  predicate IsDate(text: string) {
    text != []
    && var t := Strip(text);
    DayMonthYear(t, {'/', '-'}) || SpacedMonthDate(t) || YearMonthDay(t, {'/', '-'})
  }

  /** `_format_date`: strip, then the day-first branch when the string starts
      with a numeric date (split on `/` when there is one, on `-`
      otherwise), the `DD Mon YYYY` branch when it starts with that shape,
      and today's date for anything else, including a split into other than
      three parts. */
  function FormatDate(dateStr: string, today: string): string {
    var s := Strip(dateStr);
    if DmyPrefix(s).Some? then Cells.DayFirst(s, today)
    else if MonthPrefix(s, true) then
      var parts := SplitWs(s);
      if |parts| != 3 then today else parts[2] + "-" + Cells.MonthNumber(parts[1]) + "-" + ZFill(parts[0], 2)
    else today
  }

  /** `_detect_category`: six keyword groups tried in order on the lower-cased
      description. */
  function DetectCategory(description: string): (r: string)
    ensures r in {"Digital Payment", "Cash Withdrawal", "Salary", "Interest", "Transfer", "Bank Charges", "Others"}
  {
    var d := Lower(description);
    if ContainsAny(d, ["upi", "gpay", "paytm", "phonepe", "bhim"]) then "Digital Payment"
    else if ContainsAny(d, ["atm", "cash withdrawal", "cwd"]) then "Cash Withdrawal"
    else if ContainsAny(d, ["salary", "sal", "wages"]) then "Salary"
    else if ContainsAny(d, ["interest", "int"]) then "Interest"
    else if ContainsAny(d, ["transfer", "tfr", "neft", "rtgs", "imps"]) then "Transfer"
    else if ContainsAny(d, ["fee", "charges", "charge"]) then "Bank Charges"
    else "Others"
  }

  // ---------------------------------------------------------------------
  // What the cell helpers accept and produce
  // ---------------------------------------------------------------------

  /** A stripped string of a whole-string numeric shape is a date. */
  lemma {:induction false} NumericIsDate(s: string)
    requires s != [] && NoSpace(s)
    requires DayMonthYear(s, {'/', '-'}) || YearMonthDay(s, {'/', '-'})
    ensures IsDate(s)
  {
  }

  /** A string without whitespace that starts with a numeric date goes
      through the day-first branch. */
  lemma {:induction false} FormatDayFirst(s: string, today: string)
    requires NoSpace(s) && DmyPrefix(s).Some?
    ensures FormatDate(s, today) == Cells.DayFirst(s, today)
  {
  }

  /** A day-first date with one separator is a date and becomes `YYYY-MM-DD`. */
  lemma {:induction false} DayFirstDate(d: string, m: string, y: string, sep: char, today: string)
    requires Cells.DayFirstFields(d, m, y, sep)
    ensures IsDate(d + [sep] + m + [sep] + y)
    ensures FormatDate(d + [sep] + m + [sep] + y, today) == Cells.IsoOf(d, m, y)
  {
    var s := d + [sep] + m + [sep] + y;
    Cells.NoSpaceDayFirst(d, m, y, sep);
    DayFirstSplit(d, sep, m, sep, y);
    NumericIsDate(s);
    Cells.DayFirstPrefix(d, m, y, sep, []);
    assert s + [] == s;
    FormatDayFirst(s, today);
    Cells.DayFirstOf(d, m, y, sep, today);
  }

  /** The three fields of a numeric date, whatever its two separators. */
  lemma {:induction false} DayFirstSplit(a: string, s1: char, b: string, s2: char, c: string)
    requires AllDigits(a) && AllDigits(b) && AllDigits(c) && s1 in {'/', '-'} && s2 in {'/', '-'}
    ensures SplitBy(a + [s1] + b + [s2] + c, {'/', '-'}) == [a, b, c]
  {
    assert a + [s1] + b + [s2] + c == a + [s1] + (b + [s2] + c);
    DigitsNoSeparator(a);
    DigitsNoSeparator(b);
    DigitsNoSeparator(c);
    SplitCons(a, s1, b + [s2] + c, {'/', '-'});
    SplitCons(b, s2, c, {'/', '-'});
    SplitNone(c, {'/', '-'});
  }

  lemma {:induction false} DigitsNoSeparator(a: string)
    requires AllDigits(a)
    ensures forall i :: 0 <= i < |a| ==> a[i] !in {'/', '-'}
  {
    forall i | 0 <= i < |a| ensures a[i] !in {'/', '-'} { assert IsDigit(a[i]); }
  }

  /** A date whose two separators differ (`1/2-2024`) passes `_is_date`, but
      the formatter splits it on `/` alone, gets two parts and falls back to
      today's date. */
  lemma {:induction false} MixedSeparatorsLost(d: string, m: string, y: string, today: string)
    requires Cells.DayFirstFields(d, m, y, '/')
    ensures IsDate(d + "/" + m + "-" + y)
    ensures FormatDate(d + "/" + m + "-" + y, today) == today
  {
    var s := d + "/" + m + "-" + y;
    MixedNoSpace(d, m, y);
    DayFirstSplit(d, '/', m, '-', y);
    assert s == d + ['/'] + m + ['-'] + y;
    NumericIsDate(s);
    MixedPrefix(d, m, y);
    FormatDayFirst(s, today);
    MixedSplit(d, m, y);
  }

  /** The numeric-date scanner accepts mixed separators. */
  lemma {:induction false} MixedPrefix(d: string, m: string, y: string)
    requires Cells.DayFirstFields(d, m, y, '/')
    ensures DmyPrefix(d + "/" + m + "-" + y).Some?
  {
    var s := d + "/" + m + "-" + y;
    var a, b, c := |d|, |m|, |y|;
    assert s[..a] == d;
    assert s[a + 1..a + 1 + b] == m;
    assert s[a + b + 2..a + b + 2 + c] == y;
    assert DmyShape(s, a, b, c);
    DmyPrefixGreedy(s, a, b, c);
  }

  /** Split on `/` alone, a mixed-separator date has two parts. */
  lemma {:induction false} MixedSplit(d: string, m: string, y: string)
    requires Cells.DayFirstFields(d, m, y, '/')
    ensures '/' in d + "/" + m + "-" + y
    ensures |SplitBy(d + "/" + m + "-" + y, {'/'})| == 2
  {
    var s := d + "/" + m + "-" + y;
    assert s == d + ['/'] + (m + "-" + y);
    assert forall i :: 0 <= i < |d| ==> d[i] !in {'/'} by {
      forall i | 0 <= i < |d| ensures d[i] !in {'/'} { assert IsDigit(d[i]); }
    }
    SplitCons(d, '/', m + "-" + y, {'/'});
    MixedTailNoSlash(m, y);
    SplitNone(m + "-" + y, {'/'});
    assert s[|d|] == '/';
  }

  lemma {:induction false} MixedNoSpace(d: string, m: string, y: string)
    requires Cells.DayFirstFields(d, m, y, '/')
    ensures NoSpace(d + "/" + m + "-" + y)
  {
    var s := d + "/" + m + "-" + y;
    forall i | 0 <= i < |s| ensures !IsSpace(s[i]) {
      if i < |d| { assert s[i] == d[i]; }
      else if i == |d| { assert s[i] == '/'; }
      else if i < |d| + 1 + |m| { assert s[i] == m[i - |d| - 1]; }
      else if i == |d| + 1 + |m| { assert s[i] == '-'; }
      else { assert s[i] == y[i - |d| - |m| - 2]; }
    }
  }

  lemma {:induction false} MixedTailNoSlash(m: string, y: string)
    requires AllDigits(m) && AllDigits(y)
    ensures forall i :: 0 <= i < |m + "-" + y| ==> (m + "-" + y)[i] !in {'/'}
  {
    var t := m + "-" + y;
    forall i | 0 <= i < |t| ensures t[i] !in {'/'} {
      if i < |m| { assert t[i] == m[i]; }
      else if i > |m| { assert t[i] == y[i - |m| - 1]; }
    }
  }

  /** Year-first dates pass `_is_date` but the formatter knows no year-first
      branch: they become today's date. */
  lemma {:induction false} YearFirstDateLost(s: string, sep: char, today: string)
    requires sep in {'/', '-'} && YearMonthDay(s, {sep})
    ensures IsDate(s)
    ensures FormatDate(s, today) == today
  {
    Cells.YearFirstNoSpace(s, sep);
    Cells.JoinThree(s, sep);
    var p := SplitBy(s, {sep});
    DayFirstSplit(p[0], sep, p[1], sep, p[2]);
    DigitRunEndAtLeast(s, 0, 4);
    assert IsDigit(s[1]) && IsDigit(s[2]) by { assert s[1] == s[..4][1] && s[2] == s[..4][2]; }
    assert SpaceRunEnd(s, 1) == 1 && SpaceRunEnd(s, 2) == 2;
  }

  /** `D[D] Mon YYYY` is a date and takes its month from the month table. */
  lemma {:induction false} SpacedMonthFormat(d: string, mon: string, y: string, today: string)
    requires DigitsBetween(d, 1, 2) && |mon| == 3 && AllWordChars(mon) && DigitsBetween(y, 4, 4)
    ensures IsDate(d + " " + mon + " " + y)
    ensures FormatDate(d + " " + mon + " " + y, today) == y + "-" + Cells.MonthNumber(mon) + "-" + ZFill(d, 2)
  {
    SpacedMonthStripped(d, mon, y);
    SpacedIsDate(d + " " + mon + " " + y);
    SpacedMonthSpaced(d, mon, y);
    Cells.SpacedMonthPrefix(d, mon, y);
    Cells.SpacedMonthWords(d, mon, y);
    FormatSpaced(d + " " + mon + " " + y, today);
  }

  /** `D[D] Mon YYYY` is its own strip and has the whole-string shape. */
  lemma {:induction false} SpacedMonthStripped(d: string, mon: string, y: string)
    requires DigitsBetween(d, 1, 2) && |mon| == 3 && AllWordChars(mon) && DigitsBetween(y, 4, 4)
    ensures Strip(d + " " + mon + " " + y) == d + " " + mon + " " + y
    ensures SpacedMonthDate(d + " " + mon + " " + y)
  {
    var s := d + " " + mon + " " + y;
    SpacedMonthEnds(d, mon, y);
    StripUnpadded(s);
    Cells.SpacedMonthWords(d, mon, y);
  }

  lemma {:induction false} SpacedMonthEnds(d: string, mon: string, y: string)
    requires DigitsBetween(d, 1, 2) && |mon| == 3 && DigitsBetween(y, 4, 4)
    ensures Unpadded(d + " " + mon + " " + y)
  {
    var s := d + " " + mon + " " + y;
    assert s[0] == d[0];
    assert s[|s| - 1] == y[3];
  }

  lemma {:induction false} SpacedIsDate(s: string)
    requires s != [] && Strip(s) == s && SpacedMonthDate(s)
    ensures IsDate(s)
  {
  }

  /** The `DD Mon YYYY` branch on a stripped string of three words. */
  lemma {:induction false} FormatSpaced(s: string, today: string)
    requires Strip(s) == s && DmyPrefix(s).None? && MonthPrefix(s, true) && |SplitWs(s)| == 3
    ensures var w := SplitWs(s); FormatDate(s, today) == w[2] + "-" + Cells.MonthNumber(w[1]) + "-" + ZFill(w[0], 2)
  {
  }

  /** `\d{1,2}\s+\w{3}\s+\d{4}` matches `D[D] Mon YYYY`. */
  lemma {:induction false} SpacedMonthSpaced(d: string, mon: string, y: string)
    requires DigitsBetween(d, 1, 2) && |mon| == 3 && AllWordChars(mon) && DigitsBetween(y, 4, 4)
    ensures MonthPrefix(d + " " + mon + " " + y, true)
  {
    var s := d + " " + mon + " " + y;
    var n := |d|;
    SpaceRunEndIs(s, n, n + 1);
    SpaceRunEndIs(s, n + 4, n + 5);
    assert s[n + 1..n + 4] == mon;
    assert s[n + 5..n + 9] == y;
    assert MonthAfterDay(s, n, true);
    assert IsDigit(s[0]) by { assert s[0] == d[0]; }
    if n == 2 { assert IsDigit(s[1]) by { assert s[1] == d[1]; } }
  }

  /** The category does not depend on letter case. */
  lemma {:induction false} DetectCategoryCaseless(description: string)
    ensures DetectCategory(Lower(description)) == DetectCategory(description)
  {
    LowerIdempotent(description);
  }

  /** Where the classifier of backend/test_app.py finds a payment, a cash
      withdrawal or a salary, this one agrees; it also agrees on interest
      unless the text mentions wages; and when this one finds nothing, the
      other finds nothing either. */
  lemma {:induction false} DetectCategoryAgrees(description: string)
    ensures Cells.DetectCategory(description) in {"Digital Payment", "Cash Withdrawal", "Salary"}
      ==> DetectCategory(description) == Cells.DetectCategory(description)
    ensures Cells.DetectCategory(description) == "Interest" && !Contains(Lower(description), "wages")
      ==> DetectCategory(description) == "Interest"
    ensures DetectCategory(description) == "Others" ==> Cells.DetectCategory(description) == "Others"
  {
    var d := Lower(description);
    if ContainsAny(d, ["salary", "sal"]) {
      var k :| 0 <= k < 2 && Contains(d, ["salary", "sal"][k]);
      assert ["salary", "sal", "wages"][k] == ["salary", "sal"][k];
    }
    if ContainsAny(d, ["salary", "sal", "wages"]) && !Contains(d, "wages") {
      var k :| 0 <= k < 3 && Contains(d, ["salary", "sal", "wages"][k]);
      assert k < 2;
      assert ["salary", "sal"][k] == ["salary", "sal", "wages"][k];
    }
  }

  // ---------------------------------------------------------------------
  // _parse_row
  // ---------------------------------------------------------------------

  /** `str(cell).strip() if cell else ''` for every cell. */
  function StripRow(row: seq<string>): (c: seq<string>)
    ensures |c| == |row|
    ensures forall i :: 0 <= i < |row| ==> c[i] == Strip(row[i])
  {
    seq(|row|, i requires 0 <= i < |row| => Strip(row[i]))
  }

  /** The first date-like cell at or after `i`. */
  function DateIndex(c: seq<string>, i: nat): (r: Option<nat>)
    requires i <= |c|
    ensures r.Some? ==> i <= r.value < |c| && IsDate(c[r.value])
    ensures r.Some? ==> forall j :: i <= j < r.value ==> !IsDate(c[j])
    ensures r.None? ==> forall j :: i <= j < |c| ==> !IsDate(c[j])
  {
    FirstFrom(c, i, IsDate)
  }

  /** A description cell: non-empty, not an amount, not the date's text. */
  predicate DescriptionCell(cell: string, date: string) {
    cell != [] && !Cells.IsAmount(cell) && cell != date
  }

  /** `DescriptionCell` for the date's text, as a test on cells. */
  function DescriptionTest(date: string): string -> bool {
    cell => DescriptionCell(cell, date)
  }

  /** The first description cell at or after `i`, or `''`. */
  function DescriptionFrom(c: seq<string>, i: nat, date: string): (r: string)
    requires i <= |c|
    ensures r == [] || exists j :: i <= j < |c| && r == c[j] && DescriptionCell(c[j], date)
                                    && forall k :: i <= k < j ==> !DescriptionCell(c[k], date)
    ensures (exists j :: i <= j < |c| && DescriptionCell(c[j], date)) ==> r != []
  {
    match FirstFrom(c, i, DescriptionTest(date))
    case None => []
    case Some(j) =>
      assert forall k :: i <= k < j ==> !DescriptionTest(date)(c[k]);
      c[j]
  }

  /** `float(_clean_amount(cell))` for a cell `_is_amount` accepts. */
  function CellAmount(cell: string): (v: Option<real>)
    ensures v.Some? <==> Cells.IsAmount(cell)
  {
    if Cells.IsAmount(cell) then Some(Cells.AmountOf(cell)) else None
  }

  /** The amount of every cell, where it has one. */
  function Amounts(c: seq<string>): (a: seq<Option<real>>)
    ensures |a| == |c|
  {
    if c == [] then [] else Amounts(c[..|c| - 1]) + [CellAmount(c[|c| - 1])]
  }

  /** The amount of cell `i` is the one `CellAmount` gives it. */
  lemma {:induction false} AmountsAt(c: seq<string>, i: nat)
    requires i < |c|
    ensures Amounts(c)[i] == CellAmount(c[i])
  {
    if i < |c| - 1 {
      AmountsAt(c[..|c| - 1], i);
    }
  }

  /** Cells after the middle (`i > len(row) // 2`) are credit cells, the
      others debit cells; `SideCell` holds of the amount cells of one side. */
  predicate SideCell(a: seq<Option<real>>, j: nat, credit: bool)
    requires j < |a|
  {
    (j > |a| / 2) == credit && a[j].Some?
  }

  /** The last amount cell on one side among the first `n` cells. */
  function LastAmountIndex(a: seq<Option<real>>, n: nat, credit: bool): (r: Option<nat>)
    requires n <= |a|
    ensures r.Some? ==> r.value < n && SideCell(a, r.value, credit)
    ensures r.Some? ==> forall j :: r.value < j < n ==> !SideCell(a, j, credit)
    ensures r.None? ==> forall j :: 0 <= j < n ==> !SideCell(a, j, credit)
  {
    if n == 0 then None
    else if SideCell(a, n - 1, credit) then Some(n - 1)
    else LastAmountIndex(a, n - 1, credit)
  }

  /** What the loop leaves in `credit` or `debit`: every amount cell of the
      side overwrites it, so the last one's value stays, and `0` when the
      side has none. */
  function SideAmount(a: seq<Option<real>>, n: nat, credit: bool): real
    requires n <= |a|
  {
    match LastAmountIndex(a, n, credit)
    case None => 0.0
    case Some(i) => a[i].value
  }

  /** `_parse_row`, as a function of the stripped cells. */
  function Row(row: seq<string>, today: string): (r: Option<Transaction>)
    ensures r.Some? ==>
      r.value.id == 0 && r.value.frequency == "one-time" && r.value.amount != 0.0
      && (r.value.kind == Credit ==> r.value.amount > 0.0)
      && r.value.category == DetectCategory(r.value.description)
    ensures (forall i :: 0 <= i < |row| ==> !IsDate(Strip(row[i]))) ==> r.None?
  {
    var c := StripRow(row);
    match DateIndex(c, 0)
    case None => None
    case Some(d) =>
      Record(c[d], DescriptionFrom(c, d + 1, c[d]), SideAmount(Amounts(c), |c|, false),
        SideAmount(Amounts(c), |c|, true), today)
  }

  /** The end of `_parse_row`: a positive credit makes a credit, anything
      else a debit of the debit amount, and a zero amount no transaction. */
  function Record(dateStr: string, description: string, debit: real, credit: real, today: string): (r: Option<Transaction>)
    ensures r.Some? <==> (credit > 0.0 || debit != 0.0)
    ensures r.Some? ==>
      && r.value.id == 0 && r.value.frequency == "one-time"
      && r.value.date == FormatDate(dateStr, today) && r.value.description == description
      && (r.value.kind == Credit <==> credit > 0.0)
      && r.value.amount == (if credit > 0.0 then credit else debit)
      && r.value.category == DetectCategory(description)
  {
    var amount := if credit > 0.0 then credit else debit;
    if amount == 0.0 then None
    else
      Some(Transaction(0, FormatDate(dateStr, today), description, amount,
        if credit > 0.0 then Credit else Debit, DetectCategory(description), "one-time"))
  }

  /** `_parse_row`: find the date cell, then the description after it, then
      the last amount on each side. */
  method ParseRow(row: seq<string>, today: string) returns (r: Option<Transaction>)
    ensures r == Row(row, today)
  {
    var c := StripRow(row);
    var dateIdx := FindDate(c);
    if dateIdx.None? {
      return None;
    }
    var d := dateIdx.value;
    var dateStr := c[d];
    var description := FindDescription(c, d + 1, dateStr);
    var debit, credit := SideAmounts(c);
    r := Record(dateStr, description, debit, credit, today);
  }

  /** The date loop of `_parse_row`. */
  method FindDate(c: seq<string>) returns (r: Option<nat>)
    ensures r == DateIndex(c, 0)
  {
    r := None;
    for i := 0 to |c|
      invariant DateIndex(c, 0) == DateIndex(c, i)
    {
      FirstFromStep(c, i, IsDate);
      if IsDate(c[i]) {
        return Some(i);
      }
    }
  }

  /** The description loop of `_parse_row`, from just after the date. */
  method FindDescription(c: seq<string>, start: nat, dateStr: string) returns (description: string)
    requires start <= |c|
    ensures description == DescriptionFrom(c, start, dateStr)
  {
    description := "";
    var j := start;
    while j < |c|
      invariant start <= j <= |c|
      invariant FirstFrom(c, start, DescriptionTest(dateStr)) == FirstFrom(c, j, DescriptionTest(dateStr))
    {
      FirstFromStep(c, j, DescriptionTest(dateStr));
      if DescriptionCell(c[j], dateStr) {
        return c[j];
      }
      j := j + 1;
    }
  }

  /** The amount loop of `_parse_row`. */
  method SideAmounts(c: seq<string>) returns (debit: real, credit: real)
    ensures debit == SideAmount(Amounts(c), |c|, false) && credit == SideAmount(Amounts(c), |c|, true)
  {
    ghost var a := Amounts(c);
    debit, credit := 0.0, 0.0;
    for i := 0 to |c|
      invariant debit == SideAmount(a, i, false)
      invariant credit == SideAmount(a, i, true)
    {
      var v := CellAmount(c[i]);
      AmountsAt(c, i);
      SideAmountsNext(a, i, v);
      if v.Some? {
        var amount := v.value;
        if i > |c| / 2 {
          credit := amount;
        } else {
          debit := amount;
        }
      }
    }
  }

  /** One more cell, of amount `v`, for both sides at once. */
  lemma {:induction false} SideAmountsNext(a: seq<Option<real>>, i: nat, v: Option<real>)
    requires i < |a| && a[i] == v
    ensures SideAmount(a, i + 1, false) == if v.Some? && i <= |a| / 2 then v.value else SideAmount(a, i, false)
    ensures SideAmount(a, i + 1, true) == if v.Some? && i > |a| / 2 then v.value else SideAmount(a, i, true)
  {
    SideAmountStep(a, i, false);
    SideAmountStep(a, i, true);
  }

  /** One more cell: an amount cell of the side replaces the value. */
  lemma {:induction false} SideAmountStep(a: seq<Option<real>>, i: nat, credit: bool)
    requires i < |a|
    ensures SideAmount(a, i + 1, credit) == if SideCell(a, i, credit) then a[i].value else SideAmount(a, i, credit)
  {
  }

  /** The last cell of a row of three or more lies on the credit side: when
      it holds a positive amount (a running balance, say) the row is a credit
      of that amount, whatever the other cells say. */
  lemma {:induction false} LastCellIsCredit(row: seq<string>, today: string)
    requires |row| >= 3 && DateIndex(StripRow(row), 0).Some?
    requires CellAmount(Strip(row[|row| - 1])).Some? && CellAmount(Strip(row[|row| - 1])).value > 0.0
    ensures Row(row, today).Some?
    ensures Row(row, today).value.kind == Credit
    ensures Row(row, today).value.amount == CellAmount(Strip(row[|row| - 1])).value
  {
    var c := StripRow(row);
    var a := Amounts(c);
    LastCellAmount(row);
    LastCellCredit(a);
    RowRecord(row, today);
  }

  /** A dated row is the record of its date cell, description and side amounts. */
  lemma {:induction false} RowRecord(row: seq<string>, today: string)
    requires DateIndex(StripRow(row), 0).Some?
    ensures var c := StripRow(row); var d := DateIndex(c, 0).value;
      Row(row, today) == Record(c[d], DescriptionFrom(c, d + 1, c[d]), SideAmount(Amounts(c), |c|, false),
        SideAmount(Amounts(c), |c|, true), today)
  {
  }

  lemma {:induction false} LastCellAmount(row: seq<string>)
    requires |row| >= 1
    ensures Amounts(StripRow(row))[|row| - 1] == CellAmount(Strip(row[|row| - 1]))
  {
    AmountsAt(StripRow(row), |row| - 1);
  }

  /** The credit side's amount is the last cell's, when that cell has one. */
  lemma {:induction false} LastCellCredit(a: seq<Option<real>>)
    requires |a| >= 3 && a[|a| - 1].Some?
    ensures SideAmount(a, |a|, true) == a[|a| - 1].value
  {
    assert SideCell(a, |a| - 1, true);
  }

  // ---------------------------------------------------------------------
  // _parse_table, _parse_text
  // ---------------------------------------------------------------------

  /** The header test of `_parse_table` on the lower-cased first cell. */
  predicate TableHeader(first: string) {
    ContainsAny(Lower(first), ["date", "particulars", "s.no", "sr.no", "transaction", "description"])
  }

  /** A table row: skipped with fewer than four cells or as a header. */
  function TableRow(today: string, row: seq<string>): (r: Option<Transaction>)
    ensures r.Some? ==> |row| >= 4 && !TableHeader(row[0]) && r == Row(row, today)
  {
    if |row| < 4 || TableHeader(row[0]) then None else Row(row, today)
  }

  function TableParse(today: string): (nat, seq<string>) -> Option<Transaction> {
    (i: nat, row: seq<string>) => TableRow(today, row)
  }

  /** `_parse_table` */
  method ParseTable(table: seq<seq<string>>, today: string) returns (ts: seq<Transaction>)
    ensures ts == Gather(table, TableParse(today))
  {
    ts := [];
    for n := 0 to |table|
      invariant ts == Gather(table[..n], TableParse(today))
    {
      var row := table[n];
      GatherPrefix(table, n, TableParse(today));
      assert TableParse(today)(n, row) == TableRow(today, row);
      if |row| >= 4 && !TableHeader(row[0]) {
        var t := ParseRow(row, today);
        if t.Some? {
          ts := ts + [t.value];
        }
      }
    }
    assert table[..|table|] == table;
  }

  /** One text line: the first of the two patterns `re.search` finds in it
      (case-insensitivity changes nothing for digits, spaces and `\w`). */
  function TextLine(today: string, line: string): (r: Option<Transaction>)
    ensures r.Some? <==> (Search(line, SlashOrDash, Grouped).Some? || Search(line, SpacedMonth, Grouped).Some?)
    ensures r.Some? ==>
      r.value.kind == Debit && r.value.amount >= 0.0 && r.value.frequency == "one-time"
      && '\n' !in r.value.description && r.value.id == 0
    ensures r.Some? ==>
      var m := if Search(line, SlashOrDash, Grouped).Some? then Search(line, SlashOrDash, Grouped)
               else Search(line, SpacedMonth, Grouped);
      r.value.date == FormatDate(m.value.date, today) && r.value.description == Strip(m.value.description)
      && r.value.category == DetectCategory(m.value.description)
  {
    var m := Search(line, SlashOrDash, Grouped);
    var m := if m.Some? then m else Search(line, SpacedMonth, Grouped);
    match m
    case None => None
    case Some(g) =>
      AmountLexemeNonNegative(g.amount);
      Some(Transaction(0, FormatDate(g.date, today), Strip(g.description),
        ParseFloat(CleanAmount(g.amount)).value, Debit, DetectCategory(g.description), "one-time"))
  }

  /** A line in which either pattern has a match yields a transaction. */
  lemma {:induction false} TextLineFinds(today: string, line: string, p: nat, sp: Span, ds: DateSyntax)
    requires Spans(line, p, sp, ds, Grouped)
    ensures TextLine(today, line).Some?
  {
    SearchComplete(line, p, sp, ds, Grouped);
  }

  function TextParse(today: string): (nat, string) -> Option<Transaction> {
    (i: nat, line: string) => TextLine(today, line)
  }

  /** `_parse_text` */
  method ParseText(text: string, today: string) returns (ts: seq<Transaction>)
    ensures ts == Gather(SplitBy(text, {'\n'}), TextParse(today))
  {
    ts := ParseLines(SplitBy(text, {'\n'}), today);
  }

  /** The line loop of `_parse_text`. */
  method ParseLines(lines: seq<string>, today: string) returns (ts: seq<Transaction>)
    ensures ts == Gather(lines, TextParse(today))
  {
    ts := [];
    for n := 0 to |lines|
      invariant ts == Gather(lines[..n], TextParse(today))
    {
      GatherPrefix(lines, n, TextParse(today));
      var t := TextLine(today, lines[n]);
      if t.Some? {
        ts := ts + [t.value];
      }
    }
    assert lines[..|lines|] == lines;
  }

  // ---------------------------------------------------------------------
  // _deduplicate_transactions
  // ---------------------------------------------------------------------

  /** `(date, amount, description[:20].strip())` */
  function Key(t: Transaction): (string, real, string) {
    (t.date, t.amount, Strip(Take(t.description, 20)))
  }

  /** `_deduplicate_transactions`: the first transaction of each key, in
      order and otherwise untouched. */
  method Deduplicate(ts: seq<Transaction>) returns (unique: seq<Transaction>)
    ensures unique == FirstByKey(ts, Key)
  {
    var seen: set<(string, real, string)> := {};
    unique := [];
    for i := 0 to |ts|
      invariant unique == FirstByKey(ts[..i], Key)
      invariant seen == KeysOf(unique, Key)
    {
      var key := Key(ts[i]);
      assert ts[..i + 1][..i] == ts[..i];
      if key !in seen {
        seen := seen + {key};
        KeysOfSnoc(unique, ts[i], Key);
        unique := unique + [ts[i]];
      }
    }
    assert ts[..|ts|] == ts;
  }

  /** The key strips the description: padding around it does not make a
      second transaction. */
  lemma {:induction false} KeyIgnoresPadding(t: Transaction)
    requires t.description == "Rent"
    ensures Key(t.(description := " Rent ")) == Key(t)
  {
    assert Take(" Rent ", 20) == " Rent ";
    assert Take("Rent", 20) == "Rent";
    StripPaddedRent();
    StripUnpadded("Rent");
  }

  lemma {:induction false} StripPaddedRent()
    ensures Strip(" Rent ") == "Rent"
  {
    var padded := " Rent ";
    assert padded[1..] == "Rent ";
    assert TrimLeft(padded) == "Rent ";
    assert "Rent "[..4] == "Rent";
    assert TrimRight("Rent ") == "Rent";
  }

  /** One transaction per key survives, each one of the input's, and a
      second pass changes nothing. */
  lemma {:induction false} DeduplicateProperties(ts: seq<Transaction>)
    ensures KeysOf(FirstByKey(ts, Key), Key) == KeysOf(ts, Key)
    ensures DistinctKeys(FirstByKey(ts, Key), Key)
    ensures forall t :: t in FirstByKey(ts, Key) ==> t in ts
    ensures FirstByKey(FirstByKey(ts, Key), Key) == FirstByKey(ts, Key)
  {
    FirstByKeyKeys(ts, Key);
    FirstByKeyDistinct(ts, Key);
    FirstByKeySubset(ts, Key);
    FirstByKeyIdempotent(ts, Key);
  }

  // ---------------------------------------------------------------------
  // IndianBankParser.parse and the factory
  // ---------------------------------------------------------------------

  /** What `parse` de-duplicates: the rows of every table, or, when they give
      nothing, the text lines. */
  function Candidates(text: string, tables: seq<seq<seq<string>>>, today: string): seq<Transaction> {
    var fromTables := Gather(Concat(tables), TableParse(today));
    if fromTables == [] then Gather(SplitBy(text, {'\n'}), TextParse(today)) else fromTables
  }

  /** `IndianBankParser.parse` (no tables and `None` are the same here). */
  method IndianBankParse(text: string, tables: seq<seq<seq<string>>>, today: string) returns (result: seq<Transaction>)
    ensures result == FirstByKey(Candidates(text, tables, today), Key)
  {
    var transactions: seq<Transaction> := [];
    if |tables| > 0 {
      for k := 0 to |tables|
        invariant transactions == Gather(Concat(tables[..k]), TableParse(today))
      {
        var tableTransactions := ParseTable(tables[k], today);
        GatherConcatNext(tables, k, TableParse(today));
        transactions := transactions + tableTransactions;
      }
      assert tables[..|tables|] == tables;
    }
    if transactions == [] {
      transactions := ParseText(text, today);
    }
    result := Deduplicate(transactions);
  }

  /** The three parsers of the factory, in its order. */
  datatype Bank = IndianBank | StateBankOfIndia | HdfcBank

  const Parsers: seq<Bank> := [IndianBank, StateBankOfIndia, HdfcBank]

  /** The phrases each `can_parse` looks for. */
  function Indicators(b: Bank): seq<string> {
    match b
    case IndianBank => ["indian bank", "INDIAN BANK", "Indian Bank Ltd", "Account Statement", "Statement of Account"]
    case StateBankOfIndia => ["state bank of india", "STATE BANK OF INDIA", "SBI", "sbi.co.in", "Corporate Internet Banking"]
    case HdfcBank => ["hdfc bank", "HDFC BANK", "hdfcbank.com", "HDFC Bank Limited"]
  }

  /** `can_parse`: one of the phrases occurs in the text, letter case included. */
  predicate CanParse(b: Bank, text: string) {
    ContainsAny(text, Indicators(b))
  }

  /** `get_parser`: the first parser that can parse the text, and the
      Indian Bank parser when none can. */
  method GetParser(text: string) returns (b: Bank)
    ensures CanParse(IndianBank, text) ==> b == IndianBank
    ensures !CanParse(IndianBank, text) && CanParse(StateBankOfIndia, text) ==> b == StateBankOfIndia
    ensures !CanParse(IndianBank, text) && !CanParse(StateBankOfIndia, text) && CanParse(HdfcBank, text) ==> b == HdfcBank
    ensures !CanParse(IndianBank, text) && !CanParse(StateBankOfIndia, text) && !CanParse(HdfcBank, text) ==> b == IndianBank
  {
    assert Parsers[0] == IndianBank && Parsers[1] == StateBankOfIndia && Parsers[2] == HdfcBank;
    for k := 0 to |Parsers|
      invariant forall j :: 0 <= j < k ==> !CanParse(Parsers[j], text)
    {
      if CanParse(Parsers[k], text) {
        return Parsers[k];
      }
    }
    return Parsers[0];
  }

  /** What `parse_statement` returns for a statement's text and tables. */
  function Statement(text: string, tables: seq<seq<seq<string>>>, today: string): seq<Transaction> {
    if CanParse(IndianBank, text) || !(CanParse(StateBankOfIndia, text) || CanParse(HdfcBank, text))
    then FirstByKey(Candidates(text, tables, today), Key)
    else []
  }

  /** `parse_statement`: the chosen parser's `parse`; the State Bank of India
      and HDFC parsers return nothing yet. */
  method ParseStatement(text: string, tables: seq<seq<seq<string>>>, today: string) returns (result: seq<Transaction>)
    ensures CanParse(IndianBank, text) || !(CanParse(StateBankOfIndia, text) || CanParse(HdfcBank, text))
      ==> result == FirstByKey(Candidates(text, tables, today), Key)
    ensures !CanParse(IndianBank, text) && (CanParse(StateBankOfIndia, text) || CanParse(HdfcBank, text))
      ==> result == []
    ensures result == Statement(text, tables, today)
  {
    var parser := GetParser(text);
    match parser
    case IndianBank => result := IndianBankParse(text, tables, today);
    case StateBankOfIndia => result := [];
    case HdfcBank => result := [];
  }

  /** The generic statement headings belong to the Indian Bank parser, so
      any statement that carries them is parsed as an Indian Bank one. */
  lemma {:induction false} StatementHeadingMeansIndianBank(text: string)
    requires Contains(text, "Account Statement") || Contains(text, "Statement of Account")
    ensures CanParse(IndianBank, text)
  {
    if Contains(text, "Account Statement") {
      assert Indicators(IndianBank)[3] == "Account Statement";
    } else {
      assert Indicators(IndianBank)[4] == "Statement of Account";
    }
  }
}
