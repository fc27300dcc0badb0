/** backend/app.py: the upload service's own helpers.  They accept a file
    name, read an Indian Bank statement page by page (table rows, then the
    page's text lines while nothing has been found), normalise the
    dictionaries into numbered transactions and mark the recurring ones. */
module App {
  import opened Text
  import opened Numbers
  import opened Patterns
  import Cells
  import BankParsers
  import opened Ledger
  import opened Gathering

  // ---------------------------------------------------------------------
  // allowed_file
  // ---------------------------------------------------------------------

  const AllowedExtensions: set<string> := {"pdf", "xls", "xlsx"}

  /** Position of the last `.` of `s`. */
  function LastDot(s: string): (r: Option<nat>)
    ensures r.Some? ==> r.value < |s| && s[r.value] == '.' && '.' !in s[r.value + 1..]
    ensures r.None? ==> '.' !in s
  {
    if s == [] then None
    else if s[|s| - 1] == '.' then Some(|s| - 1)
    else
      var r := LastDot(s[..|s| - 1]);
      assert s == s[..|s| - 1] + [s[|s| - 1]];
      if r.Some? then assert s[r.value + 1..] == s[..|s| - 1][r.value + 1..] + [s[|s| - 1]]; r
      else r
  }

  /** `"." in filename and filename.rsplit(".", 1)[1].lower() in ALLOWED_EXTENSIONS` */
  function AllowedFile(filename: string): (ok: bool)
    ensures ok ==> '.' in filename
  {
    match LastDot(filename)
    case None => false
    case Some(i) => Lower(filename[i + 1..]) in AllowedExtensions
  }

  /** The extension is what follows the last dot, in any letter case. */
  lemma {:induction false} AllowedFileExtension(stem: string, ext: string)
    requires '.' !in ext
    ensures AllowedFile(stem + "." + ext) <==> Lower(ext) in AllowedExtensions
  {
    LastDotAfter(stem, ext);
    assert (stem + "." + ext)[|stem| + 1..] == ext;
  }

  lemma {:induction false} LastDotAfter(stem: string, ext: string)
    requires '.' !in ext
    ensures LastDot(stem + "." + ext) == Some(|stem|)
  {
    var s := stem + "." + ext;
    if ext != [] {
      var init := ext[..|ext| - 1];
      assert s[..|s| - 1] == stem + "." + init;
      assert s[|s| - 1] == ext[|ext| - 1];
      LastDotAfter(stem, init);
    }
  }

  // ---------------------------------------------------------------------
  // format_date
  // ---------------------------------------------------------------------

  /** `format_date`: split on `/` when there is one, on `-` otherwise; three
      parts become year, zero-padded month and day (`20` before a two-digit
      year), anything else is returned as it came. */
  function FormatDate(dateStr: string): string {
    var parts := SplitBy(dateStr, if '/' in dateStr then {'/'} else {'-'});
    if |parts| == 3 then
      var year := if |parts[2]| == 2 then "20" + parts[2] else parts[2];
      year + "-" + ZFill(parts[1], 2) + "-" + ZFill(parts[0], 2)
    else dateStr
  }

  /** A day-first date becomes `YYYY-MM-DD`, as in backend/test_app.py. */
  lemma {:induction false} FormatDayFirst(d: string, m: string, y: string, sep: char)
    requires Cells.DayFirstFields(d, m, y, sep)
    ensures FormatDate(d + [sep] + m + [sep] + y) == Cells.IsoOf(d, m, y)
  {
    Cells.SplitThree(d, m, y, sep);
  }

  /** Where the split gives three parts, this formatter and the day-first
      branch of backend/test_app.py agree; where it does not, this one
      returns the input and that one today's date. */
  lemma {:induction false} FormatDateAgrees(s: string, today: string)
    ensures |SplitBy(s, if '/' in s then {'/'} else {'-'})| == 3 ==> FormatDate(s) == Cells.DayFirst(s, today)
    ensures |SplitBy(s, if '/' in s then {'/'} else {'-'})| != 3 ==> FormatDate(s) == s && Cells.DayFirst(s, today) == today
  {
  }

  /** Text without a separator comes back unchanged. */
  lemma {:induction false} FormatDateKeeps(s: string)
    requires '/' !in s && '-' !in s
    ensures FormatDate(s) == s
  {
    SplitNone(s, {'-'});
  }

  /** A cell holding a date and a time (`15/01/2024 10:30`) passes the
      row's date test, and the year part swallows the time:
      `2024 10:30-01-15`. */
  lemma {:induction false} TimeSwallowedByYear(d: string, m: string, y: string, clock: string)
    requires Cells.DayFirstFields(d, m, y, '/') && |y| == 4 && '/' !in clock
    ensures FormatDate(d + "/" + m + "/" + y + " " + clock) == y + " " + clock + "-" + ZFill(m, 2) + "-" + ZFill(d, 2)
  {
    var s := d + "/" + m + "/" + y + " " + clock;
    var tail := y + " " + clock;
    assert s == d + ['/'] + m + ['/'] + tail;
    assert '/' !in tail by {
      forall i | 0 <= i < |tail| ensures tail[i] != '/' {
        if i < |y| { assert tail[i] == y[i]; }
        else if i > |y| { assert tail[i] == clock[i - |y| - 1]; }
      }
    }
    SlashFields(d, m, tail);
    assert s[|d|] == '/';
  }

  lemma {:induction false} SlashFields(d: string, m: string, tail: string)
    requires AllDigits(d) && AllDigits(m) && '/' !in tail
    ensures SplitBy(d + ['/'] + m + ['/'] + tail, {'/'}) == [d, m, tail]
  {
    assert d + ['/'] + m + ['/'] + tail == d + ['/'] + (m + ['/'] + tail);
    assert forall i :: 0 <= i < |d| ==> d[i] !in {'/'} by {
      forall i | 0 <= i < |d| ensures d[i] !in {'/'} { assert IsDigit(d[i]); }
    }
    assert forall i :: 0 <= i < |m| ==> m[i] !in {'/'} by {
      forall i | 0 <= i < |m| ensures m[i] !in {'/'} { assert IsDigit(m[i]); }
    }
    SplitCons(d, '/', m + ['/'] + tail, {'/'});
    SplitCons(m, '/', tail, {'/'});
    SplitNone(tail, {'/'});
  }

  // ---------------------------------------------------------------------
  // detect_category
  // ---------------------------------------------------------------------

  /** `detect_category`: five keyword groups tried in order on the
      lower-cased description. */
  function DetectCategory(description: string): (r: string)
    ensures r in {"Digital Payment", "Cash Withdrawal", "Salary", "Food & Dining", "Fuel", "Others"}
  {
    var d := Lower(description);
    if ContainsAny(d, ["upi", "gpay", "paytm", "phonepe"]) then "Digital Payment"
    else if ContainsAny(d, ["atm", "cash"]) then "Cash Withdrawal"
    else if ContainsAny(d, ["salary", "sal"]) then "Salary"
    else if ContainsAny(d, ["food", "restaurant", "hotel"]) then "Food & Dining"
    else if ContainsAny(d, ["fuel", "petrol", "diesel"]) then "Fuel"
    else "Others"
  }

  /** The category does not depend on letter case. */
  lemma {:induction false} DetectCategoryCaseless(description: string)
    ensures DetectCategory(Lower(description)) == DetectCategory(description)
  {
    LowerIdempotent(description);
  }

  /** `'salary'` is a redundant keyword: the Salary group is decided by
      `'sal'` alone. */
  lemma {:induction false} SalaryKeywordRedundant(description: string)
    ensures ContainsAny(Lower(description), ["salary", "sal"]) <==> Contains(Lower(description), "sal")
  {
    var d := Lower(description);
    if Contains(d, "salary") { ContainsPrefix(d, "salary", 3); assert "salary"[..3] == "sal"; }
    Cells.ContainsAnyPair(d, "salary", "sal");
  }

  // ---------------------------------------------------------------------
  // The transaction dictionaries
  // ---------------------------------------------------------------------

  /** A transaction dictionary before normalisation; a key it lacks is `None`. */
  datatype Entry = Entry(
    date: Option<string>,
    description: Option<string>,
    amount: Option<real>,
    kind: Option<Direction>,
    frequency: Option<string>)

  /** `d.get(key, default)` */
  function Or<T>(o: Option<T>, default: T): (r: T)
    ensures o.Some? ==> r == o.value
    ensures o.None? ==> r == default
  {
    if o.Some? then o.value else default
  }

  /** A dictionary with every key the row and text readers set. */
  function Parsed(date: string, description: string, amount: real, kind: Direction): Entry {
    Entry(Some(date), Some(description), Some(amount), Some(kind), Some("one-time"))
  }

  // ---------------------------------------------------------------------
  // parse_indian_bank_row
  // ---------------------------------------------------------------------

  /** `re.match(r'^\d+\.?\d*$', cell)` on a stripped cell. */
  predicate PlainNumber(cell: string) {
    AmountLexeme(cell, Plain)
  }

  /** `float()` of a plain number succeeds and is not negative. */
  lemma {:induction false} PlainNumberFloat(t: string)
    requires PlainNumber(t)
    ensures ParseFloat(t).Some? && ParseFloat(t).value >= 0.0
  {
    AmountLexemeNonNegative(t);
    LexemeUnpadded(t, Plain);
    PlainNoNoise(t);
  }

  /** `float(cell)` of a plain-number cell. */
  function NumberValue(t: string): (v: real)
    requires PlainNumber(t)
    ensures ParseFloat(t) == Some(v) && v >= 0.0
  {
    PlainNumberFloat(t);
    ParseFloat(t).value
  }

  /** A plain number is digits and a point: nothing for the cleaner to drop. */
  lemma {:induction false} PlainNoNoise(t: string)
    requires AmountLexeme(t, Plain)
    ensures RemoveChars(t, IsAmountNoise) == t
  {
    var p := IndexOfAny(t, {'.'});
    forall i | 0 <= i < |t| ensures !IsAmountNoise(t[i]) {
      if i > p { assert t[i] == t[p + 1..][i - p - 1]; }
    }
  }

  /** The first cell at or after `i` that starts with a numeric date. */
  function DateCell(c: seq<string>, i: nat): (r: Option<nat>)
    requires i <= |c|
    ensures r.Some? ==> i <= r.value < |c| && DmyPrefix(c[r.value]).Some?
    ensures r.Some? ==> forall j :: i <= j < r.value ==> DmyPrefix(c[j]).None?
    ensures r.None? ==> forall j :: i <= j < |c| ==> DmyPrefix(c[j]).None?
  {
    FirstFrom(c, i, DatePrefixed)
  }

  /** A cell the date pattern matches at its start. */
  predicate DatePrefixed(cell: string) {
    DmyPrefix(cell).Some?
  }

  /** A non-empty cell that is not a plain number. */
  predicate DescriptionCell(cell: string) {
    cell != [] && !PlainNumber(cell)
  }

  /** The first non-empty cell at or after `i` that is not a plain number,
      or `''`. */
  function DescriptionAfter(c: seq<string>, i: nat): (r: string)
    requires i <= |c|
    ensures r == [] || exists j :: i <= j < |c| && r == c[j] && DescriptionCell(c[j])
                                    && forall k :: i <= k < j ==> !DescriptionCell(c[k])
    ensures (exists j :: i <= j < |c| && DescriptionCell(c[j])) ==> r != []
  {
    match FirstFrom(c, i, DescriptionCell)
    case None => []
    case Some(j) => c[j]
  }

  /** The last plain-number cell before `n`: the right-to-left scan stops
      at it. */
  function LastNumber(c: seq<string>, n: nat): (r: Option<nat>)
    requires n <= |c|
    ensures r.Some? ==> r.value < n && PlainNumber(c[r.value])
    ensures r.Some? ==> forall j :: r.value < j < n ==> !PlainNumber(c[j])
    ensures r.None? ==> forall j :: 0 <= j < n ==> !PlainNumber(c[j])
  {
    if n == 0 then None
    else if PlainNumber(c[n - 1]) then Some(n - 1)
    else LastNumber(c, n - 1)
  }

  /** `parse_indian_bank_row` on the stripped cells. */
  function IndianRow(row: seq<string>): (r: Option<Entry>)
    ensures r.Some? ==> r.value.amount.Some? && r.value.amount.value >= 0.0
    ensures r.Some? ==> r.value.frequency == Some("one-time") && r.value.kind.Some?
  {
    var c := BankParsers.StripRow(row);
    match DateCell(c, 0)
    case None => None
    case Some(d) => Some(DatedEntry(c, d))
  }

  /** A row none of whose cells starts with a date is no transaction. */
  lemma {:induction false} UndatedRowSkipped(row: seq<string>)
    requires forall i :: 0 <= i < |row| ==> DmyPrefix(Strip(row[i])).None?
    ensures IndianRow(row).None?
  {
    var c := BankParsers.StripRow(row);
    forall j | 0 <= j < |c| ensures !DatePrefixed(c[j]) {
      assert c[j] == Strip(row[j]);
    }
    FirstFromNone(c, 0, DatePrefixed);
  }

  /** A row whose first date-prefixed cell is `i` is the transaction dated by that cell. */
  lemma {:induction false} DatedRowKept(row: seq<string>, i: nat)
    requires i < |row| && DmyPrefix(Strip(row[i])).Some?
    requires forall j :: 0 <= j < i ==> DmyPrefix(Strip(row[j])).None?
    ensures IndianRow(row) == Some(DatedEntry(BankParsers.StripRow(row), i))
  {
    var c := BankParsers.StripRow(row);
    assert c[i] == Strip(row[i]);
    assert forall j :: 0 <= j < i ==> c[j] == Strip(row[j]);
    DateCellAt(c, i);
    IndianRowDated(row, i);
  }

  /** The date cell is the first cell the date pattern starts. */
  lemma {:induction false} DateCellAt(c: seq<string>, i: nat)
    requires i < |c| && DmyPrefix(c[i]).Some?
    requires forall j :: 0 <= j < i ==> DmyPrefix(c[j]).None?
    ensures DateCell(c, 0) == Some(i)
  {
  }

  lemma {:induction false} IndianRowDated(row: seq<string>, i: nat)
    requires DateCell(BankParsers.StripRow(row), 0) == Some(i)
    ensures IndianRow(row) == Some(DatedEntry(BankParsers.StripRow(row), i))
  {
  }

  /** The transaction of a row whose date is in cell `d`. */
  function DatedEntry(c: seq<string>, d: nat): (e: Entry)
    requires d < |c|
    ensures e.amount.Some? && e.amount.value >= 0.0
    ensures e.frequency == Some("one-time") && e.kind.Some?
  {
    Parsed(FormatDate(c[d]), DescriptionAfter(c, d + 1), RightmostAmount(c), RightmostKind(c))
  }

  /** The value of the rightmost plain number, or 0 when there is none. */
  function RightmostAmount(c: seq<string>): (v: real)
    ensures v >= 0.0
  {
    match LastNumber(c, |c|)
    case None => 0.0
    case Some(k) => NumberValue(c[k])
  }

  /** Credit when the rightmost plain number is in the last cell, debit
      otherwise (and when there is none). */
  function RightmostKind(c: seq<string>): Direction {
    if LastNumber(c, |c|) == Some(|c| - 1) then Credit else Debit
  }

  /** `parse_indian_bank_row`: the date scan, the description scan after it
      and the amount scan from the right. */
  method ParseIndianBankRow(row: seq<string>) returns (r: Option<Entry>)
    ensures r == IndianRow(row)
  {
    var c := BankParsers.StripRow(row);
    var dateIdx := FindDateCell(c);
    if dateIdx.None? {
      return None;
    }
    var entry := BuildEntry(c, dateIdx.value);
    r := Some(entry);
  }

  /** The description and amount scans once the date cell `d` is found. */
  method BuildEntry(c: seq<string>, d: nat) returns (e: Entry)
    requires d < |c|
    ensures e == DatedEntry(c, d)
  {
    var description := FindDescription(c, d + 1);
    var amountIdx := FindLastNumber(c);
    var amount, kind := 0.0, Debit;
    if amountIdx.Some? {
      var k := amountIdx.value;
      amount := NumberValue(c[k]);
      if k == |c| - 1 {
        kind := Credit;
      }
    }
    e := Parsed(FormatDate(c[d]), description, amount, kind);
  }

  /** The date loop: the first cell the date pattern matches at its start. */
  method FindDateCell(c: seq<string>) returns (r: Option<nat>)
    ensures r == DateCell(c, 0)
  {
    for i := 0 to |c|
      invariant DateCell(c, 0) == DateCell(c, i)
    {
      FirstFromStep(c, i, DatePrefixed);
      if DatePrefixed(c[i]) {
        return Some(i);
      }
    }
    return None;
  }

  /** The description loop over `range(date_idx + 1, len(clean_row))`. */
  method FindDescription(c: seq<string>, start: nat) returns (description: string)
    requires start <= |c|
    ensures description == DescriptionAfter(c, start)
  {
    for i := start to |c|
      invariant FirstFrom(c, start, DescriptionCell) == FirstFrom(c, i, DescriptionCell)
    {
      FirstFromStep(c, i, DescriptionCell);
      if DescriptionCell(c[i]) {
        return c[i];
      }
    }
    return "";
  }

  /** The amount loop over `range(len(clean_row) - 1, -1, -1)`. */
  method FindLastNumber(c: seq<string>) returns (r: Option<nat>)
    ensures r == LastNumber(c, |c|)
  {
    var i := |c|;
    while i > 0
      invariant 0 <= i <= |c|
      invariant LastNumber(c, |c|) == LastNumber(c, i)
    {
      if c[i - 1] != [] && PlainNumber(c[i - 1]) {
        return Some(i - 1);
      }
      i := i - 1;
    }
    return None;
  }

  /** The rightmost number is the amount and is a credit only in the last
      column: in a `Date | Particulars | Withdrawal | Deposit | Balance`
      row the running balance is read as a credit of that amount. */
  lemma {:induction false} LastColumnCredit(c: seq<string>, d: nat)
    requires d < |c| && PlainNumber(c[|c| - 1])
    ensures DatedEntry(c, d).kind == Some(Credit)
    ensures DatedEntry(c, d).amount == ParseFloat(c[|c| - 1])
  {
    LastCellRightmost(c);
  }

  lemma {:induction false} LastCellRightmost(c: seq<string>)
    requires |c| > 0 && PlainNumber(c[|c| - 1])
    ensures RightmostKind(c) == Credit
    ensures Some(RightmostAmount(c)) == ParseFloat(c[|c| - 1])
  {
    var k := |c| - 1;
    var v := NumberValue(c[k]);
    assert LastNumber(c, |c|) == Some(k);
    assert RightmostAmount(c) == v;
  }

  /** A dated row without any number is still a transaction, of amount 0. */
  lemma {:induction false} NoNumberZeroDebit(c: seq<string>, d: nat)
    requires d < |c|
    requires forall i :: 0 <= i < |c| ==> !PlainNumber(c[i])
    ensures DatedEntry(c, d).amount == Some(0.0) && DatedEntry(c, d).kind == Some(Debit)
  {
    assert LastNumber(c, |c|) == None;
  }

  // ---------------------------------------------------------------------
  // extract_from_text_patterns
  // ---------------------------------------------------------------------

  /** One line: the leftmost match of date, description and plain amount. */
  function TextLine(line: string): (r: Option<Entry>)
    ensures r.Some? ==>
      r.value.kind == Some(Debit) && r.value.frequency == Some("one-time")
      && r.value.amount.Some? && r.value.amount.value >= 0.0
      && r.value.description.Some? && '\n' !in r.value.description.value
    ensures r.Some? <==> Search(line, SlashOrDash, Plain).Some?
  {
    match Search(line, SlashOrDash, Plain)
    case None => None
    case Some(g) =>
      PlainNumberFloat(g.amount);
      StripKeepsOut(g.description, '\n');
      Some(Parsed(FormatDate(g.date), Strip(g.description), ParseFloat(g.amount).value, Debit))
  }

  function TextParse(): (nat, string) -> Option<Entry> {
    (i: nat, line: string) => TextLine(line)
  }

  /** The transactions of a page's text, one per matching line. */
  function TextEntries(text: string): seq<Entry> {
    Gather(SplitBy(text, {'\n'}), TextParse())
  }

  /** `extract_from_text_patterns` */
  method ExtractFromTextPatterns(text: string) returns (entries: seq<Entry>)
    ensures entries == TextEntries(text)
  {
    entries := ExtractFromLines(SplitBy(text, {'\n'}));
  }

  /** The line loop of `extract_from_text_patterns`. */
  method ExtractFromLines(lines: seq<string>) returns (entries: seq<Entry>)
    ensures entries == Gather(lines, TextParse())
  {
    entries := [];
    for n := 0 to |lines|
      invariant entries == Gather(lines[..n], TextParse())
    {
      GatherPrefix(lines, n, TextParse());
      var m := TextLine(lines[n]);
      if m.Some? {
        entries := entries + [m.value];
      }
    }
    assert lines[..|lines|] == lines;
  }

  /** Every line-found entry is a one-time debit. */
  lemma {:induction false} TextEntriesDebits(text: string)
    ensures forall e :: e in TextEntries(text) ==> e.kind == Some(Debit) && e.frequency == Some("one-time")
  {
    var lines := SplitBy(text, {'\n'});
    GatherSound(lines, TextParse());
    forall e | e in TextEntries(text) ensures e.kind == Some(Debit) && e.frequency == Some("one-time") {
      var k :| 0 <= k < |TextEntries(text)| && TextEntries(text)[k] == e;
      var i :| 0 <= i < |lines| && TextParse()(i, lines[i]) == Some(e);
    }
  }

  // ---------------------------------------------------------------------
  // extract_pdf_basic
  // ---------------------------------------------------------------------

  type Table = seq<seq<string>>

  /** What pdfplumber gives for one page: its text and its tables. */
  datatype Page = Page(text: string, tables: seq<Table>)

  /** The header test: the first cell contains one of the words, letter case included. */
  predicate BasicHeader(first: string) {
    ContainsAny(first, ["Date", "Particulars", "S.No", "Sr.No"])
  }

  /** A table row: rows of fewer than four cells and header rows are skipped. */
  function BasicRow(row: seq<string>): (r: Option<Entry>)
    ensures r.Some? ==> |row| >= 4 && !BasicHeader(row[0]) && r == IndianRow(row)
  {
    if |row| < 4 || BasicHeader(row[0]) then None else IndianRow(row)
  }

  function BasicParse(): (nat, seq<string>) -> Option<Entry> {
    (i: nat, row: seq<string>) => BasicRow(row)
  }

  /** One page on top of what the earlier pages gave: a page without text
      is skipped whole; otherwise its table rows are appended, and when the
      list is still empty the page's text lines are tried. */
  function PageStep(before: seq<Entry>, page: Page): (r: seq<Entry>)
    ensures before <= r
    ensures page.text == [] ==> r == before
  {
    if page.text == [] then before
    else
      var withRows := before + Gather(Concat(page.tables), BasicParse());
      if withRows == [] then TextEntries(page.text) else withRows
  }

  /** `extract_pdf_basic` over the pages, in order. */
  function BasicPages(pages: seq<Page>): seq<Entry> {
    if pages == [] then []
    else PageStep(BasicPages(pages[..|pages| - 1]), pages[|pages| - 1])
  }

  /** Later pages only add entries: what the first `k` pages gave is a
      prefix of what all of them give. */
  lemma {:induction false} BasicPagesGrow(pages: seq<Page>, k: nat)
    requires k <= |pages|
    ensures BasicPages(pages[..k]) <= BasicPages(pages)
    decreases |pages|
  {
    if k < |pages| {
      var init := pages[..|pages| - 1];
      assert init[..k] == pages[..k];
      BasicPagesGrow(init, k);
    } else {
      assert pages[..k] == pages;
    }
  }

  /** The page loop of `extract_pdf_basic`. */
  method ExtractPdfBasic(pages: seq<Page>) returns (entries: seq<Entry>)
    ensures entries == BasicPages(pages)
  {
    entries := [];
    for p := 0 to |pages|
      invariant entries == BasicPages(pages[..p])
    {
      assert pages[..p + 1][..p] == pages[..p];
      var page := pages[p];
      if page.text == [] {
        continue;
      }
      entries := AppendTableRows(entries, page.tables);
      if entries == [] {
        var textEntries := ExtractFromTextPatterns(page.text);
        entries := entries + textEntries;
      }
    }
    assert pages[..|pages|] == pages;
  }
  /** The text `extract_pdf_with_smart_parser` pools: the text of each page
      that has any, each followed by a newline. */
  function PooledText(pages: seq<Page>): (r: string)
    ensures r == [] || r[|r| - 1] == '\n'
  {
    if pages == [] then []
    else
      var last := pages[|pages| - 1];
      PooledText(pages[..|pages| - 1]) + (if last.text != [] then last.text + "\n" else [])
  }

  /** The tables it pools: every page's tables, in page order. */
  function PooledTables(pages: seq<Page>): seq<Table> {
    if pages == [] then [] else PooledTables(pages[..|pages| - 1]) + pages[|pages| - 1].tables
  }

  /** The pooled text is empty exactly when no page has text. */
  lemma {:induction false} PooledTextEmpty(pages: seq<Page>)
    ensures PooledText(pages) == [] <==> forall i :: 0 <= i < |pages| ==> pages[i].text == []
    decreases |pages|
  {
    if pages != [] {
      var init := pages[..|pages| - 1];
      PooledTextEmpty(init);
      assert forall i :: 0 <= i < |init| ==> init[i] == pages[i];
    }
  }

  /** The pooled tables are exactly the pages' tables: each one of a page is
      pooled, and each pooled one comes from a page. */
  lemma {:induction false} PooledTablesFromPages(pages: seq<Page>)
    ensures forall i, t :: 0 <= i < |pages| && t in pages[i].tables ==> t in PooledTables(pages)
    ensures forall t :: t in PooledTables(pages) ==> exists i :: 0 <= i < |pages| && t in pages[i].tables
    decreases |pages|
  {
    if pages != [] {
      var init := pages[..|pages| - 1];
      PooledTablesFromPages(init);
      assert forall i :: 0 <= i < |init| ==> init[i] == pages[i];
    }
  }

  /** `extract_pdf_with_smart_parser` once the pages are read: the text and
      tables of all pages go to the bank-parser factory together. */
  method ExtractPdfSmart(pages: seq<Page>, today: string) returns (result: seq<Transaction>)
    ensures result == BankParsers.Statement(PooledText(pages), PooledTables(pages), today)
  {
    var allText: string := [];
    var allTables: seq<Table> := [];
    for p := 0 to |pages|
      invariant allText == PooledText(pages[..p])
      invariant allTables == PooledTables(pages[..p])
    {
      assert pages[..p + 1][..p] == pages[..p];
      var page := pages[p];
      if page.text != [] {
        allText := allText + page.text + "\n";
      }
      allTables := allTables + page.tables;
    }
    assert pages[..|pages|] == pages;
    result := BankParsers.ParseStatement(allText, allTables, today);
  }


  /** The table loop of `extract_pdf_basic` for one page. */
  method AppendTableRows(before: seq<Entry>, tables: seq<Table>) returns (entries: seq<Entry>)
    ensures entries == before + Gather(Concat(tables), BasicParse())
  {
    entries := before;
    for t := 0 to |tables|
      invariant entries == before + Gather(Concat(tables[..t]), BasicParse())
    {
      entries := AppendRows(entries, tables[t]);
      BasicTablesNext(tables, t);
      ExtendStep(before, Gather(Concat(tables[..t]), BasicParse()), Gather(tables[t], BasicParse()),
        Gather(Concat(tables[..t + 1]), BasicParse()));
    }
    assert tables[..|tables|] == tables;
  }

  lemma {:induction false} ExtendStep<T>(before: seq<T>, a: seq<T>, b: seq<T>, ab: seq<T>)
    requires ab == a + b
    ensures before + a + b == before + ab
  {
  }

  lemma {:induction false} BasicTablesNext(tables: seq<Table>, t: nat)
    requires t < |tables|
    ensures Gather(Concat(tables[..t + 1]), BasicParse())
      == Gather(Concat(tables[..t]), BasicParse()) + Gather(tables[t], BasicParse())
  {
    GatherConcatNext(tables, t, BasicParse());
  }

  /** The row loop of `extract_pdf_basic` for one table. */
  method AppendRows(before: seq<Entry>, table: Table) returns (entries: seq<Entry>)
    ensures entries == before + Gather(table, BasicParse())
  {
    entries := before;
    for r := 0 to |table|
      invariant entries == before + Gather(table[..r], BasicParse())
    {
      var row := table[r];
      GatherPrefix(table, r, BasicParse());
      assert BasicParse()(r, row) == BasicRow(row);
      if |row| >= 4 && !BasicHeader(row[0]) {
        var entry := ParseIndianBankRow(row);
        if entry.Some? {
          ExtendStep(before, Gather(table[..r], BasicParse()), [entry.value], Gather(table[..r + 1], BasicParse()));
          entries := entries + [entry.value];
        }
      }
    }
    assert table[..|table|] == table;
  }

  /** Once some page has given a transaction, the later pages' text is never
      read: the result only grows by table rows. */
  lemma {:induction false} TextOnlyWhileEmpty(pages: seq<Page>, page: Page)
    requires BasicPages(pages) != []
    ensures BasicPages(pages + [page]) == BasicPages(pages) + (if page.text == [] then [] else Gather(Concat(page.tables), BasicParse()))
  {
    assert (pages + [page])[..|pages|] == pages;
    if page.text == [] {
      assert BasicPages(pages) + [] == BasicPages(pages);
    }
  }

  // ---------------------------------------------------------------------
  // normalize_transactions
  // ---------------------------------------------------------------------

  /** The dictionary `normalize_transactions` builds for one entry. */
  function Normalized(e: Entry, id: nat): (t: Transaction)
    ensures t.id == id && t.category == DetectCategory(t.description)
  {
    var description := Or(e.description, "");
    Transaction(id, Or(e.date, ""), description, Or(e.amount, 0.0), Or(e.kind, Debit),
      DetectCategory(description), Or(e.frequency, "one-time"))
  }

  /** `normalize_transactions` */
  method NormalizeTransactions(entries: seq<Entry>) returns (normalized: seq<Transaction>)
    ensures |normalized| == |entries|
    ensures forall i :: 0 <= i < |entries| ==> normalized[i] == Normalized(entries[i], i + 1)
  {
    normalized := [];
    for i := 0 to |entries|
      invariant |normalized| == i
      invariant forall j :: 0 <= j < i ==> normalized[j] == Normalized(entries[j], j + 1)
    {
      var trans := entries[i];
      var description := Or(trans.description, "");
      var t := Transaction(|normalized| + 1, Or(trans.date, ""), description, Or(trans.amount, 0.0),
        Or(trans.kind, Debit), DetectCategory(description), Or(trans.frequency, "one-time"));
      normalized := normalized + [t];
    }
  }

  /** A missing key gets its default: no date or description is `''`, no
      amount `0`, no type a debit, no frequency one-time; a present key is
      kept. */
  lemma {:induction false} NormalizedDefaults(e: Entry, id: nat)
    ensures Normalized(e, id).date == (if e.date.Some? then e.date.value else "")
    ensures Normalized(e, id).description == (if e.description.Some? then e.description.value else "")
    ensures Normalized(e, id).amount == (if e.amount.Some? then e.amount.value else 0.0)
    ensures Normalized(e, id).kind == (if e.kind.Some? then e.kind.value else Debit)
    ensures Normalized(e, id).frequency == (if e.frequency.Some? then e.frequency.value else "one-time")
  {
  }

  /** Normalised transactions are numbered `1..n` already: numbering them
      again changes nothing. */
  lemma {:induction false} NormalizedNumbered(entries: seq<Entry>, normalized: seq<Transaction>)
    requires |normalized| == |entries|
    requires forall i :: 0 <= i < |entries| ==> normalized[i] == Normalized(entries[i], i + 1)
    ensures Renumber(normalized) == normalized
  {
  }

  // ---------------------------------------------------------------------
  // detect_frequency
  // ---------------------------------------------------------------------

  /** `(trans['description'], trans['amount'])` */
  function FrequencyKey(t: Transaction): (string, real) {
    (t.description, t.amount)
  }

  /** The positions of the transactions with key `k`, in order: the group
      `grouped[k]` collects. */
  function Positions(ts: seq<Transaction>, k: (string, real)): (r: seq<nat>)
    ensures forall a :: 0 <= a < |r| ==> r[a] < |ts| && FrequencyKey(ts[r[a]]) == k
    ensures forall j :: 0 <= j < |ts| && FrequencyKey(ts[j]) == k ==> j in r
    ensures forall a, b :: 0 <= a < b < |r| ==> r[a] < r[b]
  {
    if ts == [] then []
    else
      var n := |ts| - 1;
      var p := Positions(ts[..n], k);
      if FrequencyKey(ts[n]) == k then p + [n] else p
  }

  /** A transaction recurs when its group holds more than one. */
  predicate Recurring(ts: seq<Transaction>, i: nat)
    requires i < |ts|
  {
    |Positions(ts, FrequencyKey(ts[i]))| > 1
  }

  function Mark(t: Transaction): Transaction {
    t.(frequency := "recurring")
  }

  /** What `detect_frequency` leaves: the recurring transactions marked,
      everything else as it was, in the same order. */
  function MarkRecurring(ts: seq<Transaction>): (r: seq<Transaction>)
    ensures |r| == |ts|
    ensures forall i :: 0 <= i < |ts| ==> r[i] == if Recurring(ts, i) then Mark(ts[i]) else ts[i]
  {
    seq(|ts|, i requires 0 <= i < |ts| => if Recurring(ts, i) then Mark(ts[i]) else ts[i])
  }

  /** `detect_frequency`: group the positions by key, then mark every
      member of each group of two or more. */
  method DetectFrequency(ts: seq<Transaction>) returns (result: seq<Transaction>)
    ensures result == MarkRecurring(ts)
  {
    var grouped := GroupByKey(ts);
    result := ts;
    var pending := grouped.Keys;
    while pending != {}
      invariant pending <= grouped.Keys
      invariant |result| == |ts|
      invariant forall j :: 0 <= j < |ts| ==>
        result[j] == if FrequencyKey(ts[j]) !in pending && Recurring(ts, j) then Mark(ts[j]) else ts[j]
      decreases pending
    {
      var key :| key in pending;
      var group := grouped[key];
      ghost var before := result;
      if |group| > 1 {
        result := MarkGroup(result, group);
      }
      forall j | 0 <= j < |ts|
        ensures result[j] == if FrequencyKey(ts[j]) !in pending - {key} && Recurring(ts, j) then Mark(ts[j]) else ts[j]
      {
        if FrequencyKey(ts[j]) == key {
          assert j in group;
        } else {
          assert j !in group;
        }
      }
      pending := pending - {key};
    }
    forall j | 0 <= j < |ts| ensures FrequencyKey(ts[j]) in grouped.Keys {
      assert j in Positions(ts, FrequencyKey(ts[j]));
    }
  }

  /** `for trans in group: trans['frequency'] = 'recurring'` */
  method MarkGroup(ts: seq<Transaction>, group: seq<nat>) returns (result: seq<Transaction>)
    requires forall g :: 0 <= g < |group| ==> group[g] < |ts|
    ensures |result| == |ts|
    ensures forall j :: 0 <= j < |ts| ==> result[j] == if j in group then Mark(ts[j]) else ts[j]
  {
    result := ts;
    for g := 0 to |group|
      invariant |result| == |ts|
      invariant forall j :: 0 <= j < |ts| ==> result[j] == if j in group[..g] then Mark(ts[j]) else ts[j]
    {
      var j := group[g];
      assert group[..g + 1] == group[..g] + [j];
      result := result[j := Mark(result[j])];
    }
    assert group[..|group|] == group;
  }

  /** The grouping loop of `detect_frequency`. */
  method GroupByKey(ts: seq<Transaction>) returns (grouped: map<(string, real), seq<nat>>)
    ensures forall k :: k in grouped ==> grouped[k] == Positions(ts, k)
    ensures forall k :: k !in grouped ==> Positions(ts, k) == []
  {
    grouped := map[];
    for i := 0 to |ts|
      invariant forall k :: k in grouped ==> grouped[k] == Positions(ts[..i], k)
      invariant forall k :: k !in grouped ==> Positions(ts[..i], k) == []
    {
      var key := FrequencyKey(ts[i]);
      assert ts[..i + 1][..i] == ts[..i];
      if key !in grouped {
        grouped := grouped[key := []];
      }
      grouped := grouped[key := grouped[key] + [i]];
    }
    assert ts[..|ts|] == ts;
  }

  /** A transaction is marked exactly when another one at a different
      position has the same description and amount. */
  lemma {:induction false} RecurringIff(ts: seq<Transaction>, i: nat)
    requires i < |ts|
    ensures Recurring(ts, i) <==> exists j :: 0 <= j < |ts| && j != i && FrequencyKey(ts[j]) == FrequencyKey(ts[i])
  {
    var p := Positions(ts, FrequencyKey(ts[i]));
    if |p| > 1 {
      var j := if p[0] == i then p[1] else p[0];
      assert j != i && FrequencyKey(ts[j]) == FrequencyKey(ts[i]);
    }
    if j :| 0 <= j < |ts| && j != i && FrequencyKey(ts[j]) == FrequencyKey(ts[i]) {
      assert i in p && j in p;
    }
  }

  /** Marking changes no key, so the groups stay the same. */
  lemma {:induction false} PositionsMarked(ts: seq<Transaction>, k: (string, real))
    ensures Positions(MarkRecurring(ts), k) == Positions(ts, k)
  {
    PositionsSameKeys(ts, MarkRecurring(ts), k);
  }

  lemma {:induction false} PositionsSameKeys(a: seq<Transaction>, b: seq<Transaction>, k: (string, real))
    requires |a| == |b|
    requires forall j :: 0 <= j < |a| ==> FrequencyKey(a[j]) == FrequencyKey(b[j])
    ensures Positions(a, k) == Positions(b, k)
  {
    if a != [] {
      var n := |a| - 1;
      PositionsSameKeys(a[..n], b[..n], k);
    }
  }

  /** Running `detect_frequency` twice gives what running it once gives. */
  lemma {:induction false} DetectFrequencyIdempotent(ts: seq<Transaction>)
    ensures MarkRecurring(MarkRecurring(ts)) == MarkRecurring(ts)
  {
    var m := MarkRecurring(ts);
    forall i | 0 <= i < |ts| ensures (if Recurring(m, i) then Mark(m[i]) else m[i]) == m[i] {
      PositionsMarked(ts, FrequencyKey(ts[i]));
    }
  }
}
