/** The extraction pipeline of backend/test_app.py: the PDF table loop, the
    spreadsheet row loop, the text-line fallback and `remove_duplicates`.
    Files are not read here: a PDF is the tables `pdfplumber` found on each
    page, a spreadsheet the rows of the sheet `pandas` loaded. */
module Extraction {
  import opened Text
  import opened Numbers
  import opened Patterns
  import opened Cells
  import opened Ledger
  import opened Rows
  import opened Dedup
  import opened Gathering

  /** A table as `extract_tables` returns it: rows of cells, `None` read as `""`. */
  type Table = seq<seq<string>>

  /** One step of an extraction loop: the row's transaction, if any, is
      appended with the next id. */
  lemma {:induction false} CollectStep<T>(xs: seq<T>, n: nat, f: (nat, T) -> Option<Transaction>)
    requires n < |xs|
    ensures Renumber(Gather(xs[..n + 1], f)) ==
      if f(n, xs[n]).Some?
      then Renumber(Gather(xs[..n], f)) + [f(n, xs[n]).value.(id := |Gather(xs[..n], f)| + 1)]
      else Renumber(Gather(xs[..n], f))
  {
    assert xs[..n + 1] == xs[..n] + [xs[n]];
    CollectSnoc(xs[..n], xs[n], f);
  }

  /** The same step, with the element appended. */
  lemma {:induction false} CollectSnoc<T>(xs: seq<T>, x: T, f: (nat, T) -> Option<Transaction>)
    ensures Renumber(Gather(xs + [x], f)) ==
      if f(|xs|, x).Some?
      then Renumber(Gather(xs, f)) + [f(|xs|, x).value.(id := |Gather(xs, f)| + 1)]
      else Renumber(Gather(xs, f))
  {
    GatherSnoc(xs, x, f);
    if f(|xs|, x).Some? {
      RenumberSnoc(Gather(xs, f), f(|xs|, x).value);
    }
  }

  /** The rows of one more page. */
  lemma {:induction false} PdfRowsNext(pages: seq<seq<Table>>, p: nat)
    requires p < |pages|
    ensures PdfRows(pages[..p]) + Concat(pages[p][..|pages[p]|]) == PdfRows(pages[..p + 1])
  {
    assert pages[..p + 1][..p] == pages[..p];
    assert pages[p][..|pages[p]|] == pages[p];
  }

  // ---------------------------------------------------------------------
  // remove_duplicates
  // ---------------------------------------------------------------------

  /** `(trans['date'], trans['amount'], trans['description'][:20])` */
  function DuplicateKey(t: Transaction): (string, real, string) {
    (t.date, t.amount, Take(t.description, 20))
  }

  /** The key takes the description as it is: padding around it makes a
      different key. */
  lemma {:induction false} DuplicateKeyKeepsPadding(t: Transaction)
    requires t.description == "Rent"
    ensures DuplicateKey(t.(description := " Rent ")) != DuplicateKey(t)
  {
    assert Take(" Rent ", 20)[0] == ' ';
  }

  /** What `remove_duplicates` returns: the first transaction of each key, in
      order, numbered `1..n`. */
  function Unique(ts: seq<Transaction>): seq<Transaction> {
    Renumber(FirstByKey(ts, DuplicateKey))
  }

  /** `remove_duplicates`: one pass with a `seen` set of keys. */
  method RemoveDuplicates(ts: seq<Transaction>) returns (unique: seq<Transaction>)
    ensures unique == Unique(ts)
  {
    var seen: set<(string, real, string)> := {};
    unique := [];
    for i := 0 to |ts|
      invariant unique == Renumber(FirstByKey(ts[..i], DuplicateKey))
      invariant seen == KeysOf(FirstByKey(ts[..i], DuplicateKey), DuplicateKey)
    {
      var key := DuplicateKey(ts[i]);
      assert ts[..i + 1][..i] == ts[..i];
      ghost var p := FirstByKey(ts[..i], DuplicateKey);
      if key !in seen {
        seen := seen + {key};
        RenumberSnoc(p, ts[i]);
        KeysOfSnoc(p, ts[i], DuplicateKey);
        unique := unique + [ts[i].(id := |unique| + 1)];
      }
    }
    assert ts[..|ts|] == ts;
  }

  /** Numbering does not touch the key. */
  lemma {:induction false} RenumberKeys(ts: seq<Transaction>)
    ensures KeysOf(Renumber(ts), DuplicateKey) == KeysOf(ts, DuplicateKey)
    ensures DistinctKeys(Renumber(ts), DuplicateKey) <==> DistinctKeys(ts, DuplicateKey)
  {
    var r := Renumber(ts);
    assert forall i :: 0 <= i < |ts| ==> DuplicateKey(r[i]) == DuplicateKey(ts[i]);
  }

  /** The result has one transaction per key of the input, numbered `1..n`. */
  lemma {:induction false} UniqueKeys(ts: seq<Transaction>)
    ensures KeysOf(Unique(ts), DuplicateKey) == KeysOf(ts, DuplicateKey)
    ensures DistinctKeys(Unique(ts), DuplicateKey)
    ensures forall i :: 0 <= i < |Unique(ts)| ==> Unique(ts)[i].id == i + 1
  {
    var f := FirstByKey(ts, DuplicateKey);
    FirstByKeyKeys(ts, DuplicateKey);
    FirstByKeyDistinct(ts, DuplicateKey);
    RenumberKeys(f);
  }

  /** A transaction is kept exactly when no earlier one has its key. */
  lemma {:induction false} UniqueFirsts(ts: seq<Transaction>)
    ensures Unique(ts) == Renumber(Firsts(ts, DuplicateKey, |ts|))
  {
    FirstByKeyFirsts(ts, DuplicateKey);
  }

  /** Removing duplicates again changes nothing. */
  lemma {:induction false} UniqueIdempotent(ts: seq<Transaction>)
    ensures Unique(Unique(ts)) == Unique(ts)
  {
    var f := FirstByKey(ts, DuplicateKey);
    FirstByKeyDistinct(ts, DuplicateKey);
    RenumberKeys(f);
    FirstByKeyDistinctInput(Renumber(f), DuplicateKey);
    RenumberIdempotent(f);
  }

  // ---------------------------------------------------------------------
  // extract_transactions_from_pdf
  // ---------------------------------------------------------------------

  /** The header test of the PDF loop on the lower-cased first cell. */
  predicate PdfHeader(first: string) {
    ContainsAny(Lower(first), ["date", "particulars", "s.no", "sr.no", "transaction", "remarks"])
  }

  /** A PDF table row: skipped with fewer than three cells or as a header,
      otherwise whatever `parse_transaction_row` makes of it. */
  function PdfRow(today: string, i: nat, row: seq<string>): (r: Option<Transaction>)
    ensures r.Some? <==> |row| >= 3 && !PdfHeader(row[0]) && ParseRow(row, today).Some?
    ensures r.Some? ==> r == ParseRow(row, today)
  {
    if |row| >= 3 && !PdfHeader(row[0]) then ParseRow(row, today) else None
  }

  function PdfParse(today: string): (nat, seq<string>) -> Option<Transaction> {
    (i: nat, row: seq<string>) => PdfRow(today, i, row)
  }

  /** Every row of every table of every page, in reading order. */
  function PdfRows(pages: seq<seq<Table>>): seq<seq<string>> {
    if pages == [] then [] else PdfRows(pages[..|pages| - 1]) + Concat(pages[|pages| - 1])
  }

  /** `extract_transactions_from_pdf` over the tables of each page: the
      rows the loop keeps, numbered as appended, then de-duplicated. */
  method ExtractFromPdf(pages: seq<seq<Table>>, today: string) returns (result: seq<Transaction>)
    ensures result == Unique(Renumber(Gather(PdfRows(pages), PdfParse(today))))
  {
    var transactions: seq<Transaction> := [];
    for p := 0 to |pages|
      invariant transactions == Renumber(Gather(PdfRows(pages[..p]), PdfParse(today)))
    {
      var tables := pages[p];
      assert Concat(tables[..0]) == [];
      assert PdfRows(pages[..p]) + Concat(tables[..0]) == PdfRows(pages[..p]);
      for t := 0 to |tables|
        invariant transactions == Renumber(Gather(PdfRows(pages[..p]) + Concat(tables[..t]), PdfParse(today)))
      {
        var table := tables[t];
        assert table[..0] == [];
        assert PdfRows(pages[..p]) + Concat(tables[..t]) + table[..0] == PdfRows(pages[..p]) + Concat(tables[..t]);
        for r := 0 to |table|
          invariant transactions ==
            Renumber(Gather(PdfRows(pages[..p]) + Concat(tables[..t]) + table[..r], PdfParse(today)))
        {
          var row := table[r];
          ghost var done := PdfRows(pages[..p]) + Concat(tables[..t]);
          AppendNext(done, table, r);
          CollectSnoc(done + table[..r], row, PdfParse(today));
          assert PdfParse(today)(|done + table[..r]|, row) == PdfRow(today, |done + table[..r]|, row);
          if |row| >= 3 && !PdfHeader(row[0]) {
            var parsed := ParseRow(row, today);
            if parsed.Some? {
              transactions := transactions + [parsed.value.(id := |transactions| + 1)];
            }
          }
        }
        ConcatNext(PdfRows(pages[..p]), tables, t);
      }
      PdfRowsNext(pages, p);
    }
    assert pages[..|pages|] == pages;
    result := RemoveDuplicates(transactions);
  }

  /** `t` is what `parse_transaction_row` makes of some data row of `rows`. */
  ghost predicate FromDataRow(rows: seq<seq<string>>, today: string, t: Transaction) {
    exists i :: 0 <= i < |rows| && |rows[i]| >= 3 && !PdfHeader(rows[i][0]) && ParseRow(rows[i], today) == Some(t)
  }

  /** A kept transaction came from a data row of some table. */
  lemma {:induction false} PdfTransactionsFromRows(rows: seq<seq<string>>, today: string)
    ensures forall k :: 0 <= k < |Gather(rows, PdfParse(today))| ==>
      FromDataRow(rows, today, Gather(rows, PdfParse(today))[k])
  {
    var g := Gather(rows, PdfParse(today));
    GatherSound(rows, PdfParse(today));
    forall k | 0 <= k < |g| ensures FromDataRow(rows, today, g[k]) {
      var i :| 0 <= i < |rows| && PdfParse(today)(i, rows[i]) == Some(g[k]);
      assert PdfRow(today, i, rows[i]) == Some(g[k]);
      assert |rows[i]| >= 3 && !PdfHeader(rows[i][0]) && ParseRow(rows[i], today) == Some(g[k]);
    }
  }

  /** A data row that parses is never lost before de-duplication. */
  lemma {:induction false} PdfRowKept(rows: seq<seq<string>>, today: string, i: nat)
    requires i < |rows| && |rows[i]| >= 3 && !PdfHeader(rows[i][0]) && ParseRow(rows[i], today).Some?
    ensures ParseRow(rows[i], today).value in Gather(rows, PdfParse(today))
  {
    assert PdfParse(today)(i, rows[i]) == PdfRow(today, i, rows[i]) == ParseRow(rows[i], today);
    GatherComplete(rows, PdfParse(today), i);
  }

  // ---------------------------------------------------------------------
  // extract_transactions_from_excel
  // ---------------------------------------------------------------------

  /** The column-name test of the first row. */
  predicate SheetHeader(row: seq<string>)
    requires |row| >= 3
  {
    !IsDate(row[0])
    || (Lower(row[0]) in ["date", "transaction_date", "posting_date"]
        && Lower(row[1]) in ["description", "particulars", "reference", "remarks"]
        && Lower(row[2]) in ["amount", "debit", "credit", "withdrawal", "deposit"])
  }

  /** A sheet row: skipped with fewer than three cells, or as the header when
      it is the first row, otherwise `parse_transaction_row`. */
  function SheetRow(today: string, i: nat, row: seq<string>): (r: Option<Transaction>)
    ensures r.Some? <==> |row| >= 3 && !(i == 0 && SheetHeader(row)) && ParseRow(row, today).Some?
    ensures r.Some? ==> r == ParseRow(row, today)
  {
    if |row| >= 3 && !(i == 0 && SheetHeader(row)) then ParseRow(row, today) else None
  }

  function SheetParse(today: string): (nat, seq<string>) -> Option<Transaction> {
    (i: nat, row: seq<string>) => SheetRow(today, i, row)
  }

  /** `extract_transactions_from_excel` after loading: the row loop, then
      de-duplication. */
  method ExtractFromRows(rows: seq<seq<string>>, today: string) returns (result: seq<Transaction>)
    ensures result == Unique(Renumber(Gather(rows, SheetParse(today))))
  {
    var transactions := SheetTransactions(rows, today);
    result := RemoveDuplicates(transactions);
  }

  /** The row loop of `extract_transactions_from_excel`: the kept rows,
      numbered as appended. */
  method SheetTransactions(rows: seq<seq<string>>, today: string) returns (transactions: seq<Transaction>)
    ensures transactions == Renumber(Gather(rows, SheetParse(today)))
  {
    ghost var f := SheetParse(today);
    transactions := [];
    for n := 0 to |rows|
      invariant transactions == Renumber(Gather(rows[..n], f))
    {
      var row := rows[n];
      var parsed := ParseSheetRow(today, n, row);
      CollectStep(rows, n, f);
      assert |transactions| == |Gather(rows[..n], f)|;
      if parsed.Some? {
        transactions := transactions + [parsed.value.(id := |transactions| + 1)];
      }
    }
    assert rows[..|rows|] == rows;
  }

  /** The body of the sheet loop: the row's checks, then `parse_transaction_row`. */
  method ParseSheetRow(today: string, n: nat, row: seq<string>) returns (parsed: Option<Transaction>)
    ensures parsed == SheetParse(today)(n, row)
  {
    if |row| < 3 || (n == 0 && SheetHeader(row)) {
      return None;
    }
    parsed := ParseRow(row, today);
  }

  /** Only the first row can be taken for a header: every later row is
      treated as data as soon as it has three cells. */
  lemma {:induction false} SheetHeaderOnlyFirst(rows: seq<seq<string>>, today: string, i: nat)
    requires 0 < i < |rows| && |rows[i]| >= 3 && ParseRow(rows[i], today).Some?
    ensures ParseRow(rows[i], today).value in Gather(rows, SheetParse(today))
  {
    assert SheetParse(today)(i, rows[i]) == SheetRow(today, i, rows[i]) == ParseRow(rows[i], today);
    GatherComplete(rows, SheetParse(today), i);
  }

  /** A first row whose first cell is not a date is always dropped. */
  lemma {:induction false} SheetUndatedFirstRow(rows: seq<seq<string>>, today: string)
    requires |rows| >= 1 && |rows[0]| >= 3 && !IsDate(rows[0][0])
    ensures Gather(rows, SheetParse(today)) == Gather(rows[1..], (i: nat, row: seq<string>) => SheetRow(today, i + 1, row))
  {
    var f := SheetParse(today);
    var g := (i: nat, row: seq<string>) => SheetRow(today, i + 1, row);
    assert SheetHeader(rows[0]);
    assert f(0, rows[0]).None?;
    forall i | 0 <= i < |rows| - 1
      ensures g(i, rows[1..][i]) == f(i + 1, rows[i + 1])
    {
      assert rows[1..][i] == rows[i + 1];
    }
    GatherShift(rows, f, g);
  }

  /** A loaded sheet: its rows and the number of columns `pandas` gave it. */
  datatype Sheet = Sheet(columns: nat, rows: seq<seq<string>>)

  /** Sheet `k` is not empty, has three columns or more, and no sheet before it has both. */
  predicate FirstUsable(sheets: seq<Sheet>, k: int) {
    0 <= k < |sheets| && sheets[k].rows != [] && sheets[k].columns >= 3
    && forall j :: 0 <= j < k ==> sheets[j].rows == [] || sheets[j].columns < 3
  }

  /** Only one sheet is the first usable one. */
  lemma {:induction false} FirstUsableUnique(sheets: seq<Sheet>, c: nat)
    requires FirstUsable(sheets, c)
    ensures forall k :: FirstUsable(sheets, k) ==> k == c
  {
  }

  /** The sheet loop: the first sheet that is not empty and has at least
      three columns. */
  method ChooseSheet(sheets: seq<Sheet>) returns (choice: Option<nat>)
    ensures choice.Some? ==>
      choice.value < |sheets| && sheets[choice.value].rows != [] && sheets[choice.value].columns >= 3
    ensures choice.Some? ==> forall k :: 0 <= k < choice.value ==> sheets[k].rows == [] || sheets[k].columns < 3
    ensures choice.None? ==> forall k :: 0 <= k < |sheets| ==> sheets[k].rows == [] || sheets[k].columns < 3
  {
    var k := 0;
    while k < |sheets|
      invariant k <= |sheets|
      invariant forall j :: 0 <= j < k ==> sheets[j].rows == [] || sheets[j].columns < 3
    {
      if sheets[k].rows != [] && sheets[k].columns >= 3 {
        return Some(k);
      }
      k := k + 1;
    }
    return None;
  }

  /** What the upload turned out to be, from its lower-cased extension. */
  datatype Spreadsheet =
    | Csv(lines: seq<seq<string>>)   // every line, the first one included
    | Workbook(sheets: seq<Sheet>)   // `.xlsx` / `.xls`, read with `header=None`
    | Unsupported

  /** `extract_transactions_from_excel`: a CSV's first line becomes the
      column names and is not a row; a workbook contributes the sheet the
      sheet loop picks, or nothing. */
  method ExtractFromSpreadsheet(upload: Spreadsheet, today: string) returns (result: seq<Transaction>)
    ensures upload.Unsupported? ==> result == []
    ensures upload.Csv? ==>
      result == Unique(Renumber(Gather(if upload.lines == [] then [] else upload.lines[1..], SheetParse(today))))
    ensures upload.Workbook? && (forall k :: 0 <= k < |upload.sheets| ==> upload.sheets[k].rows == [] || upload.sheets[k].columns < 3)
      ==> result == []
    ensures forall k :: upload.Workbook? && FirstUsable(upload.sheets, k) ==>
      result == Unique(Renumber(Gather(upload.sheets[k].rows, SheetParse(today))))
  {
    match upload
    case Unsupported =>
      result := [];
    case Csv(lines) =>
      result := ExtractFromRows(if lines == [] then [] else lines[1..], today);
    case Workbook(sheets) =>
      var choice := ChooseSheet(sheets);
      if choice.None? {
        result := [];
      } else {
        result := ExtractFromRows(sheets[choice.value].rows, today);
        FirstUsableUnique(sheets, choice.value);
      }
  }

  // ---------------------------------------------------------------------
  // extract_from_text_patterns
  // ---------------------------------------------------------------------

  /** The first of the two line patterns that `re.search` finds in the
      stripped line. */
  function TextMatch(line: string): (r: Option<LineMatch>)
    ensures r.Some? ==> AmountLexeme(r.value.amount, Grouped) && '\n' !in r.value.description
    ensures Search(Strip(line), SlashOrDash, Grouped).Some? ==> r == Search(Strip(line), SlashOrDash, Grouped)
    ensures Search(Strip(line), SlashOrDash, Grouped).None? ==> r == Search(Strip(line), SpacedMonth, Grouped)
  {
    var s := Strip(line);
    var m := Search(s, SlashOrDash, Grouped);
    if m.Some? then m else Search(s, SpacedMonth, Grouped)
  }

  /** Every stripped line in which either pattern has a match yields a match. */
  lemma {:induction false} TextMatchFinds(line: string, p: nat, sp: Span, ds: DateSyntax)
    requires Spans(Strip(line), p, sp, ds, Grouped)
    ensures TextMatch(line).Some?
  {
    SearchComplete(Strip(line), p, sp, ds, Grouped);
  }

  /** The transaction a line's match makes. */
  function TextLine(today: string, i: nat, line: string): (r: Option<Transaction>)
    ensures r.Some? <==> TextMatch(line).Some?
    ensures r.Some? ==>
      r.value.kind == Debit && r.value.amount >= 0.0 && r.value.frequency == "irregular"
      && '\n' !in r.value.description && r.value.id == 0
  {
    match TextMatch(line)
    case None => None
    case Some(m) =>
      AmountLexemeNonNegative(m.amount);
      Some(Transaction(0, FormatDate(m.date, today), Strip(m.description),
        ParseFloat(CleanAmount(m.amount)).value, Debit, DetectCategory(m.description), "irregular"))
  }

  function TextParse(today: string): (nat, string) -> Option<Transaction> {
    (i: nat, line: string) => TextLine(today, i, line)
  }

  /** `extract_from_text_patterns`: one transaction per line that matches,
      numbered in line order. */
  method ExtractFromText(text: string, today: string) returns (ts: seq<Transaction>)
    ensures ts == Renumber(Gather(SplitBy(text, {'\n'}), TextParse(today)))
  {
    ts := ExtractFromLines(SplitBy(text, {'\n'}), today);
  }

  /** The line loop of `extract_from_text_patterns`. */
  method ExtractFromLines(lines: seq<string>, today: string) returns (ts: seq<Transaction>)
    ensures ts == Renumber(Gather(lines, TextParse(today)))
  {
    ghost var f := TextParse(today);
    ts := [];
    for n := 0 to |lines|
      invariant ts == Renumber(Gather(lines[..n], f))
    {
      var t := TextLine(today, n, lines[n]);
      CollectStep(lines, n, f);
      assert f(n, lines[n]) == t;
      assert |ts| == |Gather(lines[..n], f)|;
      if t.Some? {
        ts := ts + [t.value.(id := |ts| + 1)];
      }
    }
    assert lines[..|lines|] == lines;
  }


  /** Every text transaction is a debit with a non-negative amount, taken
      from one line. */
  lemma {:induction false} TextTransactionsDebits(lines: seq<string>, today: string)
    ensures forall k :: 0 <= k < |Gather(lines, TextParse(today))| ==>
      Gather(lines, TextParse(today))[k].kind == Debit && Gather(lines, TextParse(today))[k].amount >= 0.0
  {
    GatherSound(lines, TextParse(today));
  }
}
