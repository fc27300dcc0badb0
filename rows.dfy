/** `parse_transaction_row` of backend/test_app.py: clean a table row, guess
    its layout from the number of columns and what the leading cells look
    like, and hand it to the extractor of that layout. */
module Rows {
  import opened Text
  import opened Numbers
  import opened Cells
  import opened Ledger

  /** One cell: `str(cell).strip().replace('\n', ' ')`, and `''` for a
      missing or empty cell (which is the empty string here). */
  function CleanCell(cell: string): (r: string)
    ensures '\n' !in r
    ensures r == [] || (!IsSpace(r[0]) && !IsSpace(r[|r| - 1]))
    ensures |r| <= |cell|
  {
    var t := Strip(cell);
    var r := ReplaceChar(t, '\n', ' ');
    assert r != [] ==> r[0] == t[0] && r[|r| - 1] == t[|t| - 1];
    r
  }

  /** Cleaning a cleaned cell changes nothing. */
  lemma {:induction false} CleanCellIdempotent(cell: string)
    ensures CleanCell(CleanCell(cell)) == CleanCell(cell)
  {
    var r := CleanCell(cell);
    StripUnpadded(r);
    ReplaceAbsent(r, '\n', ' ');
  }

  function CleanRow(row: seq<string>): (r: seq<string>)
    ensures |r| == |row|
    ensures forall i :: 0 <= i < |row| ==> r[i] == CleanCell(row[i])
  {
    seq(|row|, i requires 0 <= i < |row| => CleanCell(row[i]))
  }

  /** `len([cell for cell in clean_row if cell])` */
  function NonEmptyCount(cells: seq<string>): (n: nat)
    ensures n <= |cells|
  {
    if cells == [] then 0
    else NonEmptyCount(cells[..|cells| - 1]) + if cells[|cells| - 1] != [] then 1 else 0
  }

  /** `s.lower() in ['credit', 'debit']` */
  predicate IsDirectionWord(s: string) {
    Lower(s) == "credit" || Lower(s) == "debit"
  }

  /** The five layouts the detector knows, and `Unknown` for rows it gives up on. */
  datatype Layout =
    | EightColumn   // [Date, Remarks, Tran Id, UTR, Instr. ID, Withdrawals, Deposits, Balance]
    | SixColumn     // [Value Date, Post Date, Credit, Debit, Closing Balance, Description]
    | Legacy        // the earlier Indian Bank layout, also the fallback of the 5-7 column rows
    | CsvFive       // [Date, Description, Amount, Type, Category]
    | CsvFour       // [Date, Amount, Type, Description]
    | Unknown

  /** The layout `parse_transaction_row` picks for a cleaned row.  The chosen
      extractor always finds the columns it reads unguarded. */
  function DetectLayout(c: seq<string>): (l: Layout)
    ensures l == Unknown <==> NonEmptyCount(c) < 3 || |c| < 4 || (|c| == 4 && !(IsDate(c[0]) && IsAmount(c[1]) && IsDirectionWord(c[2])))
    ensures l == EightColumn <==> NonEmptyCount(c) >= 3 && |c| >= 8
    ensures l == SixColumn ==> 6 <= |c| < 8 && IsDate(c[0]) && IsDate(c[1])
    ensures l == Legacy ==> 5 <= |c| < 8
    ensures l == CsvFive ==> |c| == 5 && IsAmount(c[2])
    ensures l == CsvFour ==> |c| == 4 && IsAmount(c[1])
    ensures NonEmptyCount(c) >= 3 && 6 <= |c| < 8 ==>
      (l == SixColumn <==> IsDate(c[0]) && IsDate(c[1]) && (IsAmount(c[2]) || c[2] == "") && (IsAmount(c[3]) || c[3] == ""))
      && (l == SixColumn || l == Legacy)
    ensures NonEmptyCount(c) >= 3 && |c| == 5 ==>
      (l == CsvFive <==> IsDate(c[0]) && IsAmount(c[2]) && IsDirectionWord(c[3])) && (l == CsvFive || l == Legacy)
  {
    if NonEmptyCount(c) < 3 then Unknown
    else if |c| >= 8 then EightColumn
    else if |c| >= 6 then
      if IsDate(c[0]) && IsDate(c[1]) && (IsAmount(c[2]) || c[2] == "") && (IsAmount(c[3]) || c[3] == "")
      then SixColumn else Legacy
    else if |c| >= 5 then
      if IsDate(c[0]) && IsAmount(c[2]) && IsDirectionWord(c[3]) then CsvFive else Legacy
    else if |c| >= 4 then
      if IsDate(c[0]) && IsAmount(c[1]) && IsDirectionWord(c[2]) then CsvFour else Unknown
    else Unknown
  }

  /** `parse_transaction_row`: `None` for a row with fewer than three
      non-empty cells or a layout it does not know, otherwise whatever the
      layout's extractor makes of it.  Every transaction it returns carries a
      date `format_date` produced, a positive amount for the flow-column
      layouts and a non-negative one for the CSV layouts. */
  function ParseRow(row: seq<string>, today: string): (r: Option<Transaction>)
    ensures NonEmptyCount(CleanRow(row)) < 3 ==> r.None?
    ensures r.Some? ==> Extracted(r.value, 150)
  {
    var c := CleanRow(row);
    match DetectLayout(c)
    case EightColumn => EightColumnRow(c, today)
    case SixColumn => SixColumnRow(c, today)
    case Legacy => LegacyRow(c, today)
    case CsvFive => CsvFiveRow(c, today)
    case CsvFour => CsvFourRow(c, today)
    case Unknown => None
  }

  /** What every extractor guarantees of the transaction it builds: id `0`
      (assigned later), frequency `'irregular'`, a non-negative amount and a
      one-line description of at most `limit` characters plus `...`. */
  predicate Extracted(t: Transaction, limit: nat) {
    t.id == 0 && t.frequency == "irregular" && t.amount >= 0.0
    && '\n' !in t.description && |t.description| <= limit + 3
  }

  // ---------------------------------------------------------------------
  // Amount columns
  // ---------------------------------------------------------------------

  /** The value a flow column contributes: `float(clean_amount(cell))` when
      the column exists, is non-empty and is an amount, and `0` otherwise. */
  function FlowAt(c: seq<string>, i: nat): (v: real)
    ensures v != 0.0 ==> i < |c| && IsAmount(c[i]) && v == AmountOf(c[i])
  {
    if i < |c| && c[i] != [] && IsAmount(c[i]) then AmountOf(c[i]) else 0.0
  }

  /** The first of two flow columns with a positive value decides the amount
      and the direction; when neither is positive there is no transaction. */
  function PickFlow(first: real, firstKind: Direction, second: real, secondKind: Direction): (r: Option<(real, Direction)>)
    ensures r.Some? <==> first > 0.0 || second > 0.0
    ensures first > 0.0 ==> r == Some((first, firstKind))
    ensures first <= 0.0 && second > 0.0 ==> r == Some((second, secondKind))
  {
    if first > 0.0 then Some((first, firstKind))
    else if second > 0.0 then Some((second, secondKind))
    else None
  }

  /** The CSV layouts' amount and direction: an explicit `credit`/`debit`
      type is kept and the amount made non-negative; without one, a negative
      amount is a debit of its absolute value and anything else a credit. */
  function SignedAmount(amount: real, typeWord: string): (r: (real, Direction))
    ensures r.0 >= 0.0 && (r.0 == amount || r.0 == -amount)
    ensures typeWord == "credit" ==> r.1 == Credit
    ensures typeWord == "debit" ==> r.1 == Debit
    ensures typeWord != "credit" && typeWord != "debit" ==> (r.1 == Debit <==> amount < 0.0)
  {
    var magnitude := if amount < 0.0 then -amount else amount;
    match ParseDirection(typeWord)
    case Some(kind) => (magnitude, kind)
    case None => (magnitude, if amount < 0.0 then Debit else Credit)
  }

  // ---------------------------------------------------------------------
  // The five extractors
  // ---------------------------------------------------------------------

  /** `parse_new_bank_format`: the remarks column is the description (empty
      stays empty), and a deposit is tested before a withdrawal. */
  function EightColumnRow(c: seq<string>, today: string): (r: Option<Transaction>)
    requires |c| >= 1
    ensures r.Some? <==> IsDate(c[0]) && (FlowAt(c, 6) > 0.0 || FlowAt(c, 5) > 0.0)
    ensures r.Some? ==> Extracted(r.value, 150) && r.value.date == FormatDate(c[0], today)
    ensures r.Some? ==> (r.value.kind == Credit <==> FlowAt(c, 6) > 0.0)
    ensures r.Some? ==> r.value.amount == if FlowAt(c, 6) > 0.0 then FlowAt(c, 6) else FlowAt(c, 5)
    ensures r.Some? ==> r.value.description == CleanDescription(if |c| > 1 then c[1] else "", 150)
    ensures r.Some? ==> r.value.category == DetectCategory(r.value.description)
  {
    if !IsDate(c[0]) then None
    else
      var remarks := if |c| > 1 then c[1] else "";
      match PickFlow(FlowAt(c, 6), Credit, FlowAt(c, 5), Debit)
      case None => None
      case Some((amount, kind)) =>
        var d := CleanDescription(remarks, 150);
        Some(Transaction(0, FormatDate(c[0], today), d, amount, kind, DetectCategory(d), "irregular"))
  }

  /** `parse_indian_bank_6_column_format`: a positive credit column wins over
      a positive debit column; an empty description becomes `Transaction`. */
  function SixColumnRow(c: seq<string>, today: string): (r: Option<Transaction>)
    requires |c| >= 1
    ensures r.Some? <==> IsDate(c[0]) && (FlowAt(c, 2) > 0.0 || FlowAt(c, 3) > 0.0)
    ensures r.Some? ==> Extracted(r.value, 150) && r.value.date == FormatDate(c[0], today)
    ensures r.Some? ==> (r.value.kind == Credit <==> FlowAt(c, 2) > 0.0)
    ensures r.Some? ==> r.value.amount == if FlowAt(c, 2) > 0.0 then FlowAt(c, 2) else FlowAt(c, 3)
    ensures r.Some? ==> r.value.description == CleanDescription(SixColumnDescription(c), 150)
    ensures r.Some? ==> r.value.category == DetectCategory(r.value.description)
  {
    if !IsDate(c[0]) then None
    else
      match PickFlow(FlowAt(c, 2), Credit, FlowAt(c, 3), Debit)
      case None => None
      case Some((amount, kind)) =>
        var d := CleanDescription(SixColumnDescription(c), 150);
        Some(Transaction(0, FormatDate(c[0], today), d, amount, kind, DetectCategory(d), "irregular"))
  }

  /** The description column of the six-column layout, `Transaction` when
      it is missing or blank. */
  function SixColumnDescription(c: seq<string>): (r: string)
    ensures r != [] && Strip(r) != []
  {
    var raw := if |c| > 5 then c[5] else "Transaction";
    if raw == [] || Strip(raw) == [] then "Transaction" else raw
  }

  /** The date cell of the earlier Indian Bank layout: the first column, or
      the second when the first is empty. */
  function LegacyDate(c: seq<string>): string
    requires |c| >= 2
  {
    if c[0] != [] then c[0] else c[1]
  }

  /** The description column of the earlier layout: the sixth, else the
      fifth, else `Transaction`. */
  function LegacyDescription(c: seq<string>): string {
    if |c| > 5 then c[5] else if |c| > 4 then c[4] else "Transaction"
  }

  /** `parse_indian_bank_format`: credit before debit, the description from
      the sixth column, else the fifth, cut at 100 characters. */
  function LegacyRow(c: seq<string>, today: string): (r: Option<Transaction>)
    requires |c| >= 2
    ensures r.Some? <==> IsDate(LegacyDate(c)) && (FlowAt(c, 2) > 0.0 || FlowAt(c, 3) > 0.0)
    ensures r.Some? ==> Extracted(r.value, 100) && r.value.date == FormatDate(LegacyDate(c), today)
    ensures r.Some? ==> (r.value.kind == Credit <==> FlowAt(c, 2) > 0.0)
    ensures r.Some? ==> r.value.amount == if FlowAt(c, 2) > 0.0 then FlowAt(c, 2) else FlowAt(c, 3)
    ensures r.Some? ==> r.value.description == CleanDescription(LegacyDescription(c), 100)
    ensures r.Some? ==> r.value.category == DetectCategory(r.value.description)
  {
    var date := LegacyDate(c);
    if !IsDate(date) then None
    else
      match PickFlow(FlowAt(c, 2), Credit, FlowAt(c, 3), Debit)
      case None => None
      case Some((amount, kind)) =>
        var d := CleanDescription(LegacyDescription(c), 100);
        Some(Transaction(0, FormatDate(date, today), d, amount, kind, DetectCategory(d), "irregular"))
  }

  /** `parse_csv_format`: the category comes from the fifth column when there
      is one, otherwise from the description before its clean-up. */
  function CsvFiveRow(c: seq<string>, today: string): (r: Option<Transaction>)
    requires |c| >= 3
    ensures r.Some? <==> IsDate(c[0]) && IsAmount(c[2])
    ensures r.Some? ==> Extracted(r.value, 100) && r.value.date == FormatDate(c[0], today)
    ensures r.Some? ==> r.value == CsvTransaction(c[0], if |c| > 1 then c[1] else "Transaction",
                                                  AmountOf(c[2]), if |c| > 3 then Lower(c[3]) else "",
                                                  if |c| > 4 then Some(c[4]) else None, today)
  {
    if !IsDate(c[0]) then None
    else
      var raw := if |c| > 1 then c[1] else "Transaction";
      if !IsAmount(c[2]) then None
      else
        var typeWord := if |c| > 3 then Lower(c[3]) else "";
        var category := if |c| > 4 then Some(c[4]) else None;
        Some(CsvTransaction(c[0], raw, AmountOf(c[2]), typeWord, category, today))
  }

  /** `parse_4_column_csv_format`: the category is always detected from the
      description before its clean-up. */
  function CsvFourRow(c: seq<string>, today: string): (r: Option<Transaction>)
    requires |c| >= 2
    ensures r.Some? <==> IsDate(c[0]) && IsAmount(c[1])
    ensures r.Some? ==> Extracted(r.value, 100) && r.value.date == FormatDate(c[0], today)
    ensures r.Some? ==> r.value == CsvTransaction(c[0], if |c| > 3 then c[3] else "Transaction",
                                                  AmountOf(c[1]), if |c| > 2 then Lower(c[2]) else "", None, today)
  {
    if !IsDate(c[0]) || !IsAmount(c[1]) then None
    else
      var typeWord := if |c| > 2 then Lower(c[2]) else "";
      var raw := if |c| > 3 then c[3] else "Transaction";
      Some(CsvTransaction(c[0], raw, AmountOf(c[1]), typeWord, None, today))
  }

  /** The transaction both CSV extractors build; `category` is the explicit
      category column when there is one. */
  function CsvTransaction(date: string, raw: string, amount: real, typeWord: string,
                          category: Option<string>, today: string): (t: Transaction)
    ensures Extracted(t, 100)
    ensures t.amount == (if amount < 0.0 then -amount else amount)
    ensures t.kind == SignedAmount(amount, typeWord).1
    ensures category.Some? ==> t.category == category.value
    ensures category.None? ==> t.category == DetectCategory(raw)
  {
    var signed := SignedAmount(amount, typeWord);
    var d := CleanDescription(raw, 100);
    Transaction(0, FormatDate(date, today), d, signed.0, signed.1,
                if category.Some? then category.value else DetectCategory(raw), "irregular")
  }

  // ---------------------------------------------------------------------
  // Properties of whole rows
  // ---------------------------------------------------------------------

  /** The eight-column layout keeps an empty remarks column as an empty
      description (categorised `Others`), where the six-column layout would
      write `Transaction`. */
  lemma {:induction false} EightColumnEmptyRemarks(c: seq<string>, today: string, t: Transaction)
    requires |c| >= 8 && c[1] == [] && EightColumnRow(c, today) == Some(t)
    ensures t.description == [] && t.category == "Others"
  {
    assert CleanDescription([], 150) == [];
    EmptyCategory();
  }

  lemma {:induction false} EmptyCategory()
    ensures DetectCategory([]) == "Others"
  {
  }

  /** The six-column layout names an empty description `Transaction`. */
  lemma {:induction false} SixColumnEmptyDescription(c: seq<string>, today: string, t: Transaction)
    requires |c| >= 6 && c[5] == [] && SixColumnRow(c, today) == Some(t)
    ensures t.description == "Transaction"
  {
    BlankSixDescription(c);
    CleanPlaceholder();
  }

  lemma {:induction false} BlankSixDescription(c: seq<string>)
    requires |c| >= 6 && c[5] == []
    ensures SixColumnDescription(c) == "Transaction"
  {
  }

  lemma {:induction false} CleanPlaceholder()
    ensures CleanDescription("Transaction", 150) == "Transaction"
  {
    CleanOneWord("Transaction", 150);
  }

  /** A cell without whitespace is already clean. */
  lemma {:induction false} CleanCellNoSpace(cell: string)
    requires NoSpace(cell)
    ensures CleanCell(cell) == cell
  {
    NoNewline(cell);
    ReplaceAbsent(cell, '\n', ' ');
  }

  lemma {:induction false} NoNewline(s: string)
    requires NoSpace(s)
    ensures '\n' !in s
  {
    forall i | 0 <= i < |s| ensures s[i] != '\n' { assert !IsSpace(s[i]); }
  }

  /** A short word is its own cleaned description. */
  lemma {:induction false} CleanOneWord(word: string, limit: nat)
    requires NoSpace(word) && |word| <= limit
    ensures CleanDescription(word, limit) == word
  {
    NoNewline(word);
    ReplaceAbsent(word, '\n', ' ');
  }

  /** A positive whole number of rupees is an amount worth its digits. */
  lemma {:induction false} DigitsAmount(amount: string)
    requires |amount| > 0 && AllDigits(amount)
    ensures NoSpace(amount)
    ensures IsAmount(amount) && AmountOf(amount) == DigitsValue(amount) as real
  {
    assert NoSpace(amount) by {
      forall i | 0 <= i < |amount| ensures !IsSpace(amount[i]) { assert IsDigit(amount[i]); }
    }
    assert forall i :: 0 <= i < |amount| ==> !IsAmountNoise(amount[i]) by {
      forall i | 0 <= i < |amount| ensures !IsAmountNoise(amount[i]) { assert IsDigit(amount[i]); }
    }
    assert CleanAmount(amount) == amount;
    ParseDigits(amount);
  }

  /** A row of whitespace-free cells is its own cleaned row. */
  lemma {:induction false} CleanRowNoSpace(row: seq<string>)
    requires forall i :: 0 <= i < |row| ==> NoSpace(row[i])
    ensures CleanRow(row) == row
  {
    forall i | 0 <= i < |row| ensures CleanRow(row)[i] == row[i] {
      CleanCellNoSpace(row[i]);
    }
  }

  /** A row whose first `k` cells are non-empty has at least `k` non-empty cells. */
  lemma {:induction false} NonEmptyAtLeast(c: seq<string>, k: nat)
    requires k <= |c| && forall i :: 0 <= i < k ==> c[i] != []
    ensures NonEmptyCount(c) >= k
    decreases |c|
  {
    if c != [] {
      var p := c[..|c| - 1];
      if k == |c| {
        NonEmptyAtLeast(p, k - 1);
      } else {
        NonEmptyAtLeast(p, k);
      }
    }
  }

  /** A six-cell row with two dates, an amount and an empty debit column is
      read with the six-column layout. */
  lemma {:induction false} SixLayout(c: seq<string>)
    requires |c| == 6 && NonEmptyCount(c) >= 3
    requires IsDate(c[0]) && IsDate(c[1]) && IsAmount(c[2]) && c[3] == []
    ensures DetectLayout(c) == SixColumn
  {
  }

  /** From a raw six-cell row to a transaction: a statement row
      `[D/M/Y, D/M/Y, credit, '', '', description]` with a positive credit
      and a one-word description is a credit of that amount on the ISO date. */
  lemma {:induction false} SixColumnCredit(d: string, m: string, y: string, sep: char, amount: string,
                        description: string, today: string)
    requires DayFirstFields(d, m, y, sep)
    requires |amount| > 0 && AllDigits(amount) && DigitsValue(amount) > 0
    requires description != [] && NoSpace(description) && |description| <= 150
    ensures var date := d + [sep] + m + [sep] + y;
      ParseRow([date, date, amount, "", "", description], today)
      == Some(Transaction(0, IsoOf(d, m, y), description, DigitsValue(amount) as real,
                          Credit, DetectCategory(description), "irregular"))
  {
    var date := d + [sep] + m + [sep] + y;
    NoSpaceDayFirst(d, m, y, sep);
    DigitsNoSpace(amount);
    var row := [date, date, amount, "", "", description];
    SixCellsShape(row, date, amount, description);
    DigitsAmount(amount);
    DayFirstDate(d, m, y, sep, today);
    SixRow(row, DigitsValue(amount) as real, IsoOf(d, m, y), today);
  }

  lemma {:induction false} DigitsNoSpace(s: string)
    requires AllDigits(s)
    ensures NoSpace(s)
  {
    forall i | 0 <= i < |s| ensures !IsSpace(s[i]) { assert IsDigit(s[i]); }
  }

  lemma {:induction false} SixCellsShape(row: seq<string>, date: string, amount: string, description: string)
    requires row == [date, date, amount, "", "", description]
    requires date != [] && NoSpace(date) && amount != [] && NoSpace(amount)
    requires description != [] && NoSpace(description)
    ensures |row| == 6 && forall i :: 0 <= i < 6 ==> NoSpace(row[i])
    ensures row[0] == date && row[1] == date && row[2] == amount && row[3] == [] && row[5] == description
  {
  }

  /** The same, for a six-cell row of whitespace-free cells. */
  lemma {:induction false} SixRow(c: seq<string>, value: real, iso: string, today: string)
    requires |c| == 6 && forall i :: 0 <= i < 6 ==> NoSpace(c[i])
    requires c[0] != [] && c[1] == c[0] && IsDate(c[0]) && FormatDate(c[0], today) == iso
    requires c[2] != [] && IsAmount(c[2]) && AmountOf(c[2]) == value && value > 0.0
    requires c[3] == [] && c[5] != [] && |c[5]| <= 150
    ensures ParseRow(c, today)
      == Some(Transaction(0, iso, c[5], value, Credit, DetectCategory(c[5]), "irregular"))
  {
    SixRowClean(c);
    SixLayout(c);
    CleanOneWord(c[5], 150);
    SixCredit(c, value, today);
    ParseSix(c, today);
  }

  lemma {:induction false} SixRowClean(c: seq<string>)
    requires |c| == 6 && forall i :: 0 <= i < 6 ==> NoSpace(c[i])
    requires c[0] != [] && c[1] == c[0] && c[2] != []
    ensures CleanRow(c) == c && NonEmptyCount(c) >= 3
  {
    assert forall i :: 0 <= i < 3 ==> c[i] != [];
    NonEmptyAtLeast(c, 3);
    CleanRowNoSpace(c);
  }

  lemma {:induction false} ParseSix(row: seq<string>, today: string)
    requires CleanRow(row) == row && DetectLayout(row) == SixColumn
    ensures ParseRow(row, today) == SixColumnRow(row, today)
  {
  }

  /** The six-column extractor on a row whose credit column holds `amount`. */
  lemma {:induction false} SixCredit(c: seq<string>, amount: real, today: string)
    requires |c| == 6 && IsDate(c[0]) && IsAmount(c[2]) && AmountOf(c[2]) == amount && amount > 0.0
    requires c[5] != [] && CleanDescription(c[5], 150) == c[5]
    ensures SixColumnRow(c, today) == Some(Transaction(0, FormatDate(c[0], today), c[5], amount,
                                                       Credit, DetectCategory(c[5]), "irregular"))
  {
    assert FlowAt(c, 2) == amount;
    SixDescriptionColumn(c);
    assert SixColumnRow(c, today).Some?;
  }

  lemma {:induction false} SixDescriptionColumn(c: seq<string>)
    requires |c| == 6 && c[5] != [] && CleanDescription(c[5], 150) == c[5]
    ensures CleanDescription(SixColumnDescription(c), 150) == c[5]
  {
    assert Strip(c[5]) != [] by {
      assert |CleanDescription(c[5], 150)| > 0;
    }
  }
}
