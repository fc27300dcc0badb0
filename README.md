# Bank-statement extraction engine

A Dafny model of the statement-reading core of the Python upload backend
(`backend/test_app.py`, `backend/bank_parsers.py`, `backend/app.py`).
That core takes grids of cell strings and lines of page text, and turns
them into canonical transactions. Each transaction has a date, a
description, an amount, a credit/debit direction, a category and a
frequency. The model covers:

- the leaf tests and cleaners: `is_date`, `is_amount`, `clean_amount`, the
  three `format_date` copies and the three `detect_category` copies;
- the column-count-then-content layout detector `parse_transaction_row`
  and its five per-layout extractors;
- the row loops of the PDF and spreadsheet readers, with their header
  rules;
- the two de-duplicators;
- the line-pattern text extractors;
- the bank-parser factory and `IndianBankParser`;
- `app.py`'s own helpers: `allowed_file`, `parse_indian_bank_row`,
  `extract_pdf_basic`'s row loop, the page pooling of
  `extract_pdf_with_smart_parser`, `normalize_transactions` and
  `detect_frequency`.

The three copies of the date formatter, the classifier and the
de-duplicator differ, and each is modelled separately.

Modules:

- `Text`: the Python string methods the code relies on (`strip`, `lower`,
  `split`, `zfill`, `\s+` collapsing).
- `Numbers`: `float()` on a decimal literal, and `clean_amount`.
- `Patterns`: the regular expressions, written as deterministic scanners.
- `Ledger`: the transaction record and id numbering.
- `Cells`: `is_date`, `is_amount`, `format_date` and `detect_category` of
  `test_app.py`.
- `Rows`: `parse_transaction_row` and the five layouts.
- `Dedup`: first-occurrence-by-key de-duplication.
- `Gathering`: "keep what a per-element parser returns" over a sequence.
- `Extraction`: the row loops of `test_app.py`.
- `BankParsers`: `bank_parsers.py`.
- `App`: `app.py`.

Functions model the pure code. The loops of the source (row loops,
scans, the `seen`-set de-duplicators, the grouping pass) are methods with
loop invariants. Each method is proved equal to a specification function
or stated outright, and the properties are proved about those functions.

Conventions:

- Amounts are exact `real`s.
- A `None` cell is the empty string.
- The current date is a `today` parameter.
- An exception the source catches is `None` (or the fallback value the
  `except` branch returns).

## Model

| member | source | states |
|---|---|---|
| Text.Lower | backend/test_app.py:690 | `lower()`: same length; each ASCII capital becomes its small letter and every other character is kept |
| Text.LowerIdempotent | backend/test_app.py:690 | lower-casing twice is lower-casing once |
| Text.Strip | backend/test_app.py:172 | `strip()`: the result neither starts nor ends with whitespace, is no longer than the input, and a space-free string is unchanged |
| Text.SplitBy | backend/test_app.py:546 | `split`: at least one part, and no part contains a separator |
| Text.SplitJoin | backend/test_app.py:546 | joining the parts of a split with the separator gives the input back |
| Text.SplitWs | backend/test_app.py:669 | `re.split(r'\s+')` on stripped text: every word is non-empty and has no whitespace |
| Text.ZFill | backend/test_app.py:659-660 | `zfill(w)`: the length is max(len, w); a long string is unchanged; a short digit string gets leading zeros |
| Text.Take | backend/test_app.py:709 | `s[:n]`: a prefix of length min(len, n) |
| Numbers.ParseFloat | backend/test_app.py:615-619 | `float()` on a decimal literal: success implies a non-empty input, and a negative value implies a leading '-' |
| Numbers.ParseDigits | backend/test_app.py:616 | a digit string parses to its decimal value |
| Numbers.ParseDecimal | backend/test_app.py:616 | `whole.frac` parses to whole + frac/10^len(frac) |
| Numbers.CleanAmount | backend/test_app.py:621-623 | the result has no rupee sign, comma or whitespace, and is no longer than the input |
| Numbers.CleanAmountIdempotent | backend/test_app.py:621-623 | cleaning an amount twice is cleaning it once |
| Patterns.DmyPrefix | backend/test_app.py:638 | a match of `\d{1,2}[/-]\d{1,2}[/-]\d{2,4}` at the start is between 6 characters and the whole string long |
| Patterns.DmyPrefixSound | backend/test_app.py:638 | a reported match is made of 1-2 digits, a separator, 1-2 digits, a separator and 2-4 digits |
| Patterns.DmyPrefixGreedy | backend/test_app.py:638 | every such prefix is matched, and the reported match is at least as long (greedy year) |
| Patterns.Search | backend/test_app.py:553-558 | `re.search` of date-description-amount: a match has a non-empty description without a newline and an amount lexeme of the pattern's shape |
| Patterns.SearchStart | backend/test_app.py:558 | the scan returns the least start position at which the pattern matches, and none when no position matches |
| Patterns.SearchSound | backend/test_app.py:553-558 | what `re.search` reports is the three groups of a span of the pattern (date shape, whitespace, a description without newline, whitespace, an amount), and no span starts further left |
| Patterns.SearchComplete | backend/test_app.py:553-558 | whenever some span of the pattern exists in the line, `re.search` finds a match |
| Patterns.MatchAtSound | backend/test_app.py:553-558 | a match at a fixed start position is the groups of a span of the pattern from there |
| Patterns.MatchAtComplete | backend/test_app.py:553-558 | a span of the pattern from a start position makes the match attempt there succeed |
| Patterns.AmountLexemeParses | backend/test_app.py:566 | every amount the pattern captures survives `clean_amount` and `float()` |
| Patterns.AmountLexemeNonNegative | backend/bank_parsers.py:155 | every amount the grouped pattern captures parses to a value >= 0 |
| Patterns.LexemeUnpadded | backend/test_app.py:566 | on a captured amount `clean_amount` only drops commas (no strip needed) |
| Ledger.DirectionName | backend/test_app.py:445-453 | the `'credit'`/`'debit'` word of a direction reads back as that direction |
| Ledger.ParseDirection | backend/test_app.py:445 | only `credit` and `debit` are direction words, each meaning its own direction |
| Ledger.Renumber | backend/test_app.py:712 | ids become 1..n in list order and nothing else changes |
| Ledger.RenumberSnoc | backend/test_app.py:59 | appending a transaction numbers it len+1 and keeps the others |
| Ledger.RenumberIdempotent | backend/test_app.py:712 | renumbering numbered transactions changes nothing |
| Cells.TidyDateFixes | backend/test_app.py:584-588 | the whitespace clean-up of `is_date` leaves an already tidy string unchanged |
| Cells.MonthNumber | backend/test_app.py:673-679 | the looked-up month number always has two digits |
| Cells.MonthNumberKnown | backend/test_app.py:673-679 | a name whose lower-cased first three letters are the k-th key of the twelve-entry table gives month k+1, zero-padded |
| Cells.MonthNumberUnknown | backend/test_app.py:679 | a name whose first three letters are not in the table gives the default "01" |
| Cells.DetectCategory | backend/test_app.py:688-701 | the category is one of the five names |
| Cells.DetectCategoryCaseless | backend/test_app.py:690 | the classifier ignores letter case |
| Cells.DetectCategoryShortKeywords | backend/test_app.py:694-699 | first match wins in the order payment, cash, salary, interest; "salary" and "interest" are subsumed by "sal" and "int" |
| Cells.CleanDescription | backend/test_app.py:282-284 | with d the text with newlines made spaces and then stripped: d itself when it is at most limit long, otherwise its first limit characters followed by "..."; never a newline |
| Cells.CleanDescriptionIdempotent | backend/test_app.py:282-284 | cleaning a description twice is cleaning it once |
| Cells.TidyIsDate | backend/test_app.py:577-605 | `is_date` (Cells.IsDate) accepts every non-empty, already tidy string of one of its accepted shapes |
| Cells.FormatDayFirstAt | backend/test_app.py:636-664 | `format_date` (Cells.FormatDate) of a tidy string that starts with a day-first date is built from the date's three fields alone, whatever follows |
| Cells.DayFirstIsDate | backend/test_app.py:591-592 | `D/M/Y` and `D-M-Y` with 1-2, 1-2 and 2-4 digits pass `is_date` |
| Cells.DayFirstFormat | backend/test_app.py:646-664 | such a date formats to year-month-day, with "20" before a 2-digit year and zero padding, with no range check |
| Cells.DayFirstDate | backend/test_app.py:578-664 | a day-first date is a date and formats to its ISO form |
| Cells.DayFirstClockIsDate | backend/test_app.py:593-594 | a day-first date followed by a space and `H:MM[:SS]` passes `is_date` |
| Cells.DayFirstClockFormat | backend/test_app.py:636-664 | the trailing time is dropped and the date part formats to its ISO form |
| Cells.DayFirstDateTime | backend/test_app.py:578-664 | a timestamped day-first date is a date and formats to the ISO form of its date part |
| Cells.FormatFallsBack | backend/test_app.py:638-682 | a space-free string without a day-first prefix formats to today |
| Cells.CompactDateLost | backend/test_app.py:595-682 | `DDMonYYYY` passes `is_date` but formats to today |
| Cells.YearFirstDateLost | backend/test_app.py:597-682 | `YYYY/MM/DD` and `YYYY-MM-DD` pass `is_date` but format to today |
| Cells.SpacedMonthIsDate | backend/test_app.py:596 | `D Mon YYYY` passes `is_date` |
| Cells.SpacedMonthFormat | backend/test_app.py:666-680 | `D Mon YYYY` formats to year, month number and zero-padded day |
| Cells.SpacedMonthDateFormat | backend/test_app.py:578-680 | `D Mon YYYY` is a date and formats through the month table |
| Rows.CleanCell | backend/test_app.py:172 | a cleaned cell has no newline, no outer whitespace and is no longer than the cell |
| Rows.CleanCellIdempotent | backend/test_app.py:172 | cleaning a cell twice is cleaning it once |
| Rows.CleanRow | backend/test_app.py:172 | the cleaned row has the same length and cleans each cell |
| Rows.NonEmptyCount | backend/test_app.py:176 | the number of non-empty cells is at most the row length |
| Rows.NonEmptyAtLeast | backend/test_app.py:176 | k leading non-empty cells give a count of at least k |
| Rows.DetectLayout | backend/test_app.py:175-231 | the layout by column count and content, with both directions of each dispatch test: fewer than 3 non-empty cells or an unmatched 4-column row is unknown; 8+ columns is the 8-column layout; 6-7 columns is 6-column iff two dates and empty-or-amount flows, else legacy; 5 columns is CSV-5 iff date, amount and direction word, else legacy |
| Rows.ParseRow | backend/test_app.py:166-237 | fewer than 3 non-empty cleaned cells gives None; every result has id 0, "irregular", an amount >= 0 and a one-line description of at most 150 characters plus "..." |
| Rows.FlowAt | backend/test_app.py:257-263 | a flow column counts only when present and an amount, and then its value is the parsed amount |
| Rows.PickFlow | backend/test_app.py:265-274 | a positive first flow wins, else a positive second flow, else nothing |
| Rows.SignedAmount | backend/test_app.py:444-454 | the CSV amount is made non-negative; an explicit type word is kept; otherwise a negative amount means debit |
| Rows.EightColumnRow | backend/test_app.py:305-364 | a result iff a date and a positive deposit or withdrawal; deposit (column 6) wins; the description is the remarks cell cleaned to 150 |
| Rows.SixColumnRow | backend/test_app.py:239-303 | a result iff a date and a positive credit or debit; credit (column 2) wins; the description is the placeholder-defaulted column 5 cleaned to 150 |
| Rows.SixColumnDescription | backend/test_app.py:276-279 | the 6-column description is never blank |
| Rows.LegacyRow | backend/test_app.py:366-423 | a result iff the first non-empty of columns 0/1 is a date and a flow is positive; credit wins: the amount is column 2 when positive, else column 3; the description is column 5, else 4, else "Transaction", cleaned to 100; the category is that of the cleaned description |
| Rows.CsvFiveRow | backend/test_app.py:425-481 | a result iff a date and an amount; the type comes from column 3 and the category from column 4 |
| Rows.CsvFourRow | backend/test_app.py:483-539 | a result iff a date and an amount; the type comes from column 2 and the category from the description |
| Rows.CsvTransaction | backend/test_app.py:441-471 | the amount is absolute, the direction follows the type rule, and the category is the given one or the detected one |
| Rows.EightColumnEmptyRemarks | backend/test_app.py:316-353 | an 8-column row with empty remarks keeps an empty description, categorised "Others": no placeholder |
| Rows.SixColumnEmptyDescription | backend/test_app.py:276-282 | a 6-column row with an empty column 5 gets the "Transaction" placeholder |
| Rows.DigitsAmount | backend/test_app.py:607-623 | a digit string is an amount (Cells.IsAmount) worth its decimal value |
| Rows.SixLayout | backend/test_app.py:198-202 | a 6-cell row of two dates, a credit amount and an empty debit is the 6-column layout |
| Rows.SixColumnCredit | backend/test_app.py:166-303 | end to end: a 6-column credit row parses to a credit transaction with the ISO date, the amount and the detected category |
| Rows.SixCredit | backend/test_app.py:239-297 | a positive credit in column 2 gives a credit transaction of that amount |
| Dedup.KeysOf | backend/test_app.py:705-711 | the `seen` keys are exactly the keys of the elements |
| Dedup.FirstByKey | backend/test_app.py:703-715 | first-wins de-duplication never lengthens the list |
| Dedup.FirstByKeyKeys | backend/test_app.py:703-715 | every key of the input survives, and only those |
| Dedup.FirstByKeyDistinct | backend/test_app.py:703-715 | the survivors have pairwise different keys |
| Dedup.FirstByKeySubset | backend/bank_parsers.py:259-276 | every survivor is an input element |
| Dedup.FirstByKeyFirsts | backend/test_app.py:703-715 | the survivors are exactly the first element of each key, in input order |
| Dedup.FirstByKeyDistinctInput | backend/test_app.py:703-715 | input without repeated keys comes back unchanged |
| Dedup.FirstByKeyIdempotent | backend/test_app.py:703-715 | de-duplicating twice is de-duplicating once |
| Gathering.GatherSound | backend/test_app.py:46-63 | every collected transaction is what the parser returned for some row |
| Gathering.GatherComplete | backend/test_app.py:57-60 | every row the parser accepts contributes its transaction |
| Gathering.GatherAppend | backend/bank_parsers.py:45-47 | collecting over two row lists is collecting over each, in order |
| Extraction.CollectSnoc | backend/test_app.py:57-60 | appending an accepted row adds its transaction with id len+1 |
| Extraction.RemoveDuplicates | backend/test_app.py:703-715 | the `seen`-set loop equals first-wins de-duplication on (date, amount, description[:20]) with ids 1..n |
| Extraction.RenumberKeys | backend/test_app.py:709-712 | renumbering keeps the duplicate keys |
| Extraction.UniqueKeys | backend/test_app.py:703-715 | with Extraction.Unique as the specification of `remove_duplicates` and Extraction.DuplicateKey as its key: the result keeps every key, has no repeated key, and has ids 1..n |
| Extraction.DuplicateKeyKeepsPadding | backend/test_app.py:709 | this key takes the first 20 description characters unstripped, so padding makes a different key |
| Extraction.UniqueFirsts | backend/test_app.py:703-715 | the result is the renumbered first elements of each key, in order |
| Extraction.UniqueIdempotent | backend/test_app.py:703-715 | `remove_duplicates` is idempotent |
| Extraction.PdfRow | backend/test_app.py:49-63 | a row is kept iff it has 3+ cells, its lower-cased first cell has no header word (Extraction.PdfHeader), and it parses |
| Extraction.ExtractFromPdf | backend/test_app.py:31-80 | the page/table/row loop equals the kept rows in reading order, numbered, then de-duplicated |
| Extraction.PdfTransactionsFromRows | backend/test_app.py:46-63 | every PDF transaction comes from a non-header row of 3+ cells that parses to it |
| Extraction.PdfRowKept | backend/test_app.py:49-60 | a failing row never stops later rows; every accepted row is collected |
| Extraction.SheetRow | backend/test_app.py:130-150 | a sheet row is kept iff it has 3+ cells, is not the header (Extraction.SheetHeader) when first, and parses |
| Extraction.ExtractFromRows | backend/test_app.py:128-163 | the spreadsheet result is the kept rows, numbered, then de-duplicated |
| Extraction.SheetTransactions | backend/test_app.py:128-150 | the spreadsheet row loop keeps exactly the rows `SheetRow` accepts, in order, numbered 1, 2, ... as appended |
| Extraction.ParseSheetRow | backend/test_app.py:130-144 | a row is skipped with fewer than three cells or as the first-row header, and is otherwise `parse_transaction_row` |
| Extraction.SheetHeaderOnlyFirst | backend/test_app.py:133-147 | the header rule applies only to the first row |
| Extraction.SheetUndatedFirstRow | backend/test_app.py:133-141 | a first row whose first cell is not a date is skipped |
| Extraction.ChooseSheet | backend/test_app.py:103-113 | the first sheet with rows and 3+ columns is used, or none |
| Extraction.ExtractFromSpreadsheet | backend/test_app.py:86-164 | other extensions give nothing; a CSV loses its first line to the column names; a workbook with no usable sheet gives nothing; otherwise the first sheet with rows and 3+ columns is read with the sheet row rules and de-duplicated |
| Extraction.TextMatch | backend/test_app.py:552-559 | the slash/dash pattern's match on the stripped line when it has one, otherwise the spaced-month pattern's: a comma-grouped amount and a single-line description |
| Extraction.TextMatchFinds | backend/test_app.py:552-559 | a stripped line in which either pattern has a span always yields a match |
| Extraction.TextLine | backend/test_app.py:557-574 | a line gives a transaction iff a pattern matches; it is a non-negative "irregular" debit |
| Extraction.ExtractFromText | backend/test_app.py:541-576 | the line loop equals the matching lines of the text, numbered 1..n |
| Extraction.ExtractFromLines | backend/test_app.py:550-576 | the per-line loop equals the matching lines, numbered 1..n |
| Extraction.TextTransactionsDebits | backend/test_app.py:562-572 | every text transaction is a non-negative debit |
| BankParsers.DetectCategory | backend/bank_parsers.py:240-257 | the category is one of the seven names |
| BankParsers.DetectCategoryCaseless | backend/bank_parsers.py:242 | the classifier ignores letter case |
| BankParsers.DetectCategoryAgrees | backend/bank_parsers.py:240-257 | where the `test_app.py` classifier finds a payment, cash or salary, this one agrees; interest agrees unless "wages" occurs; "Others" here means "Others" there |
| BankParsers.NumericIsDate | backend/bank_parsers.py:166-177 | a space-free day-first or year-first numeric date passes `_is_date` |
| BankParsers.FormatDayFirst | backend/bank_parsers.py:200-216 | a space-free string with a day-first prefix formats as the `test_app.py` day-first rule does |
| BankParsers.DayFirstDate | backend/bank_parsers.py:166-216 | a day-first date passes `_is_date` (BankParsers.IsDate) and formats (BankParsers.FormatDate) to its ISO form |
| BankParsers.MixedSeparatorsLost | backend/bank_parsers.py:166-216 | `D/M-Y` passes `_is_date`, but the split on "/" gives two parts and the result is today |
| BankParsers.YearFirstDateLost | backend/bank_parsers.py:166-238 | `YYYY/MM/DD` and `YYYY-MM-DD` pass `_is_date` but format to today |
| BankParsers.SpacedMonthFormat | backend/bank_parsers.py:174-233 | `D Mon YYYY` passes `_is_date` and formats through the month table |
| BankParsers.StripRow | backend/bank_parsers.py:77 | the stripped row has the same length and strips each cell |
| BankParsers.DateIndex | backend/bank_parsers.py:79-86 | the first date-like cell: every earlier cell is not a date, and None means no cell is |
| BankParsers.DescriptionFrom | backend/bank_parsers.py:91-96 | the description is the first cell from the given index on that is non-empty, not an amount and unequal to the date, or empty when there is none |
| BankParsers.CellAmount | backend/bank_parsers.py:103-104 | a cell has a value iff `_is_amount` holds |
| BankParsers.LastAmountIndex | backend/bank_parsers.py:102-109 | the last amount cell on a side (past or up to len//2): nothing on that side after it, None when that side is empty |
| BankParsers.Row | backend/bank_parsers.py:74-133 | a result has id 0, "one-time", a non-zero amount, a positive amount when credit, and the detected category; a row with no date cell gives None |
| BankParsers.Record | backend/bank_parsers.py:111-129 | a record iff credit > 0 or debit != 0; credit wins; the fields are the formatted date, the description and the category |
| BankParsers.ParseRow | backend/bank_parsers.py:74-133 | the `_parse_row` loops equal the row function |
| BankParsers.FindDate | backend/bank_parsers.py:79-86 | the date loop finds the first date-like cell |
| BankParsers.FindDescription | backend/bank_parsers.py:91-96 | the description loop finds the first qualifying later cell |
| BankParsers.SideAmounts | backend/bank_parsers.py:99-109 | the amount loop leaves the last amount of each side |
| BankParsers.LastCellIsCredit | backend/bank_parsers.py:102-114 | in a dated row of 3+ cells whose last cell is a positive amount, that cell (often the balance) becomes the credit amount |
| BankParsers.TableRow | backend/bank_parsers.py:59-70 | a table row contributes only with 4+ cells and a header-free first cell, and then it is `_parse_row`'s result |
| BankParsers.ParseTable | backend/bank_parsers.py:55-72 | the `_parse_table` loop collects the accepted rows in order |
| BankParsers.TextLine | backend/bank_parsers.py:147-162 | a line gives a transaction iff one of the two patterns has a match; it comes from the first pattern that matches (formatted date, stripped description, its category) and is a non-negative "one-time" debit with a single-line description |
| BankParsers.TextLineFinds | backend/bank_parsers.py:147-162 | a line in which either pattern has a span always yields a transaction |
| BankParsers.ParseText | backend/bank_parsers.py:135-164 | the `_parse_text` loop collects the matching lines of the text in order |
| BankParsers.ParseLines | backend/bank_parsers.py:140-162 | the per-line loop collects the matching lines in order |
| BankParsers.Deduplicate | backend/bank_parsers.py:259-276 | the `seen`-set loop equals first-wins de-duplication on (date, amount, stripped description[:20]), without renumbering |
| BankParsers.DeduplicateProperties | backend/bank_parsers.py:259-276 | with BankParsers.Key as the key: every key survives, no key repeats, survivors are unchanged input elements, and it is idempotent |
| BankParsers.KeyIgnoresPadding | backend/bank_parsers.py:267-271 | the key strips the first 20 description characters, so padding around a description does not make a new key |
| BankParsers.IndianBankParse | backend/bank_parsers.py:39-53 | table rows of all tables in order, or the text rows when the tables give none, then de-duplicated |
| BankParsers.GetParser | backend/bank_parsers.py:334-341 | the first of Indian Bank, SBI and HDFC whose indicators occur (BankParsers.CanParse), and Indian Bank when none does |
| BankParsers.ParseStatement | backend/bank_parsers.py:343-347 | an Indian Bank or unrecognised statement gives the Indian Bank result; an SBI or HDFC one gives nothing |
| BankParsers.StatementHeadingMeansIndianBank | backend/bank_parsers.py:31-37 | any text saying "Account Statement" or "Statement of Account" is claimed by the Indian Bank parser |
| App.LastDot | backend/app.py:27 | the position of the last '.', or None when there is none |
| App.AllowedFile | backend/app.py:26-27 | an allowed name contains a '.' |
| App.AllowedFileExtension | backend/app.py:26-27 | a name is allowed iff the lower-cased text after its last '.' is pdf, xls or xlsx |
| App.FormatDayFirst | backend/app.py:195-212 | a day-first date formats (App.FormatDate) to its ISO form |
| App.FormatDateAgrees | backend/app.py:190-216 | on a 3-part split this formatter agrees with the `test_app.py` day-first rule; otherwise it returns its input where that rule gives today |
| App.FormatDateKeeps | backend/app.py:196-214 | a string without '/' and '-' comes back unchanged |
| App.TimeSwallowedByYear | backend/app.py:196-212 | a timestamped `D/M/YYYY hh:mm` cell (which `parse_indian_bank_row` accepts) formats with the time inside the year field |
| App.DetectCategory | backend/app.py:249-266 | the category is one of the six names |
| App.DetectCategoryCaseless | backend/app.py:253 | the classifier ignores letter case |
| App.SalaryKeywordRedundant | backend/app.py:259 | the "salary" keyword is subsumed by "sal" |
| App.Or | backend/app.py:236-240 | `dict.get(key, default)`: the stored value when present, the default otherwise |
| App.PlainNumberFloat | backend/app.py:142-143 | every cell matching `^\d+\.?\d*$` parses to a value >= 0 |
| App.DateCell | backend/app.py:117-124 | the first cell with a day-first prefix: no earlier cell has one, and None means none has |
| App.DescriptionAfter | backend/app.py:129-133 | the description is the first non-empty, non-numeric cell after the date, or empty when there is none |
| App.LastNumber | backend/app.py:140-147 | the last plain-numeric cell, scanning from the right; None when there is none |
| App.IndianRow | backend/app.py:109-159 | a result has an amount >= 0, "one-time" and a type |
| App.UndatedRowSkipped | backend/app.py:117-127 | a row with no date-prefixed cell gives None |
| App.DatedRowKept | backend/app.py:117-156 | a row whose first date-prefixed cell is `i` gives the entry dated by that cell (App.DatedEntry), described by the first later non-numeric cell and priced by the rightmost number |
| App.BuildEntry | backend/app.py:129-156 | the description loop and the right-to-left amount loop together build the entry for the found date cell |
| App.ParseIndianBankRow | backend/app.py:109-159 | the loops of `parse_indian_bank_row` equal the row function |
| App.FindDateCell | backend/app.py:118-124 | the date loop finds the first date-prefixed cell |
| App.FindDescription | backend/app.py:130-134 | the description loop finds the first non-empty non-numeric later cell |
| App.FindLastNumber | backend/app.py:140-147 | the right-to-left loop finds the last numeric cell |
| App.LastColumnCredit | backend/app.py:140-146 | once the date cell is found, a last cell that is numeric makes the entry a credit of that cell's value, even when it is a balance column |
| App.NoNumberZeroDebit | backend/app.py:137-155 | once the date cell is found, a row without numeric cells is still an entry: amount 0, debit |
| App.TextLine | backend/app.py:171-183 | a line gives an entry iff the pattern matches; it is a non-negative "one-time" debit with a single-line description |
| App.ExtractFromTextPatterns | backend/app.py:162-187 | the line loop collects the entry of every matching line, in order |
| App.ExtractFromLines | backend/app.py:169-185 | the per-line loop collects the matching lines in order |
| App.TextEntriesDebits | backend/app.py:177-183 | every text entry is a "one-time" debit |
| App.BasicRow | backend/app.py:92-99 | a table row contributes only with 4+ cells and a first cell without a case-sensitive header word, and then it is `parse_indian_bank_row`'s result |
| App.ExtractPdfBasic | backend/app.py:78-106 | the page loop equals the page-by-page specification (App.BasicPages, one App.PageStep per page): pages without text are skipped, table rows are appended, and the text fallback runs while nothing is collected |
| App.PageStep | backend/app.py:83-104 | a page only appends to what earlier pages gave, and a page without text adds nothing |
| App.BasicPagesGrow | backend/app.py:79-106 | what the first k pages give is a prefix of what all pages give |
| App.PooledText | backend/app.py:44-50 | the pooled text is empty or ends with a newline |
| App.PooledTextEmpty | backend/app.py:47-50 | the pooled text is empty exactly when no page has text |
| App.PooledTablesFromPages | backend/app.py:52-55 | every table of every page is pooled, and every pooled table comes from a page |
| App.ExtractPdfSmart | backend/app.py:34-63 | the page loop pools text and tables as specified and hands them to `parse_statement` |
| App.AppendTableRows | backend/app.py:89-99 | the table loop appends the accepted rows of all tables in order |
| App.AppendRows | backend/app.py:91-99 | the row loop appends the accepted rows of one table |
| App.TextOnlyWhileEmpty | backend/app.py:101-104 | once something is collected, a further page only adds its table rows, never its text rows |
| App.Normalized | backend/app.py:234-243 | a normalised entry has the given id and the category of its description |
| App.NormalizeTransactions | backend/app.py:227-246 | same length, and entry i becomes its normalised form with id i+1 |
| App.NormalizedDefaults | backend/app.py:236-240 | missing date and description become "", amount 0, type debit, frequency "one-time" |
| App.NormalizedNumbered | backend/app.py:235 | the normalised list is numbered 1..n in order |
| App.Positions | backend/app.py:274-279 | the group of a key lists, in increasing order, exactly the positions with that (description, amount) key |
| App.MarkRecurring | backend/app.py:269-287 | position i becomes "recurring" exactly when its group is larger than one; all else is unchanged |
| App.DetectFrequency | backend/app.py:269-287 | the grouping and marking loops equal the marking specification |
| App.MarkGroup | backend/app.py:283-285 | marking a group changes exactly the positions in it |
| App.GroupByKey | backend/app.py:274-279 | each present key maps to its positions, and an absent key has none |
| App.RecurringIff | backend/app.py:276-285 | a transaction is marked iff another transaction shares its key |
| App.PositionsMarked | backend/app.py:282-285 | marking does not change any group |
| App.DetectFrequencyIdempotent | backend/app.py:269-287 | detecting recurrence twice is detecting it once |

## Left out

- Reading files is not part of this model. This covers pdfplumber page and table extraction, pandas CSV/Excel reading (`on_bad_lines`, dtype conversion, `str(cell)` of non-string cells), Flask routes, file save and removal, CORS and the database. The readers take the already-extracted tables, rows and page text as parameters.
- The model takes `datetime.now()` as the `today` parameter.
- Python `float()` is modelled on decimal literals only: sign, digits, point and exponent. `nan`, `inf`, underscores and binary rounding are not modelled, and amounts are exact reals.
- `\s`, `\d`, `\w` and `lower()` are modelled on ASCII only: `\s` is the space, tab to carriage return and the separators 0x1C-0x1F, as in `str.strip()`. Non-ASCII whitespace, Unicode digits and case mappings are not modelled.
- Exceptions are modelled by their handlers' results. The `except` branch of `app.py`'s `format_date` cannot be reached (`split` and `zfill` do not raise), so that formatter has no `today` parameter.
- The dictionaries the code mutates (`transaction['id'] = …`, `trans['frequency'] = 'recurring'`) are modelled as values. The result is a new list; aliasing between the input list and the output is not modelled. `detect_frequency`'s groups hold positions rather than references to the same dictionaries.
- App.Normalized: the `'actions': 'edit,delete'` field is constant and is not modelled. `float(trans.get('amount', 0))` is modelled on amounts that are already numbers.
- App.IndianRow: a parsed entry's `type` is a direction. Spreadsheet records with other `type` strings (from `extract_excel`) are not modelled.
- `extract_excel` (`backend/app.py:219-224`) is not part of this model, because it is a bare pandas call.
- App.ExtractPdfSmart: opening the PDF and reading each page's text and tables with pdfplumber are not modelled; the pages arrive as a parameter. The fallback to `extract_pdf_basic` on an exception (`backend/app.py:65-69`) is not modelled either, because the exceptions it guards against come from reading the file; the modelled factory gives a result for every text and table list.
- Patterns.SearchSound: the span it exhibits fixes where the match starts, and its date group, but not which description/amount split the backtracking regex engine would pick among several; the scanner's choice (the `\s+` after the date as long as it can be, then the shortest description, then the greedy amount, which is the engine's order of trying) is the definition of Patterns.MatchAfterDate and is not stated as a separate property.
- Patterns.AmountLexeme: the grouped amount `\d+(?:,\d{3})*\.?\d*` is modelled by the greedy scanner `AmountEnd`; the declarative span predicate accepts any amount lexeme of that scanner's shape (`1,2` included), which is looser than the regular expression. Whether a line matches at a position is unaffected, because every such lexeme starts with digits the regular expression accepts on their own.
- In `test_app.py`'s PDF loop, the page text is read but unused, because the text fallback there is commented out. The model's pages are lists of tables.
- `re.IGNORECASE` in `_parse_text` has no effect on the two patterns (digits, whitespace and `\w` only), so the model does not model it.
- BankParsers.Row: the dictionary `_parse_row` returns has no `id` key. The model gives it id 0.
- BankParsers.GetParser: the factory's `parsers` list is a constant sequence scanned in order, not an object field. It is never reassigned after construction.
- The ML forecaster, the Node servers, the React front end and the AI services are outside this core.
