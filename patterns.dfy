/** The regular expressions of the extraction engine, each written out as a
    deterministic scanner.  Where a pattern can match in more than one way,
    the scanner follows the order of Python's backtracking matcher: greedy
    quantifiers try the longest run first, the lazy `(.+?)` the shortest,
    and `re.search` the leftmost start. */
module Patterns {
  import opened Text
  import opened Numbers

  predicate IsDateSep(c: char) {
    c == '/' || c == '-'
  }

  // ---------------------------------------------------------------------
  // `\d{1,2}[/-]\d{1,2}[/-]\d{2,4}` anchored at the start (`re.match`)
  // ---------------------------------------------------------------------

  /** Length of the match of `\d{1,2}[/-]\d{1,2}[/-]\d{2,4}` at the start of `s`. */
  function DmyPrefix(s: string): (r: Option<nat>)
    ensures r.Some? ==> 6 <= r.value <= |s|
  {
    var a := DigitRunEnd(s, 0);
    if !(1 <= a <= 2 && a < |s| && IsDateSep(s[a])) then None
    else
      var b := DigitRunEnd(s, a + 1);
      if !(1 <= b - a - 1 <= 2 && b < |s| && IsDateSep(s[b])) then None
      else
        var c := DigitRunEnd(s, b + 1);
        if c - b - 1 < 2 then None
        else Some(if c - b - 1 > 4 then b + 5 else c)
  }

  /** The same regular expression read declaratively: `s` starts with `a`
      digits, a separator, `b` digits, a separator and `c` digits. */
  ghost predicate DmyShape(s: string, a: nat, b: nat, c: nat) {
    && 1 <= a <= 2 && 1 <= b <= 2 && 2 <= c <= 4 && a + b + c + 2 <= |s|
    && AllDigits(s[..a]) && IsDateSep(s[a])
    && AllDigits(s[a + 1..a + 1 + b]) && IsDateSep(s[a + 1 + b])
    && AllDigits(s[a + b + 2..a + b + 2 + c])
  }

  /** What the scanner reports is a match of the regular expression. */
  lemma {:induction false} DmyPrefixSound(s: string)
    requires DmyPrefix(s).Some?
    ensures exists a: nat, b: nat, c: nat :: DmyShape(s, a, b, c) && DmyPrefix(s).value == a + b + c + 2
  {
    var a := DigitRunEnd(s, 0);
    var b := DigitRunEnd(s, a + 1);
    var c := DigitRunEnd(s, b + 1);
    var cl := if c - b - 1 > 4 then 4 else c - b - 1;
    assert DmyShape(s, a, b - a - 1, cl);
  }

  /** Every match of the regular expression is found, and the scanner's is
      the longest (the greedy `\d{2,4}`). */
  lemma {:induction false} DmyPrefixGreedy(s: string, a: nat, b: nat, c: nat)
    requires DmyShape(s, a, b, c)
    ensures DmyPrefix(s).Some? && DmyPrefix(s).value >= a + b + c + 2
  {
    DigitRunEndIs(s, 0, a);
    DigitRunEndIs(s, a + 1, a + 1 + b);
    DigitRunEndAtLeast(s, a + b + 2, a + b + 2 + c);
  }

  // ---------------------------------------------------------------------
  // Whole-string date shapes (`^...$` after `strip()`)
  // ---------------------------------------------------------------------

  /** `s.split(sep)` gives three digit fields of the given length ranges. */
  predicate ThreeFields(s: string, seps: set<char>,
                        lo0: nat, hi0: nat, lo1: nat, hi1: nat, lo2: nat, hi2: nat)
  {
    var p := SplitBy(s, seps);
    |p| == 3 && DigitsBetween(p[0], lo0, hi0) && DigitsBetween(p[1], lo1, hi1)
    && DigitsBetween(p[2], lo2, hi2)
  }

  /** `^\d{1,2}S\d{1,2}S\d{2,4}$` with `S` any of `seps`. */
  predicate DayMonthYear(s: string, seps: set<char>) {
    ThreeFields(s, seps, 1, 2, 1, 2, 2, 4)
  }

  /** `^\d{4}S\d{1,2}S\d{1,2}$` with `S` any of `seps`. */
  predicate YearMonthDay(s: string, seps: set<char>) {
    ThreeFields(s, seps, 4, 4, 1, 2, 1, 2)
  }

  /** `^\d{1,2}:\d{2}(:\d{2})?$` */
  predicate IsClock(t: string) {
    var p := SplitBy(t, {':'});
    (|p| == 2 || |p| == 3) && DigitsBetween(p[0], 1, 2) && DigitsBetween(p[1], 2, 2)
    && (|p| == 3 ==> DigitsBetween(p[2], 2, 2))
  }

  /** No whitespace at either end (what `^` and `$` need once nothing else may be there). */
  predicate Unpadded(s: string) {
    s == [] || (!IsSpace(s[0]) && !IsSpace(s[|s| - 1]))
  }

  /** `^DATE\s+\d{1,2}:\d{2}(:\d{2})?$` with DATE day-first or year-first. */
  predicate DateWithClock(s: string, seps: set<char>, yearFirst: bool) {
    var w := SplitWs(s);
    Unpadded(s) && |w| == 2 && IsClock(w[1])
    && (if yearFirst then YearMonthDay(w[0], seps) else DayMonthYear(w[0], seps))
  }

  /** A date field, one space and a clock make the date-and-time shape. */
  lemma {:induction false} DateWithClockOf(date: string, clock: string, seps: set<char>, yearFirst: bool)
    requires date != [] && NoSpace(date) && clock != [] && NoSpace(clock) && IsClock(clock)
    requires if yearFirst then YearMonthDay(date, seps) else DayMonthYear(date, seps)
    ensures DateWithClock(date + " " + clock, seps, yearFirst)
  {
    var x := date + " " + clock;
    SplitWsTwo(date, clock);
    var w := SplitWs(x);
    assert w[0] == date && w[1] == clock;
    assert Unpadded(x) by {
      assert x[0] == date[0] && x[|x| - 1] == clock[|clock| - 1];
    }
  }

  /** `^\d{1,2}\s+\w{3}\s+\d{4}$` */
  predicate SpacedMonthDate(s: string) {
    var w := SplitWs(s);
    Unpadded(s) && |w| == 3 && DigitsBetween(w[0], 1, 2)
    && |w[1]| == 3 && AllWordChars(w[1]) && DigitsBetween(w[2], 4, 4)
  }

  /** `^\d{1,2}\w{3}\d{4}$`: eight or nine characters, the day taking what the
      three-letter month and four-digit year leave. */
  predicate CompactMonthDate(s: string) {
    (|s| == 8 || |s| == 9)
    && var k := |s| - 7;
    AllDigits(s[..k]) && AllWordChars(s[k..k + 3]) && AllDigits(s[k + 3..])
  }

  // ---------------------------------------------------------------------
  // `\d{1,2}\s*\w{3}\s*\d{4}` and `\d{1,2}\s+\w{3}\s+\d{4}` at the start
  // ---------------------------------------------------------------------

  /** After a day of `k` digits: (spaces) three word characters (spaces) four digits. */
  predicate MonthAfterDay(s: string, k: nat, spaced: bool)
    requires k <= |s|
  {
    var i := SpaceRunEnd(s, k);
    (!spaced || i > k) && i + 3 <= |s| && AllWordChars(s[i..i + 3])
    && var j := SpaceRunEnd(s, i + 3);
    (!spaced || j > i + 3) && j + 4 <= |s| && AllDigits(s[j..j + 4])
  }

  /** `re.match(r'\d{1,2}\s*\w{3}\s*\d{4}', s)` when `spaced` is false,
      `re.match(r'\d{1,2}\s+\w{3}\s+\d{4}', s)` when it is true. */
  predicate MonthPrefix(s: string, spaced: bool) {
    |s| >= 1 && IsDigit(s[0])
    && (MonthAfterDay(s, 1, spaced) || (|s| >= 2 && IsDigit(s[1]) && MonthAfterDay(s, 2, spaced)))
  }

  // ---------------------------------------------------------------------
  // Text-line patterns: `(DATE)\s+(.+?)\s+(AMOUNT)` found by `re.search`
  // ---------------------------------------------------------------------

  /** The two date groups: `\d{1,2}[/-]\d{1,2}[/-]\d{2,4}` and `\d{1,2}\s+\w{3}\s+\d{4}`. */
  datatype DateSyntax = SlashOrDash | SpacedMonth

  /** The two amount groups: `\d+(?:,\d{3})*\.?\d*` and `\d+\.?\d*`. */
  datatype AmountSyntax = Grouped | Plain

  /** The three groups of a match. */
  datatype LineMatch = LineMatch(date: string, description: string, amount: string)

  /** End of the date group when it matches at `p`. */
  function DateGroupEnd(s: string, p: nat, syntax: DateSyntax): (r: Option<nat>)
    requires p <= |s|
    ensures r.Some? ==> p < r.value <= |s|
  {
    match syntax
    case SlashOrDash => DmyGroupEnd(s, p)
    case SpacedMonth => SpacedGroupEnd(s, p)
  }

  /** `\d{1,2}[/-]\d{1,2}[/-]\d{2,4}` at `p`. */
  function DmyGroupEnd(s: string, p: nat): (r: Option<nat>)
    requires p <= |s|
    ensures r.Some? ==> p < r.value <= |s|
  {
    match DmyPrefix(s[p..])
    case None => None
    case Some(k) => Some(p + k)
  }

  /** `\d{1,2}\s+\w{3}\s+\d{4}` at `p`: every part is greedy, and no part
      can give back a character the next one would accept. */
  function SpacedGroupEnd(s: string, p: nat): (r: Option<nat>)
    requires p <= |s|
    ensures r.Some? ==> p < r.value <= |s|
  {
    var a := DigitRunEnd(s, p);
    if !(1 <= a - p <= 2) then None
    else
      var i := SpaceRunEnd(s, a);
      if i == a || i + 3 > |s| || !AllWordChars(s[i..i + 3]) then None
      else
        var j := SpaceRunEnd(s, i + 3);
        if j == i + 3 || j + 4 > |s| || !AllDigits(s[j..j + 4]) then None
        else Some(j + 4)
  }

  /** `(?:,\d{3})*` taken greedily from `i`. */
  function GroupsEnd(s: string, i: nat): (j: nat)
    requires i <= |s|
    ensures i <= j <= |s|
    ensures forall k :: i <= k < j ==> IsDigit(s[k]) || s[k] == ','
    decreases |s| - i
  {
    if i + 4 <= |s| && s[i] == ',' && AllDigits(s[i + 1..i + 4]) then
      var j := GroupsEnd(s, i + 4);
      assert forall k :: i + 1 <= k < i + 4 ==> IsDigit(s[k]) by {
        forall k | i + 1 <= k < i + 4 ensures IsDigit(s[k]) {
          assert s[k] == s[i + 1..i + 4][k - i - 1];
        }
      }
      j
    else i
  }

  /** `\d+(?:,\d{3})*\.?\d*` or `\d+\.?\d*` from a digit at `r`: every part is
      greedy and nothing follows the group, so the first attempt is the match. */
  function AmountEnd(s: string, r: nat, syntax: AmountSyntax): (e: nat)
    requires r < |s| && IsDigit(s[r])
    ensures r < e <= |s|
    ensures AmountLexeme(s[r..e], syntax)
  {
    var i := DigitRunEnd(s, r);
    var g := if syntax == Grouped then GroupsEnd(s, i) else i;
    var d := if g < |s| && s[g] == '.' then g + 1 else g;
    var e := DigitRunEnd(s, d);
    LexemeOf(s, r, g, d, e, syntax);
    e
  }

  /** The shape of an amount group: a digit, then digits (and commas when
      grouped) up to an optional point, then digits. */
  predicate AmountLexeme(t: string, syntax: AmountSyntax) {
    |t| >= 1 && IsDigit(t[0])
    && var p := IndexOfAny(t, {'.'});
    (forall i :: 0 <= i < p ==> IsDigit(t[i]) || (syntax == Grouped && t[i] == ','))
    && (p < |t| ==> AllDigits(t[p + 1..]))
  }

  lemma {:induction false} LexemeOf(s: string, r: nat, g: nat, d: nat, e: nat, syntax: AmountSyntax)
    requires r < g <= d <= e <= |s| && IsDigit(s[r])
    requires forall k :: r <= k < g ==> IsDigit(s[k]) || (syntax == Grouped && s[k] == ',')
    requires d == g || (d == g + 1 && s[g] == '.')
    requires forall k :: d <= k < e ==> IsDigit(s[k])
    ensures AmountLexeme(s[r..e], syntax)
  {
    var a := s[r..g];
    assert forall k :: 0 <= k < |a| ==> a[k] == s[r + k];
    if d == g + 1 {
      assert s[r..e] == a + ['.'] + s[d..e];
      LexemeWithPoint(a, s[d..e], syntax);
    } else {
      assert s[r..e] == a + s[g..e];
      LexemeWithoutPoint(a, s[g..e], syntax);
    }
  }

  lemma {:induction false} LexemeWithPoint(a: string, b: string, syntax: AmountSyntax)
    requires a != [] && IsDigit(a[0]) && AllDigits(b)
    requires forall k :: 0 <= k < |a| ==> IsDigit(a[k]) || (syntax == Grouped && a[k] == ',')
    ensures AmountLexeme(a + ['.'] + b, syntax)
  {
    var t := a + ['.'] + b;
    IndexOfAnyAfter(a, '.', b, {'.'});
    assert t[|a| + 1..] == b;
    assert forall k :: 0 <= k < |a| ==> t[k] == a[k];
  }

  lemma {:induction false} LexemeWithoutPoint(a: string, b: string, syntax: AmountSyntax)
    requires a != [] && IsDigit(a[0]) && AllDigits(b)
    requires forall k :: 0 <= k < |a| ==> IsDigit(a[k]) || (syntax == Grouped && a[k] == ',')
    ensures AmountLexeme(a + b, syntax)
  {
    var t := a + b;
    assert forall k :: 0 <= k < |t| ==> t[k] != '.' by {
      forall k | 0 <= k < |t| ensures t[k] != '.' {
        if k < |a| { assert t[k] == a[k]; } else { assert t[k] == b[k - |a|]; }
      }
    }
    IndexOfAnyAbsent(t, {'.'});
  }

  /** After `e` comes `\s+` and then the first digit of the amount. */
  predicate AmountFollows(s: string, e: nat)
    requires e <= |s|
  {
    e < |s| && IsSpace(s[e]) && var r := SpaceRunEnd(s, e); r < |s| && IsDigit(s[r])
  }

  /** The lazy `(.+?)`: the least end `e' >= e` of a description (that cannot
      cross a newline) after which the rest of the pattern matches. */
  function LazyEnd(s: string, e: nat): (r: Option<nat>)
    requires 1 <= e <= |s|
    ensures r.Some? ==> e <= r.value < |s| && AmountFollows(s, r.value)
    ensures r.Some? ==> forall k :: e - 1 <= k < r.value ==> s[k] != '\n'
    decreases |s| - e
  {
    if e == |s| || s[e - 1] == '\n' then None
    else if AmountFollows(s, e) then Some(e)
    else LazyEnd(s, e + 1)
  }

  /** `\s+(.+?)` from `g` with the `\s+` taking `w` characters first and
      giving them back one at a time: the description's bounds. */
  function DescriptionFrom(s: string, g: nat, w: nat): (r: Option<(nat, nat)>)
    requires 1 <= w && g + w <= |s|
    ensures r.Some? ==> g < r.value.0 <= g + w && r.value.0 < r.value.1 < |s| && AmountFollows(s, r.value.1)
    ensures r.Some? ==> forall k :: r.value.0 <= k < r.value.1 ==> s[k] != '\n'
    decreases w
  {
    var start := g + w;
    var found := if start < |s| then LazyEnd(s, start + 1) else None;
    if found.Some? then Some((start, found.value))
    else if w > 1 then DescriptionFrom(s, g, w - 1)
    else None
  }

  /** The whole pattern tried at start position `p`. */
  function MatchAt(s: string, p: nat, ds: DateSyntax, am: AmountSyntax): (r: Option<LineMatch>)
    requires p <= |s|
    ensures r.Some? ==> |r.value.description| >= 1 && '\n' !in r.value.description
    ensures r.Some? ==> AmountLexeme(r.value.amount, am)
  {
    match DateGroupEnd(s, p, ds)
    case None => None
    case Some(g) => MatchAfterDate(s, p, g, am)
  }

  /** `\s+(.+?)\s+(AMOUNT)` after a date group `s[p..g]`. */
  function MatchAfterDate(s: string, p: nat, g: nat, am: AmountSyntax): (r: Option<LineMatch>)
    requires p < g <= |s|
    ensures r.Some? ==> |r.value.description| >= 1 && '\n' !in r.value.description
    ensures r.Some? ==> AmountLexeme(r.value.amount, am)
  {
    match DescriptionBounds(s, g)
    case None => None
    case Some(bounds) => Some(Assemble(s, p, g, bounds, am))
  }

  /** The description the pattern takes after a date group ending at `g`,
      once the `\s+` after the date has given back what it must. */
  function DescriptionBounds(s: string, g: nat): (r: Option<(nat, nat)>)
    requires g <= |s|
    ensures r.Some? ==> g < r.value.0 < r.value.1 < |s| && AmountFollows(s, r.value.1)
    ensures r.Some? ==> forall k :: g <= k < r.value.0 ==> IsSpace(s[k])
    ensures r.Some? ==> forall k :: r.value.0 <= k < r.value.1 ==> s[k] != '\n'
  {
    if g < |s| && IsSpace(s[g]) then DescriptionFrom(s, g, SpaceRunEnd(s, g) - g) else None
  }

  /** The three groups, the amount taken greedily after the whitespace that
      follows the description. */
  function Assemble(s: string, p: nat, g: nat, bounds: (nat, nat), am: AmountSyntax): (m: LineMatch)
    requires p < g < bounds.0 < bounds.1 < |s| && AmountFollows(s, bounds.1)
    requires forall k :: bounds.0 <= k < bounds.1 ==> s[k] != '\n'
    ensures |m.description| >= 1 && '\n' !in m.description
    ensures AmountLexeme(m.amount, am)
  {
    var r := SpaceRunEnd(s, bounds.1);
    var e := AmountEnd(s, r, am);
    LineMatch(s[p..g], s[bounds.0..bounds.1], s[r..e])
  }

  /** `re.search`'s scan: the leftmost start position from `p` on at which
      the pattern matches. */
  function SearchStart(s: string, p: nat, ds: DateSyntax, am: AmountSyntax): (r: Option<nat>)
    requires p <= |s|
    ensures r.Some? ==> p <= r.value <= |s| && MatchAt(s, r.value, ds, am).Some?
    ensures r.Some? ==> forall j :: p <= j < r.value ==> MatchAt(s, j, ds, am).None?
    ensures r.None? ==> forall j :: p <= j <= |s| ==> MatchAt(s, j, ds, am).None?
    decreases |s| - p
  {
    if MatchAt(s, p, ds, am).Some? then Some(p)
    else if p == |s| then None
    else SearchStart(s, p + 1, ds, am)
  }

  /** `re.search`: the match at the leftmost start position. */
  function Search(s: string, ds: DateSyntax, am: AmountSyntax): (r: Option<LineMatch>)
    ensures r.Some? ==> |r.value.description| >= 1 && '\n' !in r.value.description
    ensures r.Some? ==> AmountLexeme(r.value.amount, am)
  {
    match SearchStart(s, 0, ds, am)
    case None => None
    case Some(p) => MatchAt(s, p, ds, am)
  }

  // ---------------------------------------------------------------------
  // The line pattern read declaratively
  // ---------------------------------------------------------------------

  /** Where the parts of a match lie.  For `\d{1,2}[/-]\d{1,2}[/-]\d{2,4}`,
      `x`, `y` and `z` are the lengths of the three digit fields; for
      `\d{1,2}\s+\w{3}\s+\d{4}`, `x` is the length of the day, `y` where the
      month starts and `z` where the year starts.  The description is
      `s[descStart..descEnd]` and the amount `s[amountStart..amountEnd]`. */
  datatype Span = Span(x: nat, y: nat, z: nat, descStart: nat, descEnd: nat, amountStart: nat, amountEnd: nat)

  /** Where the date group of a span ends. */
  function DateEnd(p: nat, sp: Span, ds: DateSyntax): nat {
    match ds
    case SlashOrDash => p + sp.x + sp.y + sp.z + 2
    case SpacedMonth => sp.z + 4
  }

  /** The date group matches from `p` with the parts `sp` gives it. */
  ghost predicate DateShapeAt(s: string, p: nat, sp: Span, ds: DateSyntax) {
    p <= |s| &&
    match ds
    case SlashOrDash => DmyShape(s[p..], sp.x, sp.y, sp.z)
    case SpacedMonth => SpacedShape(s, p, sp)
  }

  /** `\d{1,2}\s+\w{3}\s+\d{4}` from `p`: the day is `s[p..p+x]`, the
      month `s[y..y+3]` and the year `s[z..z+4]`. */
  ghost predicate SpacedShape(s: string, p: nat, sp: Span) {
    && 1 <= sp.x <= 2 && p + sp.x < sp.y && sp.y + 3 < sp.z && sp.z + 4 <= |s|
    && (forall k :: p <= k < p + sp.x ==> IsDigit(s[k]))
    && (forall k :: p + sp.x <= k < sp.y ==> IsSpace(s[k]))
    && (forall k :: sp.y <= k < sp.y + 3 ==> IsWordChar(s[k]))
    && (forall k :: sp.y + 3 <= k < sp.z ==> IsSpace(s[k]))
    && (forall k :: sp.z <= k < sp.z + 4 ==> IsDigit(s[k]))
  }

  /** `(DATE)\s+(.+?)\s+(AMOUNT)` matches from `p` with its parts where `sp`
      puts them: the date, whitespace, a description without a newline,
      whitespace, and an amount. */
  ghost predicate Spans(s: string, p: nat, sp: Span, ds: DateSyntax, am: AmountSyntax) {
    DateShapeAt(s, p, sp, ds) && TailSpans(s, DateEnd(p, sp, ds), sp, am)
  }

  /** The part of a span after the date group, which ends at `g`. */
  ghost predicate TailSpans(s: string, g: nat, sp: Span, am: AmountSyntax) {
    && g < sp.descStart < sp.descEnd < sp.amountStart < sp.amountEnd <= |s|
    && (forall k :: g <= k < sp.descStart ==> IsSpace(s[k]))
    && (forall k :: sp.descStart <= k < sp.descEnd ==> s[k] != '\n')
    && (forall k :: sp.descEnd <= k < sp.amountStart ==> IsSpace(s[k]))
    && AmountLexeme(s[sp.amountStart..sp.amountEnd], am)
  }

  /** The three groups of a span. */
  function Groups(s: string, p: nat, sp: Span, ds: DateSyntax): LineMatch
    requires p <= DateEnd(p, sp, ds) <= sp.descStart <= sp.descEnd <= sp.amountStart <= sp.amountEnd <= |s|
  {
    LineMatch(s[p..DateEnd(p, sp, ds)], s[sp.descStart..sp.descEnd], s[sp.amountStart..sp.amountEnd])
  }

  /** What `Search` reports is a match of the pattern, and no match starts
      further left. */
  lemma {:induction false} SearchSound(s: string, ds: DateSyntax, am: AmountSyntax) returns (p: nat, sp: Span)
    requires Search(s, ds, am).Some?
    ensures Spans(s, p, sp, ds, am) && Search(s, ds, am).value == Groups(s, p, sp, ds)
    ensures forall q: nat, other: Span :: q < p ==> !Spans(s, q, other, ds, am)
  {
    p := SearchStart(s, 0, ds, am).value;
    sp := MatchAtSound(s, p, ds, am);
    forall q: nat, other: Span | q < p ensures !Spans(s, q, other, ds, am) {
      MatchAtCompletes(s, q, other, ds, am);
    }
  }

  /** A line the pattern matches anywhere is found by `Search`. */
  lemma {:induction false} SearchComplete(s: string, p: nat, sp: Span, ds: DateSyntax, am: AmountSyntax)
    requires Spans(s, p, sp, ds, am)
    ensures Search(s, ds, am).Some?
  {
    MatchAtComplete(s, p, sp, ds, am);
  }

  /** The match the scanner makes at `p` is a match of the pattern. */
  lemma {:induction false} MatchAtSound(s: string, p: nat, ds: DateSyntax, am: AmountSyntax) returns (sp: Span)
    requires p <= |s| && MatchAt(s, p, ds, am).Some?
    ensures Spans(s, p, sp, ds, am) && MatchAt(s, p, ds, am).value == Groups(s, p, sp, ds)
  {
    var g := DateGroupEnd(s, p, ds).value;
    var date := DateGroupSound(s, p, ds);
    var tail := AfterDateSound(s, p, g, am);
    sp := tail.(x := date.x, y := date.y, z := date.z);
    assert DateEnd(p, sp, ds) == g;
    assert TailSpans(s, g, sp, am);
  }

  /** Wherever the pattern matches, the scanner finds a match at that start. */
  lemma {:induction false} MatchAtComplete(s: string, p: nat, sp: Span, ds: DateSyntax, am: AmountSyntax)
    requires Spans(s, p, sp, ds, am)
    ensures MatchAt(s, p, ds, am).Some?
  {
    var g := DateEnd(p, sp, ds);
    assert IsSpace(s[g]);
    DateGroupComplete(s, p, sp, ds);
    AfterDateComplete(s, p, g, sp, am);
  }

  lemma {:induction false} MatchAtCompletes(s: string, p: nat, sp: Span, ds: DateSyntax, am: AmountSyntax)
    requires p <= |s|
    ensures Spans(s, p, sp, ds, am) ==> MatchAt(s, p, ds, am).Some?
  {
    if Spans(s, p, sp, ds, am) {
      MatchAtComplete(s, p, sp, ds, am);
    }
  }

  /** What the scanner takes after the date group has the pattern's shape. */
  lemma {:induction false} AfterDateSound(s: string, p: nat, g: nat, am: AmountSyntax) returns (sp: Span)
    requires p < g <= |s| && MatchAfterDate(s, p, g, am).Some?
    ensures TailSpans(s, g, sp, am)
    ensures MatchAfterDate(s, p, g, am).value == LineMatch(s[p..g], s[sp.descStart..sp.descEnd], s[sp.amountStart..sp.amountEnd])
  {
    var bounds := DescriptionBounds(s, g).value;
    sp := AssembleSpan(s, p, g, bounds, am);
  }

  lemma {:induction false} AssembleSpan(s: string, p: nat, g: nat, bounds: (nat, nat), am: AmountSyntax) returns (sp: Span)
    requires p < g < bounds.0 < bounds.1 < |s| && AmountFollows(s, bounds.1)
    requires forall k :: g <= k < bounds.0 ==> IsSpace(s[k])
    requires forall k :: bounds.0 <= k < bounds.1 ==> s[k] != '\n'
    ensures TailSpans(s, g, sp, am)
    ensures Assemble(s, p, g, bounds, am) == LineMatch(s[p..g], s[sp.descStart..sp.descEnd], s[sp.amountStart..sp.amountEnd])
  {
    var r := SpaceRunEnd(s, bounds.1);
    var e := AmountEnd(s, r, am);
    sp := Span(0, 0, 0, bounds.0, bounds.1, r, e);
  }

  /** After a date group, whitespace, a description and an amount are always found. */
  lemma {:induction false} AfterDateComplete(s: string, p: nat, g: nat, sp: Span, am: AmountSyntax)
    requires p < g <= |s| && TailSpans(s, g, sp, am)
    ensures MatchAfterDate(s, p, g, am).Some?
  {
    AmountFollowsAt(s, sp.descEnd, sp.amountStart, sp.amountEnd, am);
    BoundsComplete(s, g, sp.descStart, sp.descEnd);
  }

  /** Whitespace from `g` to `d0`, then a description up to `d1` that an
      amount follows: the description scan succeeds. */
  lemma {:induction false} BoundsComplete(s: string, g: nat, d0: nat, d1: nat)
    requires g < d0 < d1 < |s| && AmountFollows(s, d1)
    requires forall k :: g <= k < d0 ==> IsSpace(s[k])
    requires forall k :: d0 <= k < d1 ==> s[k] != '\n'
    ensures DescriptionBounds(s, g).Some?
  {
    assert IsSpace(s[g]);
    ScanFinds(s, g, d0, d1);
  }

  lemma {:induction false} ScanFinds(s: string, g: nat, d0: nat, d1: nat)
    requires g < d0 < d1 < |s| && AmountFollows(s, d1)
    requires forall k :: g <= k < d0 ==> IsSpace(s[k])
    requires forall k :: d0 <= k < d1 ==> s[k] != '\n'
    ensures SpaceRunEnd(s, g) >= d0 && DescriptionFrom(s, g, SpaceRunEnd(s, g) - g).Some?
  {
    SpaceRunEndAtLeast(s, g, d0);
    LazyEndComplete(s, d0 + 1, d1);
    GiveBackFinds(s, g, d0);
  }

  /** The whitespace run after the date gives back down to `d0`, where the
      lazy scan succeeds. */
  lemma {:induction false} GiveBackFinds(s: string, g: nat, d0: nat)
    requires g < d0 < |s| && d0 <= SpaceRunEnd(s, g) && LazyEnd(s, d0 + 1).Some?
    ensures DescriptionFrom(s, g, SpaceRunEnd(s, g) - g).Some?
  {
    DescriptionFromComplete(s, g, SpaceRunEnd(s, g) - g, d0 - g);
  }

  /** Whitespace and then an amount group make `AmountFollows`. */
  lemma {:induction false} AmountFollowsAt(s: string, d: nat, r: nat, e: nat, am: AmountSyntax)
    requires d < r < e <= |s| && (forall k :: d <= k < r ==> IsSpace(s[k]))
    requires AmountLexeme(s[r..e], am)
    ensures AmountFollows(s, d)
  {
    assert IsDigit(s[r..e][0]);
    SpaceRunEndIs(s, d, r);
  }

  /** The date group the scanner finds has the shape of the regular expression. */
  lemma {:induction false} DateGroupSound(s: string, p: nat, ds: DateSyntax) returns (sp: Span)
    requires p <= |s| && DateGroupEnd(s, p, ds).Some?
    ensures DateShapeAt(s, p, sp, ds) && DateEnd(p, sp, ds) == DateGroupEnd(s, p, ds).value
  {
    if ds == SlashOrDash {
      sp := DmyGroupSound(s, p);
    } else {
      sp := SpacedGroupSound(s, p);
    }
  }

  lemma {:induction false} DmyGroupSound(s: string, p: nat) returns (sp: Span)
    requires p <= |s| && DmyGroupEnd(s, p).Some?
    ensures DmyShape(s[p..], sp.x, sp.y, sp.z)
    ensures DmyGroupEnd(s, p).value == p + sp.x + sp.y + sp.z + 2
  {
    DmyPrefixSound(s[p..]);
    var a: nat, b: nat, c: nat :| DmyShape(s[p..], a, b, c) && DmyPrefix(s[p..]).value == a + b + c + 2;
    sp := Span(a, b, c, 0, 0, 0, 0);
  }

  lemma {:induction false} SpacedGroupSound(s: string, p: nat) returns (sp: Span)
    requires p <= |s| && SpacedGroupEnd(s, p).Some?
    ensures DateShapeAt(s, p, sp, SpacedMonth) && sp.z + 4 == SpacedGroupEnd(s, p).value
  {
    var a := DigitRunEnd(s, p);
    var i := SpaceRunEnd(s, a);
    var j := SpaceRunEnd(s, i + 3);
    sp := Span(a - p, i, j, 0, 0, 0, 0);
    WordCharsAt(s, i, 3);
    DigitsAt(s, j, 4);
  }

  /** A date group followed by whitespace is the one the scanner finds: no
      shorter or longer reading of it can be followed by whitespace. */
  lemma {:induction false} DateGroupComplete(s: string, p: nat, sp: Span, ds: DateSyntax)
    requires DateShapeAt(s, p, sp, ds)
    requires DateEnd(p, sp, ds) < |s| && IsSpace(s[DateEnd(p, sp, ds)])
    ensures DateGroupEnd(s, p, ds) == Some(DateEnd(p, sp, ds))
  {
    match ds
    case SlashOrDash => DmyGroupComplete(s, p, sp.x, sp.y, sp.z);
    case SpacedMonth => SpacedGroupComplete(s, p, sp);
  }

  lemma {:induction false} DmyGroupComplete(s: string, p: nat, a: nat, b: nat, c: nat)
    requires p <= |s| && DmyShape(s[p..], a, b, c)
    requires p + a + b + c + 2 < |s| && IsSpace(s[p + a + b + c + 2])
    ensures DateGroupEnd(s, p, SlashOrDash) == Some(p + a + b + c + 2)
  {
    var t := s[p..];
    assert t[a + b + c + 2] == s[p + a + b + c + 2];
    DmyPrefixExact(t, a, b, c);
  }

  lemma {:induction false} DmyPrefixExact(t: string, a: nat, b: nat, c: nat)
    requires DmyShape(t, a, b, c) && a + b + c + 2 < |t| && IsSpace(t[a + b + c + 2])
    ensures DmyPrefix(t) == Some(a + b + c + 2)
  {
    DigitRunEndIs(t, 0, a);
    DigitRunEndIs(t, a + 1, a + 1 + b);
    DigitRunEndIs(t, a + b + 2, a + b + 2 + c);
  }

  lemma {:induction false} SpacedGroupComplete(s: string, p: nat, sp: Span)
    requires SpacedShape(s, p, sp)
    requires sp.z + 4 < |s| && IsSpace(s[sp.z + 4])
    ensures DateGroupEnd(s, p, SpacedMonth) == Some(sp.z + 4)
  {
    SpacedRuns(s, p, sp);
    WordCharsAt(s, sp.y, 3);
    DigitsAt(s, sp.z, 4);
  }

  /** Each run the spaced-month scanner takes stops where the shape says. */
  lemma {:induction false} SpacedRuns(s: string, p: nat, sp: Span)
    requires SpacedShape(s, p, sp)
    ensures DigitRunEnd(s, p) == p + sp.x
    ensures SpaceRunEnd(s, p + sp.x) == sp.y
    ensures SpaceRunEnd(s, sp.y + 3) == sp.z
  {
    DigitsAt(s, p, sp.x);
    assert IsSpace(s[p + sp.x]);
    DigitRunEndIs(s, p, p + sp.x);
    assert IsWordChar(s[sp.y]) && IsDigit(s[sp.z]);
    SpaceRunEndIs(s, p + sp.x, sp.y);
    SpaceRunEndIs(s, sp.y + 3, sp.z);
  }

  /** `n` digits from `i`, by position and as a slice. */
  lemma {:induction false} DigitsAt(s: string, i: nat, n: nat)
    requires i + n <= |s|
    ensures AllDigits(s[i..i + n]) <==> forall k :: i <= k < i + n ==> IsDigit(s[k])
  {
    var t := s[i..i + n];
    assert forall k :: 0 <= k < n ==> t[k] == s[i + k];
  }

  /** `n` word characters from `i`, by position and as a slice. */
  lemma {:induction false} WordCharsAt(s: string, i: nat, n: nat)
    requires i + n <= |s|
    ensures AllWordChars(s[i..i + n]) <==> forall k :: i <= k < i + n ==> IsWordChar(s[k])
  {
    var t := s[i..i + n];
    assert forall k :: 0 <= k < n ==> t[k] == s[i + k];
  }

  /** The lazy description scan reaches every end after which an amount follows. */
  lemma {:induction false} LazyEndComplete(s: string, e: nat, d: nat)
    requires 1 <= e <= d < |s| && AmountFollows(s, d)
    requires forall k :: e - 1 <= k < d ==> s[k] != '\n'
    ensures LazyEnd(s, e).Some?
    decreases d - e
  {
    if e < d && !AmountFollows(s, e) {
      LazyEndComplete(s, e + 1, d);
    }
  }

  /** Giving back whitespace one character at a time reaches every start
      from which a description can be found. */
  lemma {:induction false} DescriptionFromComplete(s: string, g: nat, w: nat, w0: nat)
    requires 1 <= w0 <= w && g + w <= |s| && g + w0 < |s|
    requires LazyEnd(s, g + w0 + 1).Some?
    ensures DescriptionFrom(s, g, w).Some?
    decreases w
  {
    if w > w0 {
      DescriptionFromComplete(s, g, w - 1, w0);
    }
  }

  // ---------------------------------------------------------------------
  // Amount groups always convert
  // ---------------------------------------------------------------------

  lemma {:induction false} RemoveCommasSplit(a: string, b: string)
    ensures RemoveChars(a + b, IsAmountNoise) == RemoveChars(a, IsAmountNoise) + RemoveChars(b, IsAmountNoise)
  {
    if a != [] {
      assert (a + b)[0] == a[0] && (a + b)[1..] == a[1..] + b;
      RemoveCommasSplit(a[1..], b);
      if !IsAmountNoise(a[0]) {
        assert [a[0]] + RemoveChars(a[1..], IsAmountNoise) + RemoveChars(b, IsAmountNoise)
            == [a[0]] + (RemoveChars(a[1..], IsAmountNoise) + RemoveChars(b, IsAmountNoise));
      }
    } else {
      assert a + b == b;
    }
  }

  lemma {:induction false} RemoveNoiseDigitsCommas(a: string)
    requires forall i :: 0 <= i < |a| ==> IsDigit(a[i]) || a[i] == ','
    ensures AllDigits(RemoveChars(a, IsAmountNoise))
    ensures |a| > 0 && IsDigit(a[0]) ==> |RemoveChars(a, IsAmountNoise)| > 0
  {
    if a != [] {
      RemoveNoiseDigitsCommas(a[1..]);
      var rest := RemoveChars(a[1..], IsAmountNoise);
      if !IsAmountNoise(a[0]) {
        assert RemoveChars(a, IsAmountNoise) == [a[0]] + rest;
      }
    }
  }

  /** An amount group has no whitespace, so the cleaner only drops its commas. */
  lemma {:induction false} LexemeUnpadded(t: string, syntax: AmountSyntax)
    requires AmountLexeme(t, syntax)
    ensures CleanAmount(t) == RemoveChars(t, IsAmountNoise)
  {
    var p := IndexOfAny(t, {'.'});
    assert NoSpace(t) by {
      forall i | 0 <= i < |t| ensures !IsSpace(t[i]) {
        if i > p { assert t[i] == t[p + 1..][i - p - 1]; }
      }
    }
  }

  /** An amount group converts to a non-negative number: it starts with a
      digit, so `float()` sees no sign. */
  lemma {:induction false} AmountLexemeNonNegative(t: string)
    requires AmountLexeme(t, Grouped)
    ensures ParseFloat(CleanAmount(t)).Some? && ParseFloat(CleanAmount(t)).value >= 0.0
  {
    AmountLexemeParses(t, Grouped);
    CleanAmountHead(t);
    UnsignedFloat(CleanAmount(t));
  }

  /** The cleaned amount group still starts with its first digit. */
  lemma {:induction false} CleanAmountHead(t: string)
    requires AmountLexeme(t, Grouped)
    ensures CleanAmount(t) != [] && IsDigit(CleanAmount(t)[0])
  {
    LexemeUnpadded(t, Grouped);
    RemoveCharsHead(t, IsAmountNoise);
  }

  /** `float()` of a numeral without a sign is not negative. */
  lemma {:induction false} UnsignedFloat(s: string)
    requires s != [] && IsDigit(s[0]) && ParseFloat(s).Some?
    ensures ParseFloat(s).value >= 0.0
  {
  }

  /** A first character that is kept stays first. */
  lemma {:induction false} RemoveCharsHead(s: string, drop: char -> bool)
    requires s != [] && !drop(s[0])
    ensures RemoveChars(s, drop) != [] && RemoveChars(s, drop)[0] == s[0]
  {
  }

  /** The integer part and the point-and-fraction part of an amount group. */
  lemma {:induction false} LexemeParts(t: string, syntax: AmountSyntax)
    requires AmountLexeme(t, syntax)
    ensures var p := IndexOfAny(t, {'.'});
      && p >= 1 && IsDigit(t[..p][0])
      && (forall i :: 0 <= i < p ==> IsDigit(t[..p][i]) || t[..p][i] == ',')
      && (t[p..] == [] || (t[p..][0] == '.' && AllDigits(t[p..][1..])))
  {
    var p := IndexOfAny(t, {'.'});
    if p < |t| { assert t[p..][1..] == t[p + 1..]; }
  }

  /** The text of an amount group, cleaned, is a decimal numeral `float()` accepts:
      the conversion in the text extractors never raises. */
  lemma {:induction false} AmountLexemeParses(t: string, syntax: AmountSyntax)
    requires AmountLexeme(t, syntax)
    ensures ParseFloat(CleanAmount(t)).Some?
  {
    LexemeUnpadded(t, syntax);
    CommaFreeParses(t, syntax);
  }

  lemma {:induction false} CommaFreeParses(t: string, syntax: AmountSyntax)
    requires AmountLexeme(t, syntax)
    ensures ParseFloat(RemoveChars(t, IsAmountNoise)).Some?
  {
    LexemeParts(t, syntax);
    var p := IndexOfAny(t, {'.'});
    assert t[..p] + t[p..] == t;
    LexemeSplit(t[..p], t[p..]);
  }

  lemma {:induction false} LexemeSplit(whole: string, rest: string)
    requires |whole| > 0 && IsDigit(whole[0])
    requires forall i :: 0 <= i < |whole| ==> IsDigit(whole[i]) || whole[i] == ','
    requires rest == [] || (rest[0] == '.' && AllDigits(rest[1..]))
    ensures ParseFloat(RemoveChars(whole + rest, IsAmountNoise)).Some?
  {
    RemoveNoiseDigitsCommas(whole);
    var c := RemoveChars(whole, IsAmountNoise);
    if rest == [] {
      assert whole + rest == whole;
      ParseDigits(c);
    } else {
      RemoveCommasSplit(whole, rest);
      PointClean(rest);
      var x := RemoveChars(whole + rest, IsAmountNoise);
      assert x == c + rest;
      WithPoint(c, rest);
    }
  }

  /** A point followed by digits has nothing for the cleaner to remove. */
  lemma {:induction false} PointClean(rest: string)
    requires rest != [] && rest[0] == '.' && AllDigits(rest[1..])
    ensures RemoveChars(rest, IsAmountNoise) == rest
  {
    forall i | 0 <= i < |rest| ensures !IsAmountNoise(rest[i]) {
      if i > 0 { assert rest[i] == rest[1..][i - 1]; }
    }
  }

  lemma {:induction false} WithPoint(c: string, rest: string)
    requires |c| > 0 && AllDigits(c)
    requires rest != [] && rest[0] == '.' && AllDigits(rest[1..])
    ensures ParseFloat(c + rest).Some?
  {
    PointSplit(c, rest);
    ParseDecimal(c, rest[1..]);
  }

  lemma {:induction false} PointSplit(c: string, rest: string)
    requires rest != [] && rest[0] == '.'
    ensures c + rest == c + "." + rest[1..]
  {
    assert rest == "." + rest[1..];
  }
}
