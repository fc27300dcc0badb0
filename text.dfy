/** Character classes and the Python string operations the extraction engine
    relies on (`strip`, `split`, `lower`, `zfill`, `in`, `replace`), over
    `string` = `seq<char>`.  Only the ASCII part of Python's Unicode classes
    is modelled. */
module Text {

  datatype Option<+T> = None | Some(value: T)

  /** Whitespace as seen by `str.strip()`, `str.split()` and the regex class `\s`:
      the space, tab to carriage return, and the four separators 0x1C-0x1F. */
  predicate IsSpace(c: char) {
    c == ' ' || ('\t' <= c <= '\r') || ('\U{001C}' <= c <= '\U{001F}')
  }

  /** The regex class `\d`. */
  predicate IsDigit(c: char) {
    '0' <= c <= '9'
  }

  /** The regex class `\w`: letters, digits and underscore. */
  predicate IsWordChar(c: char) {
    IsDigit(c) || ('a' <= c <= 'z') || ('A' <= c <= 'Z') || c == '_'
  }

  predicate AllDigits(s: string) {
    forall i :: 0 <= i < |s| ==> IsDigit(s[i])
  }

  predicate AllWordChars(s: string) {
    forall i :: 0 <= i < |s| ==> IsWordChar(s[i])
  }

  predicate NoSpace(s: string) {
    forall i :: 0 <= i < |s| ==> !IsSpace(s[i])
  }

  /** `lo <= len(s) <= hi` and every character a digit: the regex `\d{lo,hi}` matched in full. */
  predicate DigitsBetween(s: string, lo: nat, hi: nat) {
    lo <= |s| <= hi && AllDigits(s)
  }

  function LowerChar(c: char): (r: char)
    ensures 'A' <= c <= 'Z' ==> r as int == c as int + 32
    ensures !('A' <= c <= 'Z') ==> r == c
  {
    if 'A' <= c <= 'Z' then (c as int + 32) as char else c
  }

  /** `s.lower()` */
  function Lower(s: string): (r: string)
    ensures |r| == |s|
    ensures forall i :: 0 <= i < |s| ==> r[i] == LowerChar(s[i])
  {
    if s == [] then [] else [LowerChar(s[0])] + Lower(s[1..])
  }

  /** `needle in hay` for strings: substring containment. */
  predicate Contains(hay: string, needle: string)
    decreases |hay|
  {
    |needle| <= |hay| && (hay[..|needle|] == needle || Contains(hay[1..], needle))
  }

  /** `any(w in hay for w in words)` */
  predicate ContainsAny(hay: string, words: seq<string>) {
    exists k :: 0 <= k < |words| && Contains(hay, words[k])
  }

  lemma {:induction false} ContainsAt(hay: string, needle: string, i: nat)
    requires i + |needle| <= |hay| && hay[i..i + |needle|] == needle
    ensures Contains(hay, needle)
    decreases i
  {
    if i > 0 {
      assert hay[1..][i - 1..i - 1 + |needle|] == hay[i..i + |needle|];
      ContainsAt(hay[1..], needle, i - 1);
    }
  }

  /** Leading whitespace removed (`s.lstrip()`). */
  function TrimLeft(s: string): (r: string)
    ensures |r| <= |s| && r == s[|s| - |r|..]
    ensures forall i :: 0 <= i < |s| - |r| ==> IsSpace(s[i])
    ensures r == [] || !IsSpace(r[0])
  {
    if s != [] && IsSpace(s[0]) then
      var r := TrimLeft(s[1..]);
      assert s[1..][|s| - 1 - |r|..] == s[|s| - |r|..];
      r
    else s
  }

  /** Trailing whitespace removed (`s.rstrip()`). */
  function TrimRight(s: string): (r: string)
    ensures |r| <= |s| && r == s[..|r|]
    ensures forall i :: |r| <= i < |s| ==> IsSpace(s[i])
    ensures r == [] || !IsSpace(r[|r| - 1])
  {
    if s != [] && IsSpace(s[|s| - 1]) then TrimRight(s[..|s| - 1]) else s
  }

  /** `s.strip()` */
  function Strip(s: string): (r: string)
    ensures r == [] || (!IsSpace(r[0]) && !IsSpace(r[|r| - 1]))
    ensures |r| <= |s|
    ensures NoSpace(s) ==> r == s
  {
    TrimRight(TrimLeft(s))
  }

  /** Stripping adds no character. */
  lemma {:induction false} StripKeepsOut(s: string, c: char)
    requires c !in s
    ensures c !in Strip(s)
  {
    assert forall x :: x in TrimLeft(s) ==> x in s;
    assert forall x :: x in TrimRight(TrimLeft(s)) ==> x in TrimLeft(s);
  }

  /** `s.replace(a, b)` for single characters. */
  function ReplaceChar(s: string, a: char, b: char): (r: string)
    ensures |r| == |s|
    ensures forall i :: 0 <= i < |s| ==> r[i] == (if s[i] == a then b else s[i])
  {
    if s == [] then [] else [if s[0] == a then b else s[0]] + ReplaceChar(s[1..], a, b)
  }

  /** Every character of `s` that is in `drop` removed (`re.sub('[...]', '', s)`). */
  function RemoveChars(s: string, drop: char -> bool): (r: string)
    ensures |r| <= |s|
    ensures forall i :: 0 <= i < |r| ==> !drop(r[i])
    ensures (forall i :: 0 <= i < |s| ==> !drop(s[i])) ==> r == s
  {
    if s == [] then []
    else if drop(s[0]) then RemoveChars(s[1..], drop)
    else [s[0]] + RemoveChars(s[1..], drop)
  }

  /** `s.split(sep)` for a separator made of one character out of `seps`
      (Python's `str.split('/')` when `seps == {'/'}`). */
  function SplitBy(s: string, seps: set<char>): (parts: seq<string>)
    ensures |parts| >= 1
    ensures forall k, i :: 0 <= k < |parts| && 0 <= i < |parts[k]| ==> parts[k][i] !in seps
  {
    if s == [] then [""]
    else
      var rest := SplitBy(s[1..], seps);
      if s[0] in seps then [""] + rest
      else [[s[0]] + rest[0]] + rest[1..]
  }

  /** The inverse of `SplitBy` for a one-character separator: `sep.join(parts)`. */
  function Join(parts: seq<string>, sep: char): string
    requires |parts| >= 1
  {
    if |parts| == 1 then parts[0] else parts[0] + [sep] + Join(parts[1..], sep)
  }

  /** Splitting on a single separator and joining back gives the string again. */
  lemma {:induction false} SplitJoin(s: string, sep: char)
    ensures Join(SplitBy(s, {sep}), sep) == s
  {
    if s != [] {
      SplitJoin(s[1..], sep);
      var rest := SplitBy(s[1..], {sep});
      if s[0] != sep {
        if |rest| > 1 {
          assert Join(rest, sep) == rest[0] + [sep] + Join(rest[1..], sep);
        }
      }
    }
  }

  /** Splitting a string that is `a`, a separator, then `b` (with no separator in `a`). */
  lemma {:induction false} SplitCons(a: string, sep: char, b: string, seps: set<char>)
    requires sep in seps
    requires forall i :: 0 <= i < |a| ==> a[i] !in seps
    ensures SplitBy(a + [sep] + b, seps) == [a] + SplitBy(b, seps)
  {
    if a == [] {
      assert a + [sep] + b == [sep] + b;
      assert ([sep] + b)[1..] == b;
    } else {
      assert (a + [sep] + b)[1..] == a[1..] + [sep] + b;
      SplitCons(a[1..], sep, b, seps);
      assert [a[0]] + a[1..] == a;
    }
  }

  /** Splitting a string with no separator at all. */
  lemma {:induction false} SplitNone(a: string, seps: set<char>)
    requires forall i :: 0 <= i < |a| ==> a[i] !in seps
    ensures SplitBy(a, seps) == [a]
  {
    if a != [] {
      SplitNone(a[1..], seps);
      assert [a[0]] + a[1..] == a;
    }
  }

  /** Number of leading non-whitespace characters. */
  function WordLength(s: string): (k: nat)
    ensures k <= |s| && NoSpace(s[..k])
    ensures k < |s| ==> IsSpace(s[k])
  {
    if s == [] || IsSpace(s[0]) then 0
    else
      var k := 1 + WordLength(s[1..]);
      assert s[..k] == [s[0]] + s[1..][..k - 1];
      k
  }

  /** `s.split()` with no argument: the maximal runs of non-whitespace. */
  function SplitWs(s: string): (words: seq<string>)
    ensures forall k :: 0 <= k < |words| ==> words[k] != [] && NoSpace(words[k])
    decreases |s|
  {
    var t := TrimLeft(s);
    if t == [] then []
    else
      var k := WordLength(t);
      var rest := SplitWs(t[k..]);
      WordsCons(t[..k], rest);
      [t[..k]] + rest
  }

  lemma {:induction false} WordsCons(w: string, ws: seq<string>)
    requires w != [] && NoSpace(w)
    requires forall k :: 0 <= k < |ws| ==> ws[k] != [] && NoSpace(ws[k])
    ensures forall k :: 0 <= k < |[w] + ws| ==> ([w] + ws)[k] != [] && NoSpace(([w] + ws)[k])
  {
  }

  /** `re.split(r'\s+', t)` on a string `t` already stripped. */
  function RegexSplitWs(t: string): seq<string>
  {
    if t == [] then [""] else SplitWs(t)
  }

  /** `"0" * n` */
  function Zeros(n: nat): (r: string)
    ensures |r| == n && forall i :: 0 <= i < n ==> r[i] == '0'
  {
    if n == 0 then [] else ['0'] + Zeros(n - 1)
  }

  /** `s.zfill(w)`: pad with zeros on the left to width `w`, after a leading sign. */
  function ZFill(s: string, w: nat): (r: string)
    ensures |r| == if |s| >= w then |s| else w
    ensures |s| >= w ==> r == s
    ensures |s| < w && AllDigits(s) ==> r == Zeros(w - |s|) + s
  {
    if |s| >= w then s
    else if |s| > 0 && (s[0] == '+' || s[0] == '-') then [s[0]] + Zeros(w - |s|) + s[1..]
    else Zeros(w - |s|) + s
  }

  /** `s[:n]` */
  function Take(s: string, n: nat): (r: string)
    ensures |r| == if |s| <= n then |s| else n
    ensures r == s[..|r|]
  {
    if |s| <= n then s else s[..n]
  }

  /** Index of the first whitespace-free position at or after `i`: the end of a run of whitespace. */
  function SpaceRunEnd(s: string, i: nat): (j: nat)
    requires i <= |s|
    ensures i <= j <= |s|
    ensures forall k :: i <= k < j ==> IsSpace(s[k])
    ensures j < |s| ==> !IsSpace(s[j])
    decreases |s| - i
  {
    if i < |s| && IsSpace(s[i]) then SpaceRunEnd(s, i + 1) else i
  }

  /** Index just past the run of digits that starts at `i`. */
  function DigitRunEnd(s: string, i: nat): (j: nat)
    requires i <= |s|
    ensures i <= j <= |s|
    ensures forall k :: i <= k < j ==> IsDigit(s[k])
    ensures j < |s| ==> !IsDigit(s[j])
    decreases |s| - i
  {
    if i < |s| && IsDigit(s[i]) then DigitRunEnd(s, i + 1) else i
  }

  /** `re.sub(r'\s+', ' ', s)`: every maximal run of whitespace becomes one space. */
  function CollapseSpaces(s: string): (r: string)
    ensures |r| <= |s|
    decreases |s|
  {
    if s == [] then []
    else if IsSpace(s[0]) then
      var j := SpaceRunEnd(s, 0);
      [' '] + CollapseSpaces(s[j..])
    else [s[0]] + CollapseSpaces(s[1..])
  }

  /** `re.sub(r'\s*' + c + r'\s*', c, s)`: whitespace runs next to `c` removed.
      `afterC` says whether the character just before `s` was `c`. */
  function SqueezeAround(s: string, c: char, afterC: bool): (r: string)
    ensures |r| <= |s|
    decreases |s|
  {
    if s == [] then []
    else if IsSpace(s[0]) then
      var j := SpaceRunEnd(s, 0);
      if afterC || (j < |s| && s[j] == c) then SqueezeAround(s[j..], c, false)
      else s[..j] + SqueezeAround(s[j..], c, false)
    else [s[0]] + SqueezeAround(s[1..], c, s[0] == c)
  }

  /** The whitespace of `s` is single spaces, none at either end and none
      next to a `/` or a `-`: the form the date cleaners leave a string in. */
  ghost predicate Tidy(s: string) {
    && (forall i :: 0 <= i < |s| && IsSpace(s[i]) ==> s[i] == ' ' && 0 < i < |s| - 1)
    && (forall i, j :: 0 <= i < j < |s| && j == i + 1 ==> TidyPair(s[i], s[j]))
  }

  /** Two neighbouring characters of a tidy string: whitespace is never next
      to whitespace, a `/` or a `-`. */
  predicate TidyPair(a: char, b: char) {
    (IsSpace(a) ==> !IsSpace(b) && b !in {'/', '-'}) && (IsSpace(b) ==> a !in {'/', '-'})
  }

  lemma {:induction false} TidyTail(s: string, k: nat)
    requires Tidy(s) && k <= |s|
    requires k < |s| ==> !IsSpace(s[k])
    ensures Tidy(s[k..])
  {
    var t := s[k..];
    forall i | 0 <= i < |t| && IsSpace(t[i])
      ensures t[i] == ' ' && 0 < i < |t| - 1 && !IsSpace(t[i + 1]) && !IsSpace(t[i - 1])
      ensures t[i - 1] !in {'/', '-'} && t[i + 1] !in {'/', '-'}
    {
      assert s[k + i] == t[i];
    }
  }

  /** The whitespace cleaners of the date functions leave a tidy string unchanged. */
  lemma {:induction false} CollapseTidy(s: string)
    requires Tidy(s)
    ensures CollapseSpaces(s) == s
    decreases |s|
  {
    if s != [] {
      if IsSpace(s[0]) {
        assert false;
      }
      if |s| > 1 && IsSpace(s[1]) {
        assert s[2..] == s[1..][1..];
        TidyTail(s, 2);
        CollapseTidy(s[2..]);
        assert SpaceRunEnd(s[1..], 0) == 1 by {
          assert SpaceRunEnd(s[1..], 1) == 1;
        }
        assert CollapseSpaces(s[1..]) == [' '] + CollapseSpaces(s[2..]);
      } else {
        TidyTail(s, 1);
        CollapseTidy(s[1..]);
      }
    }
  }

  lemma {:induction false} SqueezeTidy(s: string, c: char, afterC: bool)
    requires Tidy(s) && c in {'/', '-'}
    requires afterC ==> s == [] || !IsSpace(s[0])
    ensures SqueezeAround(s, c, afterC) == s
    decreases |s|
  {
    if s != [] {
      if IsSpace(s[0]) {
        assert false;
      }
      if |s| > 1 && IsSpace(s[1]) {
        assert s[1] == ' ' && |s| > 2;
        assert TidyPair(s[0], s[1]) && TidyPair(s[1], s[2]);
        TidyTail(s, 2);
        SqueezeTidy(s[2..], c, false);
        SqueezeOneSpace(s, c, afterC);
        assert s == [s[0], ' '] + s[2..];
      } else {
        TidyTail(s, 1);
        SqueezeTidy(s[1..], c, s[0] == c);
      }
    }
  }

  /** A single space between two characters other than `c` is kept. */
  lemma {:induction false} SqueezeOneSpace(s: string, c: char, afterC: bool)
    requires |s| > 2 && s[1] == ' ' && !IsSpace(s[0]) && !IsSpace(s[2])
    requires s[0] != c && s[2] != c
    ensures SqueezeAround(s, c, afterC) == [s[0], ' '] + SqueezeAround(s[2..], c, false)
  {
    var t := s[1..];
    assert t[1..] == s[2..] && t[1] == s[2];
    assert SpaceRunEnd(t, 1) == 1;
    assert SpaceRunEnd(t, 0) == 1;
    assert t[..1] == [' '];
    assert SqueezeAround(t, c, false) == [' '] + SqueezeAround(s[2..], c, false);
  }

  lemma {:induction false} TidyStrip(s: string)
    requires Tidy(s)
    ensures Strip(s) == s
  {
    assert TrimLeft(s) == s;
    assert TrimRight(s) == s;
  }

  /** A string with no whitespace at either end is its own `strip()`. */
  lemma {:induction false} StripUnpadded(s: string)
    requires s == [] || (!IsSpace(s[0]) && !IsSpace(s[|s| - 1]))
    ensures Strip(s) == s
  {
    assert TrimLeft(s) == s;
    assert TrimRight(s) == s;
  }

  lemma {:induction false} ReplaceAbsent(s: string, a: char, b: char)
    requires a !in s
    ensures ReplaceChar(s, a, b) == s
  {
    if s != [] {
      ReplaceAbsent(s[1..], a, b);
    }
  }

  /** The run of digits from `i` reaches at least `j` when `s[i..j]` is all digits. */
  lemma {:induction false} DigitRunEndAtLeast(s: string, i: nat, j: nat)
    requires i <= j <= |s| && AllDigits(s[i..j])
    ensures DigitRunEnd(s, i) >= j
    decreases j - i
  {
    if i < j {
      assert IsDigit(s[i..j][0]);
      assert s[i + 1..j] == s[i..j][1..];
      DigitRunEndAtLeast(s, i + 1, j);
    }
  }

  /** The run of digits from `i` ends exactly at `j` when `s[i..j]` is all digits and `s[j]` is not. */
  lemma {:induction false} DigitRunEndIs(s: string, i: nat, j: nat)
    requires i <= j <= |s| && AllDigits(s[i..j])
    requires j < |s| ==> !IsDigit(s[j])
    ensures DigitRunEnd(s, i) == j
  {
    DigitRunEndAtLeast(s, i, j);
  }

  /** The run of whitespace from `i` reaches at least `j`. */
  lemma {:induction false} SpaceRunEndAtLeast(s: string, i: nat, j: nat)
    requires i <= j <= |s|
    requires forall k :: i <= k < j ==> IsSpace(s[k])
    ensures SpaceRunEnd(s, i) >= j
    decreases j - i
  {
    if i < j {
      SpaceRunEndAtLeast(s, i + 1, j);
    }
  }

  /** The run of whitespace from `i` ends exactly at `j`. */
  lemma {:induction false} SpaceRunEndIs(s: string, i: nat, j: nat)
    requires i <= j <= |s|
    requires forall k :: i <= k < j ==> IsSpace(s[k])
    requires j < |s| ==> !IsSpace(s[j])
    ensures SpaceRunEnd(s, i) == j
    decreases j - i
  {
    if i < j {
      SpaceRunEndIs(s, i + 1, j);
    }
  }

  /** A word with no whitespace, followed by the end or by whitespace, is the whole first word. */
  lemma {:induction false} WordLengthOf(a: string, rest: string)
    requires NoSpace(a)
    requires rest == [] || IsSpace(rest[0])
    ensures WordLength(a + rest) == |a|
  {
    if a != [] {
      assert (a + rest)[1..] == a[1..] + rest;
      WordLengthOf(a[1..], rest);
    } else {
      assert a + rest == rest;
    }
  }

  /** `split()` of a single word. */
  lemma {:induction false} SplitWsOne(a: string)
    requires a != [] && NoSpace(a)
    ensures SplitWs(a) == [a]
  {
    assert TrimLeft(a) == a;
    WordLengthOf(a, []);
    assert a + [] == a;
    assert WordLength(a) == |a|;
    assert a[..|a|] == a && a[|a|..] == [];
    assert SplitWs([]) == [];
  }

  /** `split()` of a word, one space and the rest of the string. */
  lemma {:induction false} SplitWsCons(a: string, rest: string)
    requires a != [] && NoSpace(a)
    requires rest != [] && !IsSpace(rest[0])
    ensures SplitWs(a + " " + rest) == [a] + SplitWs(rest)
  {
    var t := a + " " + rest;
    assert TrimLeft(t) == t;
    assert t == a + (" " + rest);
    WordLengthOf(a, " " + rest);
    assert t[..|a|] == a;
    assert t[|a|..] == " " + rest;
    assert TrimLeft(" " + rest) == TrimLeft(rest) == rest;
  }
  /** Two words separated by a single space split back into the two words. */
  lemma {:induction false} SplitWsTwo(b: string, c: string)
    requires b != [] && NoSpace(b) && c != [] && NoSpace(c)
    ensures SplitWs(b + " " + c) == [b, c]
  {
    SplitWsCons(b, c);
    SplitWsOne(c);
    PrependOne(b, SplitWs(c), c);
  }

  /** Three words separated by single spaces split back into the three words. */
  lemma {:induction false} SplitWsThree(a: string, b: string, c: string)
    requires a != [] && NoSpace(a) && b != [] && NoSpace(b) && c != [] && NoSpace(c)
    ensures SplitWs(a + " " + b + " " + c) == [a, b, c]
  {
    var t := b + " " + c;
    assert t[0] == b[0];
    assert a + " " + b + " " + c == a + " " + t;
    SplitWsCons(a, t);
    SplitWsTwo(b, c);
    PrependTwo(a, SplitWs(t), b, c);
  }

  lemma {:induction false} PrependOne<T>(x: T, v: seq<T>, y: T)
    requires v == [y]
    ensures [x] + v == [x, y]
  {
  }

  lemma {:induction false} PrependTwo<T>(x: T, v: seq<T>, y: T, z: T)
    requires v == [y, z]
    ensures [x] + v == [x, y, z]
  {
  }




  /** A keyword contains each of its prefixes, so a text that contains the
      keyword contains the prefix too. */
  lemma {:induction false} ContainsPrefix(hay: string, word: string, k: nat)
    requires k <= |word|
    requires Contains(hay, word)
    ensures Contains(hay, word[..k])
    decreases |hay|
  {
    if hay[..|word|] == word {
      assert hay[..k] == word[..k];
    } else {
      ContainsPrefix(hay[1..], word, k);
    }
  }

  /** Lower-casing twice is lower-casing once. */
  lemma {:induction false} LowerIdempotent(s: string)
    ensures Lower(Lower(s)) == Lower(s)
  {
    assert forall i :: 0 <= i < |s| ==> LowerChar(LowerChar(s[i])) == LowerChar(s[i]);
  }
}
