/**
 * Calibration values (src/day_1.rs): the first and last digit of a line read as a two-digit
 * number, optionally after the earliest and the latest spelled-out digit word ("one", "two", ...)
 * have had their first letter overwritten by the digit they name.
 *
 * Lines are ASCII, so a character index is also the byte offset Rust's string functions use.
 */
module Calibration {
  import opened Wrappers
  import opened Text

  // ----- find_first_char_in_line -----

  /** The index of the first decimal digit of s, or |s| when s has none. */
  function FirstDigitIndex(s: string): (i: nat)
    ensures i <= |s|
    ensures forall k :: 0 <= k < i ==> !IsDigit(s[k])
    ensures i < |s| ==> IsDigit(s[i])
  {
    if |s| == 0 || IsDigit(s[0]) then 0 else 1 + FirstDigitIndex(s[1..])
  }

  /** One past the index of the last decimal digit of s, or 0 when s has none. */
  function LastDigitEnd(s: string): (j: nat)
    ensures j <= |s|
    ensures forall k :: j <= k < |s| ==> !IsDigit(s[k])
    ensures j > 0 ==> IsDigit(s[j - 1])
  {
    if |s| == 0 || IsDigit(s[|s| - 1]) then |s| else LastDigitEnd(s[..|s| - 1])
  }

  /**
   * The digit `find_first_char_in_line(line, reverse)` finds: the first one met when the line
   * is read forwards, or backwards when reverse is set; None exactly when the line has no digit.
   */
  function FirstCharInLine(line: string, reverse: bool): (r: Option<char>)
    ensures r.None? <==> forall k :: 0 <= k < |line| ==> !IsDigit(line[k])
    ensures r.Some? ==> IsDigit(r.value)
    ensures r.Some? && !reverse ==> r.value == line[FirstDigitIndex(line)]
    ensures r.Some? && reverse ==> r.value == line[LastDigitEnd(line) - 1]
  {
    if !reverse then
      var i := FirstDigitIndex(line);
      if i < |line| then Some(line[i]) else None
    else
      var j := LastDigitEnd(line);
      if j > 0 then Some(line[j - 1]) else None
  }

  /** The search loop of `find_first_char_in_line`, returning at the first digit it meets. */
  method FindFirstCharInLine(line: string, reverse: bool) returns (r: Option<char>)
    ensures r == FirstCharInLine(line, reverse)
  {
    var n := |line|;
    var k := 0;
    while k < n
      invariant 0 <= k <= n
      invariant !reverse ==> forall m :: 0 <= m < k ==> !IsDigit(line[m])
      invariant reverse ==> forall m :: n - k <= m < n ==> !IsDigit(line[m])
    {
      var c := if reverse then line[n - 1 - k] else line[k];
      if IsDigit(c) {
        return Some(c);
      }
      k := k + 1;
    }
    return None;
  }

  // ----- the per-line value and the sum in solve_day_1 -----

  /**
   * The calibration value of a line: its first and its last digit written side by side and read
   * as a decimal number (the same digit twice when there is only one); None when the line has no
   * digit at all.
   */
  function LineValue(line: string): (r: Option<nat>)
    ensures r.Some? ==> r.value < 100
  {
    var i := FirstDigitIndex(line);
    if i == |line| then None
    else Some(10 * DigitValue(line[i]) + DigitValue(line[LastDigitEnd(line) - 1]))
  }

  /** A line has no calibration value exactly when it has no digit. */
  lemma LineValueNone(line: string)
    ensures LineValue(line).None? <==> forall k :: 0 <= k < |line| ==> !IsDigit(line[k])
  {
  }

  /** The two digits written side by side read as a decimal number. */
  lemma TwoDigits(first: char, second: char)
    requires IsDigit(first) && IsDigit(second)
    ensures DecimalValue([first, second]) == 10 * DigitValue(first) + DigitValue(second)
  {
    assert [first, second][..1] == [first];
    assert DecimalValue([first]) == DigitValue(first) by {
      assert [first][..0] == [];
    }
  }

  /** A line with a single digit has that digit as both its first and its last. */
  lemma SingleDigitCountsTwice(line: string, i: nat)
    requires i < |line| && IsDigit(line[i])
    requires forall k :: 0 <= k < |line| && k != i ==> !IsDigit(line[k])
    ensures LineValue(line) == Some(11 * DigitValue(line[i]))
  {
    var f := FirstDigitIndex(line);
    var l := LastDigitEnd(line);
    assert f == i;
    assert l == i + 1;
  }

  /** The line the second part reads: its spelled-out digit words replaced first. */
  function Prepared(line: string, partTwo: bool): string {
    if partTwo then WordsReplaced(line) else line
  }

  /** The calibration value of each line, in order. */
  function LineValues(lines: seq<string>, partTwo: bool): (vs: seq<Option<nat>>)
    ensures |vs| == |lines|
  {
    if |lines| == 0 then []
    else LineValues(lines[..|lines| - 1], partTwo) + [LineValue(Prepared(lines[|lines| - 1], partTwo))]
  }

  /** Each entry of LineValues is the value of that line. */
  lemma {:induction false} LineValuesAt(lines: seq<string>, partTwo: bool, k: nat)
    requires k < |lines|
    ensures LineValues(lines, partTwo)[k] == LineValue(Prepared(lines[k], partTwo))
  {
    if k < |lines| - 1 {
      LineValuesAt(lines[..|lines| - 1], partTwo, k);
    }
  }

  /** The sum of some values; None as soon as any of them is missing. */
  function Total(vs: seq<Option<nat>>): Option<nat> {
    if |vs| == 0 then Some(0)
    else
      match (vs[0], Total(vs[1..]))
      case (Some(v), Some(t)) => Some(v + t)
      case _ => None
  }

  /**
   * The sum of the calibration values of all lines; None as soon as any line has no digit, which
   * aborts the whole sum.
   */
  function CalibrationSum(lines: seq<string>, partTwo: bool): Option<nat> {
    Total(LineValues(lines, partTwo))
  }

  /** A sum is missing exactly when one of its values is. */
  lemma {:induction false} TotalAborts(vs: seq<Option<nat>>)
    ensures Total(vs).None? <==> exists i :: 0 <= i < |vs| && vs[i].None?
  {
    if |vs| > 0 {
      TotalAborts(vs[1..]);
      if vs[0].Some? && Total(vs[1..]).None? {
        var i :| 0 <= i < |vs[1..]| && vs[1..][i].None?;
        assert vs[i + 1].None?;
      }
      if vs[0].Some? && Total(vs[1..]).Some? {
        forall i | 0 <= i < |vs| ensures vs[i].Some? {
          if i > 0 {
            assert vs[i] == vs[1..][i - 1];
          }
        }
      }
    }
  }

  /** The sum is aborted exactly when some line has no digit. */
  lemma CalibrationSumAborts(lines: seq<string>, partTwo: bool)
    ensures CalibrationSum(lines, partTwo).None? <==>
      exists i :: 0 <= i < |lines| && LineValue(Prepared(lines[i], partTwo)).None?
  {
    var vs := LineValues(lines, partTwo);
    TotalAborts(vs);
    if exists i :: 0 <= i < |lines| && LineValue(Prepared(lines[i], partTwo)).None? {
      var i :| 0 <= i < |lines| && LineValue(Prepared(lines[i], partTwo)).None?;
      LineValuesAt(lines, partTwo, i);
    }
    if exists i :: 0 <= i < |vs| && vs[i].None? {
      var i :| 0 <= i < |vs| && vs[i].None?;
      LineValuesAt(lines, partTwo, i);
    }
  }

  function Plus(a: nat, total: Option<nat>): Option<nat> {
    if total.Some? then Some(a + total.value) else None
  }

  /** One more value added to a running sum, or the missing value that aborts it. */
  lemma TotalStep(vs: seq<Option<nat>>, i: nat, sum: nat)
    requires i < |vs| && Total(vs) == Plus(sum, Total(vs[i..]))
    ensures vs[i].None? ==> Total(vs) == None
    ensures vs[i].Some? ==> Total(vs) == Plus(sum + vs[i].value, Total(vs[i + 1..]))
  {
    assert vs[i..][1..] == vs[i + 1..];
    var rest := Total(vs[i + 1..]);
    assert Total(vs[i..]) == if vs[i].Some? && rest.Some? then Some(vs[i].value + rest.value) else None;
  }

  /** The line as `solve_day_1` reads it: a copy, rewritten in place by the second part. */
  method PrepareLine(line: string, partTwo: bool) returns (content: string)
    ensures content == Prepared(line, partTwo)
  {
    content := line;
    if partTwo {
      var buffer := new char[|line|](k requires 0 <= k < |line| => line[k]);
      assert buffer[..] == line;
      ReplaceFirstAndLastWordWithDigit(buffer);
      content := buffer[..];
    }
  }

  /**
   * The body of the loop of `solve_day_1` for line i: the two digit searches on the prepared
   * line and the two-digit number they make; None when the line has no digit.
   */
  method LineCalibrationValue(lines: seq<string>, i: nat, partTwo: bool) returns (r: Option<nat>)
    requires i < |lines|
    ensures r == LineValues(lines, partTwo)[i]
  {
    LineValuesAt(lines, partTwo, i);
    var content := PrepareLine(lines[i], partTwo);
    var first := FindFirstCharInLine(content, false);
    if first.None? {
      return None;
    }
    var second := FindFirstCharInLine(content, true);
    if second.None? {
      return None;
    }
    TwoDigits(first.value, second.value);
    return Some(DecimalValue([first.value, second.value]));
  }

  /** The summing loop of `solve_day_1`, over lines already read. */
  method SolveCalibration(lines: seq<string>, partTwo: bool) returns (r: Option<nat>)
    ensures r == CalibrationSum(lines, partTwo)
  {
    var sum: nat := 0;
    ghost var values := LineValues(lines, partTwo);
    assert values[0..] == values;
    for i := 0 to |lines|
      invariant Total(values) == Plus(sum, Total(values[i..]))
    {
      TotalStep(values, i, sum);
      var total := LineCalibrationValue(lines, i, partTwo);
      if total.None? {
        return None;
      }
      sum := sum + total.value;
    }
    assert values[|lines|..] == [];
    return Some(sum);
  }

  // ----- replace_first_and_last_word_with_digit -----

  /** The spelled-out digits, each at the index of the value it names. */
  const Words: seq<string> :=
    ["zero", "one", "two", "three", "four", "five", "six", "seven", "eight", "nine"]

  predicate OccursAt(s: string, w: string, p: nat) {
    p + |w| <= |s| && s[p..p + |w|] == w
  }

  /** The value named by the digit word that starts at position p of s, if one does. */
  function WordAt(s: string, p: nat): (r: Option<nat>)
    ensures r.Some? ==> r.value < 10
  {
    WordBelow(s, p, |Words|)
  }

  /** The smallest d below n whose word starts at position p of s, if there is one. */
  function WordBelow(s: string, p: nat, n: nat): (r: Option<nat>)
    requires n <= |Words|
    ensures r.Some? ==> r.value < n
  {
    if n == 0 then None
    else
      var earlier := WordBelow(s, p, n - 1);
      if earlier.Some? then earlier
      else if OccursAt(s, Words[n - 1], p) then Some(n - 1)
      else None
  }

  /** WordAt finds a digit word exactly when one starts at p, and then it is the one it names. */
  lemma WordAtFound(s: string, p: nat)
    ensures WordAt(s, p).Some? ==> OccursAt(s, Words[WordAt(s, p).value], p)
    ensures WordAt(s, p).None? ==> forall d :: 0 <= d < 10 ==> !OccursAt(s, Words[d], p)
  {
    WordBelowFound(s, p, |Words|);
  }

  lemma {:induction false} WordBelowFound(s: string, p: nat, n: nat)
    requires n <= |Words|
    ensures WordBelow(s, p, n).Some? ==> OccursAt(s, Words[WordBelow(s, p, n).value], p)
    ensures WordBelow(s, p, n).None? ==> forall e :: 0 <= e < n ==> !OccursAt(s, Words[e], p)
  {
    if n > 0 {
      WordBelowFound(s, p, n - 1);
    }
  }

  /** No two digit words begin with the same two letters. */
  lemma WordsDiffer(d: nat, e: nat)
    requires d < 10 && e < 10 && d != e
    ensures |Words[d]| >= 3 && |Words[e]| >= 3
    ensures Words[d][0] != Words[e][0] || Words[d][1] != Words[e][1]
  {
  }

  /** At most one digit word starts at any position. */
  lemma WordAtUnique(s: string, p: nat, d: nat)
    requires d < 10 && OccursAt(s, Words[d], p)
    ensures WordAt(s, p) == Some(d)
  {
    var r := WordAt(s, p);
    WordAtFound(s, p);
    if r.value != d {
      WordsDiffer(d, r.value);
    }
  }

  /**
   * No digit word overlaps a shifted copy of itself: a letter after the first equals the first
   * letter only in "nine", and there the letter after it differs from the second.
   */
  lemma WordNotSelfOverlapping(d: nat, k: nat)
    requires d < 10 && 0 < k < |Words[d]|
    ensures Words[d][k] != Words[d][0] || (k + 1 < |Words[d]| && Words[d][k + 1] != Words[d][1])
  {
  }

  /** The value of the digit word starting at each position of s, if one does. */
  function WordStarts(s: string): (ws: seq<Option<nat>>)
    ensures |ws| == |s|
  {
    WordStartsBefore(s, |s|)
  }

  function WordStartsBefore(s: string, n: nat): (ws: seq<Option<nat>>)
    ensures |ws| == n
  {
    if n == 0 then [] else WordStartsBefore(s, n - 1) + [WordAt(s, n - 1)]
  }

  /** Each entry of WordStarts is the word found at that position. */
  lemma {:induction false} WordStartsBeforeAt(s: string, n: nat, k: nat)
    requires k < n
    ensures WordStartsBefore(s, n)[k] == WordAt(s, k)
  {
    if k < n - 1 {
      WordStartsBeforeAt(s, n - 1, k);
    }
  }

  lemma WordStartsAt(s: string, k: nat)
    requires k < |s|
    ensures WordStarts(s)[k] == WordAt(s, k)
  {
    WordStartsBeforeAt(s, |s|, k);
  }

  /** Every word start names a digit. */
  predicate Digits(ws: seq<Option<nat>>) {
    forall k :: 0 <= k < |ws| && ws[k].Some? ==> ws[k].value < 10
  }

  lemma WordStartsAreDigits(s: string)
    ensures Digits(WordStarts(s))
  {
    var ws := WordStarts(s);
    forall k | 0 <= k < |ws| && ws[k].Some? ensures ws[k].value < 10 {
      WordStartsAt(s, k);
    }
  }

  /** The first position at or after p where a word starts; |ws| when there is none. */
  function FirstWordFrom(ws: seq<Option<nat>>, p: nat): (q: nat)
    requires p <= |ws|
    ensures p <= q <= |ws|
    ensures forall k :: p <= k < q ==> ws[k].None?
    ensures q < |ws| ==> ws[q].Some?
    decreases |ws| - p
  {
    if p == |ws| || ws[p].Some? then p else FirstWordFrom(ws, p + 1)
  }

  /** One past the last position before p where a word starts; 0 when there is none. */
  function LastWordBefore(ws: seq<Option<nat>>, p: nat): (q: nat)
    requires p <= |ws|
    ensures q <= p
    ensures forall k :: q <= k < p ==> ws[k].None?
    ensures q > 0 ==> ws[q - 1].Some?
  {
    if p == 0 || ws[p - 1].Some? then p else LastWordBefore(ws, p - 1)
  }

  /** There is a word exactly when the earliest and the latest word position both exist. */
  lemma WordBoundsAgree(ws: seq<Option<nat>>)
    ensures FirstWordFrom(ws, 0) == |ws| <==> LastWordBefore(ws, |ws|) == 0
    ensures FirstWordFrom(ws, 0) < |ws| ==> FirstWordFrom(ws, 0) < LastWordBefore(ws, |ws|)
  {
    var lo, end := FirstWordFrom(ws, 0), LastWordBefore(ws, |ws|);
    if lo < |ws| {
      assert ws[lo].Some?;
    }
    if end > 0 {
      assert ws[end - 1].Some?;
    }
  }

  /**
   * s with the first letter of the latest word and then that of the earliest word overwritten
   * with the digit each names; s itself when no word starts anywhere.
   */
  function ReplacedAt(s: string, ws: seq<Option<nat>>): (r: string)
    requires |ws| == |s| && Digits(ws)
    ensures |r| == |s|
  {
    var lo, end := FirstWordFrom(ws, 0), LastWordBefore(ws, |ws|);
    WordBoundsAgree(ws);
    if lo == |s| then s
    else
      var hi := end - 1;
      s[hi := DigitChar(ws[hi].value)][lo := DigitChar(ws[lo].value)]
  }

  /**
   * With no word start, s is left as it is; otherwise the earliest word start comes no later
   * than the latest, both first letters become the digits their words name, and nothing else
   * changes.
   */
  lemma ReplacedAtSpec(s: string, ws: seq<Option<nat>>)
    requires |ws| == |s| && Digits(ws)
    ensures FirstWordFrom(ws, 0) == |s| ==> ReplacedAt(s, ws) == s
    ensures FirstWordFrom(ws, 0) < |s| ==>
      var r, lo, hi := ReplacedAt(s, ws), FirstWordFrom(ws, 0), LastWordBefore(ws, |s|) - 1;
      lo <= hi
      && r[lo] == DigitChar(ws[lo].value)
      && r[hi] == DigitChar(ws[hi].value)
      && forall k :: 0 <= k < |s| && k != lo && k != hi ==> r[k] == s[k]
  {
    WordBoundsAgree(ws);
  }

  /**
   * What `replace_first_and_last_word_with_digit` makes of s: with no digit word, s itself;
   * otherwise the first letter of the latest word and then that of the earliest are overwritten
   * with the digit each names, and nothing else changes (ReplacedAtSpec states it).
   */
  function WordsReplaced(s: string): string {
    WordStartsAreDigits(s);
    ReplacedAt(s, WordStarts(s))
  }

  /** A line without any digit word is left as it is. */
  lemma WordsReplacedWithoutWords(s: string)
    requires forall p, d :: 0 <= p < |s| && 0 <= d < 10 ==> !OccursAt(s, Words[d], p)
    ensures WordsReplaced(s) == s
  {
    var ws := WordStarts(s);
    forall k | 0 <= k < |s| ensures ws[k].None? {
      WordStartsAt(s, k);
      WordAtFound(s, k);
    }
  }

  /**
   * A line with a single digit word: it is both the earliest and the latest, and writing its
   * digit twice over its first letter is the same as writing it once.
   */
  lemma WordsReplacedOnce(s: string, p: nat, d: nat)
    requires d < 10 && OccursAt(s, Words[d], p)
    requires forall q, e :: 0 <= q < |s| && q != p && 0 <= e < 10 ==> !OccursAt(s, Words[e], q)
    ensures p < |s| && WordsReplaced(s) == s[p := DigitChar(d)]
  {
    assert |Words[d]| > 0;
    var ws := WordStarts(s);
    WordStartsAreDigits(s);
    WordAtUnique(s, p, d);
    WordStartsAt(s, p);
    forall k | 0 <= k < |s| && k != p ensures ws[k].None? {
      WordStartsAt(s, k);
      WordAtFound(s, k);
    }
    assert FirstWordFrom(ws, 0) == p;
    assert LastWordBefore(ws, |ws|) == p + 1;
  }

  /**
   * The entries `(position, digit)` of the occurrences of the digit words are the word starts:
   * an occurrence of the word for d at p means the word at p is d, and every word start occurs.
   */
  lemma OccurrencesAreWordStarts(s: string, indices: seq<(nat, nat)>)
    requires forall e :: e in indices ==> e.1 < 10 && OccursAt(s, Words[e.1], e.0)
    requires forall p, d :: 0 <= p && 0 <= d < 10 && OccursAt(s, Words[d], p) ==> (p, d) in indices
    ensures forall e :: e in indices ==> e.0 < |s| && WordStarts(s)[e.0] == Some(e.1)
    ensures forall p :: 0 <= p < |s| && WordStarts(s)[p].Some? ==> (p, WordStarts(s)[p].value) in indices
  {
    var ws := WordStarts(s);
    forall e | e in indices ensures e.0 < |s| && ws[e.0] == Some(e.1) {
      assert |Words[e.1]| > 0;
      WordAtUnique(s, e.0, e.1);
      WordStartsAt(s, e.0);
    }
    forall p | 0 <= p < |s| && ws[p].Some? ensures (p, ws[p].value) in indices {
      WordStartsAt(s, p);
      WordAtFound(s, p);
    }
  }

  /** An entry with the largest position among all word starts is the latest word, with its digit. */
  lemma LatestEntry(ws: seq<Option<nat>>, indices: seq<(nat, nat)>, i: nat)
    requires forall e :: e in indices ==> e.0 < |ws| && ws[e.0] == Some(e.1)
    requires forall p :: 0 <= p < |ws| && ws[p].Some? ==> (p, ws[p].value) in indices
    requires i < |indices| && forall j :: 0 <= j < |indices| ==> indices[j].0 <= indices[i].0
    ensures indices[i].0 == LastWordBefore(ws, |ws|) - 1 && Some(indices[i].1) == ws[indices[i].0]
  {
    assert indices[i] in indices;
    var end := LastWordBefore(ws, |ws|);
    assert (end - 1, ws[end - 1].value) in indices;
  }

  /** An entry with the smallest position among all word starts is the earliest word, with its digit. */
  lemma EarliestEntry(ws: seq<Option<nat>>, indices: seq<(nat, nat)>, i: nat)
    requires forall e :: e in indices ==> e.0 < |ws| && ws[e.0] == Some(e.1)
    requires forall p :: 0 <= p < |ws| && ws[p].Some? ==> (p, ws[p].value) in indices
    requires i < |indices| && forall j :: 0 <= j < |indices| ==> indices[i].0 <= indices[j].0
    ensures indices[i].0 == FirstWordFrom(ws, 0) && Some(indices[i].1) == ws[indices[i].0]
  {
    var lo := FirstWordFrom(ws, 0);
    assert indices[i] in indices;
    if lo < |ws| {
      assert (lo, ws[lo].value) in indices;
    }
  }

  /** With a word in the line there is an entry, and without one there is none. */
  lemma NoEntries(ws: seq<Option<nat>>, indices: seq<(nat, nat)>)
    requires forall e :: e in indices ==> e.0 < |ws| && ws[e.0] == Some(e.1)
    requires forall p :: 0 <= p < |ws| && ws[p].Some? ==> (p, ws[p].value) in indices
    ensures |indices| == 0 <==> FirstWordFrom(ws, 0) == |ws|
  {
    var lo := FirstWordFrom(ws, 0);
    if lo < |ws| {
      assert (lo, ws[lo].value) in indices;
    }
    if |indices| > 0 {
      assert indices[0] in indices;
    }
  }

  /** w never overlaps a copy of itself shifted by less than its length (it has no proper border). */
  predicate SelfOverlapFree(w: string) {
    forall k :: 0 < k < |w| ==> w[k..] != w[..|w| - k]
  }

  /** Two occurrences of a word free of self-overlap never overlap each other. */
  lemma OccurrencesApart(s: string, w: string, q: nat, p: nat)
    requires SelfOverlapFree(w)
    requires OccursAt(s, w, q) && OccursAt(s, w, p) && q < p
    ensures q + |w| <= p
  {
    if p < q + |w| {
      OverlapIsBorder(s, w, q, p);
    }
  }

  /** Where two occurrences of w overlap, the end of w repeats its beginning. */
  lemma OverlapIsBorder(s: string, w: string, q: nat, p: nat)
    requires OccursAt(s, w, q) && OccursAt(s, w, p) && q < p < q + |w|
    ensures w[p - q..] == w[..|w| - (p - q)]
  {
    var k := p - q;
    assert w[k..] == s[q..q + |w|][k..] == s[p..q + |w|];
    assert w[..|w| - k] == s[p..p + |w|][..|w| - k] == s[p..q + |w|];
  }

  lemma DigitWordSelfOverlapFree(d: nat)
    requires d < 10
    ensures SelfOverlapFree(Words[d])
  {
    var w := Words[d];
    forall k | 0 < k < |w| ensures w[k..] != w[..|w| - k] {
      WordNotSelfOverlapping(d, k);
      if k + 1 < |w| {
        assert w[k..][1] == w[k + 1] && w[..|w| - k][1] == w[1];
      }
      assert w[k..][0] == w[k] && w[..|w| - k][0] == w[0];
    }
  }

  /**
   * `str::match_indices` for a non-empty w: the start of every non-overlapping match of w in s,
   * scanning left to right and resuming after each match. When w cannot overlap itself these are
   * all of its occurrences.
   */
  method MatchIndices(s: string, w: string) returns (positions: seq<nat>)
    requires |w| > 0
    ensures forall p :: p in positions ==> OccursAt(s, w, p)
    ensures SelfOverlapFree(w) ==> forall p :: OccursAt(s, w, p) ==> p in positions
  {
    positions := [];
    var pos := 0;
    while pos + |w| <= |s|
      invariant forall p :: p in positions ==> OccursAt(s, w, p)
      invariant SelfOverlapFree(w) ==> forall p :: 0 <= p < pos && OccursAt(s, w, p) ==> p in positions
      decreases |s| - pos
    {
      if s[pos..pos + |w|] == w {
        if SelfOverlapFree(w) {
          forall p | pos < p < pos + |w| && OccursAt(s, w, p) ensures false {
            OccurrencesApart(s, w, pos, p);
          }
        }
        positions := positions + [pos];
        pos := pos + |w|;
      } else {
        pos := pos + 1;
      }
    }
  }

  /**
   * The nested loops of `replace_first_and_last_word_with_digit`: for each digit word in turn,
   * the `(position, digit)` of each of its occurrences, which are all of them.
   */
  method WordIndices(s: string) returns (indices: seq<(nat, nat)>)
    ensures forall e :: e in indices ==> e.1 < 10 && OccursAt(s, Words[e.1], e.0)
    ensures forall p, d :: 0 <= p && 0 <= d < 10 && OccursAt(s, Words[d], p) ==> (p, d) in indices
  {
    indices := [];
    for d := 0 to 10
      invariant forall e :: e in indices ==> e.1 < d && OccursAt(s, Words[e.1], e.0)
      invariant forall p, d' :: 0 <= p && 0 <= d' < d && OccursAt(s, Words[d'], p) ==> (p, d') in indices
    {
      var positions := MatchIndices(s, Words[d]);
      DigitWordSelfOverlapFree(d);
      ghost var before := indices;
      for j := 0 to |positions|
        invariant indices == before + seq(j, k requires 0 <= k < j => (positions[k], d))
      {
        indices := indices + [(positions[j], d)];
      }
      forall e | e in indices ensures e.1 < d + 1 && OccursAt(s, Words[e.1], e.0) {
        if e !in before {
          var k :| 0 <= k < |positions| && e == (positions[k], d);
          assert positions[k] in positions;
        }
      }
      forall p | 0 <= p && OccursAt(s, Words[d], p) ensures (p, d) in indices {
        var k :| 0 <= k < |positions| && positions[k] == p;
        assert indices[|before| + k] == (p, d);
      }
    }
  }

  /** `max_by_key` on the positions: the index of the last entry with the largest position. */
  method LastMaxByPosition(xs: seq<(nat, nat)>) returns (i: nat)
    requires |xs| > 0
    ensures i < |xs|
    ensures forall j :: 0 <= j < |xs| ==> xs[j].0 <= xs[i].0
    ensures forall j :: i < j < |xs| ==> xs[j].0 < xs[i].0
  {
    i := 0;
    for j := 1 to |xs|
      invariant i < j
      invariant forall k :: 0 <= k < j ==> xs[k].0 <= xs[i].0
      invariant forall k :: i < k < j ==> xs[k].0 < xs[i].0
    {
      if xs[j].0 >= xs[i].0 {
        i := j;
      }
    }
  }

  /** `min_by_key` on the positions: the index of the first entry with the smallest position. */
  method FirstMinByPosition(xs: seq<(nat, nat)>) returns (i: nat)
    requires |xs| > 0
    ensures i < |xs|
    ensures forall j :: 0 <= j < |xs| ==> xs[i].0 <= xs[j].0
    ensures forall j :: 0 <= j < i ==> xs[i].0 < xs[j].0
  {
    i := 0;
    for j := 1 to |xs|
      invariant i < j
      invariant forall k :: 0 <= k < j ==> xs[i].0 <= xs[k].0
      invariant forall k :: 0 <= k < i ==> xs[i].0 < xs[k].0
    {
      if xs[j].0 < xs[i].0 {
        i := j;
      }
    }
  }

  /**
   * `replace_first_and_last_word_with_digit` on the line's characters, in place: all word
   * positions are collected before either write, then the latest and the earliest word have
   * their first letter overwritten.
   */
  method ReplaceFirstAndLastWordWithDigit(line: array<char>)
    modifies line
    ensures line[..] == WordsReplaced(old(line[..]))
  {
    var s := line[..];
    var indices := WordIndices(s);
    ghost var ws := WordStarts(s);
    OccurrencesAreWordStarts(s, indices);
    NoEntries(ws, indices);
    WordStartsAreDigits(s);
    if |indices| > 0 {
      var i := LastMaxByPosition(indices);
      var latest := indices[i];
      LatestEntry(ws, indices, i);
      line[latest.0] := DigitChar(latest.1);
      assert line[..] == s[latest.0 := DigitChar(latest.1)];
    }
    ghost var middle := line[..];
    if |indices| > 0 {
      var i := FirstMinByPosition(indices);
      var earliest := indices[i];
      EarliestEntry(ws, indices, i);
      line[earliest.0] := DigitChar(earliest.1);
      assert line[..] == middle[earliest.0 := DigitChar(earliest.1)];
    }
    assert line[..] == ReplacedAt(s, ws);
  }
}
