/**
 * Text primitives the three solvers share, on strings of `char`: the ASCII digit class,
 * decimal numerals, Rust's `u32` parser, whitespace trimming and splitting on one character.
 */
module Text {
  import opened Wrappers

  /** The largest value of Rust's `u32`. */
  const U32_MAX: nat := 0xFFFF_FFFF

  /** `char::is_digit(10)`; also `char::is_numeric` on ASCII input. */
  predicate IsDigit(c: char) {
    '0' <= c <= '9'
  }

  function DigitValue(c: char): (d: nat)
    requires IsDigit(c)
    ensures d < 10
  {
    (c as int) - ('0' as int)
  }

  /** The character Rust's `to_string` gives for a single decimal digit. */
  function DigitChar(d: nat): (c: char)
    requires d < 10
    ensures IsDigit(c) && DigitValue(c) == d
  {
    (('0' as int) + d) as char
  }

  predicate AllDigits(s: string) {
    forall i :: 0 <= i < |s| ==> IsDigit(s[i])
  }

  /** The value of a decimal numeral, most significant digit first; leading zeros are allowed. */
  function DecimalValue(s: string): nat
    requires AllDigits(s)
  {
    if s == [] then 0 else 10 * DecimalValue(s[..|s| - 1]) + DigitValue(s[|s| - 1])
  }

  /** The shortest decimal numeral of n, as Rust's `to_string` writes an unsigned integer. */
  function Decimal(n: nat): (s: string)
    ensures |s| > 0 && AllDigits(s)
    ensures DecimalValue(s) == n
    ensures |s| > 1 ==> s[0] != '0'
  {
    if n < 10 then [DigitChar(n)]
    else
      var front := Decimal(n / 10);
      var s := front + [DigitChar(n % 10)];
      assert s[..|s| - 1] == front;
      s
  }

  /**
   * Rust's `str::parse::<u32>()`: an optional leading `+`, then at least one decimal digit,
   * and the value must fit 32 bits. Anything else is an error (here `None`).
   */
  function ParseU32(s: string): (r: Option<nat>)
    ensures r.Some? ==> r.value <= U32_MAX
    ensures |s| == 0 || s == "+" ==> r.None?
    ensures forall k :: 0 <= k < |s| && !IsDigit(s[k]) && !(k == 0 && s[k] == '+') ==> r.None?
  {
    var numeral := if |s| > 1 && s[0] == '+' then s[1..] else s;
    if |numeral| > 0 && AllDigits(numeral) && DecimalValue(numeral) <= U32_MAX
    then Some(DecimalValue(numeral))
    else None
  }

  /** The empty string is no number, and a numeral of digits alone is its value when that fits. */
  lemma ParseU32Digits(s: string)
    ensures |s| == 0 ==> ParseU32(s).None?
    ensures |s| > 0 && AllDigits(s) ==>
      ParseU32(s) == if DecimalValue(s) <= U32_MAX then Some(DecimalValue(s)) else None
  {
  }

  /** Every value of `u32` prints as a numeral that parses back to it. */
  lemma ParseDecimal(n: nat)
    requires n <= U32_MAX
    ensures ParseU32(Decimal(n)) == Some(n)
  {
    ParseU32Digits(Decimal(n));
  }

  /** `char::is_whitespace`: the Unicode White_Space property. */
  predicate IsWhitespace(c: char) {
    '\t' <= c <= '\r' || c == ' ' || c == '\U{85}' || c == '\U{A0}' || c == '\U{1680}'
    || '\U{2000}' <= c <= '\U{200A}' || c == '\U{2028}' || c == '\U{2029}' || c == '\U{202F}'
    || c == '\U{205F}' || c == '\U{3000}'
  }

  /** The number of whitespace characters at the front of s. */
  function LeadingWhitespace(s: string): (n: nat)
    ensures n <= |s|
    ensures forall k :: 0 <= k < n ==> IsWhitespace(s[k])
    ensures n < |s| ==> !IsWhitespace(s[n])
  {
    if |s| > 0 && IsWhitespace(s[0]) then 1 + LeadingWhitespace(s[1..]) else 0
  }

  /** The number of whitespace characters at the back of s. */
  function TrailingWhitespace(s: string): (n: nat)
    ensures n <= |s|
    ensures forall k :: |s| - n <= k < |s| ==> IsWhitespace(s[k])
    ensures n < |s| ==> !IsWhitespace(s[|s| - n - 1])
  {
    if |s| > 0 && IsWhitespace(s[|s| - 1]) then 1 + TrailingWhitespace(s[..|s| - 1]) else 0
  }

  /**
   * `str::trim`: the slice of s that remains once the whitespace at both ends is removed.
   * Everything removed is whitespace, and what remains neither starts nor ends with it.
   */
  function Trim(s: string): (t: string)
    ensures LeadingWhitespace(s) + |t| <= |s|
    ensures t == s[LeadingWhitespace(s)..LeadingWhitespace(s) + |t|]
    ensures forall k :: LeadingWhitespace(s) + |t| <= k < |s| ==> IsWhitespace(s[k])
    ensures |t| > 0 ==> !IsWhitespace(t[0]) && !IsWhitespace(t[|t| - 1])
  {
    var front := s[LeadingWhitespace(s)..];
    front[..|front| - TrailingWhitespace(front)]
  }

  /** A non-empty string that neither starts nor ends with whitespace. */
  predicate Unpadded(s: string) {
    |s| > 0 && !IsWhitespace(s[0]) && !IsWhitespace(s[|s| - 1])
  }

  /** A string that neither starts nor ends with whitespace is its own trim. */
  lemma TrimUnchanged(s: string)
    requires |s| > 0 ==> !IsWhitespace(s[0]) && !IsWhitespace(s[|s| - 1])
    ensures Trim(s) == s
  {
    assert LeadingWhitespace(s) == 0;
    assert TrailingWhitespace(s) == 0;
  }

  /** Spaces around a string that neither starts nor ends with whitespace are all that trim removes. */
  lemma TrimPadded(pre: string, s: string, post: string)
    requires forall k :: 0 <= k < |pre| ==> IsWhitespace(pre[k])
    requires forall k :: 0 <= k < |post| ==> IsWhitespace(post[k])
    requires Unpadded(s)
    ensures Trim(pre + s + post) == s
  {
    var whole := pre + s + post;
    LeadingPadded(pre, s + post);
    assert whole == pre + (s + post);
    var front := whole[|pre|..];
    assert front == s + post;
    TrailingPadded(s, post);
  }

  lemma {:induction false} LeadingPadded(pre: string, rest: string)
    requires forall k :: 0 <= k < |pre| ==> IsWhitespace(pre[k])
    requires |rest| > 0 && !IsWhitespace(rest[0])
    ensures LeadingWhitespace(pre + rest) == |pre|
  {
    if pre != [] {
      assert (pre + rest)[1..] == pre[1..] + rest;
      LeadingPadded(pre[1..], rest);
    }
  }

  lemma {:induction false} TrailingPadded(s: string, post: string)
    requires forall k :: 0 <= k < |post| ==> IsWhitespace(post[k])
    requires |s| > 0 && !IsWhitespace(s[|s| - 1])
    ensures TrailingWhitespace(s + post) == |post|
  {
    if post != [] {
      assert (s + post)[..|s + post| - 1] == s + post[..|post| - 1];
      TrailingPadded(s, post[..|post| - 1]);
    }
  }

  /** The pieces joined back together with sep between each neighbouring pair. */
  function Join(pieces: seq<string>, sep: char): string {
    if |pieces| == 0 then ""
    else if |pieces| == 1 then pieces[0]
    else pieces[0] + [sep] + Join(pieces[1..], sep)
  }

  /**
   * `str::split` on one character: the text between consecutive occurrences of sep, in order.
   * There is always at least one piece, no piece contains sep, and joining the pieces with sep
   * gives s back.
   */
  function Split(s: string, sep: char): (pieces: seq<string>)
    ensures |pieces| > 0
    ensures forall i :: 0 <= i < |pieces| ==> sep !in pieces[i]
    ensures Join(pieces, sep) == s
  {
    if |s| == 0 then [""]
    else if s[0] == sep then
      var rest := Split(s[1..], sep);
      assert [sep] + s[1..] == s;
      [""] + rest
    else
      var rest := Split(s[1..], sep);
      var pieces := [[s[0]] + rest[0]] + rest[1..];
      assert pieces[1..] == rest[1..];
      assert |rest| > 1 ==> Join(rest, sep) == rest[0] + [sep] + Join(rest[1..], sep);
      assert [s[0]] + s[1..] == s;
      pieces
  }

  /** Splitting undoes joining: Split and Join are inverse on piece lists free of sep. */
  lemma {:induction false} SplitJoin(pieces: seq<string>, sep: char)
    requires |pieces| > 0
    requires forall i :: 0 <= i < |pieces| ==> sep !in pieces[i]
    ensures Split(Join(pieces, sep), sep) == pieces
  {
    if |pieces| == 1 {
      SplitNoSeparator(pieces[0], sep);
    } else {
      SplitJoin(pieces[1..], sep);
      SplitAtSeparator(pieces[0], Join(pieces[1..], sep), sep);
      assert [pieces[0]] + pieces[1..] == pieces;
    }
  }

  lemma {:induction false} SplitNoSeparator(s: string, sep: char)
    requires sep !in s
    ensures Split(s, sep) == [s]
  {
    if |s| > 0 {
      SplitNoSeparator(s[1..], sep);
      assert [s[0]] + s[1..] == s;
    }
  }

  lemma {:induction false} SplitAtSeparator(a: string, b: string, sep: char)
    requires sep !in a
    ensures Split(a + [sep] + b, sep) == [a] + Split(b, sep)
  {
    var s := a + [sep] + b;
    if |a| == 0 {
      assert s[0] == sep && s[1..] == b;
    } else {
      assert s[0] == a[0];
      assert s[1..] == a[1..] + [sep] + b;
      SplitAtSeparator(a[1..], b, sep);
      assert [a[0]] + a[1..] == a;
    }
  }

  /** A character other than the separator that is in no piece is not in their join. */
  lemma {:induction false} JoinFree(pieces: seq<string>, sep: char, c: char)
    requires c != sep
    requires forall i :: 0 <= i < |pieces| ==> c !in pieces[i]
    ensures c !in Join(pieces, sep)
  {
    if |pieces| > 1 {
      JoinFree(pieces[1..], sep, c);
    }
  }

  /** A join of non-empty pieces starts as the first piece starts and ends as the last ends. */
  lemma {:induction false} JoinEnds(pieces: seq<string>, sep: char)
    requires |pieces| > 0 && forall i :: 0 <= i < |pieces| ==> |pieces[i]| > 0
    ensures |Join(pieces, sep)| > 0
    ensures Join(pieces, sep)[0] == pieces[0][0]
    ensures Join(pieces, sep)[|Join(pieces, sep)| - 1] == pieces[|pieces| - 1][|pieces[|pieces| - 1]| - 1]
  {
    if |pieces| > 1 {
      JoinEnds(pieces[1..], sep);
    }
  }

  /** A join of non-empty pieces starts and ends without whitespace when its outer pieces do. */
  lemma JoinUnpadded(pieces: seq<string>, sep: char)
    requires |pieces| > 0 && forall i :: 0 <= i < |pieces| ==> |pieces[i]| > 0
    requires !IsWhitespace(pieces[0][0])
    requires !IsWhitespace(pieces[|pieces| - 1][|pieces[|pieces| - 1]| - 1])
    ensures Unpadded(Join(pieces, sep))
  {
    JoinEnds(pieces, sep);
  }

  lemma JoinThree(a: string, b: string, c: string, sep: char)
    ensures Join([a, b, c], sep) == a + [sep] + b + [sep] + c
  {
    assert [a, b, c][1..] == [b, c];
    assert [b, c][1..] == [c];
    assert Join([b, c], sep) == b + [sep] + c;
  }

  /** Text put before a join belongs to its first piece. */
  lemma JoinPrepend(pre: string, pieces: seq<string>, sep: char)
    requires |pieces| > 0
    ensures pre + Join(pieces, sep) == Join([pre + pieces[0]] + pieces[1..], sep)
  {
    var joined := [pre + pieces[0]] + pieces[1..];
    assert joined[1..] == pieces[1..];
  }
}
