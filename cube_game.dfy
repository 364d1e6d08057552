/**
 * Game records (src/day_2.rs): lines of the form `Game <id>: <draw>; <draw>; ...`, where a draw
 * is up to three comma-separated `<count> <colour>` sections, and the two questions asked of a
 * parsed game: whether it fits a bag of given contents, and the power of its smallest bag.
 */
module CubeGame {
  import opened Wrappers
  import opened Text

  datatype SyntaxError =
    | UndefinedColor
    | WrongTokenCount
    | TokenNotInteger
    | WrongTokenCountGID
    | InvalidSectionCount
    | LiteralNotFound(literal: string)
      /**
       * Not a variant of the source's error type: it stands for the `unwrap` on the game id,
       * which panics when the id is not a `u32`.
       */
    | IdNotInteger

  datatype CubeColor = Red | Green | Blue

  /** The word that names c in a record. */
  function ColorName(c: CubeColor): string {
    match c
    case Red => "red"
    case Green => "green"
    case Blue => "blue"
  }

  /**
   * `CubeColor::from_str`: the trimmed text must be exactly one of the three colour words;
   * anything else, the empty text included, is `UndefinedColor`.
   */
  function ParseColor(s: string): (r: Result<CubeColor, SyntaxError>)
    ensures r.Err? <==> Trim(s) != "red" && Trim(s) != "green" && Trim(s) != "blue"
    ensures r.Err? ==> r.error == UndefinedColor
    ensures r.Ok? ==> Trim(s) == ColorName(r.value)
  {
    var word := Trim(s);
    if word == "red" then Ok(Red)
    else if word == "green" then Ok(Green)
    else if word == "blue" then Ok(Blue)
    else Err(UndefinedColor)
  }

  /** A colour word with whitespace around it parses back to that colour. */
  lemma ParseColorName(pre: string, c: CubeColor, post: string)
    requires forall k :: 0 <= k < |pre| ==> IsWhitespace(pre[k])
    requires forall k :: 0 <= k < |post| ==> IsWhitespace(post[k])
    ensures ParseColor(pre + ColorName(c) + post) == Ok(c)
  {
    TrimPadded(pre, ColorName(c), post);
  }

  datatype Draw = Draw(red: nat, green: nat, blue: nat)

  function Count(d: Draw, c: CubeColor): nat {
    match c
    case Red => d.red
    case Green => d.green
    case Blue => d.blue
  }

  /** The assignment in the match of `Draw::from_str`: the count of c becomes n. */
  function WithCount(d: Draw, c: CubeColor, n: nat): (e: Draw)
    ensures Count(e, c) == n
    ensures forall c' :: c' != c ==> Count(e, c') == Count(d, c')
  {
    match c
    case Red => d.(red := n)
    case Green => d.(green := n)
    case Blue => d.(blue := n)
  }

  /**
   * One comma-separated section of a draw, trimmed and split on single spaces into
   * `<count> <colour>`.
   */
  function ParseSection(section: string): (r: Result<(CubeColor, nat), SyntaxError>)
    ensures r.Ok? ==> r.value.1 <= U32_MAX
    ensures r.Err? ==> r.error == WrongTokenCount || r.error == UndefinedColor || r.error == TokenNotInteger
  {
    var tokens := Split(Trim(section), ' ');
    if |tokens| != 2 then Err(WrongTokenCount)
    else
      match ParseColor(tokens[1])
      case Err(e) => Err(e)
      case Ok(c) =>
        match ParseU32(tokens[0])
        case None => Err(TokenNotInteger)
        case Some(n) => Ok((c, n))
  }

  /**
   * The faults of a section, in the order they are looked for: the number of tokens, then the
   * colour, then the count. A section with a bad colour and a bad count reports the colour.
   */
  lemma SectionErrors(section: string)
    ensures var tokens := Split(Trim(section), ' ');
      && (|tokens| != 2 ==> ParseSection(section) == Err(WrongTokenCount))
      && (|tokens| == 2 && ParseColor(tokens[1]).Err? ==> ParseSection(section) == Err(UndefinedColor))
      && (|tokens| == 2 && ParseColor(tokens[1]).Ok? && ParseU32(tokens[0]).None? ==>
            ParseSection(section) == Err(TokenNotInteger))
      && (|tokens| == 2 && ParseColor(tokens[1]).Ok? && ParseU32(tokens[0]).Some? ==>
            ParseSection(section) == Ok((ParseColor(tokens[1]).value, ParseU32(tokens[0]).value)))
  {
  }

  /**
   * `collect::<Result<Vec<T>, E>>()` over items parsed one by one: the values of all of them, or
   * the error of the first that does not parse.
   */
  function Collect<T, E>(parse: string -> Result<T, E>, items: seq<string>): (r: Result<seq<T>, E>)
    ensures r.Ok? ==> |r.value| == |items|
    ensures r.Ok? ==> forall i :: 0 <= i < |items| ==> parse(items[i]) == Ok(r.value[i])
    ensures r.Err? ==> exists i :: 0 <= i < |items| && parse(items[i]) == Err(r.error)
    decreases |items|
  {
    if items == [] then Ok([])
    else
      match Collect(parse, items[..|items| - 1])
      case Err(e) =>
        assert forall i :: 0 <= i < |items| - 1 ==> items[..|items| - 1][i] == items[i];
        Err(e)
      case Ok(vs) =>
        match parse(items[|items| - 1])
        case Err(e) => Err(e)
        case Ok(v) =>
          assert forall i :: 0 <= i < |items| - 1 ==> items[..|items| - 1][i] == items[i];
          Ok(vs + [v])
  }

  /** The items are collected exactly when every one of them parses. */
  lemma {:induction false} CollectAccepts<T, E>(parse: string -> Result<T, E>, items: seq<string>)
    ensures Collect(parse, items).Ok? <==> forall i :: 0 <= i < |items| ==> parse(items[i]).Ok?
    decreases |items|
  {
    if items != [] {
      var front := items[..|items| - 1];
      CollectAccepts(parse, front);
      assert forall i :: 0 <= i < |front| ==> front[i] == items[i];
    }
  }

  /** When every item parses, the collected values are the parsed values, in order. */
  lemma CollectValues<T, E>(parse: string -> Result<T, E>, items: seq<string>, vs: seq<T>)
    requires |vs| == |items|
    requires forall i :: 0 <= i < |items| ==> parse(items[i]) == Ok(vs[i])
    ensures Collect(parse, items) == Ok(vs)
  {
    CollectAccepts(parse, items);
    assert Collect(parse, items).value == vs;
  }

  lemma CollectThree<T, E>(parse: string -> Result<T, E>, a: string, b: string, c: string, x: T, y: T, z: T)
    requires parse(a) == Ok(x) && parse(b) == Ok(y) && parse(c) == Ok(z)
    ensures Collect(parse, [a, b, c]) == Ok([x, y, z])
  {
    CollectValues(parse, [a, b, c], [x, y, z]);
  }

  /** A rejection reports the error of the first item that does not parse. */
  lemma {:induction false} CollectFirstError<T, E>(parse: string -> Result<T, E>, items: seq<string>, i: nat)
    requires i < |items| && parse(items[i]).Err?
    requires forall j :: 0 <= j < i ==> parse(items[j]).Ok?
    ensures Collect(parse, items) == Err(parse(items[i]).error)
    decreases |items|
  {
    var front := items[..|items| - 1];
    assert forall j :: 0 <= j < |front| ==> front[j] == items[j];
    if i == |items| - 1 {
      CollectAccepts(parse, front);
    } else {
      CollectFirstError(parse, front, i);
    }
  }

  /** Once a prefix of the items is rejected, so are all the items, with the same error. */
  lemma {:induction false} CollectPrefixError<T, E>(parse: string -> Result<T, E>, items: seq<string>, k: nat)
    requires k <= |items| && Collect(parse, items[..k]).Err?
    ensures Collect(parse, items) == Collect(parse, items[..k])
    decreases |items| - k
  {
    if k < |items| {
      assert items[..k + 1][..k] == items[..k];
      CollectPrefixError(parse, items, k + 1);
    } else {
      assert items[..k] == items;
    }
  }

  /** The parsed sections applied in order to d: each sets the count of the colour it names. */
  function Fill(d: Draw, counts: seq<(CubeColor, nat)>): Draw
    decreases |counts|
  {
    if counts == [] then d
    else
      var (c, n) := counts[|counts| - 1];
      WithCount(Fill(d, counts[..|counts| - 1]), c, n)
  }

  /** A colour that several sections name keeps the count of the last of them ... */
  lemma {:induction false} FillLastWins(d: Draw, counts: seq<(CubeColor, nat)>, c: CubeColor, i: nat)
    requires i < |counts| && counts[i].0 == c
    requires forall j :: i < j < |counts| ==> counts[j].0 != c
    ensures Count(Fill(d, counts), c) == counts[i].1
    decreases |counts|
  {
    if i < |counts| - 1 {
      FillLastWins(d, counts[..|counts| - 1], c, i);
    }
  }

  /** ... and a colour that no section names keeps its count in d. */
  lemma {:induction false} FillUnnamed(d: Draw, counts: seq<(CubeColor, nat)>, c: CubeColor)
    requires forall j :: 0 <= j < |counts| ==> counts[j].0 != c
    ensures Count(Fill(d, counts), c) == Count(d, c)
    decreases |counts|
  {
    if counts != [] {
      FillUnnamed(d, counts[..|counts| - 1], c);
    }
  }

  /**
   * What `Draw::from_str` makes of s: at most three sections, applied in order to a draw of no
   * cubes, stopping at the first section that does not parse.
   */
  function DrawFromStr(s: string): (r: Result<Draw, SyntaxError>)
    ensures r.Ok? ==> r.value.red <= U32_MAX && r.value.green <= U32_MAX && r.value.blue <= U32_MAX
    ensures r.Err? ==> r.error == WrongTokenCount || r.error == UndefinedColor || r.error == TokenNotInteger
  {
    var sections := Split(s, ',');
    if |sections| > 3 then Err(WrongTokenCount)
    else
      match Collect(ParseSection, sections)
      case Err(e) => Err(e)
      case Ok(counts) =>
        FillWithin(Draw(0, 0, 0), counts, U32_MAX);
        Ok(Fill(Draw(0, 0, 0), counts))
  }

  /** Sections whose counts are at most some bound, applied to a draw within it, stay within it. */
  lemma {:induction false} FillWithin(d: Draw, counts: seq<(CubeColor, nat)>, bound: nat)
    requires d.red <= bound && d.green <= bound && d.blue <= bound
    requires forall j :: 0 <= j < |counts| ==> counts[j].1 <= bound
    ensures var e := Fill(d, counts); e.red <= bound && e.green <= bound && e.blue <= bound
    decreases |counts|
  {
    if counts != [] {
      FillWithin(d, counts[..|counts| - 1], bound);
    }
  }

  /**
   * The counts of a parsed draw: a colour that no section names stays 0, and a colour that
   * several sections name keeps the count of the last of them.
   */
  lemma DrawCounts(s: string, c: CubeColor)
    requires DrawFromStr(s).Ok?
    ensures Collect(ParseSection, Split(s, ',')).Ok?
    ensures var counts, d := Collect(ParseSection, Split(s, ',')).value, DrawFromStr(s).value;
      && ((forall j :: 0 <= j < |counts| ==> counts[j].0 != c) ==> Count(d, c) == 0)
      && (forall i :: 0 <= i < |counts| && counts[i].0 == c && (forall j :: i < j < |counts| ==> counts[j].0 != c)
            ==> Count(d, c) == counts[i].1)
  {
    var counts := Collect(ParseSection, Split(s, ',')).value;
    assert DrawFromStr(s).value == Fill(Draw(0, 0, 0), counts);
    FillCounts(counts, c);
  }

  /** The two Fill lemmas together, for a draw filled from nothing. */
  lemma FillCounts(counts: seq<(CubeColor, nat)>, c: CubeColor)
    ensures var d := Fill(Draw(0, 0, 0), counts);
      && ((forall j :: 0 <= j < |counts| ==> counts[j].0 != c) ==> Count(d, c) == 0)
      && (forall i :: 0 <= i < |counts| && counts[i].0 == c && (forall j :: i < j < |counts| ==> counts[j].0 != c)
            ==> Count(d, c) == counts[i].1)
  {
    if forall j :: 0 <= j < |counts| ==> counts[j].0 != c {
      FillUnnamed(Draw(0, 0, 0), counts, c);
    }
    forall i | 0 <= i < |counts| && counts[i].0 == c && (forall j :: i < j < |counts| ==> counts[j].0 != c)
      ensures Count(Fill(Draw(0, 0, 0), counts), c) == counts[i].1
    {
      FillLastWins(Draw(0, 0, 0), counts, c, i);
    }
  }

  /** `Draw::from_str`, which fills in a draw field by field, section by section. */
  method ParseDraw(s: string) returns (r: Result<Draw, SyntaxError>)
    ensures r == DrawFromStr(s)
  {
    var d := Draw(0, 0, 0);
    var sections := Split(s, ',');
    if |sections| > 3 {
      return Err(WrongTokenCount);
    }
    for i := 0 to |sections|
      invariant Collect(ParseSection, sections[..i]).Ok?
      invariant d == Fill(Draw(0, 0, 0), Collect(ParseSection, sections[..i]).value)
    {
      var section := ParseSection(sections[i]);
      if section.Err? {
        assert sections[..i + 1][..i] == sections[..i];
        CollectPrefixError(ParseSection, sections, i + 1);
        return Err(section.error);
      }
      var (col, numCubes) := section.value;
      SectionStep(sections, i, d);
      match col
      case Red => d := d.(red := numCubes);
      case Green => d := d.(green := numCubes);
      case Blue => d := d.(blue := numCubes);
    }
    assert sections[..|sections|] == sections;
    DrawAccepted(s);
    return Ok(d);
  }

  /** A draw of at most three sections that all parse is their fill of a draw of no cubes. */
  lemma DrawAccepted(s: string)
    requires |Split(s, ',')| <= 3 && Collect(ParseSection, Split(s, ',')).Ok?
    ensures DrawFromStr(s) == Ok(Fill(Draw(0, 0, 0), Collect(ParseSection, Split(s, ',')).value))
  {
  }

  /** One more parsed section sets the count of its colour in the draw filled so far. */
  lemma SectionStep(sections: seq<string>, i: nat, d: Draw)
    requires i < |sections| && ParseSection(sections[i]).Ok?
    requires Collect(ParseSection, sections[..i]).Ok?
    requires d == Fill(Draw(0, 0, 0), Collect(ParseSection, sections[..i]).value)
    ensures Collect(ParseSection, sections[..i + 1]).Ok?
    ensures var (c, n) := ParseSection(sections[i]).value;
      Fill(Draw(0, 0, 0), Collect(ParseSection, sections[..i + 1]).value) == WithCount(d, c, n)
  {
    var front := sections[..i + 1];
    assert front[..i] == sections[..i] && front[i] == sections[i];
    var counts := Collect(ParseSection, front).value;
    assert counts == Collect(ParseSection, sections[..i]).value + [ParseSection(sections[i]).value];
    assert counts[..|counts| - 1] == Collect(ParseSection, sections[..i]).value;
  }

  /** A draw written out in full, as the records write it: `<r> red, <g> green, <b> blue`. */
  function DrawText(d: Draw): string {
    Join(DrawSections(d), ',')
  }

  function DrawSections(d: Draw): seq<string> {
    [SectionText(d.red, Red), " " + SectionText(d.green, Green), " " + SectionText(d.blue, Blue)]
  }

  function SectionText(n: nat, c: CubeColor): string {
    Decimal(n) + " " + ColorName(c)
  }

  /** A section written `<count> <colour>`, with leading whitespace, parses back to its parts. */
  lemma ParseSectionText(pre: string, n: nat, c: CubeColor)
    requires n <= U32_MAX
    requires forall k :: 0 <= k < |pre| ==> IsWhitespace(pre[k])
    ensures ParseSection(pre + SectionText(n, c)) == Ok((c, n))
  {
    TrimSection(pre, n, c);
    SplitSection(n, c);
    ParseDecimal(n);
    ColorNameParses(c);
  }

  lemma TrimSection(pre: string, n: nat, c: CubeColor)
    requires forall k :: 0 <= k < |pre| ==> IsWhitespace(pre[k])
    ensures Trim(pre + SectionText(n, c)) == SectionText(n, c)
  {
    var text := SectionText(n, c);
    assert pre + text == pre + text + "";
    TrimPadded(pre, text, "");
  }

  lemma SplitSection(n: nat, c: CubeColor)
    ensures Split(SectionText(n, c), ' ') == [Decimal(n), ColorName(c)]
  {
    assert SectionText(n, c) == Join([Decimal(n), ColorName(c)], ' ');
    SplitJoin([Decimal(n), ColorName(c)], ' ');
  }

  lemma ColorNameParses(c: CubeColor)
    ensures ParseColor(ColorName(c)) == Ok(c)
  {
    TrimUnchanged(ColorName(c));
  }

  /** Every draw whose counts fit `u32` is read back from its text, after any leading whitespace. */
  lemma ParseDrawText(pre: string, d: Draw)
    requires d.red <= U32_MAX && d.green <= U32_MAX && d.blue <= U32_MAX
    requires forall k :: 0 <= k < |pre| ==> IsWhitespace(pre[k])
    ensures DrawFromStr(pre + DrawText(d)) == Ok(d)
  {
    SplitDrawText(pre, d);
    SectionsParse(pre, d);
    FillSections(d);
  }

  lemma SectionsParse(pre: string, d: Draw)
    requires d.red <= U32_MAX && d.green <= U32_MAX && d.blue <= U32_MAX
    requires forall k :: 0 <= k < |pre| ==> IsWhitespace(pre[k])
    ensures Collect(ParseSection, PaddedSections(pre, d)) == Ok([(Red, d.red), (Green, d.green), (Blue, d.blue)])
  {
    ParseSectionText(pre, d.red, Red);
    ParseSectionText(" ", d.green, Green);
    ParseSectionText(" ", d.blue, Blue);
    CollectThree(ParseSection, pre + SectionText(d.red, Red), " " + SectionText(d.green, Green),
      " " + SectionText(d.blue, Blue), (Red, d.red), (Green, d.green), (Blue, d.blue));
  }

  lemma FillSections(d: Draw)
    ensures Fill(Draw(0, 0, 0), [(Red, d.red), (Green, d.green), (Blue, d.blue)]) == d
  {
    var counts := [(Red, d.red), (Green, d.green), (Blue, d.blue)];
    assert counts[..2][..1] == [(Red, d.red)];
    assert counts[..2][..1][..0] == counts[..0];
    assert Fill(Draw(0, 0, 0), counts[..2][..1]) == Draw(d.red, 0, 0);
    assert Fill(Draw(0, 0, 0), counts[..2]) == Draw(d.red, d.green, 0);
  }

  /** The sections of a draw's text, the first with the whitespace before it. */
  function PaddedSections(pre: string, d: Draw): seq<string> {
    var pieces := DrawSections(d);
    [pre + pieces[0], pieces[1], pieces[2]]
  }

  lemma SplitDrawText(pre: string, d: Draw)
    requires forall k :: 0 <= k < |pre| ==> IsWhitespace(pre[k])
    ensures Split(pre + DrawText(d), ',') == PaddedSections(pre, d)
  {
    PaddedText(pre, d);
    SectionsFree(pre, d, ',');
    SplitJoin(PaddedSections(pre, d), ',');
  }

  lemma PaddedText(pre: string, d: Draw)
    ensures pre + DrawText(d) == Join(PaddedSections(pre, d), ',')
  {
    JoinPrepend(pre, DrawSections(d), ',');
    assert [pre + DrawSections(d)[0]] + DrawSections(d)[1..] == PaddedSections(pre, d);
  }

  lemma SectionsFree(pre: string, d: Draw, x: char)
    requires x == ',' || x == ';' || x == ':'
    requires forall k :: 0 <= k < |pre| ==> IsWhitespace(pre[k])
    ensures forall i :: 0 <= i < |PaddedSections(pre, d)| ==> x !in PaddedSections(pre, d)[i]
  {
    SectionTextFree(pre, d.red, Red, x);
    SectionTextFree(" ", d.green, Green, x);
    SectionTextFree(" ", d.blue, Blue, x);
  }

  /** The punctuation of a record appears in no section text, whatever whitespace precedes it. */
  lemma SectionTextFree(pre: string, n: nat, c: CubeColor, x: char)
    requires x == ',' || x == ';' || x == ':'
    requires forall k :: 0 <= k < |pre| ==> IsWhitespace(pre[k])
    ensures x !in pre + SectionText(n, c)
  {
    var digits := Decimal(n);
    assert forall k :: 0 <= k < |digits| ==> IsDigit(digits[k]);
  }

  /** A text of whitespace only, possibly empty. */
  predicate Blank(s: string) {
    forall k :: 0 <= k < |s| ==> IsWhitespace(s[k])
  }

  /** Sections `<count> <colour>`, each with its own whitespace before and after it. */
  function PaddedDrawSections(pres: seq<string>, counts: seq<(CubeColor, nat)>, posts: seq<string>): (sections: seq<string>)
    requires |pres| == |counts| == |posts|
    ensures |sections| == |counts|
  {
    seq(|counts|, i requires 0 <= i < |counts| => pres[i] + SectionText(counts[i].1, counts[i].0) + posts[i])
  }

  /**
   * A draw written as one to three `<count> <colour>` sections, in any order and with any
   * whitespace around each section, is read as those sections applied in order to a draw of no
   * cubes: a colour left out is 0 and a repeated colour keeps its last count.
   */
  lemma ParsePaddedDraw(pres: seq<string>, counts: seq<(CubeColor, nat)>, posts: seq<string>)
    requires 0 < |counts| <= 3 && |pres| == |counts| == |posts|
    requires forall i :: 0 <= i < |counts| ==> counts[i].1 <= U32_MAX && Blank(pres[i]) && Blank(posts[i])
    ensures DrawFromStr(Join(PaddedDrawSections(pres, counts, posts), ',')) == Ok(Fill(Draw(0, 0, 0), counts))
  {
    var sections := PaddedDrawSections(pres, counts, posts);
    forall i | 0 <= i < |sections|
      ensures ',' !in sections[i] && ParseSection(sections[i]) == Ok(counts[i])
    {
      PaddedSectionParses(pres[i], counts[i].1, counts[i].0, posts[i]);
    }
    SplitJoin(sections, ',');
    CollectValues(ParseSection, sections, counts);
  }

  lemma PaddedSectionParses(pre: string, n: nat, c: CubeColor, post: string)
    requires n <= U32_MAX && Blank(pre) && Blank(post)
    ensures ',' !in pre + SectionText(n, c) + post
    ensures ParseSection(pre + SectionText(n, c) + post) == Ok((c, n))
  {
    SectionTextFree(pre, n, c, ',');
    TrimPaddedSection(pre, n, c, post);
    SplitSection(n, c);
    ParseDecimal(n);
    ColorNameParses(c);
  }

  lemma TrimPaddedSection(pre: string, n: nat, c: CubeColor, post: string)
    requires Blank(pre) && Blank(post)
    ensures Trim(pre + SectionText(n, c) + post) == SectionText(n, c)
  {
    var text := SectionText(n, c);
    var digits := Decimal(n);
    assert text[0] == digits[0] && IsDigit(digits[0]);
    assert text[|text| - 1] == ColorName(c)[|ColorName(c)| - 1];
    TrimPadded(pre, text, post);
  }

  // ----- examples from the source's unit tests -----

  lemma ColorExamples()
    ensures ParseColor("red") == Ok(Red)
    ensures ParseColor("   red   ") == Ok(Red)
  {
    ColorNameParses(Red);
    assert "   red   " == "   " + ColorName(Red) + "   ";
    ParseColorName("   ", Red, "   ");
  }

  lemma RejectedColorExamples()
    ensures ParseColor("invalid_color") == Err(UndefinedColor)
    ensures ParseColor("") == Err(UndefinedColor)
    ensures ParseColor("   ") == Err(UndefinedColor)
  {
    TrimUnchanged("invalid_color");
  }

  lemma DrawExample()
    ensures DrawFromStr("1 red, 2 green, 3 blue") == Ok(Draw(1, 2, 3))
  {
    var d := Draw(1, 2, 3);
    ExampleDrawText();
    ParseDrawText("", d);
    assert "" + DrawText(d) == DrawText(d);
  }

  lemma SingleColorExample()
    ensures DrawFromStr("5 red") == Ok(Draw(5, 0, 0))
  {
    assert Decimal(5) == "5";
    var sections := PaddedDrawSections([""], [(Red, 5)], [""]);
    assert sections[0] == "" + SectionText(5, Red) + "" == "5 red";
    assert sections == ["5 red"];
    ParsePaddedDraw([""], [(Red, 5)], [""]);
    assert [(Red, 5)][..0] == [];
  }

  lemma PaddedDrawExample()
    ensures DrawFromStr("  2 red, 4 green   ,  6 blue  ") == Ok(Draw(2, 4, 6))
  {
    var pres, counts, posts := ["  ", " ", "  "], [(Red, 2), (Green, 4), (Blue, 6)], ["", "   ", "  "];
    ExamplePaddedText();
    ParsePaddedDraw(pres, counts, posts);
    FillSections(Draw(2, 4, 6));
  }

  lemma ExamplePaddedText()
    ensures Join(PaddedDrawSections(["  ", " ", "  "], [(Red, 2), (Green, 4), (Blue, 6)], ["", "   ", "  "]), ',')
      == "  2 red, 4 green   ,  6 blue  "
  {
    ExamplePaddedSections();
    JoinThree("  2 red", " 4 green   ", "  6 blue  ", ',');
    assert "  2 red" + [','] + " 4 green   " + [','] + "  6 blue  " == "  2 red, 4 green   ,  6 blue  ";
  }

  lemma ExamplePaddedSections()
    ensures PaddedDrawSections(["  ", " ", "  "], [(Red, 2), (Green, 4), (Blue, 6)], ["", "   ", "  "])
      == ["  2 red", " 4 green   ", "  6 blue  "]
  {
    assert Decimal(2) == "2" && Decimal(4) == "4" && Decimal(6) == "6";
    assert SectionText(2, Red) == "2 red";
    assert SectionText(4, Green) == "4 green";
    assert SectionText(6, Blue) == "6 blue";
    var sections := PaddedDrawSections(["  ", " ", "  "], [(Red, 2), (Green, 4), (Blue, 6)], ["", "   ", "  "]);
    assert sections[0] == "  " + SectionText(2, Red) + "" == "  2 red";
    assert sections[1] == " " + SectionText(4, Green) + "   " == " 4 green   ";
    assert sections[2] == "  " + SectionText(6, Blue) + "  " == "  6 blue  ";
  }

  lemma ExampleDrawText()
    ensures DrawText(Draw(1, 2, 3)) == "1 red, 2 green, 3 blue"
  {
    ExampleSections();
    JoinThree("1 red", " 2 green", " 3 blue", ',');
    assert "1 red" + [','] + " 2 green" + [','] + " 3 blue" == "1 red, 2 green, 3 blue";
  }

  lemma ExampleSections()
    ensures DrawSections(Draw(1, 2, 3)) == ["1 red", " 2 green", " 3 blue"]
  {
    assert Decimal(1) == "1" && Decimal(2) == "2" && Decimal(3) == "3";
    assert SectionText(1, Red) == "1 red";
    assert SectionText(2, Green) == "2 green";
    assert SectionText(3, Blue) == "3 blue";
    assert " " + "2 green" == " 2 green" && " " + "3 blue" == " 3 blue";
  }

  /**
   * A draw of more than three sections is rejected before any section is read, whatever the
   * sections say (the source's example has a fourth section `4 yellow`).
   */
  lemma TooManySections(sections: seq<string>)
    requires |sections| > 3 && forall i :: 0 <= i < |sections| ==> ',' !in sections[i]
    ensures DrawFromStr(Join(sections, ',')) == Err(WrongTokenCount)
  {
    SplitJoin(sections, ',');
  }

  datatype Game = Game(id: nat, draws: seq<Draw>)

  /**
   * `Game::from_str`: exactly one `:`; then `Game <id>` before it; then the `;`-separated draws
   * after it, collected as `collect::<Result<Vec<Draw>, _>>` collects them.
   */
  function GameFromStr(s: string): (r: Result<Game, SyntaxError>)
    ensures r.Ok? ==> |r.value.draws| > 0 && r.value.id <= U32_MAX
    ensures r.Ok? ==> forall i :: 0 <= i < |r.value.draws| ==>
      r.value.draws[i].red <= U32_MAX && r.value.draws[i].green <= U32_MAX && r.value.draws[i].blue <= U32_MAX
  {
    var sections := Split(s, ':');
    if |sections| != 2 then Err(InvalidSectionCount)
    else
      var draws := Collect(DrawFromStr, Split(Trim(sections[1]), ';'));
      var gameIdTokens := Split(Trim(sections[0]), ' ');
      if |gameIdTokens| != 2 then Err(WrongTokenCountGID)
      else if gameIdTokens[0] != "Game" then Err(LiteralNotFound("Game"))
      else
        match ParseU32(gameIdTokens[1])
        case None => Err(IdNotInteger)
        case Some(id) =>
          match draws
          case Err(e) => Err(e)
          case Ok(ds) => Ok(Game(id, ds))
  }

  /**
   * The faults of a record, in the order they are reported: the number of `:`-sections, then
   * the id part (token count, the word `Game`, the number), and only then the draws, even though
   * the draws are parsed first.
   */
  lemma GameErrors(s: string)
    ensures |Split(s, ':')| != 2 ==> GameFromStr(s) == Err(InvalidSectionCount)
    ensures |Split(s, ':')| == 2 ==>
      var tokens := Split(Trim(Split(s, ':')[0]), ' ');
      && (|tokens| != 2 ==> GameFromStr(s) == Err(WrongTokenCountGID))
      && (|tokens| == 2 && tokens[0] != "Game" ==> GameFromStr(s) == Err(LiteralNotFound("Game")))
      && (|tokens| == 2 && tokens[0] == "Game" && ParseU32(tokens[1]).None? ==> GameFromStr(s) == Err(IdNotInteger))
      && (|tokens| == 2 && tokens[0] == "Game" && ParseU32(tokens[1]).Some? ==>
            var draws := Collect(DrawFromStr, Split(Trim(Split(s, ':')[1]), ';'));
            && (draws.Err? ==> GameFromStr(s) == Err(draws.error))
            && (draws.Ok? ==> GameFromStr(s) == Ok(Game(ParseU32(tokens[1]).value, draws.value))))
  {
  }

  /** A game written as the records write it: `Game <id>: <draw>; <draw>; ...`. */
  function GameText(g: Game): string
    requires |g.draws| > 0
  {
    "Game " + Decimal(g.id) + ":" + " " + Join(DrawPieces(g.draws), ';')
  }

  function DrawPieces(draws: seq<Draw>): (pieces: seq<string>)
    ensures |pieces| == |draws|
  {
    seq(|draws|, i requires 0 <= i < |draws| => DrawPad(i) + DrawText(draws[i]))
  }

  /** The space that follows each `;` of a record. */
  function DrawPad(i: nat): string {
    if i == 0 then "" else " "
  }

  /** Every game that has a draw and whose numbers fit `u32` is read back from its text. */
  lemma ParseGameText(g: Game)
    requires |g.draws| > 0 && g.id <= U32_MAX
    requires forall i :: 0 <= i < |g.draws| ==>
      g.draws[i].red <= U32_MAX && g.draws[i].green <= U32_MAX && g.draws[i].blue <= U32_MAX
    ensures GameFromStr(GameText(g)) == Ok(g)
  {
    SplitGameText(g);
    SplitGameId(g.id);
    ParseDecimal(g.id);
    SplitDrawsPart(g.draws);
    DrawPiecesParse(g.draws);
    CollectValues(DrawFromStr, DrawPieces(g.draws), g.draws);
  }

  lemma SplitGameText(g: Game)
    requires |g.draws| > 0
    ensures Split(GameText(g), ':') == ["Game " + Decimal(g.id), " " + Join(DrawPieces(g.draws), ';')]
  {
    var pieces := DrawPieces(g.draws);
    var idPart := "Game " + Decimal(g.id);
    var drawPart := Join(pieces, ';');
    DrawPiecesFree(g.draws);
    JoinFree(pieces, ';', ':');
    assert ':' !in idPart by {
      assert forall k :: 5 <= k < |idPart| ==> idPart[k] == Decimal(g.id)[k - 5];
    }
    assert GameText(g) == Join([idPart, " " + drawPart], ':');
    SplitJoin([idPart, " " + drawPart], ':');
  }

  lemma SplitGameId(id: nat)
    ensures Split(Trim("Game " + Decimal(id)), ' ') == ["Game", Decimal(id)]
  {
    var digits := Decimal(id);
    var idPart := "Game " + digits;
    assert forall k :: 0 <= k < |digits| ==> IsDigit(digits[k]);
    assert idPart[|idPart| - 1] == digits[|digits| - 1];
    TrimUnchanged(idPart);
    assert idPart == Join(["Game", digits], ' ');
    SplitJoin(["Game", digits], ' ');
  }

  lemma SplitDrawsPart(draws: seq<Draw>)
    requires |draws| > 0
    ensures Split(Trim(" " + Join(DrawPieces(draws), ';')), ';') == DrawPieces(draws)
  {
    var pieces := DrawPieces(draws);
    var drawPart := Join(pieces, ';');
    DrawPiecesFree(draws);
    DrawPiecesEnds(draws);
    assert " " + drawPart == " " + drawPart + "";
    TrimPadded(" ", drawPart, "");
    SplitJoin(pieces, ';');
  }

  /** The draw pieces are non-empty and free of `;` and `:` ... */
  lemma DrawPiecesFree(draws: seq<Draw>)
    ensures forall i :: 0 <= i < |DrawPieces(draws)| ==>
      |DrawPieces(draws)[i]| > 0 && ';' !in DrawPieces(draws)[i] && ':' !in DrawPieces(draws)[i]
  {
    forall i | 0 <= i < |draws|
      ensures |DrawPieces(draws)[i]| > 0 && ';' !in DrawPieces(draws)[i] && ':' !in DrawPieces(draws)[i]
    {
      PieceShape(i, draws[i], DrawPieces(draws)[i]);
    }
  }

  /** ... and their join neither starts nor ends with whitespace. */
  lemma DrawPiecesEnds(draws: seq<Draw>)
    requires |draws| > 0
    ensures Unpadded(Join(DrawPieces(draws), ';'))
  {
    var pieces := DrawPieces(draws);
    var last := |pieces| - 1;
    DrawPiecesFree(draws);
    PieceShape(0, draws[0], pieces[0]);
    PieceShape(last, draws[last], pieces[last]);
    JoinUnpadded(pieces, ';');
  }

  /** The i-th piece of a game's draws: the draw's text, after a space unless it is the first. */
  lemma PieceShape(i: nat, d: Draw, piece: string)
    requires piece == DrawPad(i) + DrawText(d)
    ensures |piece| > 0 && ';' !in piece && ':' !in piece
    ensures i == 0 ==> !IsWhitespace(piece[0])
    ensures !IsWhitespace(piece[|piece| - 1])
  {
    DrawTextFree(DrawPad(i), d, ';');
    DrawTextFree(DrawPad(i), d, ':');
    DrawTextEnds(d);
  }

  lemma DrawPiecesParse(draws: seq<Draw>)
    requires forall i :: 0 <= i < |draws| ==>
      draws[i].red <= U32_MAX && draws[i].green <= U32_MAX && draws[i].blue <= U32_MAX
    ensures forall i :: 0 <= i < |draws| ==> DrawFromStr(DrawPieces(draws)[i]) == Ok(draws[i])
  {
    forall i | 0 <= i < |draws| ensures DrawFromStr(DrawPieces(draws)[i]) == Ok(draws[i]) {
      ParseDrawText(DrawPad(i), draws[i]);
    }
  }

  /** The punctuation that separates the draws and the id appears in no draw text. */
  lemma DrawTextFree(pre: string, d: Draw, x: char)
    requires x == ';' || x == ':'
    requires forall k :: 0 <= k < |pre| ==> IsWhitespace(pre[k])
    ensures x !in pre + DrawText(d)
  {
    PaddedText(pre, d);
    SectionsFree(pre, d, x);
    JoinFree(PaddedSections(pre, d), ',', x);
  }

  /** A draw's text starts with a digit and ends with the last letter of "blue". */
  lemma DrawTextEnds(d: Draw)
    ensures |DrawText(d)| > 0 && IsDigit(DrawText(d)[0]) && DrawText(d)[|DrawText(d)| - 1] == 'e'
  {
    JoinEnds(DrawSections(d), ',');
  }

  // ----- the two questions asked of a game -----

  /** Every draw of the game shows no more cubes of any colour than the bag holds. */
  predicate WithinLimits(game: Game, redBlocks: nat, blueBlocks: nat, greenBlocks: nat) {
    forall i :: 0 <= i < |game.draws| ==>
      game.draws[i].red <= redBlocks && game.draws[i].green <= greenBlocks && game.draws[i].blue <= blueBlocks
  }

  /** `check_game_within_limits`, which stops at the first draw over a limit. */
  method CheckGameWithinLimits(game: Game, redBlocks: nat, blueBlocks: nat, greenBlocks: nat) returns (ok: bool)
    ensures ok == WithinLimits(game, redBlocks, blueBlocks, greenBlocks)
  {
    for i := 0 to |game.draws|
      invariant WithinLimits(Game(game.id, game.draws[..i]), redBlocks, blueBlocks, greenBlocks)
    {
      var draw := game.draws[i];
      if draw.red > redBlocks || draw.green > greenBlocks || draw.blue > blueBlocks {
        return false;
      }
    }
    assert game.draws[..|game.draws|] == game.draws;
    return true;
  }

  /** The largest count of c over the draws; 0 when there are none. */
  function MaxCount(draws: seq<Draw>, c: CubeColor): (m: nat)
    ensures forall i :: 0 <= i < |draws| ==> Count(draws[i], c) <= m
    ensures |draws| == 0 ==> m == 0
    ensures |draws| > 0 ==> exists i :: 0 <= i < |draws| && Count(draws[i], c) == m
  {
    if draws == [] then 0
    else
      var rest := MaxCount(draws[1..], c);
      assert forall i :: 1 <= i < |draws| ==> draws[i] == draws[1..][i - 1];
      if Count(draws[0], c) >= rest then Count(draws[0], c) else rest
  }

  /** No draw of the game shows a cube of colour c. */
  predicate NeverDrawn(draws: seq<Draw>, c: CubeColor) {
    forall i :: 0 <= i < |draws| ==> Count(draws[i], c) == 0
  }

  /**
   * `calculate_power_of_set`: the product of the three per-colour maxima, which is 0 exactly
   * when some colour is never drawn (a game without draws included).
   */
  function PowerOfSet(game: Game): (p: nat)
    ensures p == 0 <==> NeverDrawn(game.draws, Red) || NeverDrawn(game.draws, Green) || NeverDrawn(game.draws, Blue)
  {
    var red, green, blue := MaxCount(game.draws, Red), MaxCount(game.draws, Green), MaxCount(game.draws, Blue);
    MaxCountZero(game.draws, Red);
    MaxCountZero(game.draws, Green);
    MaxCountZero(game.draws, Blue);
    ProductZero(red, green, blue);
    red * green * blue
  }

  lemma ProductZero(a: nat, b: nat, c: nat)
    ensures a * b * c >= 0
    ensures a * b * c == 0 <==> a == 0 || b == 0 || c == 0
  {
    if a > 0 && b > 0 && c > 0 {
      assert a * b >= b;
      assert a * b * c >= c;
    }
  }

  /** The largest count of a colour is 0 exactly when that colour is never drawn. */
  lemma MaxCountZero(draws: seq<Draw>, c: CubeColor)
    ensures MaxCount(draws, c) == 0 <==> NeverDrawn(draws, c)
  {
    if NeverDrawn(draws, c) && |draws| > 0 {
      var i :| 0 <= i < |draws| && Count(draws[i], c) == MaxCount(draws, c);
    }
  }

  /** The per-colour maxima describe a bag that admits the game ... */
  lemma MaximaAdmitGame(game: Game)
    ensures WithinLimits(game, MaxCount(game.draws, Red), MaxCount(game.draws, Blue), MaxCount(game.draws, Green))
  {
    forall i | 0 <= i < |game.draws|
      ensures game.draws[i].red <= MaxCount(game.draws, Red)
      ensures game.draws[i].green <= MaxCount(game.draws, Green)
      ensures game.draws[i].blue <= MaxCount(game.draws, Blue)
    {
      assert Count(game.draws[i], Red) == game.draws[i].red;
      assert Count(game.draws[i], Green) == game.draws[i].green;
      assert Count(game.draws[i], Blue) == game.draws[i].blue;
    }
  }

  /** ... and the smallest one: every bag that admits the game holds at least as many of each colour. */
  lemma MaximaAreLeast(game: Game, redBlocks: nat, blueBlocks: nat, greenBlocks: nat)
    requires WithinLimits(game, redBlocks, blueBlocks, greenBlocks)
    ensures MaxCount(game.draws, Red) <= redBlocks
    ensures MaxCount(game.draws, Green) <= greenBlocks
    ensures MaxCount(game.draws, Blue) <= blueBlocks
  {
    if |game.draws| > 0 {
      var r :| 0 <= r < |game.draws| && Count(game.draws[r], Red) == MaxCount(game.draws, Red);
      var g :| 0 <= g < |game.draws| && Count(game.draws[g], Green) == MaxCount(game.draws, Green);
      var b :| 0 <= b < |game.draws| && Count(game.draws[b], Blue) == MaxCount(game.draws, Blue);
    }
  }
}
