/**
 * Engine schematics (src/day_3.rs): a grid of lines in which runs of decimal digits are part
 * numbers, `.` is empty space and every other character is a part symbol. A part number
 * belongs to every part symbol among its eight neighbours.
 *
 * This module holds the values the scanner works with and the reference description of what
 * a scan produces; the scanner itself, which keeps a one-line window and updates it line by
 * line, is in module Scanner.
 */
module Schematic {
  import opened Wrappers
  import opened Text

  /** A part number: where its first digit is, how many digits it has (as a `u8`) and its value. */
  datatype PartNumber = PartNumber(line: nat, column: nat, digits: nat, val: nat)

  /** A part symbol, with the part numbers found next to it so far. */
  datatype Part = Part(line: nat, column: nat, associatedPns: seq<PartNumber>, ptype: char)

  datatype ScanState = Normal | PartNum(start: nat)

  datatype ParseError =
    | NumberNotAnInteger(line: nat, col: nat)
    | UnexpectedSymbolFound(line: nat, col: nat)

  datatype EngineSchematic = EngineSchematic(parts: seq<Part>)

  /**
   * `PartNumber::in_vicinity`, with the lower bounds saturated at 0 as the source computes them.
   * The saturation never changes the answer: the part is within one row of the number and
   * between one column before its first digit and one column after its last.
   */
  function InVicinity(pn: PartNumber, part: Part): (b: bool)
    ensures b <==>
      pn.line - 1 <= part.line <= pn.line + 1
      && pn.column - 1 <= part.column <= pn.column + pn.digits
  {
    var minline := if pn.line > 0 then pn.line - 1 else 0;
    var maxline := pn.line + 1;
    var mincol := if pn.column > 0 then pn.column - 1 else 0;
    var maxcol := pn.column + pn.digits + 1;
    minline <= part.line && part.line <= maxline && mincol <= part.column && part.column < maxcol
  }

  /**
   * `PartNumber::new`: the numeral must parse as a `u32`; its length is kept as a `u8`, so it
   * wraps at 256.
   */
  function NewPartNumber(s: string, line: nat, col: nat): (r: Result<PartNumber, ParseError>)
    ensures r.Err? ==> r.error == NumberNotAnInteger(line, col)
    ensures r.Ok? ==> r.value.line == line && r.value.column == col && r.value.digits == |s| % 256
  {
    match ParseU32(s)
    case Some(val) => Ok(PartNumber(line, col, |s| % 256, val))
    case None => Err(NumberNotAnInteger(line, col))
  }

  /** A numeral of digits makes a part number exactly when its value fits a `u32`, and that value is kept. */
  lemma NewPartNumberOfDigits(s: string, line: nat, col: nat)
    requires |s| > 0 && AllDigits(s)
    ensures NewPartNumber(s, line, col).Ok? <==> DecimalValue(s) <= U32_MAX
    ensures NewPartNumber(s, line, col).Ok? ==> NewPartNumber(s, line, col).value.val == DecimalValue(s)
  {
  }

  // ----- the tokens of one line -----

  /** Any character that is neither a digit nor `.` is a part symbol, whitespace included. */
  predicate IsSymbol(c: char) {
    !IsDigit(c) && c != '.'
  }

  /** Where the run of digits that starts at i ends: the first non-digit at or after i. */
  function RunEnd(line: string, i: nat): (j: nat)
    requires i <= |line|
    ensures i <= j <= |line|
    ensures forall k :: i <= k < j ==> IsDigit(line[k])
    ensures j < |line| ==> !IsDigit(line[j])
    decreases |line| - i
  {
    if i < |line| && IsDigit(line[i]) then RunEnd(line, i + 1) else i
  }

  /** A run of digits that cannot be extended either way; the numeral of a part number. */
  predicate MaximalRun(line: string, start: nat, end: nat) {
    && start < end <= |line|
    && (forall k :: start <= k < end ==> IsDigit(line[k]))
    && (start == 0 || !IsDigit(line[start - 1]))
    && (end == |line| || !IsDigit(line[end]))
  }

  /** A position that is not strictly inside a run of digits. */
  predicate AtRunBoundary(line: string, i: nat)
    requires i <= |line|
  {
    i == 0 || i == |line| || !IsDigit(line[i - 1]) || !IsDigit(line[i])
  }

  datatype Span = Span(start: nat, end: nat)

  /** The runs of digits of the line at or after i, left to right. */
  function Runs(line: string, i: nat): (runs: seq<Span>)
    requires i <= |line|
    ensures forall k :: 0 <= k < |runs| ==>
      i <= runs[k].start < runs[k].end <= |line| && IsDigit(line[runs[k].start])
    decreases |line| - i
  {
    if i == |line| then []
    else if IsDigit(line[i]) then [Span(i, RunEnd(line, i))] + Runs(line, RunEnd(line, i))
    else Runs(line, i + 1)
  }

  lemma RunEndAt(line: string, i: nat, j: nat)
    requires i <= j <= |line|
    requires forall k :: i <= k < j ==> IsDigit(line[k])
    requires j == |line| || !IsDigit(line[j])
    ensures RunEnd(line, i) == j
  {
  }

  /** From a run boundary on, the runs listed are exactly the maximal runs. */
  lemma {:induction false} RunsFrom(line: string, i: nat, s: nat, e: nat)
    requires i <= |line| && AtRunBoundary(line, i)
    ensures Span(s, e) in Runs(line, i) <==> i <= s && MaximalRun(line, s, e)
    decreases |line| - i
  {
    if i < |line| {
      if IsDigit(line[i]) {
        var j := RunEnd(line, i);
        RunsFrom(line, j, s, e);
        assert Runs(line, i) == [Span(i, j)] + Runs(line, j);
        if s == i && MaximalRun(line, s, e) {
          RunEndAt(line, i, e);
        } else if i < s < j {
          assert IsDigit(line[s - 1]);
        }
      } else {
        RunsFrom(line, i + 1, s, e);
      }
    }
  }

  /** The runs of a line are exactly its maximal runs of digits ... */
  lemma RunsAreMaximal(line: string, s: nat, e: nat)
    ensures Span(s, e) in Runs(line, 0) <==> MaximalRun(line, s, e)
  {
    RunsFrom(line, 0, s, e);
  }

  /** ... listed left to right, each ending before the next begins. */
  lemma {:induction false} RunsOrdered(line: string, i: nat)
    requires i <= |line|
    ensures forall a, b :: 0 <= a < b < |Runs(line, i)| ==> Runs(line, i)[a].end < Runs(line, i)[b].start
    decreases |line| - i
  {
    if i < |line| {
      if IsDigit(line[i]) {
        var j := RunEnd(line, i);
        RunsOrdered(line, j);
        var runs := Runs(line, i);
        assert runs == [Span(i, j)] + Runs(line, j);
        forall b | 1 <= b < |runs| ensures j < runs[b].start {
          assert runs[b] == Runs(line, j)[b - 1];
        }
      } else {
        RunsOrdered(line, i + 1);
      }
    }
  }

  predicate ValidSpans(line: string, spans: seq<Span>) {
    forall k :: 0 <= k < |spans| ==> spans[k].start <= spans[k].end <= |line|
  }

  /** The part numbers of the given runs, in order, or the error of the first that is too large. */
  function Numbers(line: string, lnr: nat, runs: seq<Span>): Result<seq<PartNumber>, ParseError>
    requires ValidSpans(line, runs)
    decreases |runs|
  {
    if runs == [] then Ok([])
    else
      var last := runs[|runs| - 1];
      match Numbers(line, lnr, runs[..|runs| - 1])
      case Err(e) => Err(e)
      case Ok(ns) =>
        match NewPartNumber(line[last.start..last.end], lnr, last.start)
        case Err(e) => Err(e)
        case Ok(pn) => Ok(ns + [pn])
  }

  /** When the numbers of some runs are accepted, there is one per run, made from that run. */
  lemma NumbersValues(line: string, lnr: nat, runs: seq<Span>)
    requires ValidSpans(line, runs)
    requires Numbers(line, lnr, runs).Ok?
    ensures |Numbers(line, lnr, runs).value| == |runs|
    ensures forall k :: 0 <= k < |runs| ==>
      NewPartNumber(line[runs[k].start..runs[k].end], lnr, runs[k].start) == Ok(Numbers(line, lnr, runs).value[k])
  {
    forall k | 0 <= k < |runs|
      ensures NewPartNumber(line[runs[k].start..runs[k].end], lnr, runs[k].start) == Ok(Numbers(line, lnr, runs).value[k])
    {
      NumberOfRun(line, lnr, runs, k);
    }
    if runs == [] {
      NumberOfRunCount(line, lnr, runs);
    }
  }

  lemma NumberOfRunCount(line: string, lnr: nat, runs: seq<Span>)
    requires ValidSpans(line, runs)
    requires Numbers(line, lnr, runs).Ok?
    ensures |Numbers(line, lnr, runs).value| == |runs|
  {
    if runs != [] {
      NumberOfRun(line, lnr, runs, 0);
    }
  }

  /** The number of run k is the part number made from that run. */
  lemma {:induction false} NumberOfRun(line: string, lnr: nat, runs: seq<Span>, k: nat)
    requires ValidSpans(line, runs)
    requires Numbers(line, lnr, runs).Ok?
    requires k < |runs|
    ensures |Numbers(line, lnr, runs).value| == |runs|
    ensures NewPartNumber(line[runs[k].start..runs[k].end], lnr, runs[k].start) == Ok(Numbers(line, lnr, runs).value[k])
    decreases |runs|
  {
    var front, last := runs[..|runs| - 1], runs[|runs| - 1];
    assert runs == front + [last];
    assert Numbers(line, lnr, front).Ok?;
    NumbersAppend(line, lnr, front, last);
    if k < |front| {
      NumberOfRun(line, lnr, front, k);
      assert runs[k] == front[k];
    } else if front != [] {
      NumberOfRun(line, lnr, front, 0);
    }
  }

  /** Once the numbers of some runs fail, the numbers of any longer list of runs fail the same way. */
  lemma {:induction false} NumbersPrefixError(line: string, lnr: nat, runs: seq<Span>, more: seq<Span>)
    requires ValidSpans(line, runs) && ValidSpans(line, runs + more)
    requires Numbers(line, lnr, runs).Err?
    ensures Numbers(line, lnr, runs + more) == Numbers(line, lnr, runs)
    decreases |more|
  {
    if more == [] {
      assert runs + more == runs;
    } else {
      var front := more[..|more| - 1];
      assert (runs + more)[..|runs + more| - 1] == runs + front;
      NumbersPrefixError(line, lnr, runs, front);
    }
  }

  /** The numbers of a line fail exactly at the first run whose value does not fit a `u32`. */
  lemma {:induction false} NumbersFirstError(line: string, lnr: nat, runs: seq<Span>, k: nat)
    requires ValidSpans(line, runs)
    requires k < |runs|
    requires NewPartNumber(line[runs[k].start..runs[k].end], lnr, runs[k].start).Err?
    requires forall j :: 0 <= j < k ==> NewPartNumber(line[runs[j].start..runs[j].end], lnr, runs[j].start).Ok?
    ensures Numbers(line, lnr, runs) == Err(NumberNotAnInteger(lnr, runs[k].start))
    decreases |runs|
  {
    var front := runs[..|runs| - 1];
    assert ValidSpans(line, front);
    assert forall j :: 0 <= j < |front| ==> front[j] == runs[j];
    if k == |runs| - 1 {
      NumbersAccepted(line, lnr, front);
    } else {
      NumbersFirstError(line, lnr, front, k);
    }
  }

  lemma {:induction false} NumbersAccepted(line: string, lnr: nat, runs: seq<Span>)
    requires ValidSpans(line, runs)
    requires forall j :: 0 <= j < |runs| ==> NewPartNumber(line[runs[j].start..runs[j].end], lnr, runs[j].start).Ok?
    ensures Numbers(line, lnr, runs).Ok?
    decreases |runs|
  {
    if runs != [] {
      var front := runs[..|runs| - 1];
      assert ValidSpans(line, front);
      assert forall j :: 0 <= j < |front| ==> front[j] == runs[j];
      NumbersAccepted(line, lnr, front);
    }
  }

  /** A list of runs is rejected only for a run whose value does not fit a `u32`, at that run's start. */
  lemma {:induction false} NumbersErrorIsOverflow(line: string, lnr: nat, runs: seq<Span>)
    requires ValidSpans(line, runs) && Numbers(line, lnr, runs).Err?
    ensures exists k ::
      && 0 <= k < |runs|
      && NewPartNumber(line[runs[k].start..runs[k].end], lnr, runs[k].start).Err?
      && Numbers(line, lnr, runs).error == NumberNotAnInteger(lnr, runs[k].start)
    decreases |runs|
  {
    var front, last := runs[..|runs| - 1], runs[|runs| - 1];
    assert ValidSpans(line, front);
    if Numbers(line, lnr, front).Err? {
      NumbersErrorIsOverflow(line, lnr, front);
      var k :| 0 <= k < |front|
        && NewPartNumber(line[front[k].start..front[k].end], lnr, front[k].start).Err?
        && Numbers(line, lnr, front).error == NumberNotAnInteger(lnr, front[k].start);
      assert front[k] == runs[k];
    } else {
      assert NewPartNumber(line[last.start..last.end], lnr, last.start).Err?;
    }
  }

  /**
   * A line is rejected only for a maximal run of digits whose value does not fit a `u32`,
   * reported at the run's first digit: no other error, `UnexpectedSymbolFound` included, arises.
   */
  lemma LineNumbersError(line: string, lnr: nat)
    requires LineNumbers(line, lnr).Err?
    ensures exists s: nat, e: nat ::
      && MaximalRun(line, s, e)
      && DecimalValue(line[s..e]) > U32_MAX
      && LineNumbers(line, lnr).error == NumberNotAnInteger(lnr, s)
  {
    var runs := Runs(line, 0);
    NumbersErrorIsOverflow(line, lnr, runs);
    var k :| 0 <= k < |runs|
      && NewPartNumber(line[runs[k].start..runs[k].end], lnr, runs[k].start).Err?
      && LineNumbers(line, lnr).error == NumberNotAnInteger(lnr, runs[k].start);
    RunsAreMaximal(line, runs[k].start, runs[k].end);
    NewPartNumberOfDigits(line[runs[k].start..runs[k].end], lnr, runs[k].start);
  }

  /** The part numbers of a whole line: one per maximal run of digits. */
  function LineNumbers(line: string, lnr: nat): Result<seq<PartNumber>, ParseError> {
    Numbers(line, lnr, Runs(line, 0))
  }

  /**
   * The k-th part number of a line comes from its k-th run of digits, which is a maximal run:
   * it is on that line, starts where the run does, and carries the run's value and its length
   * modulo 256.
   */
  lemma LineNumberOfRun(line: string, lnr: nat, k: nat)
    requires LineNumbers(line, lnr).Ok?
    requires k < |Runs(line, 0)|
    ensures |LineNumbers(line, lnr).value| == |Runs(line, 0)|
    ensures var run := Runs(line, 0)[k];
      && MaximalRun(line, run.start, run.end)
      && LineNumbers(line, lnr).value[k]
         == PartNumber(lnr, run.start, (run.end - run.start) % 256, DecimalValue(line[run.start..run.end]))
  {
    var runs := Runs(line, 0);
    NumbersValues(line, lnr, runs);
    RunsAreMaximal(line, runs[k].start, runs[k].end);
    NewPartNumberOfDigits(line[runs[k].start..runs[k].end], lnr, runs[k].start);
  }

  /** Every part number of a line is on that line. */
  lemma LineNumbersOnLine(line: string, lnr: nat, pn: PartNumber)
    requires LineNumbers(line, lnr).Ok? && pn in LineNumbers(line, lnr).value
    ensures pn.line == lnr
  {
    NumbersValues(line, lnr, Runs(line, 0));
  }

  /** The part symbols among the first n characters of a line, left to right, with no numbers yet. */
  function Symbols(line: string, lnr: nat, n: nat): seq<Part>
    requires n <= |line|
  {
    if n == 0 then []
    else Symbols(line, lnr, n - 1) + (if IsSymbol(line[n - 1]) then [Part(lnr, n - 1, [], line[n - 1])] else [])
  }

  /** The k-th part of a line is a part symbol of that line, on the line's number, with no numbers yet. */
  lemma {:induction false} SymbolAt(line: string, lnr: nat, n: nat, k: nat)
    requires n <= |line| && k < |Symbols(line, lnr, n)|
    ensures var p := Symbols(line, lnr, n)[k];
      && p.line == lnr && p.column < n && IsSymbol(line[p.column]) && p.ptype == line[p.column]
      && p.associatedPns == []
  {
    if k < |Symbols(line, lnr, n - 1)| {
      SymbolAt(line, lnr, n - 1, k);
    }
  }

  /** The parts of a line are listed in column order, so none is listed twice. */
  lemma {:induction false} SymbolsOrdered(line: string, lnr: nat, n: nat, a: nat, b: nat)
    requires n <= |line| && a < b < |Symbols(line, lnr, n)|
    ensures Symbols(line, lnr, n)[a].column < Symbols(line, lnr, n)[b].column
  {
    var front := Symbols(line, lnr, n - 1);
    if b < |front| {
      SymbolsOrdered(line, lnr, n - 1, a, b);
    } else {
      SymbolAt(line, lnr, n - 1, a);
    }
  }

  /** Every part symbol among the first n characters of a line is listed. */
  lemma {:induction false} SymbolsCover(line: string, lnr: nat, n: nat, col: nat)
    requires col < n <= |line| && IsSymbol(line[col])
    ensures exists k :: 0 <= k < |Symbols(line, lnr, n)| && Symbols(line, lnr, n)[k].column == col
  {
    var front := Symbols(line, lnr, n - 1);
    if col < n - 1 {
      SymbolsCover(line, lnr, n - 1, col);
      var k :| 0 <= k < |front| && front[k].column == col;
      assert Symbols(line, lnr, n)[k] == front[k];
    } else {
      assert Symbols(line, lnr, n)[|front|].column == col;
    }
  }

  // ----- attaching numbers to parts -----

  /** The numbers of ns that are in the vicinity of p, in the order of ns. */
  function Adjacent(ns: seq<PartNumber>, p: Part): seq<PartNumber>
    decreases |ns|
  {
    if ns == [] then []
    else
      var last := ns[|ns| - 1];
      Adjacent(ns[..|ns| - 1], p) + (if InVicinity(last, p) then [last] else [])
  }

  /** A number is picked out for p exactly when it is one of ns and in p's vicinity. */
  lemma {:induction false} AdjacentMembers(ns: seq<PartNumber>, p: Part, pn: PartNumber)
    ensures pn in Adjacent(ns, p) <==> pn in ns && InVicinity(pn, p)
    decreases |ns|
  {
    if ns != [] {
      AdjacentMembers(ns[..|ns| - 1], p, pn);
      assert ns == ns[..|ns| - 1] + [ns[|ns| - 1]];
    }
  }

  /** Only where a part is matters for which numbers are adjacent to it. */
  lemma {:induction false} AdjacentByPosition(ns: seq<PartNumber>, p: Part, q: Part)
    requires p.line == q.line && p.column == q.column
    ensures Adjacent(ns, p) == Adjacent(ns, q)
    decreases |ns|
  {
    if ns != [] {
      AdjacentByPosition(ns[..|ns| - 1], p, q);
    }
  }

  /** One pass of the nested loops: every part gets the numbers of ns in its vicinity appended. */
  function Attach(ns: seq<PartNumber>, parts: seq<Part>): (r: seq<Part>)
    ensures |r| == |parts|
  {
    seq(|parts|, j requires 0 <= j < |parts| =>
      parts[j].(associatedPns := parts[j].associatedPns + Adjacent(ns, parts[j])))
  }

  /** The window the scanner carries from one line to the next. */
  datatype Carry = Carry(parts: seq<Part>, nums: seq<PartNumber>)

  /**
   * What `ScanWindow::process_line` does with one line: the previous line's parts, now with
   * this line's numbers attached, are handed back; this line's parts, with the numbers of this
   * line and of the previous line attached, are carried on with this line's numbers.
   */
  function Step(carry: Carry, line: string, lnr: nat): Result<(seq<Part>, Carry), ParseError> {
    match LineNumbers(line, lnr)
    case Err(e) => Err(e)
    case Ok(nums) =>
      var here := Attach(carry.nums, Attach(nums, Symbols(line, lnr, |line|)));
      Ok((Attach(nums, carry.parts), Carry(here, nums)))
  }

  /** The first n lines fed through `process_line`: what was handed back, and the window. */
  function Scan(lines: seq<string>, n: nat): Result<(seq<Part>, Carry), ParseError>
    requires n <= |lines|
  {
    if n == 0 then Ok(([], Carry([], [])))
    else
      match Scan(lines, n - 1)
      case Err(e) => Err(e)
      case Ok((out, carry)) =>
        match Step(carry, lines[n - 1], n - 1)
        case Err(e) => Err(e)
        case Ok((handed, next)) => Ok((out + handed, next))
  }

  /** `EngineSchematic::from_str`: all lines scanned, then the last line's parts flushed. */
  function SchematicOf(lines: seq<string>): Result<EngineSchematic, ParseError> {
    match Scan(lines, |lines|)
    case Err(e) => Err(e)
    case Ok((out, carry)) => Ok(EngineSchematic(out + carry.parts))
  }

  // ----- the reference description of a scanned schematic -----

  /** The numbers of every row; a row that does not parse counts as having none. */
  function GridNumbers(lines: seq<string>): (grid: seq<seq<PartNumber>>)
    ensures |grid| == |lines|
  {
    seq(|lines|, r requires 0 <= r < |lines| =>
      if LineNumbers(lines[r], r).Ok? then LineNumbers(lines[r], r).value else [])
  }

  /** The numbers of row r of a grid, none when r is outside it. */
  function RowNumbers(grid: seq<seq<PartNumber>>, r: int): seq<PartNumber> {
    if 0 <= r < |grid| then grid[r] else []
  }

  /** Every number of the grid is on its own row. */
  predicate OnTheirRows(grid: seq<seq<PartNumber>>) {
    forall q, pn :: 0 <= q < |grid| && pn in grid[q] ==> pn.line == q
  }

  lemma GridNumbersOnTheirRows(lines: seq<string>)
    ensures OnTheirRows(GridNumbers(lines))
  {
    forall q, pn | 0 <= q < |lines| && pn in GridNumbers(lines)[q]
      ensures pn.line == q
    {
      LineNumbersOnLine(lines[q], q, pn);
    }
  }

  /** The numbers of each group in turn that are in the vicinity of p. */
  function AdjacentAll(groups: seq<seq<PartNumber>>, p: Part): seq<PartNumber>
    decreases |groups|
  {
    if groups == [] then []
    else AdjacentAll(groups[..|groups| - 1], p) + Adjacent(groups[|groups| - 1], p)
  }

  /** A number is gathered for p exactly when it is in one of the groups and in p's vicinity. */
  lemma {:induction false} AdjacentAllMembers(groups: seq<seq<PartNumber>>, p: Part, pn: PartNumber)
    ensures pn in AdjacentAll(groups, p) <==> exists g :: 0 <= g < |groups| && pn in groups[g] && InVicinity(pn, p)
    decreases |groups|
  {
    if groups != [] {
      var front := groups[..|groups| - 1];
      AdjacentAllMembers(front, p, pn);
      AdjacentMembers(groups[|groups| - 1], p, pn);
      assert forall g :: 0 <= g < |front| ==> front[g] == groups[g];
    }
  }

  /** Every part with the numbers of each group in its vicinity appended, group by group. */
  function Gathered(parts: seq<Part>, groups: seq<seq<PartNumber>>): (r: seq<Part>)
    ensures |r| == |parts|
  {
    seq(|parts|, k requires 0 <= k < |parts| =>
      parts[k].(associatedPns := parts[k].associatedPns + AdjacentAll(groups, parts[k])))
  }

  /** One more pass of the nested loops gathers one more group. */
  lemma AttachGathered(ns: seq<PartNumber>, parts: seq<Part>, groups: seq<seq<PartNumber>>)
    ensures Attach(ns, Gathered(parts, groups)) == Gathered(parts, groups + [ns])
  {
    forall k | 0 <= k < |parts|
      ensures Attach(ns, Gathered(parts, groups))[k] == Gathered(parts, groups + [ns])[k]
    {
      AttachGatheredAt(ns, parts, groups, k);
    }
  }

  lemma AttachGatheredAt(ns: seq<PartNumber>, parts: seq<Part>, groups: seq<seq<PartNumber>>, k: nat)
    requires k < |parts|
    ensures Attach(ns, Gathered(parts, groups))[k] == Gathered(parts, groups + [ns])[k]
  {
    var p := Gathered(parts, groups)[k];
    AdjacentByPosition(ns, p, parts[k]);
    assert (groups + [ns])[..|groups|] == groups;
    assert AdjacentAll(groups + [ns], parts[k]) == AdjacentAll(groups, parts[k]) + Adjacent(ns, parts[k]);
    assert p.associatedPns + Adjacent(ns, p)
      == parts[k].associatedPns + AdjacentAll(groups + [ns], parts[k]);
  }

  lemma AttachFirst(ns: seq<PartNumber>, parts: seq<Part>)
    ensures Attach(ns, parts) == Gathered(parts, [ns])
  {
    forall k | 0 <= k < |parts|
      ensures Attach(ns, parts)[k] == Gathered(parts, [ns])[k]
    {
      assert [ns][..0] == [];
      assert AdjacentAll([ns], parts[k]) == Adjacent(ns, parts[k]);
    }
  }

  /** The parts of row r as the window carries them: the row below is still to come. */
  function CarriedRow(lines: seq<string>, grid: seq<seq<PartNumber>>, r: nat): seq<Part>
    requires r < |lines|
  {
    Gathered(Symbols(lines[r], r, |lines[r]|), [RowNumbers(grid, r), RowNumbers(grid, r - 1)])
  }

  /**
   * The finished parts of row r: its part symbols, each with the numbers in its vicinity from
   * its own row, then the row above, then the row below.
   */
  function FinalRow(lines: seq<string>, grid: seq<seq<PartNumber>>, r: nat): seq<Part>
    requires r < |lines|
  {
    Gathered(Symbols(lines[r], r, |lines[r]|), [RowNumbers(grid, r), RowNumbers(grid, r - 1), RowNumbers(grid, r + 1)])
  }

  /** The finished parts of the first n rows, row by row. */
  function FinalParts(lines: seq<string>, grid: seq<seq<PartNumber>>, n: nat): seq<Part>
    requires n <= |lines|
  {
    if n == 0 then [] else FinalParts(lines, grid, n - 1) + FinalRow(lines, grid, n - 1)
  }

  lemma CarriedRowStep(lines: seq<string>, grid: seq<seq<PartNumber>>, r: nat)
    requires r < |lines|
    ensures Attach(RowNumbers(grid, r - 1), Attach(RowNumbers(grid, r), Symbols(lines[r], r, |lines[r]|))) == CarriedRow(lines, grid, r)
  {
    var symbols := Symbols(lines[r], r, |lines[r]|);
    var here, above := RowNumbers(grid, r), RowNumbers(grid, r - 1);
    AttachFirst(here, symbols);
    AttachGathered(above, symbols, [here]);
    assert [here] + [above] == [here, above];
  }

  lemma FinalRowStep(lines: seq<string>, grid: seq<seq<PartNumber>>, r: nat)
    requires r < |lines|
    ensures Attach(RowNumbers(grid, r + 1), CarriedRow(lines, grid, r)) == FinalRow(lines, grid, r)
  {
    var here, above, below := RowNumbers(grid, r), RowNumbers(grid, r - 1), RowNumbers(grid, r + 1);
    AttachGathered(below, Symbols(lines[r], r, |lines[r]|), [here, above]);
    assert [here, above] + [below] == [here, above, below];
  }

  /**
   * After n lines the parts handed back are the finished parts of all rows but the last
   * scanned, and the window holds that row's parts and numbers.
   */
  lemma {:induction false} ScanWindowContents(lines: seq<string>, n: nat)
    requires 0 < n <= |lines| && Scan(lines, n).Ok?
    ensures var grid := GridNumbers(lines);
      Scan(lines, n).value == (FinalParts(lines, grid, n - 1), Carry(CarriedRow(lines, grid, n - 1), RowNumbers(grid, n - 1)))
  {
    var grid := GridNumbers(lines);
    var r := n - 1;
    ScanStep(lines, n);
    RowNumbersOfGrid(lines, r);
    var nums := RowNumbers(grid, r);
    CarriedRowStep(lines, grid, r);
    var out, carry := Scan(lines, r).value.0, Scan(lines, r).value.1;
    var handed := Attach(nums, carry.parts);
    var here := Attach(carry.nums, Attach(nums, Symbols(lines[r], r, |lines[r]|)));
    if n == 1 {
      assert out == [] && carry == Carry([], []);
      assert RowNumbers(grid, r - 1) == [];
      assert out + handed == [];
    } else {
      ScanWindowContents(lines, r);
      FinalRowStep(lines, grid, r - 1);
      assert out + handed == FinalParts(lines, grid, r);
    }
    assert here == CarriedRow(lines, grid, r);
    assert Scan(lines, n).value == (out + handed, Carry(here, nums));
  }

  /** One more line scanned: what it hands back is appended and the window moves on. */
  lemma ScanStep(lines: seq<string>, n: nat)
    requires 0 < n <= |lines| && Scan(lines, n).Ok?
    ensures Scan(lines, n - 1).Ok? && LineNumbers(lines[n - 1], n - 1).Ok?
    ensures var out, carry := Scan(lines, n - 1).value.0, Scan(lines, n - 1).value.1;
      var nums := LineNumbers(lines[n - 1], n - 1).value;
      Scan(lines, n).value
      == (out + Attach(nums, carry.parts), Carry(Attach(carry.nums, Attach(nums, Symbols(lines[n - 1], n - 1, |lines[n - 1]|))), nums))
  {
  }

  lemma RowNumbersOfGrid(lines: seq<string>, r: nat)
    requires r < |lines| && LineNumbers(lines[r], r).Ok?
    ensures RowNumbers(GridNumbers(lines), r) == LineNumbers(lines[r], r).value
  {
  }

  /** Scanning succeeds on the first n lines exactly when the numbers of each of them fit a `u32`. */
  lemma ScanAccepted(lines: seq<string>, n: nat)
    requires n <= |lines|
    ensures Scan(lines, n).Ok? <==> forall r :: 0 <= r < n ==> LineNumbers(lines[r], r).Ok?
  {
    if Scan(lines, n).Ok? {
      forall r | 0 <= r < n ensures LineNumbers(lines[r], r).Ok? {
        ScanOkLine(lines, n, r);
      }
    } else {
      ScanErrLine(lines, n);
    }
  }

  /** A successful scan of n lines accepted the numbers of each of them ... */
  lemma {:induction false} ScanOkLine(lines: seq<string>, n: nat, r: nat)
    requires r < n <= |lines| && Scan(lines, n).Ok?
    ensures LineNumbers(lines[r], r).Ok?
  {
    ScanOkStep(lines, n);
    if r < n - 1 {
      ScanOkLine(lines, n - 1, r);
    }
  }

  /** ... and a failed one has a line whose numbers were rejected. */
  lemma {:induction false} ScanErrLine(lines: seq<string>, n: nat)
    requires n <= |lines| && Scan(lines, n).Err?
    ensures exists r :: 0 <= r < n && LineNumbers(lines[r], r).Err?
  {
    ScanOkStep(lines, n);
    if Scan(lines, n - 1).Err? {
      ScanErrLine(lines, n - 1);
      var r :| 0 <= r < n - 1 && LineNumbers(lines[r], r).Err?;
    } else {
      assert LineNumbers(lines[n - 1], n - 1).Err?;
    }
  }

  /** One more line is scanned exactly when the lines before it were and its numbers fit. */
  lemma ScanOkStep(lines: seq<string>, n: nat)
    requires n <= |lines|
    ensures n == 0 ==> Scan(lines, n).Ok?
    ensures n > 0 ==> (Scan(lines, n).Ok? <==> Scan(lines, n - 1).Ok? && LineNumbers(lines[n - 1], n - 1).Ok?)
  {
  }

  /** A scan that fails on the first n lines fails the same way on any longer prefix. */
  lemma {:induction false} ScanPrefixError(lines: seq<string>, n: nat, m: nat)
    requires n <= m <= |lines| && Scan(lines, n).Err?
    ensures Scan(lines, m) == Scan(lines, n)
    decreases m - n
  {
    if n < m {
      ScanPrefixError(lines, n, m - 1);
    }
  }

  /**
   * The schematic of a grid: every part symbol of every row exactly once, row by row and
   * left to right, each with exactly the numbers adjacent to it from its own row, then the row
   * above, then the row below.
   */
  lemma SchematicParts(lines: seq<string>)
    requires SchematicOf(lines).Ok?
    ensures SchematicOf(lines).value.parts == FinalParts(lines, GridNumbers(lines), |lines|)
  {
    SchematicFromScan(lines);
    if |lines| > 0 {
      ScanWindowContents(lines, |lines|);
      LastRowFinished(lines, GridNumbers(lines));
    }
  }

  lemma SchematicFromScan(lines: seq<string>)
    requires SchematicOf(lines).Ok?
    ensures Scan(lines, |lines|).Ok?
    ensures SchematicOf(lines).value.parts == Scan(lines, |lines|).value.0 + Scan(lines, |lines|).value.1.parts
    ensures |lines| == 0 ==> SchematicOf(lines).value.parts == []
  {
  }

  /** No row follows the last, so the window's parts are finished once the lines run out. */
  lemma LastRowFinished(lines: seq<string>, grid: seq<seq<PartNumber>>)
    requires 0 < |lines| == |grid|
    ensures CarriedRow(lines, grid, |lines| - 1) == FinalRow(lines, grid, |lines| - 1)
  {
    var r := |lines| - 1;
    FinalRowStep(lines, grid, r);
    assert RowNumbers(grid, r + 1) == [];
    AttachNothing(CarriedRow(lines, grid, r));
  }

  /** Attaching no numbers changes no part. */
  lemma AttachNothing(parts: seq<Part>)
    ensures Attach([], parts) == parts
  {
    forall k | 0 <= k < |parts| ensures Attach([], parts)[k] == parts[k] {
      assert parts[k].associatedPns + [] == parts[k].associatedPns;
    }
  }

  /** A grid is rejected exactly when one of its rows is, with the error of the first such row. */
  lemma SchematicFirstError(lines: seq<string>, r: nat)
    requires r < |lines| && LineNumbers(lines[r], r).Err?
    requires forall q :: 0 <= q < r ==> LineNumbers(lines[q], q).Ok?
    ensures SchematicOf(lines) == Err(LineNumbers(lines[r], r).error)
  {
    ScanAccepted(lines, r);
    ScanPrefixError(lines, r + 1, |lines|);
  }

  lemma SchematicAccepted(lines: seq<string>)
    ensures SchematicOf(lines).Ok? <==> forall r :: 0 <= r < |lines| ==> LineNumbers(lines[r], r).Ok?
  {
    ScanAccepted(lines, |lines|);
  }

  /**
   * Gathering keeps where a part is and what it is; a part that had no numbers ends up with
   * exactly the numbers of the groups in its vicinity.
   */
  lemma GatheredMembers(parts: seq<Part>, groups: seq<seq<PartNumber>>, k: nat, pn: PartNumber)
    requires k < |parts| && parts[k].associatedPns == []
    ensures var p := Gathered(parts, groups)[k];
      && p.line == parts[k].line && p.column == parts[k].column && p.ptype == parts[k].ptype
      && (pn in p.associatedPns <==> exists g :: 0 <= g < |groups| && pn in groups[g] && InVicinity(pn, p))
  {
    assert Gathered(parts, groups)[k].associatedPns == [] + AdjacentAll(groups, parts[k]);
    assert [] + AdjacentAll(groups, parts[k]) == AdjacentAll(groups, parts[k]);
    AdjacentAllMembers(groups, parts[k], pn);
  }

  /** Every number associated with a finished part of row r is in its vicinity. */
  lemma FinalRowAdjacent(lines: seq<string>, grid: seq<seq<PartNumber>>, r: nat, k: nat, pn: PartNumber)
    requires r < |lines| && k < |FinalRow(lines, grid, r)|
    requires pn in FinalRow(lines, grid, r)[k].associatedPns
    ensures InVicinity(pn, FinalRow(lines, grid, r)[k])
  {
    var groups := [RowNumbers(grid, r), RowNumbers(grid, r - 1), RowNumbers(grid, r + 1)];
    SymbolAt(lines[r], r, |lines[r]|, k);
    GatheredMembers(Symbols(lines[r], r, |lines[r]|), groups, k, pn);
  }

  /**
   * Every number of the grid that is in the vicinity of a finished part of row r is associated
   * with it: the numbers of the rows above and below are not missed.
   */
  lemma FinalRowComplete(lines: seq<string>, grid: seq<seq<PartNumber>>, r: nat, k: nat, q: nat, pn: PartNumber)
    requires r < |lines| && k < |FinalRow(lines, grid, r)|
    requires OnTheirRows(grid) && q < |grid| && pn in grid[q]
    requires InVicinity(pn, FinalRow(lines, grid, r)[k])
    ensures pn in FinalRow(lines, grid, r)[k].associatedPns
  {
    var groups := [RowNumbers(grid, r), RowNumbers(grid, r - 1), RowNumbers(grid, r + 1)];
    var symbols := Symbols(lines[r], r, |lines[r]|);
    assert FinalRow(lines, grid, r) == Gathered(symbols, groups);
    SymbolAt(lines[r], r, |lines[r]|, k);
    GatheredMembers(symbols, groups, k, pn);
    assert FinalRow(lines, grid, r)[k].line == r;
    assert q - 1 <= r <= q + 1;
    var g := if q == r then 0 else if q + 1 == r then 1 else 2;
    assert groups[g] == RowNumbers(grid, q);
    GatheredComplete(symbols, groups, k, g, pn);
  }

  lemma GatheredComplete(parts: seq<Part>, groups: seq<seq<PartNumber>>, k: nat, g: nat, pn: PartNumber)
    requires k < |parts| && parts[k].associatedPns == []
    requires g < |groups| && pn in groups[g] && InVicinity(pn, parts[k])
    ensures pn in Gathered(parts, groups)[k].associatedPns
  {
    GatheredMembers(parts, groups, k, pn);
  }

  /** The k-th finished part of row r is the row's k-th part symbol. */
  lemma FinalRowAt(lines: seq<string>, grid: seq<seq<PartNumber>>, r: nat, k: nat)
    requires r < |lines| && k < |FinalRow(lines, grid, r)|
    ensures var p, symbol := FinalRow(lines, grid, r)[k], Symbols(lines[r], r, |lines[r]|)[k];
      && p.line == r && p.column == symbol.column && p.ptype == symbol.ptype
      && p.column < |lines[r]| && IsSymbol(lines[r][p.column]) && p.ptype == lines[r][p.column]
  {
    SymbolAt(lines[r], r, |lines[r]|, k);
    var groups := [RowNumbers(grid, r), RowNumbers(grid, r - 1), RowNumbers(grid, r + 1)];
    GatheredMembers(Symbols(lines[r], r, |lines[r]|), groups, k, PartNumber(0, 0, 0, 0));
  }

  /** Every number associated with a finished part is in its vicinity. */
  lemma {:induction false} FinalPartsAdjacent(lines: seq<string>, grid: seq<seq<PartNumber>>, n: nat, k: nat, pn: PartNumber)
    requires n <= |lines| && k < |FinalParts(lines, grid, n)|
    requires pn in FinalParts(lines, grid, n)[k].associatedPns
    ensures InVicinity(pn, FinalParts(lines, grid, n)[k])
  {
    var front := FinalParts(lines, grid, n - 1);
    assert FinalParts(lines, grid, n) == front + FinalRow(lines, grid, n - 1);
    if k < |front| {
      assert FinalParts(lines, grid, n)[k] == front[k];
      FinalPartsAdjacent(lines, grid, n - 1, k, pn);
    } else {
      assert FinalParts(lines, grid, n)[k] == FinalRow(lines, grid, n - 1)[k - |front|];
      FinalRowAdjacent(lines, grid, n - 1, k - |front|, pn);
    }
  }

  /**
   * Every number of the grid in the vicinity of a finished part is associated with it, so a
   * part's numbers are exactly the grid's numbers in its vicinity.
   */
  lemma {:induction false} FinalPartsComplete(lines: seq<string>, grid: seq<seq<PartNumber>>, n: nat, k: nat, q: nat, pn: PartNumber)
    requires n <= |lines| && k < |FinalParts(lines, grid, n)|
    requires OnTheirRows(grid) && q < |grid| && pn in grid[q]
    requires InVicinity(pn, FinalParts(lines, grid, n)[k])
    ensures pn in FinalParts(lines, grid, n)[k].associatedPns
  {
    var front := FinalParts(lines, grid, n - 1);
    assert FinalParts(lines, grid, n) == front + FinalRow(lines, grid, n - 1);
    if k < |front| {
      assert FinalParts(lines, grid, n)[k] == front[k];
      FinalPartsComplete(lines, grid, n - 1, k, q, pn);
    } else {
      assert FinalParts(lines, grid, n)[k] == FinalRow(lines, grid, n - 1)[k - |front|];
      FinalRowComplete(lines, grid, n - 1, k - |front|, q, pn);
    }
  }

  /** Every finished part sits on a part symbol of an earlier row and has that symbol as its type. */
  lemma {:induction false} FinalPartsPlace(lines: seq<string>, grid: seq<seq<PartNumber>>, n: nat, k: nat)
    requires n <= |lines| && k < |FinalParts(lines, grid, n)|
    ensures var p := FinalParts(lines, grid, n)[k];
      p.line < n && p.column < |lines[p.line]| && IsSymbol(lines[p.line][p.column]) && p.ptype == lines[p.line][p.column]
  {
    var front := FinalParts(lines, grid, n - 1);
    var p := FinalParts(lines, grid, n)[k];
    assert FinalParts(lines, grid, n) == front + FinalRow(lines, grid, n - 1);
    if k < |front| {
      FinalPartsPlace(lines, grid, n - 1, k);
      assert p == front[k];
    } else {
      FinalRowAt(lines, grid, n - 1, k - |front|);
      assert p == FinalRow(lines, grid, n - 1)[k - |front|];
      assert p.line == n - 1;
    }
    assert lines[p.line][p.column] == p.ptype;
  }

  /** The k-th finished part of the first n rows comes from the first n - 1 rows or from row n - 1. */
  lemma FinalPartsAt(lines: seq<string>, grid: seq<seq<PartNumber>>, n: nat, k: nat)
    requires 0 < n <= |lines| && k < |FinalParts(lines, grid, n)|
    ensures |FinalParts(lines, grid, n)| == |FinalParts(lines, grid, n - 1)| + |FinalRow(lines, grid, n - 1)|
    ensures k < |FinalParts(lines, grid, n - 1)| ==> FinalParts(lines, grid, n)[k] == FinalParts(lines, grid, n - 1)[k]
    ensures k >= |FinalParts(lines, grid, n - 1)| ==>
      FinalParts(lines, grid, n)[k] == FinalRow(lines, grid, n - 1)[k - |FinalParts(lines, grid, n - 1)|]
  {
  }

  /** Finished parts come row by row and, within a row, left to right; so none is listed twice. */
  lemma {:induction false} FinalPartsOrdered(lines: seq<string>, grid: seq<seq<PartNumber>>, n: nat, a: nat, b: nat)
    requires n <= |lines| && a < b < |FinalParts(lines, grid, n)|
    ensures var pa, pb := FinalParts(lines, grid, n)[a], FinalParts(lines, grid, n)[b];
      pa.line < pb.line || (pa.line == pb.line && pa.column < pb.column)
  {
    var m := |FinalParts(lines, grid, n - 1)|;
    FinalPartsAt(lines, grid, n, a);
    FinalPartsAt(lines, grid, n, b);
    if b < m {
      FinalPartsOrdered(lines, grid, n - 1, a, b);
    } else if a < m {
      FrontBeforeRow(lines, grid, n, a, b - m);
    } else {
      RowOrdered(lines, grid, n - 1, a - m, b - m);
    }
  }

  /** A finished part of an earlier row lies on a lower row than any part of row n - 1 ... */
  lemma FrontBeforeRow(lines: seq<string>, grid: seq<seq<PartNumber>>, n: nat, a: nat, j: nat)
    requires 0 < n <= |lines| && a < |FinalParts(lines, grid, n - 1)| && j < |FinalRow(lines, grid, n - 1)|
    ensures FinalParts(lines, grid, n - 1)[a].line < FinalRow(lines, grid, n - 1)[j].line
  {
    FinalPartsPlace(lines, grid, n - 1, a);
    FinalRowAt(lines, grid, n - 1, j);
  }

  /** ... and the parts of one row are listed left to right. */
  lemma RowOrdered(lines: seq<string>, grid: seq<seq<PartNumber>>, r: nat, i: nat, j: nat)
    requires r < |lines| && i < j < |FinalRow(lines, grid, r)|
    ensures FinalRow(lines, grid, r)[i].line == FinalRow(lines, grid, r)[j].line
    ensures FinalRow(lines, grid, r)[i].column < FinalRow(lines, grid, r)[j].column
  {
    FinalRowAt(lines, grid, r, i);
    FinalRowAt(lines, grid, r, j);
    SymbolsOrdered(lines[r], r, |lines[r]|, i, j);
  }

  /** Every part symbol of the first n rows is among the finished parts. */
  lemma {:induction false} FinalPartsCover(lines: seq<string>, grid: seq<seq<PartNumber>>, n: nat, r: nat, col: nat)
    requires n <= |lines| && r < n && col < |lines[r]| && IsSymbol(lines[r][col])
    ensures exists k :: 0 <= k < |FinalParts(lines, grid, n)| && FinalParts(lines, grid, n)[k].line == r && FinalParts(lines, grid, n)[k].column == col
  {
    var front := FinalParts(lines, grid, n - 1);
    if r < n - 1 {
      FinalPartsCover(lines, grid, n - 1, r, col);
      var k :| 0 <= k < |front| && front[k].line == r && front[k].column == col;
      FinalPartsAt(lines, grid, n, k);
    } else {
      SymbolsCover(lines[r], r, |lines[r]|, col);
      var k :| 0 <= k < |FinalRow(lines, grid, r)| && Symbols(lines[r], r, |lines[r]|)[k].column == col;
      FinalRowAt(lines, grid, r, k);
      FinalPartsAt(lines, grid, n, |front| + k);
    }
  }

  /** Closing a run of digits at its first non-digit: the run is the next one listed. */
  lemma RunClosed(line: string, start: nat, end: nat)
    requires start < end <= |line|
    requires forall k :: start <= k < end ==> IsDigit(line[k])
    requires end == |line| || !IsDigit(line[end])
    ensures Runs(line, start) == [Span(start, end)] + Runs(line, end)
  {
    RunEndAt(line, start, end);
  }

  /** A character that is not a digit starts no run. */
  lemma RunsSkip(line: string, i: nat)
    requires i < |line| && !IsDigit(line[i])
    ensures Runs(line, i) == Runs(line, i + 1)
  {
  }

  /** One more character of the line: a part symbol adds a part, anything else adds nothing. */
  lemma SymbolsStep(line: string, lnr: nat, col: nat)
    requires col < |line|
    ensures Symbols(line, lnr, col + 1)
      == Symbols(line, lnr, col) + (if IsSymbol(line[col]) then [Part(lnr, col, [], line[col])] else [])
  {
  }

  /**
   * What the lexer of a line knows after reading its first col characters in state st: the
   * runs of digits done so far are the first runs of the line and gave the numbers nums; in
   * the normal state the next run starts at col or later, and in the part-number state a run
   * started at st.start and has only digits up to col.
   */
  ghost predicate Lexed(line: string, lnr: nat, col: nat, st: ScanState, done: seq<Span>, nums: seq<PartNumber>) {
    && col <= |line|
    && ValidSpans(line, done) && Numbers(line, lnr, done) == Ok(nums)
    && (st.Normal? ==> Runs(line, 0) == done + Runs(line, col))
    && (st.PartNum? ==>
          && st.start < col
          && (forall k :: st.start <= k < col ==> IsDigit(line[k]))
          && Runs(line, 0) == done + Runs(line, st.start))
  }

  /** Before the first character nothing is lexed. */
  lemma LexedStart(line: string, lnr: nat)
    ensures Lexed(line, lnr, 0, Normal, [], [])
  {
    assert [] + Runs(line, 0) == Runs(line, 0);
  }

  /** In the normal state a character other than a digit starts no run. */
  lemma LexedSkip(line: string, lnr: nat, col: nat, done: seq<Span>, nums: seq<PartNumber>)
    requires Lexed(line, lnr, col, Normal, done, nums)
    requires col < |line| && !IsDigit(line[col])
    ensures Lexed(line, lnr, col + 1, Normal, done, nums)
  {
    RunsSkip(line, col);
  }

  /** In the normal state a digit opens a run at its column. */
  lemma LexedOpen(line: string, lnr: nat, col: nat, done: seq<Span>, nums: seq<PartNumber>)
    requires Lexed(line, lnr, col, Normal, done, nums)
    requires col < |line| && IsDigit(line[col])
    ensures Lexed(line, lnr, col + 1, PartNum(col), done, nums)
  {
  }

  /** In the part-number state a digit extends the open run. */
  lemma LexedExtend(line: string, lnr: nat, col: nat, start: nat, done: seq<Span>, nums: seq<PartNumber>)
    requires Lexed(line, lnr, col, PartNum(start), done, nums)
    requires col < |line| && IsDigit(line[col])
    ensures Lexed(line, lnr, col + 1, PartNum(start), done, nums)
  {
  }

  /**
   * A run closed at col, by a character other than a digit or by the end of the line, whose
   * value fits a `u32` adds its part number and returns the lexer to the normal state.
   */
  lemma LexedClose(line: string, lnr: nat, col: nat, start: nat, done: seq<Span>, nums: seq<PartNumber>)
    requires Lexed(line, lnr, col, PartNum(start), done, nums)
    requires col == |line| || !IsDigit(line[col])
    requires NewPartNumber(line[start..col], lnr, start).Ok?
    ensures Lexed(line, lnr, col, Normal, done + [Span(start, col)],
                  nums + [NewPartNumber(line[start..col], lnr, start).value])
  {
    NumbersAppend(line, lnr, done, Span(start, col));
    RunsAfterClose(line, done, start, col);
  }

  /** A run closed at col whose value does not fit a `u32` is the line's error. */
  lemma LexedCloseError(line: string, lnr: nat, col: nat, start: nat, done: seq<Span>, nums: seq<PartNumber>)
    requires Lexed(line, lnr, col, PartNum(start), done, nums)
    requires col == |line| || !IsDigit(line[col])
    requires NewPartNumber(line[start..col], lnr, start).Err?
    ensures LineNumbers(line, lnr) == Err(NumberNotAnInteger(lnr, start))
  {
    var closed := done + [Span(start, col)];
    NumbersAppend(line, lnr, done, Span(start, col));
    RunsAfterClose(line, done, start, col);
    NumbersPrefixError(line, lnr, closed, Runs(line, col));
  }

  /** The runs after a closed run are the runs from the column that closed it. */
  lemma RunsAfterClose(line: string, done: seq<Span>, start: nat, col: nat)
    requires start < col <= |line|
    requires forall k :: start <= k < col ==> IsDigit(line[k])
    requires col == |line| || !IsDigit(line[col])
    requires Runs(line, 0) == done + Runs(line, start)
    ensures Runs(line, 0) == (done + [Span(start, col)]) + Runs(line, col)
  {
    RunClosed(line, start, col);
  }

  /** One more run: its number is appended, or its error is the result. */
  lemma NumbersAppend(line: string, lnr: nat, runs: seq<Span>, run: Span)
    requires ValidSpans(line, runs) && Numbers(line, lnr, runs).Ok?
    requires run.start <= run.end <= |line|
    ensures ValidSpans(line, runs + [run])
    ensures Numbers(line, lnr, runs + [run]) ==
      match NewPartNumber(line[run.start..run.end], lnr, run.start)
      case Err(e) => Err(e)
      case Ok(pn) => Ok(Numbers(line, lnr, runs).value + [pn])
  {
    assert (runs + [run])[..|runs|] == runs;
  }

  /** At the end of the line in the normal state the numbers found are the line's numbers. */
  lemma LexedEnd(line: string, lnr: nat, done: seq<Span>, nums: seq<PartNumber>)
    requires Lexed(line, lnr, |line|, Normal, done, nums)
    ensures LineNumbers(line, lnr) == Ok(nums)
  {
    assert Runs(line, 0) == done;
  }

  // ----- the two sums asked of a schematic -----

  /** The sum of the values of some part numbers. */
  function ValSum(ns: seq<PartNumber>): nat {
    if ns == [] then 0 else ValSum(ns[..|ns| - 1]) + ns[|ns| - 1].val
  }

  /**
   * `EngineSchematic::sum_of_part_nums`: the values of every part's numbers, so a number next
   * to two parts counts twice.
   */
  function PartNumSum(parts: seq<Part>): nat {
    if parts == [] then 0 else PartNumSum(parts[..|parts| - 1]) + ValSum(parts[|parts| - 1].associatedPns)
  }

  /** A gear is a `*` with exactly two part numbers next to it. */
  predicate IsGear(p: Part) {
    p.ptype == '*' && |p.associatedPns| == 2
  }

  /** The product of a gear's two numbers; every other part contributes nothing. */
  function GearRatio(p: Part): nat {
    if IsGear(p) then p.associatedPns[0].val * p.associatedPns[1].val else 0
  }

  /** `EngineSchematic::gear_ratios`: the sum of the gear ratios of all gears. */
  function GearSum(parts: seq<Part>): nat {
    if parts == [] then 0 else GearSum(parts[..|parts| - 1]) + GearRatio(parts[|parts| - 1])
  }

  /** Both sums add up over a schematic split in two, for instance row by row. */
  lemma {:induction false} PartNumSumAppend(a: seq<Part>, b: seq<Part>)
    ensures PartNumSum(a + b) == PartNumSum(a) + PartNumSum(b)
    decreases |b|
  {
    if b != [] {
      assert (a + b)[..|a + b| - 1] == a + b[..|b| - 1];
      PartNumSumAppend(a, b[..|b| - 1]);
    } else {
      assert a + b == a;
    }
  }

  lemma {:induction false} GearSumAppend(a: seq<Part>, b: seq<Part>)
    ensures GearSum(a + b) == GearSum(a) + GearSum(b)
    decreases |b|
  {
    if b != [] {
      assert (a + b)[..|a + b| - 1] == a + b[..|b| - 1];
      GearSumAppend(a, b[..|b| - 1]);
    } else {
      assert a + b == a;
    }
  }

  /** Parts that are not gears add nothing to the gear ratios. */
  lemma {:induction false} GearSumWithoutGears(parts: seq<Part>)
    requires forall k :: 0 <= k < |parts| ==> !IsGear(parts[k])
    ensures GearSum(parts) == 0
  {
    if parts != [] {
      GearSumWithoutGears(parts[..|parts| - 1]);
    }
  }

  /** A part's numbers add at least each of their values to the part-number sum. */
  lemma {:induction false} ValSumBounds(ns: seq<PartNumber>, k: nat)
    requires k < |ns|
    ensures ns[k].val <= ValSum(ns)
  {
    if k < |ns| - 1 {
      ValSumBounds(ns[..|ns| - 1], k);
    }
  }

  /** Each part adds all of its numbers to the part-number sum ... */
  lemma {:induction false} PartNumSumBounds(parts: seq<Part>, k: nat)
    requires k < |parts|
    ensures ValSum(parts[k].associatedPns) <= PartNumSum(parts)
  {
    if k < |parts| - 1 {
      PartNumSumBounds(parts[..|parts| - 1], k);
    }
  }

  /** ... so a number next to two different parts is counted once for each of them. */
  lemma SharedNumberCountsTwice(parts: seq<Part>, a: nat, b: nat, pn: PartNumber)
    requires a < b < |parts|
    requires pn in parts[a].associatedPns && pn in parts[b].associatedPns
    ensures 2 * pn.val <= PartNumSum(parts)
  {
    var i :| 0 <= i < |parts[a].associatedPns| && parts[a].associatedPns[i] == pn;
    var j :| 0 <= j < |parts[b].associatedPns| && parts[b].associatedPns[j] == pn;
    ValSumBounds(parts[a].associatedPns, i);
    ValSumBounds(parts[b].associatedPns, j);
    assert parts == parts[..b] + parts[b..];
    PartNumSumAppend(parts[..b], parts[b..]);
    PartNumSumBounds(parts[..b], a);
    PartNumSumBounds(parts[b..], 0);
  }
}
