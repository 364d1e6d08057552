/**
 * The scanner of src/day_3.rs: a window over the schematic that holds the parts and numbers
 * of the previous line and is fed one line at a time, the parse of a whole schematic built on
 * it, and the two sums asked of the result. Each method is proved against the reference
 * description in module Schematic.
 */
module Scanner {
  import opened Wrappers
  import opened Text
  import opened Schematic

  class ScanWindow {
    var partsInLastLine: seq<Part>
    var pnInLastLine: seq<PartNumber>
    var state: ScanState

    /** `ScanWindow::new`: an empty window before the first line. */
    constructor()
      ensures partsInLastLine == [] && pnInLastLine == [] && state == Normal
    {
      partsInLastLine := [];
      pnInLastLine := [];
      state := Normal;
    }

    /**
     * The lexer loop of `process_line` and its flush at the end of the line: the line's
     * numbers, one per maximal run of digits, and its part symbols, left to right. A run whose
     * value does not fit a `u32` stops the scan with the state still pointing at that run.
     */
    method Tokenize(line: string, lineNr: nat) returns (r: Result<(seq<PartNumber>, seq<Part>), ParseError>)
      requires state == Normal
      modifies this
      ensures partsInLastLine == old(partsInLastLine) && pnInLastLine == old(pnInLastLine)
      ensures LineNumbers(line, lineNr).Err? ==>
        r == Err(LineNumbers(line, lineNr).error) && state == PartNum(LineNumbers(line, lineNr).error.col)
      ensures LineNumbers(line, lineNr).Ok? ==>
        r == Ok((LineNumbers(line, lineNr).value, Symbols(line, lineNr, |line|))) && state == Normal
    {
      var partsInLine: seq<Part> := [];
      var partNumbersInLine: seq<PartNumber> := [];
      // the runs of digits already turned into part numbers
      ghost var done: seq<Span> := [];
      LexedStart(line, lineNr);
      for col := 0 to |line|
        invariant partsInLastLine == old(partsInLastLine) && pnInLastLine == old(pnInLastLine)
        invariant partsInLine == Symbols(line, lineNr, col)
        invariant Lexed(line, lineNr, col, state, done, partNumbersInLine)
      {
        var c := line[col];
        SymbolsStep(line, lineNr, col);
        // the six guarded arms of the match in `process_line`, in its order
        if state.Normal? && c == '.' {
          LexedSkip(line, lineNr, col, done, partNumbersInLine);
        } else if state.Normal? && IsDigit(c) {
          LexedOpen(line, lineNr, col, done, partNumbersInLine);
          state := PartNum(col);
        } else if state.Normal? && !IsDigit(c) && c != '.' {
          LexedSkip(line, lineNr, col, done, partNumbersInLine);
          partsInLine := partsInLine + [Part(lineNr, col, [], c)];
        } else if state.PartNum? && !IsDigit(c) && c == '.' {
          var numstart := state.start;
          var pn := NewPartNumber(line[numstart..col], lineNr, numstart);
          if pn.Err? {
            LexedCloseError(line, lineNr, col, numstart, done, partNumbersInLine);
            return Err(pn.error);
          }
          LexedClose(line, lineNr, col, numstart, done, partNumbersInLine);
          partNumbersInLine := partNumbersInLine + [pn.value];
          done := done + [Span(numstart, col)];
          LexedSkip(line, lineNr, col, done, partNumbersInLine);
          state := Normal;
        } else if state.PartNum? && !IsDigit(c) && c != '.' {
          var numstart := state.start;
          var pn := NewPartNumber(line[numstart..col], lineNr, numstart);
          if pn.Err? {
            LexedCloseError(line, lineNr, col, numstart, done, partNumbersInLine);
            return Err(pn.error);
          }
          LexedClose(line, lineNr, col, numstart, done, partNumbersInLine);
          partNumbersInLine := partNumbersInLine + [pn.value];
          done := done + [Span(numstart, col)];
          LexedSkip(line, lineNr, col, done, partNumbersInLine);
          partsInLine := partsInLine + [Part(lineNr, col, [], c)];
          state := Normal;
        } else if state.PartNum? && IsDigit(c) {
          LexedExtend(line, lineNr, col, state.start, done, partNumbersInLine);
        } else {
          // the arm that reports `UnexpectedSymbolFound`: the six guards above cover every case
          assert false;
        }
      }
      if state.PartNum? {
        var numstart := state.start;
        var pn := NewPartNumber(line[numstart..|line|], lineNr, numstart);
        if pn.Err? {
          LexedCloseError(line, lineNr, |line|, numstart, done, partNumbersInLine);
          return Err(pn.error);
        }
        LexedClose(line, lineNr, |line|, numstart, done, partNumbersInLine);
        partNumbersInLine := partNumbersInLine + [pn.value];
        done := done + [Span(numstart, |line|)];
        state := Normal;
      }
      LexedEnd(line, lineNr, done, partNumbersInLine);
      return Ok((partNumbersInLine, partsInLine));
    }

    /**
     * `ScanWindow::process_line`: scans one line, attaches this line's numbers to this line's
     * parts, the previous line's numbers to this line's parts and this line's numbers to the
     * previous line's parts, then hands back the previous line's parts and keeps this line's
     * parts and numbers. Only called, as the parse of a schematic does, before any error.
     */
    method ProcessLine(line: string, lineNr: nat) returns (r: Result<seq<Part>, ParseError>)
      requires state == Normal
      modifies this
      ensures var step := Step(Carry(old(partsInLastLine), old(pnInLastLine)), line, lineNr);
        && (step.Err? ==>
              && r == Err(step.error) && state == PartNum(step.error.col)
              && partsInLastLine == old(partsInLastLine) && pnInLastLine == old(pnInLastLine))
        && (step.Ok? ==>
              && r == Ok(step.value.0) && state == Normal
              && partsInLastLine == step.value.1.parts && pnInLastLine == step.value.1.nums)
    {
      var tokens := Tokenize(line, lineNr);
      if tokens.Err? {
        return Err(tokens.error);
      }
      var partNumbersInLine, partsInLine := tokens.value.0, tokens.value.1;
      partsInLine := AttachNumbers(partNumbersInLine, partsInLine);
      partsInLine := AttachNumbers(pnInLastLine, partsInLine);
      partsInLastLine := AttachNumbers(partNumbersInLine, partsInLastLine);
      pnInLastLine := partNumbersInLine;
      var previous := partsInLastLine;
      partsInLastLine := partsInLine;
      return Ok(previous);
    }
  }

  /**
   * One of the nested loops of `process_line`: for each number in turn, every part in its
   * vicinity gets it appended to its numbers.
   */
  method AttachNumbers(nums: seq<PartNumber>, parts: seq<Part>) returns (updated: seq<Part>)
    ensures updated == Attach(nums, parts)
  {
    updated := parts;
    for i := 0 to |nums|
      invariant |updated| == |parts|
      invariant forall k :: 0 <= k < |parts| ==> updated[k] == Attach(nums[..i], parts)[k]
    {
      assert nums[..i + 1][..i] == nums[..i];
      for j := 0 to |updated|
        invariant |updated| == |parts|
        invariant forall k :: 0 <= k < j ==> updated[k] == Attach(nums[..i + 1], parts)[k]
        invariant forall k :: j <= k < |parts| ==> updated[k] == Attach(nums[..i], parts)[k]
      {
        if InVicinity(nums[i], updated[j]) {
          updated := updated[j := updated[j].(associatedPns := updated[j].associatedPns + [nums[i]])];
        }
      }
    }
    assert nums[..|nums|] == nums;
  }

  /**
   * `EngineSchematic::from_str`: every line through the scan window, numbered from 0, the
   * parts handed back collected in order and the last line's parts added at the end.
   */
  method FromStr(lines: seq<string>) returns (r: Result<EngineSchematic, ParseError>)
    ensures r == SchematicOf(lines)
  {
    var parts: seq<Part> := [];
    var sw := new ScanWindow();
    for lnr := 0 to |lines|
      invariant sw.state == Normal
      invariant Scan(lines, lnr) == Ok((parts, Carry(sw.partsInLastLine, sw.pnInLastLine)))
    {
      var processed := sw.ProcessLine(lines[lnr], lnr);
      if processed.Err? {
        ScanPrefixError(lines, lnr + 1, |lines|);
        return Err(processed.error);
      }
      parts := parts + processed.value;
    }
    parts := parts + sw.partsInLastLine;
    return Ok(EngineSchematic(parts));
  }

  /** `EngineSchematic::sum_of_part_nums`. */
  method SumOfPartNums(es: EngineSchematic) returns (partNumSum: nat)
    ensures partNumSum == PartNumSum(es.parts)
  {
    partNumSum := 0;
    for i := 0 to |es.parts|
      invariant partNumSum == PartNumSum(es.parts[..i])
    {
      var pns := es.parts[i].associatedPns;
      assert es.parts[..i + 1][..i] == es.parts[..i];
      for j := 0 to |pns|
        invariant partNumSum == PartNumSum(es.parts[..i]) + ValSum(pns[..j])
      {
        assert pns[..j + 1][..j] == pns[..j];
        partNumSum := partNumSum + pns[j].val;
      }
      assert pns[..|pns|] == pns;
    }
    assert es.parts[..|es.parts|] == es.parts;
  }

  /** `EngineSchematic::gear_ratios`. */
  method GearRatios(es: EngineSchematic) returns (totalRatios: nat)
    ensures totalRatios == GearSum(es.parts)
  {
    totalRatios := 0;
    for i := 0 to |es.parts|
      invariant totalRatios == GearSum(es.parts[..i])
    {
      var g := es.parts[i];
      assert es.parts[..i + 1][..i] == es.parts[..i];
      if g.ptype == '*' && |g.associatedPns| == 2 {
        totalRatios := totalRatios + g.associatedPns[0].val * g.associatedPns[1].val;
      }
    }
    assert es.parts[..|es.parts|] == es.parts;
  }
}
