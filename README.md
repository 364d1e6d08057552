# Three text-puzzle solvers, in Dafny

A model of the repository's three puzzle solvers. For each one, the properties its code relies
on are proved.

- **Engine schematic scanner** (`src/day_3.rs`), the main component. A schematic is a grid of
  lines. A run of digits is a part number. `.` is empty space. Every other character is a part
  symbol, whitespace included. The scanner reads one line at a time and keeps a window over
  the previous line. Its lexer has two states, `Normal` and `PartNum(start)`. Each line's
  numbers are attached to the part symbols in their eight-neighbourhood on the same line, the
  line above and the line below. Two sums are then taken over the parts.
  - Module `Schematic` holds the values and a reference description of a scanned grid.
    `FinalParts` lists each row's symbols, each with the adjacent numbers of its own row, then
    the row above, then the row below.
  - Module `Scanner` holds the class `ScanWindow`. Its fields are updated in place as the
    source's are. It also holds `FromStr`, the nested attach loops and the two sums. Each is
    proved against module `Schematic`.
  - The proofs show:
    - the lexer yields exactly one part number per maximal run of digits;
    - the catch-all `UnexpectedSymbolFound` arm can never be taken;
    - every attached number is in the part's vicinity;
    - after the final flush every part symbol appears exactly once, in row and column order,
      with exactly the adjacent numbers.
- **Game records** (`src/day_2.rs`), in module `CubeGame`. It covers the three nested parsers
  `CubeColor`, `Draw` and `Game`, with their error variants and the order in which errors are
  reported. It also covers the limit check and the power of the smallest bag.
  - Each parser's round trip is proved: every game that is written out the way the records
    write it is read back.
  - Every error case of each parser is stated.
- **Calibration values** (`src/day_1.rs`), in module `Calibration`. It covers:
  - the forward and backward digit searches;
  - the two-digit value of a line;
  - the sum, which aborts on a line without a digit;
  - the in-place rewrite of the earliest and the latest spelled-out digit word. The rewrite is
    proved to change exactly those two first letters and nothing else.

Module `Text` holds the string primitives the solvers share:
- Rust's `u32` parser, which accepts a leading `+`;
- `to_string` on numbers;
- `trim`, which removes Unicode white space;
- `split` on one character, together with its inverse `Join`.

Module `Wrappers` holds `Option` and `Result`.

Design decisions:
- **Input.** Input text arrives as a sequence of lines, and characters are ASCII. Because of
  that, `is_numeric` is `IsDigit`, and character indices and byte offsets agree.
- **Integer widths.** Numbers are `nat`. The `u32` bound is explicit wherever the code parses
  a number. The `digits: s.len() as u8` field of a part number is kept modulo 256, as the
  cast truncates it. `in_vicinity` uses that truncated width, which equals the length of the
  run for runs shorter than 256 digits.
- **The game id.** `Game::from_str` calls `unwrap` on the id, which panics when the id is not
  a `u32`. The model reports this as an extra error value, `IdNotInteger`. It comes after the
  id checks and before the draws, which matches where the `unwrap` runs.
- **Ties when rewriting words.** `max_by_key` keeps the last maximum and `min_by_key` the first
  minimum. Two digit words never start at the same position (`WordAtUnique`), so no tie can
  arise.

## Model

| member | source | states |
|---|---|---|
| `Calibration.FirstDigitIndex` | src/day_1.rs:4-9 | the index of the first digit, or the length when there is none; nothing before it is a digit |
| `Calibration.LastDigitEnd` | src/day_1.rs:4-9 | one past the last digit, or 0 when there is none; nothing after it is a digit |
| `Calibration.FirstCharInLine` | src/day_1.rs:3-11 | None exactly when the line has no digit; otherwise a digit, the first of the line read forwards or the last read backwards |
| `Calibration.FindFirstCharInLine` | src/day_1.rs:3-11 | the search loop with early return gives exactly `FirstCharInLine` |
| `Calibration.LineValue` | src/day_1.rs:62-64 | a line's calibration value is below 100 |
| `Calibration.LineValueNone` | src/day_1.rs:54-61 | a line has no value exactly when it has no digit |
| `Calibration.TwoDigits` | src/day_1.rs:62-64 | the first digit followed by the second digit, read as a decimal numeral, is 10 × first + second |
| `Calibration.SingleDigitCountsTwice` | src/day_1.rs:54-64 | a line with a single digit d has value 11 × d |
| `Calibration.TotalAborts` | src/day_1.rs:54-66 | a running sum is missing exactly when one of its values is missing |
| `Calibration.CalibrationSumAborts` | src/day_1.rs:54-61 | the sum of all lines is aborted exactly when some prepared line has no digit |
| `Calibration.PrepareLine` | src/day_1.rs:47-52 | the line read is the original one, or the in-place rewrite of it in the second part |
| `Calibration.LineCalibrationValue` | src/day_1.rs:54-64 | the two searches, the two-character string and `from_str_radix` give the line's value, or None when there is no digit |
| `Calibration.SolveCalibration` | src/day_1.rs:37-67 | the loop's sum is the sum of all line values, or None as soon as a line has no digit |
| `Calibration.WordAtUnique` | src/day_1.rs:14 | at most one digit word starts at any position |
| `Calibration.WordsDiffer` | src/day_1.rs:14 | no two digit words share their first two letters |
| `Calibration.DigitWordSelfOverlapFree` | src/day_1.rs:14 | no digit word can overlap a shifted copy of itself |
| `Calibration.OccurrencesApart` | src/day_1.rs:17 | two occurrences of a word without self-overlap never overlap |
| `Calibration.MatchIndices` | src/day_1.rs:17-19 | every reported position is an occurrence of the word; for a word without self-overlap, every occurrence is reported |
| `Calibration.WordIndices` | src/day_1.rs:15-20 | the collected pairs `(position, digit)` are exactly the occurrences of the ten digit words |
| `Calibration.OccurrencesAreWordStarts` | src/day_1.rs:15-20 | the collected pairs are exactly the positions where a digit word starts, each with its digit |
| `Calibration.LastMaxByPosition` | src/day_1.rs:24 | `max_by_key`: an entry with the largest position, and no later entry has that position |
| `Calibration.FirstMinByPosition` | src/day_1.rs:29 | `min_by_key`: an entry with the smallest position, and no earlier entry has that position |
| `Calibration.LatestEntry` | src/day_1.rs:24-27 | the maximal entry is the latest word start, with that word's digit |
| `Calibration.EarliestEntry` | src/day_1.rs:29-32 | the minimal entry is the earliest word start, with that word's digit |
| `Calibration.NoEntries` | src/day_1.rs:24-32 | nothing is collected exactly when no digit word occurs, so neither write happens |
| `Calibration.ReplacedAtSpec` | src/day_1.rs:22-32 | with no word the line is unchanged; otherwise the earliest and the latest word starts get their digits and every other character is unchanged |
| `Calibration.WordsReplacedWithoutWords` | src/day_1.rs:24-32 | a line without any digit word is left as it is |
| `Calibration.WordsReplacedOnce` | src/day_1.rs:15-32 | with a single occurrence both writes hit the same position with the same digit, which equals writing it once |
| `Calibration.ReplaceFirstAndLastWordWithDigit` | src/day_1.rs:13-33 | the array holding the line ends up as `WordsReplaced` of its old contents |
| `CubeGame.ParseColor` | src/day_2.rs:45-52 | Ok exactly when the trimmed text is `red`, `green` or `blue`, naming that colour; otherwise `UndefinedColor` |
| `CubeGame.ParseColorName` | src/day_2.rs:46-49 | a colour word surrounded by whitespace parses to its colour |
| `CubeGame.WithCount` | src/day_2.rs:83-87 | the named colour gets the count and the other two are unchanged |
| `CubeGame.ParseSection` | src/day_2.rs:77-82 | an accepted section's count fits a `u32`; a rejected one fails with `WrongTokenCount`, `UndefinedColor` or `TokenNotInteger` |
| `CubeGame.SectionErrors` | src/day_2.rs:77-82 | errors are reported in this order: token count (`WrongTokenCount`), then colour (`UndefinedColor`, even when the count is also bad), then count (`TokenNotInteger`); otherwise the colour and the count |
| `CubeGame.Collect` | src/day_2.rs:108 | `collect` into a `Result`: on success one value per item, each the parse of that item; on failure the error of some item |
| `CubeGame.CollectAccepts` | src/day_2.rs:108 | the collection succeeds exactly when every item parses |
| `CubeGame.CollectValues` | src/day_2.rs:108 | when every item parses to its value, the collection is those values |
| `CubeGame.CollectFirstError` | src/day_2.rs:108 | the collection fails with the error of the first item that does not parse |
| `CubeGame.FillLastWins` | src/day_2.rs:76-88 | a colour named by several sections keeps the count of the last of them |
| `CubeGame.FillUnnamed` | src/day_2.rs:71-88 | a colour that no section names keeps its count |
| `CubeGame.DrawCounts` | src/day_2.rs:70-90 | in a parsed draw an unnamed colour is 0 and a repeated colour has its last count |
| `CubeGame.DrawFromStr` | src/day_2.rs:70-90 | an accepted draw has every count within `u32`; a rejected one fails with `WrongTokenCount`, `UndefinedColor` or `TokenNotInteger`, the only errors of a draw |
| `CubeGame.ParseDraw` | src/day_2.rs:70-90 | the field-by-field loop with early returns gives exactly `DrawFromStr` |
| `CubeGame.TooManySections` | src/day_2.rs:72-75 | more than three sections is `WrongTokenCount`, whatever they contain |
| `CubeGame.ParseDrawText` | src/day_2.rs:70-90 | every draw whose counts fit `u32`, written `<r> red, <g> green, <b> blue` after any whitespace, is read back |
| `CubeGame.ParsePaddedDraw` | src/day_2.rs:70-90 | one to three `<count> <colour>` sections, in any order and with any whitespace around each, parse to the sections applied in order to an empty draw: a colour left out is 0, a repeated colour keeps its last count |
| `CubeGame.ColorExamples` | src/day_2.rs:174-181 | `red` and `   red   ` parse to red |
| `CubeGame.RejectedColorExamples` | src/day_2.rs:184-193 | `invalid_color`, the empty text and spaces alone are `UndefinedColor` |
| `CubeGame.DrawExample` | src/day_2.rs:196-198 | `1 red, 2 green, 3 blue` parses to the draw (1, 2, 3) |
| `CubeGame.SingleColorExample` | src/day_2.rs:200-201 | `5 red` parses to the draw (5, 0, 0) |
| `CubeGame.PaddedDrawExample` | src/day_2.rs:203-204 | `  2 red, 4 green   ,  6 blue  ` parses to the draw (2, 4, 6) |
| `CubeGame.GameFromStr` | src/day_2.rs:103-118 | an accepted game has at least one draw, an id within `u32` and every count within `u32`, which are exactly the games `ParseGameText` reads back |
| `CubeGame.GameErrors` | src/day_2.rs:103-118 | errors are reported in this order: `:`-section count, id token count, the word `Game`, the id number, then the first bad draw, even though the draws are parsed first; otherwise the game |
| `CubeGame.ParseGameText` | src/day_2.rs:103-118 | every game with a draw, written `Game <id>: <draw>; <draw>; ...`, is read back |
| `CubeGame.CheckGameWithinLimits` | src/day_2.rs:122-129 | true exactly when every draw is within all three limits; true when there are no draws |
| `CubeGame.MaxCount` | src/day_2.rs:132-134 | the largest count of a colour over the draws, attained by some draw; 0 when there are none |
| `CubeGame.PowerOfSet` | src/day_2.rs:131-136 | the power is 0 exactly when some colour is never drawn, a game without draws included |
| `CubeGame.MaxCountZero` | src/day_2.rs:132-134 | the largest count of a colour is 0 exactly when no draw shows that colour |
| `CubeGame.MaximaAdmitGame` | src/day_2.rs:131-136 | the bag made of the three maxima, whose power `PowerOfSet` is, admits the game |
| `CubeGame.MaximaAreLeast` | src/day_2.rs:131-136 | every bag that admits the game holds at least the maximum of each colour |
| `Text.Decimal` | src/day_1.rs:25 | `to_string`: a numeral without leading zeros whose value is the number |
| `Text.ParseU32` | src/day_2.rs:82 | `parse::<u32>`: a parsed value fits a `u32`; the empty text, a lone `+` and any character other than a digit, except one leading `+`, give no number |
| `Text.ParseDecimal` | src/day_2.rs:82 | every `u32` value's numeral parses back to it |
| `Text.Split` | src/day_2.rs:72 | `split` on one character: at least one piece, none containing the separator, and joined with it they give the text back |
| `Text.SplitJoin` | src/day_2.rs:72 | splitting on a separator undoes joining pieces free of it |
| `Text.Trim` | src/day_2.rs:77 | `trim`: a slice of the text; everything cut from either end is whitespace, and what remains neither starts nor ends with it |
| `Text.TrimPadded` | src/day_2.rs:77 | trimming removes exactly the whitespace around a text that does not start or end with whitespace |
| `Schematic.InVicinity` | src/day_3.rs:30-36 | true exactly when the part is within one row of the number and between one column before its first digit and one after its last; the saturated lower bounds change nothing |
| `Schematic.NewPartNumber` | src/day_3.rs:40-51 | on success the line, the column and the length modulo 256; on failure `NumberNotAnInteger(line, col)` |
| `Schematic.NewPartNumberOfDigits` | src/day_3.rs:40-51 | a digit run is accepted exactly when its value fits a `u32`, and then that value is kept |
| `Schematic.RunsAreMaximal` | src/day_3.rs:134-165 | the runs listed for a line are exactly its maximal runs of digits |
| `Schematic.RunsOrdered` | src/day_3.rs:134-165 | the runs are listed left to right without overlap |
| `Schematic.LineNumberOfRun` | src/day_3.rs:134-165 | an accepted line has one part number per run; the k-th is on the line, starts at the k-th maximal run and has its value |
| `Schematic.NumbersFirstError` | src/day_3.rs:144-161 | a line fails at its first run whose value does not fit a `u32` |
| `Schematic.LineNumbersError` | src/day_3.rs:135-157 | a line fails only at a maximal run whose value exceeds a `u32`, reported at its first digit; no other error, `UnexpectedSymbolFound` included, occurs |
| `Schematic.SymbolAt` | src/day_3.rs:141-143 | every listed part is a part symbol of its line, with that symbol as its type and no numbers yet |
| `Schematic.SymbolsOrdered` | src/day_3.rs:134-158 | the parts of a line are listed in column order |
| `Schematic.SymbolsCover` | src/day_3.rs:141-152 | every part symbol of a line is listed |
| `Schematic.AdjacentMembers` | src/day_3.rs:168-174 | a number is attached to a part exactly when it is one of the numbers offered and in the part's vicinity |
| `Schematic.AttachGathered` | src/day_3.rs:168-192 | one more pass of the nested loops attaches one more group of numbers |
| `Schematic.GridNumbersOnTheirRows` | src/day_3.rs:145 | every part number is recorded on the row it was found on |
| `Schematic.ScanWindowContents` | src/day_3.rs:88-97 | after n lines the parts handed back are the finished parts of the earlier rows, and the window holds the last row's parts and numbers |
| `Schematic.ScanAccepted` | src/day_3.rs:91-94 | a prefix of lines is scanned exactly when each of its lines is accepted |
| `Schematic.ScanPrefixError` | src/day_3.rs:92 | the first failing line stops the scan: more lines do not change the error |
| `Schematic.SchematicAccepted` | src/day_3.rs:88-97 | a schematic parses exactly when every line does |
| `Schematic.SchematicFirstError` | src/day_3.rs:91-94 | a rejected schematic reports the error of its first rejected line |
| `Schematic.SchematicParts` | src/day_3.rs:88-97 | the parsed parts are the finished parts of all rows, the last line's parts included |
| `Schematic.FinalPartsAdjacent` | src/day_3.rs:168-192 | every number attached to a finished part is in its vicinity |
| `Schematic.FinalPartsComplete` | src/day_3.rs:168-192 | every number of the grid in the vicinity of a finished part is attached to it |
| `Schematic.FinalPartsPlace` | src/day_3.rs:141-150 | every finished part sits on a part symbol of the grid and has it as its type |
| `Schematic.FinalPartsOrdered` | src/day_3.rs:91-95 | finished parts come row by row and left to right, so none appears twice |
| `Schematic.FinalPartsCover` | src/day_3.rs:91-95 | every part symbol of the grid is among the finished parts |
| `Schematic.PartNumSumAppend` | src/day_3.rs:68-76 | the part-number sum of two lists of parts is the sum of their sums |
| `Schematic.ValSumBounds` | src/day_3.rs:68-76 | each number of a part is counted in full in that part's sum |
| `Schematic.PartNumSumBounds` | src/day_3.rs:68-76 | each part's own sum is counted in full in the sum over all parts |
| `Schematic.SharedNumberCountsTwice` | src/day_3.rs:68-76 | a number attached to two different parts adds at least twice its value to the part-number sum |
| `Schematic.GearSumAppend` | src/day_3.rs:77-83 | the gear-ratio sum of two lists of parts is the sum of their sums |
| `Schematic.GearSumWithoutGears` | src/day_3.rs:77-83 | parts that are not `*` with exactly two numbers contribute nothing |
| `Scanner.ScanWindow.constructor` | src/day_3.rs:126-128 | an empty window in the normal state |
| `Scanner.ScanWindow.Tokenize` | src/day_3.rs:134-165 | the lexer loop and its flush give the line's part numbers and part symbols; on a run too large for a `u32` it gives that error with the state left at the run; the window is unchanged; the six guarded arms cover every character in every state, so the catch-all arm that reports `UnexpectedSymbolFound` is proved unreachable |
| `Scanner.ScanWindow.ProcessLine` | src/day_3.rs:130-198 | returns the previous line's parts with this line's numbers attached, and keeps this line's parts and numbers; on error returns it and leaves the window as it was |
| `Scanner.AttachNumbers` | src/day_3.rs:168-174 | the nested loops append to each part the numbers in its vicinity, in order |
| `Scanner.FromStr` | src/day_3.rs:88-97 | the loop over the lines and the final flush give exactly `SchematicOf` |
| `Scanner.SumOfPartNums` | src/day_3.rs:68-76 | the nested sum over every part's numbers |
| `Scanner.GearRatios` | src/day_3.rs:77-83 | the sum of the products of the two numbers of every `*` part with exactly two numbers |

## Left out

- `src/main.rs` is not part of this model. It only parses arguments, opens files and dispatches to a day.
- The reading and printing in the `solve_day_*` drivers is not modelled. This covers `BufReader`, `read_to_string`, `println!`/`print!` and the early returns on read errors. `Calibration.SolveCalibration` returns the sum, or None where the driver prints a message and returns. The day-2 driver's two sums over the parsed games are not modelled; `CheckGameWithinLimits` and `PowerOfSet` are the computations it calls.
- `str::lines` is not modelled. The schematic and the calibration input are given as a sequence of lines.
- Non-ASCII text is not modelled. `is_numeric` would accept other numerals, and `&line[a..b]` and `match_indices` work on byte offsets. For ASCII text both agree with the model.
- Scanner.SumOfPartNums: does not model `usize` overflow of the sum, because the model's numbers are unbounded.
- Scanner.GearRatios: does not model `usize` overflow of the products and the sum, for the same reason.
- Calibration.SolveCalibration: does not model overflow of the `u32` sum.
- CubeGame.PowerOfSet: does not model `usize` overflow of the product of the three maxima, which can exceed 64 bits, because the model's numbers are unbounded.
- Schematic.InVicinity: does not model overflow of `column + digits + 1` or `line + 1` at the top of `usize`.
- Scanner.ScanWindow.ProcessLine: requires the normal state. After an error the source leaves the window in the part-number state, and `from_str`, its only caller, stops at the first error and never calls it again.
- The panic of `unwrap` on a game id that is not a `u32` is modelled as the error value `IdNotInteger`, not as a panic.
- The `Display` implementations and `EngineSchematic::new` are not modelled; `FromStr` starts from an empty list of parts.
- The rejected draws of the unit tests at `src/day_2.rs:207-222` are not restated as literals. `TooManySections` covers the four-section input, and `SectionErrors` with `CollectFirstError` cover a bad colour, a missing count or colour, and a wrong token count.
- `Calibration.LineValue` defines a line's value arithmetically as 10 × first + last. `LineCalibrationValue` proves that the source's route through `to_string`, `push` and `from_str_radix` gives the same number.
- The debug `println!` of the collected word positions and of the previous line's parts is not modelled.
