# Advent of Code 2024, days 1, 2, 4, 5, 6 and 7, in Dafny

This project models the puzzle solvers of the Rust repository
`AdventOfCode2024`: the guard patrol simulator (day 6), the page ordering
rules and their repair (day 5), the word search (day 4), the bridge
calibration equations (day 7), the reactor safety reports (day 2) and the
historian location lists (day 1). Each day is one module, written in the
form its Rust file takes:

- `GuardPatrol` (`patrol.dfy`): the step rule as a pure state machine
  (`Advance`, `Trace`, `Escapes`, `Loops`), and the mutable `GuardMap`
  as a class whose methods (`Walk`, `RotateRightIfSomethingInFront`,
  `WalkTillOutOfMap`, `ContainsLoop`, `ObstaclePositionsCausingLoop`) are
  proved against that machine.
- `PageOrdering` (`page_ordering.dfy`): rules and updates as values, the
  rule check and the relevant-rule filter as functions, and `PageUpdate`
  as a class whose `FollowRules` rearranges its pages in place.
- `WordSearch` (`word_search.dfy`): the letter grid as a sequence of
  strings; `check_xmas`, `check_x_dash_mas` and both solvers as methods
  with the source's loops, proved against word and count functions.
- `Calibration` (`calibration.dfy`): operator sequences enumerated in the
  order of `multi_cartesian_product`, evaluation strictly left to right,
  and `possible_outputs` as the source's nested loops.
- `Reports` (`reports.dfy`): the safety check and the problem dampener as
  loops, proved against the predicates `Safe` and `Accepted`.
- `LocationLists` (`location_lists.dfy`): parsing, sorting and both scores
  as functions.
- `Text` (`text.dfy`), `Numbers` (`numbers.dfy`), `Options`
  (`options.dfy`) and `Counting` (`counting.dfy`) hold what several days
  share: `str::split`, `split_whitespace`, the filter of empty lines,
  `map(parse).collect()`, `to_string` and `parse` of unsigned numbers,
  `abs_diff`, Rust's ordering of `Option<usize>`, and cardinality bounds
  for sets.

Integers are unbounded (`nat`); a panic of the source (an `unwrap` on a
missing value, an index out of range, a loop that never ends) is either a
`None` result of a parser or a precondition of the operation. Where the
input cannot parse, the parsers return `None`.

The cell the guard starts on is counted only when the guard comes back
to it, because `visited_positions` is never seeded with the start. On a
map of a single cell the guard leaves at once, so both answers are 0
(`GuardPatrol.SingleCellMap`).

## Model

| member | source | states |
|---|---|---|
| GuardPatrol.TurnRight | day06/src/main.rs:34-41 | a quarter turn clockwise: the direction's place in Up, Right, Down, Left advances by one, modulo four |
| GuardPatrol.FourTurnsRestore | day06/src/main.rs:34-41 | four turns give back the direction; one, two or three turns do not |
| GuardPatrol.IsDirectionChar | day06/src/main.rs:30-32 | a character is a direction glyph exactly when it is the glyph of some direction |
| GuardPatrol.FromChar | day06/src/main.rs:20-28 | defined only on the four glyphs (any other character panics); its result has that glyph |
| GuardPatrol.GlyphRoundTrip | day06/src/main.rs:20-32 | the glyph of a direction is a direction character and reads back as that direction |
| GuardPatrol.NextPosition | day06/src/main.rs:80-87 | the cell one step ahead: exactly one coordinate moves, by one; up and left need a non-zero coordinate (usize subtraction) |
| GuardPatrol.ExitsNextIffAheadOutside | day06/src/main.rs:89-96 | `next_walk_out_of_map` holds exactly when the cell ahead lies outside the grid; otherwise that cell is in the grid |
| GuardPatrol.Walked | day06/src/main.rs:98-100 | a walk moves one cell in the facing direction, keeps the facing and stays on the grid |
| GuardPatrol.ExitIsFinal | day06/src/main.rs:116-119 | once the guard is about to leave, every later state is the same |
| GuardPatrol.ExitState | day06/src/main.rs:114-119 | the state an escaping guard leaves from is on the grid and faces out of it |
| GuardPatrol.ExitAt | day06/src/main.rs:114-119 | the first recorded state that faces out of the map is the exit state |
| GuardPatrol.RepeatMeansLoop | day06/src/main.rs:143-157 | a state seen twice before the guard leaves means the guard never leaves |
| GuardPatrol.StatesBound | day06/src/main.rs:129-162 | distinct (x, y, direction) states number at most 4 * rows * columns, which bounds the `steps` list of `contains_loop` |
| GuardPatrol.VisitedBound | day06/src/main.rs:114-127 | the cells visited number at most rows * columns |
| GuardPatrol.StaysOnFloor | day06/src/main.rs:102-124 | a guard that starts its trace on a free cell never stands on an obstacle |
| GuardPatrol.WithObstacle | day06/src/main.rs:174-175 | the grid with one more obstacle: the same cells, plus (x, y) |
| GuardPatrol.LoopObstaclesBound | day06/src/main.rs:164-183 | the trapping obstacles are among the free cells other than the start, fewer than rows * columns |
| GuardPatrol.SingleCellMap | day06/src/main.rs:114-127 | on a 1x1 map the guard visits no cell and there is no candidate obstacle |
| GuardPatrol.ParseGrid | day06/src/main.rs:56-71 | one row per line and one cell per character; a cell is an obstacle exactly when its character is '#' |
| GuardPatrol.ParseGuard | day06/src/main.rs:53-66 | the guard is at the last direction glyph in row-major order, facing that glyph's way; with no glyph, (0, 0) facing up |
| GuardPatrol.GuardMap.constructor | day06/src/main.rs:73-77 | the map holds the given grid, position and facing |
| GuardPatrol.GuardMap.Parse | day06/src/main.rs:52-78 | the map built by the scan over the lines has grid `ParseGrid` and guard `ParseGuard` |
| GuardPatrol.GuardMap.Clone | day06/src/main.rs:44 | a fresh map with the same grid and guard |
| GuardPatrol.GuardMap.NextWalkOutOfMap | day06/src/main.rs:89-96 | true exactly when the cell ahead of the guard lies outside the map |
| GuardPatrol.GuardMap.Walk | day06/src/main.rs:98-100 | the position becomes the next position; nothing else changes |
| GuardPatrol.GuardMap.RotateRightIfSomethingInFront | day06/src/main.rs:102-112 | turns right exactly when the guard does not leave next and the cell ahead is an obstacle; the position never changes |
| GuardPatrol.GuardMap.TurnWhileBlocked | day06/src/main.rs:122 | after the turning loop the guard faces a free cell or the edge, and its state is a later state of the same trace |
| GuardPatrol.GuardMap.WalkTillOutOfMap | day06/src/main.rs:114-127 | returns the number of distinct cells the guard visits before it leaves, at most rows * columns, and leaves the guard in the state it exits from |
| GuardPatrol.GuardMap.ContainsLoop | day06/src/main.rs:129-162 | returns true exactly when the guard never leaves the map; otherwise the guard ends in the state it exits from, on the same map |
| GuardPatrol.GuardMap.LoopsWithObstacleAt | day06/src/main.rs:174-178 | one trial on a clone: true exactly when the grid with an obstacle at (x, y) traps the guard |
| GuardPatrol.GuardMap.ObstaclePositionsCausingLoop | day06/src/main.rs:164-183 | returns the number of free cells, other than the start, where one new obstacle traps the guard; 0 on an empty map or one with an empty first row |
| GuardPatrol.SolveA | day06/src/main.rs:186-189 | part one is the number of distinct cells visited, at most the grid's size |
| GuardPatrol.SolveB | day06/src/main.rs:191-194 | part two is the number of trapping obstacle positions, fewer than the grid's size, and 0 for an empty input or an empty first line |
| Text.Numeral | day07/src/main.rs:38-40 | `to_string` of a number is a digit string that reads back as the number; only 0 starts with '0' |
| Text.ParseNatAppend | day07/src/main.rs:38-40 | reading two joined digit strings shifts the first left by the length of the second |
| Text.Split | day05/src/main.rs:18 | `str::split` gives at least one piece, and joining the pieces with the separator gives back the input |
| Text.SplitAtSeparator | day05/src/main.rs:18 | `str::split` cuts at the leftmost occurrence of the separator: text in which the separator starts nowhere, then the separator, gives that text as the first piece and splits the rest on its own |
| Text.SplitSeparatorFree | day05/src/main.rs:18 | text in which the separator starts nowhere comes out of `str::split` as one piece |
| Text.SplitFirst | day07/src/main.rs:18 | when the separator first occurs at k and its first character does not occur before, the first piece is the text before k and the rest is the split of what follows the separator |
| Text.SplitJoin | day05/src/main.rs:18-21 | splitting pieces that were joined gives them back, when no piece contains the separator's first character |
| Text.Words | day02/src/main.rs:14 | `split_whitespace` gives non-empty words free of Unicode whitespace, and the line is exactly those words in order with runs of whitespace between them (non-empty between two words, possibly empty before the first and after the last) |
| Text.WordsOfSpaced | day02/src/main.rs:14 | any non-empty whitespace-free words, separated by non-empty whitespace runs and with any whitespace before the first and after the last, split back into exactly those words |
| Text.NoBreakSpaceSeparates | day02/src/main.rs:14 | a no-break space separates numbers into words, as an ASCII space does |
| Text.WordsJoin | day01/src/main.rs:15-17 | words joined by single spaces split back into the same words |
| Text.NonEmptyLines | day02/src/main.rs:13 | the filter of empty lines: no more lines than given, and none of them empty |
| Text.NonEmptyLinesMembers | day02/src/main.rs:13 | a line is kept exactly when it is one of the given lines and is not empty |
| Text.NonEmptyLinesAppend | day02/src/main.rs:13 | filtering two runs of lines one after the other keeps the kept lines of each, in order |
| Text.NonEmptyLinesKeepsAll | day02/src/main.rs:13 | lines none of which is empty are all kept, in order |
| Text.EmptyLineDropped | day02/src/main.rs:13 | an empty line inserted anywhere is dropped, and the kept lines are those without it |
| Text.ParseAll | day02/src/main.rs:14-15 | `map(parse).collect()` with a panicking parse: Some exactly when every line parses, and then the value at each index is the parse of the line at that index |
| Text.ParseAllOf | day02/src/main.rs:14-15 | lines that each parse as the value at their index give all those values |
| Text.ParseNumbers | day02/src/main.rs:14 | every piece read as a number, or None exactly when some piece is not a number |
| Text.ParseNumerals | day02/src/main.rs:14 | reading printed numbers back gives the numbers |
| PageOrdering.ParseRuleText | day05/src/main.rs:17-23 | the line "lower\|higher" of a rule parses back as the rule |
| PageOrdering.ParseRuleNeedsBar | day05/src/main.rs:17-23 | a line without '\|' is not a rule (the source panics on it) |
| PageOrdering.ParseRule | day05/src/main.rs:17-23 | a line parses exactly when it starts with two numbers separated by '\|' and followed by the end or another '\|', into the rule they spell |
| PageOrdering.ParseUpdate | day05/src/main.rs:31-35 | a line that parses names at least one page and holds only digits and commas |
| PageOrdering.ParseUpdateText | day05/src/main.rs:31-35 | the comma-separated text of a non-empty update parses back as the update |
| PageOrdering.EmptyLineIsNoUpdate | day05/src/main.rs:31-35 | an empty line is not an update, which is why `parse_inputs` drops empty lines |
| PageOrdering.Position | day05/src/main.rs:49-50 | `iter().position`: None exactly when the page is absent; otherwise an index holding it with no earlier occurrence |
| PageOrdering.PositionOf | day05/src/main.rs:49-50 | an index holding the page with no earlier occurrence is the position |
| PageOrdering.RuleFollowedMeaning | day05/src/main.rs:48-51 | a rule is followed exactly when the higher page occurs and, if the lower page occurs, one of its occurrences precedes every occurrence of the higher page |
| PageOrdering.IsRuleFollowed | day05/src/main.rs:48-51 | a missing higher page breaks a rule; a missing lower page alone does not |
| PageOrdering.RelevantRules | day05/src/main.rs:37-46 | the rules with both pages in the update, and only those |
| PageOrdering.RelevantRulesAppend | day05/src/main.rs:37-46 | filtering distributes over concatenation of the rule list |
| PageOrdering.RelevantRulesOfPermutation | day05/src/main.rs:37-46 | rearranging the pages does not change the relevant rules |
| PageOrdering.AllFollowedMeaning | day05/src/main.rs:53-57 | `all` over the rules holds exactly when each rule is followed |
| PageOrdering.AllRulesFollowedMeaning | day05/src/main.rs:53-57 | `are_all_rules_followed` holds exactly when every rule with both pages present is followed |
| PageOrdering.AreAllRulesFollowed | day05/src/main.rs:53-57 | an update is in order under rules none of which name two of its pages |
| PageOrdering.MiddleNumber | day05/src/main.rs:83-85 | the middle page is a page of the update with as many pages on either side, give or take one |
| PageOrdering.MiddleOfReverse | day05/src/main.rs:83-85 | for an odd length the middle page is the same read backwards |
| PageOrdering.Remove | day05/src/main.rs:75 | `Vec::remove`: one element fewer, the others in order, the removed one leaves the multiset |
| PageOrdering.Insert | day05/src/main.rs:76-77 | `Vec::insert`: the element at the index, the others in order around it, one more in the multiset |
| PageOrdering.RepairStep | day05/src/main.rs:64-77 | a repair step only rearranges the pages |
| PageOrdering.RepairStepFollows | day05/src/main.rs:63-78 | repairing a broken rule with two different pages puts the lower page right before the higher one, so the rule is then followed |
| PageOrdering.RepairStepSamePage | day05/src/main.rs:59-81 | a rule naming the same page twice is never followed and its repair changes nothing, so `follow_rules` never returns |
| PageOrdering.Fix | day05/src/main.rs:63-78 | the body of the inner loop only rearranges the pages |
| PageOrdering.RepairPass | day05/src/main.rs:62-79 | a pass over the rules only rearranges the pages |
| PageOrdering.PassesPermute | day05/src/main.rs:61-80 | any number of passes only rearranges the pages |
| PageOrdering.SettleCount | day05/src/main.rs:61 | the number of passes `follow_rules` makes: the first after which every relevant rule is followed |
| PageOrdering.Settle | day05/src/main.rs:59-81 | the repaired update is a rearrangement of the pages that follows every rule |
| PageOrdering.SameRelevantRules | day05/src/main.rs:54-61 | checking the relevant rules of the original update is checking all rules, for any rearrangement |
| PageOrdering.SettleValid | day05/src/main.rs:59-61 | an update that follows every rule is left as it is |
| PageOrdering.PageUpdate.constructor | day05/src/main.rs:31-35 | the update holds the given pages |
| PageOrdering.PageUpdate.FollowRules | day05/src/main.rs:59-81 | the pages become the settled update: a rearrangement that follows every rule |
| PageOrdering.PageUpdate.RepairAll | day05/src/main.rs:62-79 | the pages after one pass of the inner loop are `RepairPass` of the pages before |
| PageOrdering.ParseInputs | day05/src/main.rs:88-104 | every parsed update has at least one page |
| PageOrdering.ParseRules | day05/src/main.rs:90-95 | one rule per line, each the parse of its line, or None exactly when some line is not a rule |
| PageOrdering.ParseUpdates | day05/src/main.rs:96-102 | Some exactly when every non-empty line parses as an update; then one update per non-empty line, in order, each the parse of its line and each with at least one page |
| PageOrdering.ParseUpdatesText | day05/src/main.rs:96-102 | the lines of non-empty updates parse back as the updates |
| PageOrdering.InputSections | day05/src/main.rs:89 | the blank line after the rule lines is the first "\n\n" of the input, so the input splits into the rules section and the updates section |
| PageOrdering.RuleLinesParse | day05/src/main.rs:90-95 | the rules section splits into the rule lines, which parse back as the rules |
| PageOrdering.UpdateLinesParse | day05/src/main.rs:96-102 | the updates section splits into the update lines, which parse back as the updates; an empty section gives none |
| PageOrdering.ParseInputsText | day05/src/main.rs:88-104 | the rule lines, a blank line and the lines of non-empty updates parse back as those rules and updates |
| PageOrdering.SolveA | day05/src/main.rs:106-113 | part one is at most the sum of all middle pages; all of it when every update is in order, 0 when none is |
| PageOrdering.SolveB | day05/src/main.rs:115-128 | part two sums the middle pages of the repaired broken updates |
| Calibration.ParseCalculation | day07/src/main.rs:17-28 | a line parses only when it starts with a number and ": "; such a line parses exactly when the text from there up to the next ": " (or the end) is whitespace-separated numbers, and then into the number before the first ": " and those numbers |
| Calibration.CalculationPieces | day07/src/main.rs:18-24 | the first two pieces of `split(": ")` are the number before the first ": " and the text up to the next ": " or the end |
| Calibration.InputsToEnd | day07/src/main.rs:21-24 | with no ':' after the first ": ", the inputs' text runs to the end of the line |
| Calibration.BareColonInInputs | day07/src/main.rs:21-25 | "190: 10:19" does not parse: its inputs' text "10:19" has no ": " but is not a number |
| Calibration.ParseCalculationText | day07/src/main.rs:17-28 | the line "target: a b c" of a calculation parses back as the calculation |
| Calibration.DigitsBounds | day07/src/main.rs:38 | a number has `Digits(n)` decimal digits: it is below 10^Digits(n) and, unless it is a single digit, at least 10^(Digits(n) - 1) |
| Calibration.ExecuteOperator | day07/src/main.rs:34-43 | concatenation is a * 10^digits(b) + b |
| Calibration.OperatorGrows | day07/src/main.rs:34-43 | with a positive second operand no operator gives less than the first operand |
| Calibration.OpSequenceAt | day07/src/main.rs:47-50 | the sequence numbered n has length k and operator ids within range |
| Calibration.IndexBound | day07/src/main.rs:47-50 | every operator sequence of length k is numbered below b^k |
| Calibration.IndexRoundTrip | day07/src/main.rs:47-50 | the sequence at a sequence's number is that sequence |
| Calibration.OpSequenceAtRoundTrip | day07/src/main.rs:47-50 | a number below b^k is the number of the sequence at it, so no sequence repeats |
| Calibration.OpSequencesExactlyOnce | day07/src/main.rs:47-50 | the enumeration holds each operator sequence exactly once |
| Calibration.Evaluate | day07/src/main.rs:54-58 | with additions only the value is the sum of the inputs; with positive inputs it is at least the first input |
| Calibration.EvaluateFirst | day07/src/main.rs:55-58 | the first operator combines the first two inputs into the starting value for the rest |
| Calibration.NoPrecedence | day07/src/main.rs:55-58 | there is no precedence: a + b * c is (a + b) * c |
| Calibration.OutputReached | day07/src/main.rs:45-63 | each output is the value of the operator sequence at the same index |
| Calibration.ReachedOutput | day07/src/main.rs:45-63 | the value of every operator sequence is an output, at the sequence's number |
| Calibration.OutputsMeaning | day07/src/main.rs:45-63 | a value is a possible output exactly when some operator sequence reaches it |
| Calibration.Outputs | day07/src/main.rs:45-63 | one output per operator sequence, 2^(n-1) without concatenation and 3^(n-1) with it, the i-th being the value of the i-th sequence |
| Calibration.OutputsWithoutConcatIncluded | day07/src/main.rs:46 | every output reachable with + and * is reachable once concatenation is allowed |
| Calibration.PossibleOutputs | day07/src/main.rs:45-63 | the loops return the value of each operator sequence, in enumeration order |
| Calibration.Fold | day07/src/main.rs:55-58 | the inner loop computes the left-to-right value of the inputs under the sequence |
| Calibration.CanBeCalculatedFromInputs | day07/src/main.rs:30-32 | true exactly when the expected output is a possible output |
| Calibration.ExampleMultiplication | day07/src/main.rs:87 | 190 is reached from 10 and 19 |
| Calibration.ExampleConcatenation | day07/src/main.rs:90 | 156 is reached from 15 and 6 with concatenation |
| Calibration.ExampleNeedsConcatenation | day07/src/main.rs:90 | 156 is not reached from 15 and 6 without concatenation |
| Calibration.TotalGrowsWithConcat | day07/src/main.rs:66-81 | part two's total is at least part one's |
| Calibration.ParseLines | day07/src/main.rs:67-69 | one calculation per line, each the parse of its line |
| Calibration.Solve | day07/src/main.rs:66-73 | the loop sums the expected outputs of the lines that can be calculated |
| Reports.ParseInput | day02/src/main.rs:10-16 | Some exactly when every non-empty line reads as numbers; then one report per non-empty line, in order, each the numbers of its line's words, and no more reports than lines |
| Reports.ParseInputOfKept | day02/src/main.rs:13 | two inputs with the same non-empty lines parse alike |
| Reports.ReportTextParses | day02/src/main.rs:14 | the line of a non-empty report is not empty and reads back as the report |
| Reports.ParseInputText | day02/src/main.rs:10-16 | the lines of non-empty reports parse back as the reports |
| Reports.EmptyLineSkipped | day02/src/main.rs:13 | an empty line inserted anywhere between two runs of lines leaves the parsed input unchanged |
| Numbers.AbsDiff | day02/src/main.rs:25 | `abs_diff`: the distance between two levels, which added to the smaller gives the larger (day 1 writes the same as `if a > b { a - b } else { b - a }`) |
| Reports.Safe | day02/src/main.rs:18-38 | a report is safe exactly when it rises, or falls, by one to three at every step; a safe report has no two equal neighbours |
| Reports.StepsMeaning | day02/src/main.rs:22-35 | every step passes the check in the first step's direction exactly when the report rises or falls throughout |
| Reports.IsSafeReport | day02/src/main.rs:18-38 | the loop returns true exactly when the report is safe |
| Reports.RemoveAt | day02/src/main.rs:52-53 | the report without the level at i, the other levels in order |
| Reports.Accepted | day02/src/main.rs:45-61 | with the dampener and three levels or more, a report is accepted exactly when removing some single level leaves it safe |
| Reports.IsAccepted | day02/src/main.rs:45-61 | the filter accepts exactly a safe report or, with the dampener, one that is safe after removing one level |
| Reports.SafeWithoutEnd | day02/src/main.rs:50-57 | removing the first or last level of a safe report of three or more levels keeps it safe |
| Reports.CountAccepted | day02/src/main.rs:40-63 | at most one count per report |
| Reports.DampenerCountsMore | day02/src/main.rs:65-71 | part two counts at least as many reports as part one |
| Reports.Solve | day02/src/main.rs:40-63 | the count of accepted reports of the parsed input |
| Reports.CountReports | day02/src/main.rs:43-62 | the loop counts exactly the accepted reports |
| Reports.ExampleSafe | day02/src/main.rs:77-82 | the two safe example reports, and the two fixable ones with the offending level removed, are safe |
| Reports.ExampleUnfixable | day02/src/main.rs:78-79 | two example reports stay unsafe whichever level is removed |
| Reports.ExampleVerdictsA | day02/src/main.rs:77-83 | part one accepts exactly the first and last example reports |
| Reports.ExampleVerdictsB | day02/src/main.rs:77-83 | part two accepts every example report except the second and third |
| Reports.ExampleCount | day02/src/main.rs:40-63 | the count over a list of reports is the last of its running counts, given each report's verdict |
| Reports.ExampleCountA | day02/src/main.rs:92-95 | the example counts 2 for part one |
| Reports.ExampleCountB | day02/src/main.rs:97-100 | the example counts 4 for part two |
| WordSearch.CellsStep | day04/src/main.rs:13-25 | a word lies along a direction exactly when its first letter is here and the rest lies from the next cell |
| WordSearch.WordAtCells | day04/src/main.rs:10-28 | the step-by-step reading agrees with the cell-by-cell one |
| WordSearch.CheckXmas | day04/src/main.rs:10-28 | returns true exactly when "XMAS" reads from (x, y) along the offset within the grid |
| WordSearch.CellsReversed | day04/src/main.rs:10-28 | a word read one way is its reverse read back from its last cell |
| WordSearch.XmasReversed | day04/src/main.rs:10-28 | "XMAS" from a cell is "SAMX" read back from three cells further |
| WordSearch.CellCount | day04/src/main.rs:58-66 | at most eight words start at one cell |
| WordSearch.CountAt | day04/src/main.rs:58-66 | the two offset loops count the directions in which "XMAS" starts at the cell |
| WordSearch.CellHitsComplete | day04/src/main.rs:58-66 | the loop-shaped count over the offsets is the count over the eight directions |
| WordSearch.RowHitsBound | day04/src/main.rs:57-67 | a row prefix of n cells holds at most 8n words |
| WordSearch.GridHitsBound | day04/src/main.rs:56-68 | the first rows hold at most 8 words per cell |
| WordSearch.SolveA | day04/src/main.rs:51-71 | part one is the number of (cell, direction) pairs where "XMAS" starts |
| WordSearch.XDashMasMeaning | day04/src/main.rs:30-49 | at most two diagonals read "MAS", and two do exactly when the centre is 'A' and each diagonal holds 'M' and 'S' at its ends |
| WordSearch.CheckMas | day04/src/main.rs:30-35 | true exactly when "MAS" reads from the cell one step ahead back through the centre |
| WordSearch.CheckXDashMas | day04/src/main.rs:37-49 | returns true exactly when both diagonals through the cell read "MAS" |
| WordSearch.XRowHits | day04/src/main.rs:79-83 | an interior row prefix holds at most one X-MAS per interior cell |
| WordSearch.XGridHitsBound | day04/src/main.rs:78-84 | the interior holds at most (rows - 2) * (columns - 2) X-MASes |
| WordSearch.SolveB | day04/src/main.rs:73-87 | part two is the number of interior cells with an X-MAS, and 0 for fewer than three rows |
| LocationLists.InsertSorted | day01/src/main.rs:24-25 | inserting adds the value to the multiset |
| LocationLists.InsertSortedSorted | day01/src/main.rs:24-25 | inserting into a sorted list keeps it sorted |
| LocationLists.SortedOf | day01/src/main.rs:24-25 | `Vec::sort` leaves the list sorted and a permutation of the input |
| LocationLists.SortedUnique | day01/src/main.rs:24-25 | two sorted lists with the same multiset are equal |
| LocationLists.SortedOfPermutation | day01/src/main.rs:21-25 | sorting does not depend on the order of the input |
| LocationLists.ParseLine | day01/src/main.rs:15-18 | a line parses exactly when its first two words are numbers |
| LocationLists.ParsePairs | day01/src/main.rs:11-20 | None exactly when some non-empty line does not parse; otherwise one pair per non-empty line, in order, each the parse of its line, and no more pairs than lines |
| LocationLists.FromPairs | day01/src/main.rs:21-27 | each column is sorted and holds the IDs of that column of the pairs |
| LocationLists.Parse | day01/src/main.rs:10-28 | parses exactly when the pairs parse, into the sorted columns of the pairs |
| LocationLists.FromPairsOrderFree | day01/src/main.rs:21-27 | only the contents of each column matter, not the order of the lines |
| LocationLists.ParseLineText | day01/src/main.rs:15-18 | the line "a b" of a pair parses back as the pair |
| LocationLists.ParsePairsText | day01/src/main.rs:11-20 | the lines of pairs parse back as the pairs |
| LocationLists.Distance | day01/src/main.rs:30-36 | no zipped pair is farther apart than the total distance |
| LocationLists.ScoreA | day01/src/main.rs:30-36 | the total distance reads the same with the columns swapped |
| LocationLists.DistanceSymmetric | day01/src/main.rs:34 | the distance does not depend on which list is first |
| LocationLists.DistanceTruncates | day01/src/main.rs:33 | `zip` stops at the shorter list |
| LocationLists.DistanceZero | day01/src/main.rs:30-36 | the distance is 0 exactly when the lists agree up to the shorter length |
| LocationLists.DistanceToItself | day01/src/main.rs:30-36 | a list is at distance 0 from itself |
| LocationLists.Count | day01/src/main.rs:42 | at most the length of the list, and positive exactly when the value occurs |
| LocationLists.CountIsMultiplicity | day01/src/main.rs:42 | the count of a value is its multiplicity |
| LocationLists.Similarity | day01/src/main.rs:38-46 | a left ID that occurs on the right adds at least itself; with no ID in common the score is 0 |
| LocationLists.SimilarityIsWeighted | day01/src/main.rs:38-46 | the score is each left ID times its multiplicity on the right |
| LocationLists.ScoreB | day01/src/main.rs:38-46 | the similarity score depends on the right column only through its multiset |
| LocationLists.SimilarityRightOrderFree | day01/src/main.rs:38-46 | rearranging the right list does not change the score |
| LocationLists.WeightedRemove | day01/src/main.rs:38-46 | any left ID can be taken out first |
| LocationLists.WeightedLeftOrderFree | day01/src/main.rs:38-46 | rearranging the left list does not change the weighted score |
| LocationLists.SimilarityLeftOrderFree | day01/src/main.rs:38-46 | rearranging the left list does not change the score |
| LocationLists.SimilarityOrderFree | day01/src/main.rs:38-46 | the score is a function of the two multisets |
| LocationLists.SolveA | day01/src/main.rs:55-57 | part one is the distance of the sorted columns, or None where parsing panics |
| LocationLists.SolveB | day01/src/main.rs:59-61 | part two equals the similarity of the unsorted columns, or None where parsing panics |
| LocationLists.ExampleLeft | day01/src/main.rs:67-73 | the example's left IDs sort to 1, 2, 3, 3, 3, 4 |
| LocationLists.ExampleRight | day01/src/main.rs:67-73 | the example's right IDs sort to 3, 3, 3, 4, 5, 9 |
| LocationLists.ExampleDistance | day01/src/main.rs:83-85 | the sorted example columns are at distance 11 |
| LocationLists.ExampleSimilarity | day01/src/main.rs:87-90 | the sorted example columns have similarity 31 |
| LocationLists.ExampleScores | day01/src/main.rs:67-90 | any input with the example's columns scores 11 and 31 |

## Left out

- Reading the input file, `main` and the printing of answers (including the progress line of `obstacle_positions_causing_loop`) are not modelled; the solvers take the lines or the parsed input as parameters.
- `aoc-utils` is modelled only through what `PuzzleInput::lines` yields: a sequence of lines. `day00`, `day03` and `add-day` are not part of this model.
- u64 and usize overflow are not modelled: sums, products, concatenations and counts are unbounded naturals. Where the source's arithmetic would wrap or panic, the model keeps counting.
- Rust's unsigned `parse` also accepts a leading '+'. The model reads only plain digit strings, so such a line is treated as malformed.
- GuardPatrol.GuardMap.WalkTillOutOfMap: requires that the guard eventually leaves (`Escapes`), because on a looping map the source never returns.
- GuardPatrol.SolveA: requires a rectangular, non-empty map on which the guard escapes. Ragged lines index past a short row in the source.
- GuardPatrol.GuardMap.TurnWhileBlocked, GuardPatrol.GuardMap.LoopsWithObstacleAt, PageOrdering.PageUpdate.RepairAll, Calibration.Fold, WordSearch.CountAt and Reports.CountReports are inner loops of the source, split into methods of their own. The loops are the same; only the place they are written differs.
- PageOrdering.PageUpdate.FollowRules: requires that the repair settles (`Settles`), because with cyclic rules, or a rule naming the same page twice, the source loops forever (`RepairStepSamePage`).
- PageOrdering.Fix: a rule whose page is missing leaves the update unchanged, where the source would panic on `unwrap`. The function is thereby total, but such a rule never reaches it, since only relevant rules are repaired.
- PageOrdering.SolveA: stated without the parse step, on the parsed rules and updates; `ParseInputs` is modelled and proved separately.
- Calibration.PossibleOutputs: requires at least two inputs. For a single input, the result of `multi_cartesian_product` over zero ranges depends on the itertools version.
- Calibration.ExecuteOperator: requires an operator id of at most 2, because any other id panics in the source.
- GuardPatrol.SolveB and GuardPatrol.GuardMap.ObstaclePositionsCausingLoop: require a rectangular map on which the guard stands, unless the map or its first line is empty. On a ragged map the source indexes past a short row, or tries only the columns of the first row.
- PageOrdering.ParseInputsText: stated for inputs with at least one rule, since an empty rules section is the line "" and does not parse as a rule (the source panics on it).
- Calibration.Solve: requires every line to parse as a calculation (`Calculation::parse` panics otherwise) with at least two inputs, the precondition of `Calibration.PossibleOutputs`.
- Reports.Solve: requires every report to be checkable (`Checkable`). A report of one level panics on `row[1]`, and so does an unsafe report of two levels under the dampener, once a removal leaves one level.
- WordSearch.SolveA and WordSearch.SolveB: require a rectangular grid. The source bounds every row by the length of the first row.
- WordSearch.CheckXDashMas: requires an interior cell, the only cells `solve_b` passes it.
- LocationLists.SortedOf: `Vec::sort` is modelled as an insertion sort. It is specified only by being sorted and a permutation, which determines it uniquely (`SortedUnique`).
- LocationLists.ExampleScores: proved from the multisets of the example's columns, not from its text.
- The worked examples are proved for day 1 (11 and 31), day 2 (2 and 4) and single lines of day 7. They are not proved for the full example inputs of day 4 (18 and 9), day 5 (143 and 123), day 6 (41 and 6) or day 7 (3749 and 11387), whose evaluation is too large for the verifier.
