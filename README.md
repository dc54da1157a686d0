# Advent of Code 2025 solutions, modelled in Dafny

This project models the puzzle solvers of an Advent of Code 2025 repository.
The repository has one JavaScript solver per day (days 1 to 12) and a small
linear-programming library that day 10 uses. Each solver parses the
puzzle text and computes the answer to part 1, and to part 2 where the
repository solves it. The model follows each solver's parsing, its edge
cases and its error paths, and proves what the answers mean. The cases
where it departs from the source are listed under "## Left out".

One module per concern, one file per module:

| file | module | models |
|---|---|---|
| `wrappers.dfy` | `Wrappers` | `Option` and `Result` |
| `text.dfy` | `Text` | JavaScript `split`, `join`, `trim`, `slice`, `Number`, `parseInt` and `String(n)` on `seq<char>` |
| `bits.dfy` | `Bits` | bitwise or, and, xor and and-not on naturals, standing in for BigInt masks |
| `dial.dfy` | `Dial` | day 1: a safe dial turned left and right; counting zeros |
| `product_ids.dfy` | `ProductIds` | day 2: product id ranges and ids made of a digit string written twice |
| `batteries.dfy` | `Batteries` | day 3: the best two-digit joltage of each battery bank |
| `forklift.dfy` | `Forklift` | day 4: paper rolls a forklift can reach, on a character grid |
| `inventory.dfy` | `Inventory` | day 5: fresh ingredient ids and merged id ranges |
| `worksheet.dfy` | `Worksheet` | day 6: a math worksheet read by rows, then by digit columns |
| `beams.dfy` | `Beams` | day 7: a tachyon beam split by splitters, and its timelines |
| `circuits.dfy` | `Circuits` | day 8: junction boxes joined closest first into circuits |
| `rectangles.dfy` | `Rectangles` | day 9: the largest rectangle with two red tiles as corners |
| `lights.dfy` | `Lights` | day 10: the fewest button presses that light an indicator pattern |
| `lp_model.dfy`, `lp_tableau.dfy`, `lp_simplex.dfy`, `lp_branch.dfy` | `LpModel`, `LpTableau`, `LpSimplex`, `LpBranch` | day 10 `lpsolver.js`: the simplex tableau, the two-phase simplex method and branch and bound |
| `devices.dfy` | `Devices` | day 11: counting the paths from `you` to `out` in a device graph |
| `presents_shapes.dfy`, `presents_placements.dfy`, `presents_parse.dfy`, `presents_regions.dfy`, `presents_board.dfy`, `presents_greedy.dfy`, `presents_solver.dfy` | `PresentShapes`, `PresentPlacements`, `PresentParse`, `PresentRegions`, `PresentBoard`, `PresentGreedy`, `PresentSolver` | day 12: packing present shapes into regions, with bitmasks and backtracking |

JavaScript values are modelled as follows:
- A number that can be `NaN`, `undefined` or `-Infinity` is an `Option<int>`; `None` stands for all three.
- Arithmetic on `None` gives `None`, and a comparison against `None` is false, as in JavaScript.
- A solver that would throw a `TypeError` returns `Err`.
- Text is `seq<char>`. `Number(text)` and `parseInt(text, 10)` are modelled for decimal integers.
- Some state that the source updates in place stays in place: day 11's path finder and day 12's region solver are classes, and the day 10 tableau, the day 12 board and a few buffers are arrays, each with `modifies` and `reads` frames.
- Other mutated collections become values that methods take and return: the day 7 grid map and beam queue, the day 5 set of used indices, the day 10 `visited` map and queue, the day 8 circuit records, and the lists that days 2 and 6 build up. Values that the source only builds are datatypes.

## Model

| member | source | states |
|---|---|---|
| Text.TrimIsSlice | solutions/day1/solution.js:14 | `trim` keeps one contiguous slice of the line and drops only white space before and after it |
| Text.ParseIntMeaning | solutions/day1/solution.js:19 | `parseInt` skips the leading white space and reads the signed digits after it; it is `NaN` exactly when no digit follows the optional sign |
| Dial.ParseInstruction | solutions/day1/solution.js:14-21 | the direction is the line's first character, `directionVal` is -1 for `L` and +1 for anything else, and the turn count is `parseInt` of the rest of the line (`None` for `NaN`) |
| Dial.ParseInstructions | solutions/day1/solution.js:13-22 | one instruction for each trimmed non-empty line, in input order |
| Dial.JsRem | solutions/day1/solution.js:30 | JavaScript `%`: the remainder lies strictly between -b and b and takes the sign of the dividend |
| Dial.WrapIsResidue | solutions/day1/solution.js:30-34 | the remainder followed by the `+ 100` fix-up is the mathematical residue modulo 100, always in 0..99 |
| Dial.RotateInRange | solutions/day1/solution.js:30-34 | a turn gives a number exactly when both the position and the turn count are numbers, and then the new position is the old one plus the signed turn count, modulo 100 |
| Dial.PositionsInRange | solutions/day1/solution.js:29-39 | every position the dial reaches is `NaN` or in 0..99 |
| Dial.ZeroEndsCountsPositions | solutions/day1/solution.js:36-38 | the part 1 count is the number of instructions after which the dial points at 0 |
| Dial.CountZeroEnds | solutions/day1/solution.js:27-39 | the loop from position 50 computes that count |
| Dial.SolveForFirstStar | solutions/day1/solution.js:24-43 | part 1 is that count over the parsed instructions, starting at 50 |
| Dial.FirstZeroValue | solutions/day1/solution.js:64-75 | the click at which the dial first shows 0 is 100 from 0, `100 - start` turning right and `start` turning left |
| Dial.FirstZeroIsFirst | solutions/day1/solution.js:64-75 | that click lies in 1..100, shows 0, and no earlier click shows 0 |
| Dial.ShowsZeroIff | solutions/day1/solution.js:64-80 | click k shows 0 exactly when k is the first zero click plus a multiple of 100 |
| Dial.PassesZeroCounts | solutions/day1/solution.js:77-80 | the closed-form count of zero passes equals the click-by-click count |
| Dial.ZeroClicksIsCount | solutions/day1/solution.js:77-80 | the click-by-click count is the size of the set of clicks 1..t that show 0 |
| Dial.TurnsPastZeroCounts | solutions/day1/solution.js:77-80 | `dialTurnsPastZero` of one instruction is exactly the number of its clicks that show 0 |
| Dial.ZeroPassesCountsClicks | solutions/day1/solution.js:60-87 | summed over the instructions, part 2 counts every click, in every rotation, that leaves the dial at 0 |
| Dial.DirectionsAreUnit | solutions/day1/solution.js:18 | every parsed direction is +1 or -1 |
| Dial.CountZeroPasses | solutions/day1/solution.js:60-87 | the loop from position 50 computes the sum of the zero passes |
| Dial.SolveForSecondStar | solutions/day1/solution.js:54-97 | part 2 is that sum, and it equals the number of clicks that show 0 |
| ProductIds.ParseProductRanges | solutions/day2/solution.js:13-18 | one range for each comma-separated piece, in order; the bounds are `Number` of the text on each side of the first `-`, and a missing second bound is `undefined` |
| ProductIds.RangeOfText | solutions/day2/solution.js:14-16 | the text `a-b` of two naturals parses back to the range from a to b |
| ProductIds.ParseIdNumber | solutions/day2/solution.js:25-26 | `parseInt` of a parsed bound gives the bound back, and `NaN` stays `NaN` |
| ProductIds.ErrorsMeaning | solutions/day2/solution.js:28-40 | there are no errors exactly when both bounds are numbers in order; each not-a-number error appears exactly when that bound is `NaN`; the order error needs two numbers |
| ProductIds.HalvesMeaning | solutions/day2/solution.js:45-48 | the two slices of a text are equal exactly when the text is some string written twice |
| ProductIds.InvalidMeaning | solutions/day2/solution.js:45-48 | an id fails the halves test exactly when its decimal text is some string written twice |
| ProductIds.SingleDigitValid | solutions/day2/solution.js:45-48 | a one-digit id is never invalid |
| ProductIds.InvalidExamples | solutions/day2/solution.js:45-48 | 11, 6464 and 123123 are invalid |
| ProductIds.ValidExamples | solutions/day2/solution.js:45-48 | 101 and 12 are valid |
| ProductIds.ClassifiedMembers | solutions/day2/solution.js:42-55 | each id list holds exactly the ids of the range with that outcome of the test |
| ProductIds.ClassifiedAscending | solutions/day2/solution.js:42-55 | each id list is strictly ascending |
| ProductIds.EachIdOnce | solutions/day2/solution.js:42-55 | each id of the range lands in exactly one of the two lists |
| ProductIds.InvalidSumIsSum | solutions/day2/solution.js:43-50 | the running sum is the sum of the invalid-id list |
| ProductIds.AnalyzeMeaning | solutions/day2/solution.js:20-64 | with errors, both lists are empty and there is no sum; without errors, the lists partition the range in ascending order and the sum is the sum of the invalid ids |
| ProductIds.ClassifyIds | solutions/day2/solution.js:42-55 | the loop builds the two lists and the sum of the invalid ids of the range |
| ProductIds.FindInvalidIds | solutions/day2/solution.js:20-64 | `findInvalidIds` returns that analysis of its two bounds |
| ProductIds.AnalyzeSum | solutions/day2/solution.js:38-62 | an analysis carries its range's sum, which is `undefined` when the range has errors |
| ProductIds.RangeSumDefined | solutions/day2/solution.js:38-62 | a range's sum is a number exactly when both bounds are numbers in order |
| ProductIds.Add | solutions/day2/solution.js:70 | adding `undefined` anywhere gives `NaN`; otherwise it is ordinary addition |
| ProductIds.TotalDefined | solutions/day2/solution.js:70 | the total is a number exactly when every range's sum is |
| ProductIds.TotalOfRangesDefined | solutions/day2/solution.js:67-70 | the part 1 answer is a number exactly when every range has two numeric bounds in order |
| ProductIds.AnalyzeRanges | solutions/day2/solution.js:69 | the map yields one analysis per range, in order |
| ProductIds.AnalyzeAllSums | solutions/day2/solution.js:69-70 | the k-th analysis carries the k-th range's sum |
| ProductIds.SolveForFirstStar | solutions/day2/solution.js:67-70 | part 1 is the total of the ranges' sums of invalid ids |
| Batteries.DigitOf | solutions/day3/solution.js:17 | `parseInt` of one character is its digit value for a digit and `NaN` otherwise |
| Batteries.Bank | solutions/day3/solution.js:15-21 | one battery per character, carrying its own index |
| Batteries.ParseBatteryBank | solutions/day3/solution.js:13-23 | one bank per line |
| Batteries.Largest | solutions/day3/solution.js:27-29 | the first reduction picks the first battery of largest value; it picks none exactly when every value is `NaN` |
| Batteries.Second | solutions/day3/solution.js:32-41 | the second reduction picks the first candidate of largest value, where the candidates are every other battery when the largest is last, and the batteries to its right otherwise |
| Batteries.JoltageIsBestPair | solutions/day3/solution.js:25-45 | for a bank of two or more digits, the joltage is the largest two-digit number `10 * d_i + d_j` with i before j, and some pair attains it |
| Batteries.ShortBankHasNoJoltage | solutions/day3/solution.js:32-44 | a bank of fewer than two batteries has no joltage (`-Infinity`) |
| Batteries.Joltages | solutions/day3/solution.js:56 | one joltage per bank, in order |
| Batteries.SumJoltagesFinite | solutions/day3/solution.js:60 | the sum is a number exactly when every joltage is |
| Batteries.SolveForFirstStar | solutions/day3/solution.js:54-60 | part 1 is a number exactly when every line's bank has a joltage |
| Forklift.ItemOf | solutions/day4/solution.js:27-33 | an item keeps its character and position; it is empty exactly for `.` and a roll exactly for `@` |
| Forklift.Row | solutions/day4/solution.js:26-34 | one item per character of a line, at its column |
| Forklift.ParseMap | solutions/day4/solution.js:24-34 | one row per line, so the map has at least one row |
| Forklift.ParsedPlaced | solutions/day4/solution.js:26-34 | every parsed item records the coordinates at which it sits |
| Forklift.Items | solutions/day4/solution.js:36-41 | the flattened items number the cells of the map |
| Forklift.CellsOfRows | solutions/day4/solution.js:36-41 | a map of equal rows has height times width cells |
| Forklift.ItemsRowMajor | solutions/day4/solution.js:36-41 | with rows of equal width w, item `y * w + x` is the item at row y, column x |
| Forklift.ItemInGrid | solutions/day4/solution.js:36-41 | every flattened item is the item at its own coordinates in the map |
| Forklift.OffsetsAdjacent | solutions/day4/solution.js:13-22 | the eight offsets reach exactly the positions adjacent to a cell, diagonals included |
| Forklift.Lookups | solutions/day4/solution.js:48-54 | one lookup per offset, in the order of the offsets |
| Forklift.FilterSome | solutions/day4/solution.js:55 | the filter keeps exactly the lookups that are not `null` |
| Forklift.LookupInGrid | solutions/day4/solution.js:49-54 | in a rectangular map, a lookup inside the bounds is the cell there and one outside is `null` |
| Forklift.LookupAdjacent | solutions/day4/solution.js:49-54 | in a rectangular parsed map, a found neighbour is a cell of the map |
| Forklift.NeighborsAdjacent | solutions/day4/solution.js:47-56 | every neighbour is an adjacent cell of the map |
| Forklift.AdjacentNeighbors | solutions/day4/solution.js:47-56 | every adjacent cell of a rectangular map is a neighbour |
| Forklift.NeighborsExact | solutions/day4/solution.js:47-56 | in a rectangular map, no neighbour is `undefined` and the neighbours are exactly the adjacent cells |
| Forklift.NeighborsSymmetric | solutions/day4/solution.js:47-56 | one cell is a neighbour of another exactly when the other is a neighbour of it |
| Forklift.NeighborLists | solutions/day4/solution.js:47-56 | each item gets the neighbour list of its own position |
| Forklift.NeighboringRolls | solutions/day4/solution.js:71 | the roll count fails (a `TypeError` on `undefined`) exactly when some neighbour is `undefined`, and otherwise is at most the number of neighbours |
| Forklift.Flags | solutions/day4/solution.js:70-75 | an item is flagged exactly when it is a roll with fewer than four neighbouring rolls |
| Forklift.CountTrue | solutions/day4/solution.js:77 | the count is at most the number of flags, and zero exactly when none is set |
| Forklift.FlagAccessible | solutions/day4/solution.js:70-75 | the loop sets each item's flag to the accessibility rule, and succeeds exactly when no neighbour is `undefined` |
| Forklift.CountFlagged | solutions/day4/solution.js:77 | the loop counts the set flags |
| Forklift.SolveForFirstStar | solutions/day4/solution.js:67-78 | part 1 fails exactly when some item has an `undefined` neighbour, and otherwise counts the accessible rolls |
| Forklift.RectangularDefined | solutions/day4/solution.js:47-75 | a map whose lines are all as long as the first never fails |
| Forklift.RowText | solutions/day4/solution.js:44 | a row renders one mapped character per item |
| Forklift.ToStringIdentity | solutions/day4/solution.js:43-45 | rendering with the default mapper gives back the input text |
| Inventory.SpanMeaning | solutions/day5/solution.js:25 | an integer lies in a range's span exactly when the range is well-formed and contains it |
| Inventory.Interval | solutions/day5/solution.js:87 | the integers from lo to hi, `hi - lo + 1` of them |
| Inventory.CoveredMeaning | solutions/day5/solution.js:24-28 | an integer is covered by well-formed ranges exactly when one of them contains it |
| Inventory.SameCovered | solutions/day5/solution.js:55-82 | two lists of well-formed ranges that contain the same integers cover the same set |
| Inventory.ParseRange | solutions/day5/solution.js:17-18 | start and end are `Number` of the text before and after the first `-`; a missing end is `undefined` |
| Inventory.ParseRanges | solutions/day5/solution.js:16-19 | one range per line of the first section |
| Inventory.ParseIds | solutions/day5/solution.js:21 | one `Number` per line of the second section |
| Inventory.FirstContaining | solutions/day5/solution.js:24-29 | the ingredient's range is the first range that contains the id, and there is none exactly when no range contains it |
| Inventory.Classify | solutions/day5/solution.js:23-30 | an ingredient is fresh exactly when some range contains its id |
| Inventory.ClassifyAll | solutions/day5/solution.js:23-30 | one ingredient per id, in order |
| Inventory.FreshOnes | solutions/day5/solution.js:36 | the fresh list holds only fresh ingredients |
| Inventory.StaleOnes | solutions/day5/solution.js:37 | the stale list holds only stale ingredients |
| Inventory.FreshStalePartition | solutions/day5/solution.js:36-37 | the fresh and stale lists together are a permutation of the ingredients |
| Inventory.FreshOnesOfConcat | solutions/day5/solution.js:36-37 | the two filters distribute over concatenation |
| Inventory.ParseInventory | solutions/day5/solution.js:13-39 | without a blank line the parse fails (`idLines` is missing); otherwise the ranges come from the first section, the ids from the second, and the ingredients, fresh and stale lists follow |
| Inventory.FreshCount | solutions/day5/solution.js:36-48 | the number of fresh ingredients is the number of ids that some range contains |
| Inventory.SolveForFirstStar | solutions/day5/solution.js:41-49 | part 1 fails exactly when the parse fails, and otherwise counts the ids some range contains |
| Inventory.MergeCovers | solutions/day5/solution.js:67-72 | merging two overlapping well-formed ranges gives a well-formed range containing exactly the integers of either |
| Inventory.AbsorbOne | solutions/day5/solution.js:66-75 | one merge keeps the merged range's coverage equal to that of the ranges absorbed so far |
| Inventory.Absorb | solutions/day5/solution.js:64-77 | the inner pass marks only unused other ranges, merges exactly when it marks one, and its result contains exactly the integers of the ranges it absorbed |
| Inventory.PushKeepsState | solutions/day5/solution.js:78-79 | pushing the merged range keeps the pass invariant |
| Inventory.SkipKeepsState | solutions/day5/solution.js:63 | skipping a used index keeps the pass invariant |
| Inventory.PassStep | solutions/day5/solution.js:64-79 | after one outer step, the new ranges and the unused ranges together still cover the same integers |
| Inventory.VisitRange | solutions/day5/solution.js:62-80 | one outer step keeps the pass invariant |
| Inventory.PassDone | solutions/day5/solution.js:58-81 | a finished pass that merged nothing leaves the ranges as they were, pairwise apart |
| Inventory.MergePass | solutions/day5/solution.js:59-81 | a pass that merges shrinks the list; one that does not leaves it unchanged with no overlaps; a pass keeps well-formed ranges well-formed and covering the same integers |
| Inventory.MergeRanges | solutions/day5/solution.js:55-82 | the loop ends with no two ranges overlapping, no more ranges than it began with, and, for well-formed ranges, the same integers covered |
| Inventory.SizeCounts | solutions/day5/solution.js:87 | `end - start + 1` of a well-formed range is the number of integers in it |
| Inventory.CapacityCounts | solutions/day5/solution.js:87 | for well-formed ranges that do not overlap, the capacity is the number of integers covered |
| Inventory.LastIsApart | solutions/day5/solution.js:87 | the last of non-overlapping ranges shares no integer with the others |
| Inventory.SolveForSecondStar | solutions/day5/solution.js:52-91 | part 2 fails exactly when the parse fails; for well-formed ranges it is the number of distinct integers the input ranges contain |
| Worksheet.OpOf | solutions/day6/solution.js:15-18 | `+` maps to addition, `*` to multiplication, anything else to nothing |
| Worksheet.FoldOfNumbers | solutions/day6/solution.js:34 | folding numbers from a number gives that number combined with their sum or product |
| Worksheet.FoldOfNotANumber | solutions/day6/solution.js:34 | a fold that starts from `NaN` stays `NaN` |
| Worksheet.FoldPoisoned | solutions/day6/solution.js:34 | a fold over values containing `NaN` is `NaN` |
| Worksheet.TotalMeaning | solutions/day6/solution.js:34 | a column's total is the sum or product of its values when all are numbers, and `NaN` otherwise |
| Worksheet.Totals | solutions/day6/solution.js:40 | one total per exercise |
| Worksheet.GrandTotalMeaning | solutions/day6/solution.js:40 | the grand total is the sum of the totals when all are numbers, and `NaN` otherwise |
| Worksheet.Numbers | solutions/day6/solution.js:23 | a data line gives one `Number` per whitespace-separated field |
| Worksheet.ParseLayout | solutions/day6/solution.js:21-24 | the layout exists exactly when there are two or more non-empty trimmed lines; the data are every line but the last, and the operators are the last line's fields |
| Worksheet.Column | solutions/day6/solution.js:28 | a column holds each row's cell at that index, `undefined` where the row is short |
| Worksheet.ParseWorksheet | solutions/day6/solution.js:20-42 | the sheet exists exactly when every column has a known operator; it holds one exercise per column of the first line, and the grand total of their totals |
| Worksheet.Repeat | solutions/day6/solution.js:55-57 | n copies of a character |
| Worksheet.LeftPadded | solutions/day6/solution.js:54-59 | padding gives the longer of the text and the target length |
| Worksheet.LeftPaddedShape | solutions/day6/solution.js:54-59 | left padding puts pad characters before the unchanged text |
| Worksheet.RightPadded | solutions/day6/solution.js:61-66 | padding gives the longer of the text and the target length |
| Worksheet.RightPaddedShape | solutions/day6/solution.js:61-66 | right padding puts pad characters after the unchanged text |
| Worksheet.LeftPadString | solutions/day6/solution.js:54-59 | the loop computes the left padding |
| Worksheet.RightPadString | solutions/day6/solution.js:61-66 | the loop computes the right padding |
| Worksheet.Padded | solutions/day6/solution.js:95 | an item padded for its column is at least as long as the column width and as itself |
| Worksheet.MaxOf | solutions/day6/solution.js:97 | `Math.max` is an upper bound of the values and one of them |
| Worksheet.MaxCell | solutions/day6/solution.js:97 | `Math.max` of a column is `NaN` exactly when some cell is `NaN`; otherwise it bounds every cell and is one of them |
| Worksheet.Width | solutions/day6/solution.js:97 | the column width is the length of the text of `Math.max` of the column (MaxCell), which is one cell's text when every cell is a number, and 3 (the length of "NaN") otherwise |
| Worksheet.ItemTexts | solutions/day6/solution.js:101 | each cell is written as `toString` writes it, "NaN" included |
| Worksheet.PaddedItems | solutions/day6/solution.js:101 | every padded item reaches the column width |
| Worksheet.CharColumnAt | solutions/day6/solution.js:101 | the digit string at an index is that character of each padded item |
| Worksheet.CharColumn | solutions/day6/solution.js:101 | one character per item |
| Worksheet.DigitColumn | solutions/day6/solution.js:101 | one character per padded item |
| Worksheet.ReadDigitColumn | solutions/day6/solution.js:101 | the map and join build that digit string |
| Worksheet.PadItem | solutions/day6/solution.js:95-101 | multiplication columns pad on the left and addition columns on the right |
| Worksheet.Transposed | solutions/day6/solution.js:98-103 | a column yields as many vertical values as its width |
| Worksheet.FillTransposed | solutions/day6/solution.js:98-103 | the do-while loop, begun with its first value, yields the vertical values |
| Worksheet.FillColumn | solutions/day6/solution.js:98-103 | the loop computes the do-while recursion |
| Worksheet.PushValue | solutions/day6/solution.js:100-102 | one step appends the vertical value at the next index |
| Worksheet.TransposeColumn | solutions/day6/solution.js:95-103 | the loop yields the vertical values of a column |
| Worksheet.NaNCellTransposed | solutions/day6/solution.js:97-103 | a column of 123 and `NaN` is read as 1, 2 and 3, the `NaN` cell counting as its text |
| Worksheet.Items | solutions/day6/solution.js:97 | a numeric column's cells as integers |
| Worksheet.TransposedExercises | solutions/day6/solution.js:85-110 | one transposed exercise per column of the first data line |
| Worksheet.ReadColumn | solutions/day6/solution.js:86-109 | one column's exercise as the source builds it |
| Worksheet.ReadColumns | solutions/day6/solution.js:85-110 | the map over columns gives the transposed exercises |
| Worksheet.ParseWorksheetCorrectly | solutions/day6/solution.js:68-116 | the sheet exists exactly when every column of the first data line has a known operator and a cell in every row; it holds the transposed exercises and the grand total of their totals |
| Worksheet.SolveForFirstStar | solutions/day6/solution.js:44-51 | part 1 is the grand total of the row-wise sheet |
| Worksheet.SolveForSecondStar | solutions/day6/solution.js:118-123 | part 2 fails exactly when a column lacks an operator or a row lacks a cell; otherwise it is the grand total of the transposed exercises |
| Beams.Lines | solutions/day7/solution.js:16 | splitting on newlines gives at least one line |
| Beams.Record | solutions/day7/solution.js:19-26 | a recorded cell keeps its character; it is the source exactly for `S` and a splitter exactly for `^`, and starts neither activated nor touched |
| Beams.EmptyCell | solutions/day7/solution.js:56-58 | a created cell has the given value and is no source, no splitter, not activated and not touched |
| Beams.ScanStep | solutions/day7/solution.js:17-31 | recording one more character keeps the scan invariant: every non-`.` character read so far is in the grid, and the source is the last `S` read |
| Beams.ScanNextLine | solutions/day7/solution.js:16-33 | the scan invariant carries over to the start of the next line |
| Beams.ScanEnd | solutions/day7/solution.js:16-39 | at the end of the text the scan invariant is the full parse |
| Beams.ParseSparseGrid | solutions/day7/solution.js:13-39 | the grid holds exactly the non-`.` characters at their coordinates, the source is the last `S` (none without one), and the bounds come from the first line's width and the number of lines |
| Beams.QueueWeightAppend | solutions/day7/solution.js:93-99 | the weight of the beam queue adds over concatenation |
| Beams.SpawnedActivated | solutions/day7/solution.js:86-94 | activating a splitter adds exactly that splitter to the activated set |
| Beams.SpawnedGuarded | solutions/day7/solution.js:89-92 | after a split, the two cells beside the splitter are plain cells, so no splitter is overwritten |
| Beams.SpawnedSplitters | solutions/day7/solution.js:86-94 | a split adds no splitter, keeps every cell, and leaves fewer splitters unactivated |
| Beams.TouchedSplitters | solutions/day7/solution.js:84-85 | marking a cell as touched changes neither the splitters nor which are activated |
| Beams.StepFacts | solutions/day7/solution.js:79-102 | a turn keeps the grid guarded and the beams below the first row; it activates the splitter under the beam, leaving one fewer to activate, or changes no splitter and lowers the queue's weight |
| Beams.Advance | solutions/day7/solution.js:79-102 | a beam below the last row is dropped; on an unactivated splitter it activates it, overwrites the cells left and right with new cells and queues beams there; an activated splitter absorbs it; any other cell is marked touched and the beam moves one row down |
| Beams.TraceFromStep | solutions/day7/solution.js:76-103 | running the loop from a non-empty queue is running it from the state after one turn |
| Beams.TraceFromKeeps | solutions/day7/solution.js:76-103 | the whole run keeps the grid guarded and every cell, adds no splitter and loses no activated splitter |
| Beams.TraceFromCount | solutions/day7/solution.js:76-103 | each activating turn adds exactly one activated splitter |
| Beams.TraceBeams | solutions/day7/solution.js:76-103 | the loop ends, and its grid is the run of the turns from one beam below the source |
| Beams.ActivatedCount | solutions/day7/solution.js:109 | the filter counts the activated splitters |
| Beams.ParsedUnactivated | solutions/day7/solution.js:19-26 | a parsed grid has no activated splitter |
| Beams.ActivationsBound | solutions/day7/solution.js:76-109 | from a grid without activated splitters, the activated splitters number the activations, at most the number of splitters |
| Beams.SolveForFirstStar | solutions/day7/solution.js:69-110 | without an `S` part 1 fails; otherwise it is the number of activated splitters after the run of the beam loop from below the source, equal to the number of activations and at most the number of splitters |
| Beams.Timelines | solutions/day7/solution.js:119-142 | a position has at least one timeline |
| Beams.TimelinesAtMostDoubling | solutions/day7/solution.js:133-138 | each remaining row at most doubles the timelines |
| Beams.SingleTimeline | solutions/day7/solution.js:133-138 | without splitters there is exactly one timeline |
| Beams.CountTimelines | solutions/day7/solution.js:119-142 | the memoised recursion returns the unmemoised count, and its memo only ever holds true counts |
| Beams.SolveForSecondStar | solutions/day7/solution.js:113-145 | without an `S` part 2 fails; otherwise it is the number of timelines of a beam starting below the source |
| Rectangles.ParseCoordinate | solutions/day9/solution.js:25-26 | x and y are `Number` of the text before and after the first comma; a missing y is `undefined` |
| Rectangles.ParseCoordinates | solutions/day9/solution.js:23-28 | one coordinate per line, in order |
| Rectangles.RectangleOf | solutions/day9/solution.js:70-76 | the area is a number exactly when all four coordinates are, and then the rectangle spans the two corners and its area is the product of its inclusive side lengths, at least 1 |
| Rectangles.PushPair | solutions/day9/solution.js:69-77 | pushing the rectangle of pair (i, j) keeps every rectangle at its place in the order of the pairs |
| Rectangles.EnumerateRectangles | solutions/day9/solution.js:65-79 | the double loop builds one rectangle for each ordered pair of distinct coordinates, n(n-1) in all, in loop order |
| Rectangles.LargestFrom | solutions/day9/solution.js:82-84 | the reduction's result is at least its seed and every numeric area, and a result other than the seed is the first rectangle of largest area |
| Rectangles.Largest | solutions/day9/solution.js:82-84 | the reduction from `{ area: 0 }` has a numeric area |
| Rectangles.LargestArea | solutions/day9/solution.js:63-84 | the answer is non-negative, no pair of distinct coordinates makes a larger rectangle, it is 0 or attained by some pair, and it is 0 with fewer than two coordinates |
| Rectangles.SolveForFirstStar | solutions/day9/solution.js:63-107 | part 1 is the largest area of a rectangle with two of the parsed coordinates as opposite corners |
| Rectangles.Greatest | solutions/day9/solution.js:36 | `Math.max` of two numbers |
| Rectangles.Least | solutions/day9/solution.js:36 | `Math.min` of two numbers |
| Rectangles.AddSquare | solutions/day9/solution.js:36-42 | one square adds exactly its cells inside the padded viewport |
| Rectangles.SquareCells | solutions/day9/solution.js:34-43 | the set holds exactly the cells inside the padded viewport that some square covers |
| Rectangles.RenderAt | solutions/day9/solution.js:45-49 | a listed coordinate shows `#`, another cell of a square `O`, and any other cell `.` |
| Rectangles.RenderOutput | solutions/day9/solution.js:29-61 | the output has one line per row of the padded viewport, each one character per column, each character `renderAt` of its cell, joined by newlines |
| Devices.Declaration | solutions/day11/solution.js:25-32 | a declaration line names a device before its first colon and lists the whitespace-separated ids after it; it has no resolved outputs yet |
| Devices.DeclaredName | solutions/day11/solution.js:26 | a declared name contains no colon |
| Devices.DeclaredIds | solutions/day11/solution.js:27 | the output ids are the whitespace-split fields of the text after the colons |
| Devices.IndexDevices | solutions/day11/solution.js:34-37 | every declared name is in the index and points at a device of that name; a repeated name points at its last declaration |
| Devices.EnsureDevice | solutions/day11/solution.js:39-49 | a known name changes nothing; an unknown one appends a device without outputs and indexes it; either way the name resolves to the returned device |
| Devices.ResolveIds | solutions/day11/solution.js:52 | each id resolves to its device, appending the unknown ones, and the devices before them are untouched |
| Devices.LinkDevice | solutions/day11/solution.js:52 | one device's outputs become its non-empty ids resolved in order; no other declared device changes |
| Devices.StillResolved | solutions/day11/solution.js:51-53 | outputs resolved earlier stay resolved while later devices are linked |
| Devices.LinkDevices | solutions/day11/solution.js:51-53 | every declared device is linked; the devices appended on the way keep no outputs, since `forEach` does not visit them |
| Devices.Linked | solutions/day11/solution.js:23-56 | the linked map is well-formed and is the parse of the lines |
| Devices.ParseDeviceMap | solutions/day11/solution.js:23-56 | the map is well-formed: each name resolves to one device, each declared device's outputs are its non-empty ids resolved in order, and names only mentioned as outputs become devices without outputs |
| Devices.UndeclaredNames | solutions/day11/solution.js:39-49 | an appended device has no outputs and no line declares it |
| Devices.FindDevice | solutions/day11/solution.js:55 | a name is found exactly when it is indexed, and then the device found has that name |
| Devices.Extend | solutions/day11/solution.js:89 | each suffix gets the device name in front |
| Devices.Prefixed | solutions/day11/solution.js:76 | each suffix gets the current path in front |
| Devices.ConsSimple | solutions/day11/solution.js:81-93 | a device followed by a simple path from one of its outputs, avoiding it, is a simple path |
| Devices.PathsSimple | solutions/day11/solution.js:62-109 | every enumerated path is a simple path from the start to the end device, avoiding the visited names |
| Devices.ChildrenSimple | solutions/day11/solution.js:92-94 | every path found from the outputs is a simple path from one of them |
| Devices.InChildren | solutions/day11/solution.js:92-94 | every path from one output is among the paths from the outputs |
| Devices.PathsComplete | solutions/day11/solution.js:62-109 | every simple path from the start to the end, avoiding the visited names, is enumerated |
| Devices.SliceAll | solutions/day11/solution.js:97-101 | each new path is cut to its suffix from the current device |
| Devices.SlicedBehind | solutions/day11/solution.js:97-101 | the sliced suffixes put back behind the path give the new paths, and they start with the current device |
| Devices.AllStartWithPrefixed | solutions/day11/solution.js:76 | paths pushed behind a prefix start with it |
| Devices.SliceOfAppend | solutions/day11/solution.js:97 | slicing off the old paths leaves the new ones |
| Devices.PrefixedAppend | solutions/day11/solution.js:75-77 | prefixing distributes over concatenation |
| Devices.PathFinder.constructor | solutions/day11/solution.js:58-60 | a new finder has an empty memo and no paths |
| Devices.PathFinder.PushAll | solutions/day11/solution.js:75-77 | the cached suffixes are appended behind the current path and the memo is unchanged |
| Devices.PathFinder.FindPaths | solutions/day11/solution.js:62-109 | a visited device adds nothing; otherwise, with a memo of true entries for this end device, the paths added are the current path followed by every simple path from the device to the end, and the memo stays true; visited and path are restored |
| Devices.PathFinder.SearchOutputs | solutions/day11/solution.js:91-101 | the recursive calls append the paths from the outputs, and the suffixes from this device are those paths cut at it |
| Devices.PathFinder.Find | solutions/day11/solution.js:111-115 | the returned list is the finder's path list and, with a true memo, every simple path from start to end; a start that is the end gives the single one-device path |
| Devices.SolveForFirstStar | solutions/day11/solution.js:118-140 | part 1 fails when there is no `you` device, and otherwise is the length of the enumeration of simple paths from `you` to `out`, in which an output id listed twice yields its paths twice |
| Devices.TwoDevices | solutions/day11/solution.js:23-56 | a two-device map `a: b` is well-formed |
| Devices.ReusedFinder | solutions/day11/solution.js:68-79 | a finder reused for a different end device answers from its stale memo: it returns the path `a, b` again, which is not a path to `a` |
| Circuits.ParseBox | solutions/day8/solution.js:17-20 | a line gives a box exactly when its first three comma-separated pieces are numbers, and the box carries them and its line index |
| Circuits.ParseBoxes | solutions/day8/solution.js:16-21 | the boxes exist exactly when every line parses, one box per line in order |
| Circuits.ParseJunctionBoxes | solutions/day8/solution.js:14-23 | the boxes exist exactly when every trimmed non-empty line parses, one box per line, numbered in order |
| Circuits.SquaredDistance | solutions/day8/solution.js:70-75 | the squared distance is non-negative and zero exactly for boxes at the same point |
| Circuits.DistanceSymmetric | solutions/day8/solution.js:70-75 | the distance from A to B is the distance from B to A |
| Circuits.Row | solutions/day8/solution.js:81-85 | the inner loop pairs box i with every later box, in order |
| Circuits.Rows | solutions/day8/solution.js:80-86 | every enumerated pair has `indexA < indexB` within the boxes |
| Circuits.RowsCount | solutions/day8/solution.js:80-86 | n boxes give n(n-1)/2 pairs |
| Circuits.RowsLength | solutions/day8/solution.js:80-86 | the nested loops list, row by row, `n - 1 - i` pairs for the box at index `i` |
| Circuits.RowTotalClosed | solutions/day8/solution.js:80-86 | the row lengths of the first `end` boxes add up to `end(2n - end - 1)/2`, which is `n(n - 1)/2` for all n boxes |
| Circuits.RowsComplete | solutions/day8/solution.js:80-86 | every pair i < j is enumerated |
| Circuits.RowsDistinct | solutions/day8/solution.js:80-86 | no pair is enumerated twice |
| Circuits.Insert | solutions/day8/solution.js:87 | inserting into a sorted list keeps it sorted and adds exactly the new pair |
| Circuits.SortPairs | solutions/day8/solution.js:87 | the stable sort by distance is a permutation of its input, ordered by distance and then by enumeration order |
| Circuits.FindAllPairs | solutions/day8/solution.js:77-89 | the loops and the sort give the stable sort of all pairs i < j |
| Circuits.PairsCount | solutions/day8/solution.js:77-89 | there are n(n-1)/2 pairs |
| Circuits.PairsWellFormed | solutions/day8/solution.js:77-89 | every sorted pair is the pair of its two indices, with its squared distance |
| Circuits.PairsComplete | solutions/day8/solution.js:77-89 | every pair i < j is among the sorted pairs |
| Circuits.Initial | solutions/day8/solution.js:18-19 | parsed boxes have no circuit and no connections |
| Circuits.ComponentContains | solutions/day8/solution.js:36-68 | a box is in its own circuit, and a circuit holds only boxes |
| Circuits.Relabel | solutions/day8/solution.js:64-67 | the moved boxes point at the target circuit and the others keep theirs |
| Circuits.MergeFresh | solutions/day8/solution.js:40-45 | two boxes without a circuit get a new circuit of the two of them |
| Circuits.MergeJoin | solutions/day8/solution.js:47-51 | a box without a circuit joins the other box's circuit |
| Circuits.MergeJoinOther | solutions/day8/solution.js:53-57 | the same, the other way round |
| Circuits.MergeMove | solutions/day8/solution.js:63-67 | two different circuits become one holding the members of both |
| Circuits.MergeJoins | solutions/day8/solution.js:36-68 | after a merge A and B share a circuit holding exactly the members of their two circuits, every other box keeps its circuit, and boxes already in one circuit change nothing |
| Circuits.MergeCircuits | solutions/day8/solution.js:36-68 | the method computes the merge and keeps the network well-formed |
| Circuits.MoveCircuit | solutions/day8/solution.js:63-67 | the source circuit's boxes move to the target circuit, whose members grow by them |
| Circuits.MergeKeepsTogether | solutions/day8/solution.js:36-68 | boxes sharing a circuit before a merge still share one after it |
| Circuits.Link | solutions/day8/solution.js:110-111 | linking records each box among the other's connections and changes no circuit |
| Circuits.LinkSymmetric | solutions/day8/solution.js:110-111 | linking keeps the connections symmetric |
| Circuits.Attempt | solutions/day8/solution.js:98-119 | an attempt keeps the network well-formed |
| Circuits.AttemptEffects | solutions/day8/solution.js:98-119 | afterwards the two boxes are directly connected; a connection is reported only for boxes of different circuits, which are then joined; otherwise no circuit changes |
| Circuits.AttemptKeepsTogether | solutions/day8/solution.js:98-119 | boxes sharing a circuit before an attempt still share one after it |
| Circuits.Examined | solutions/day8/solution.js:95-99 | the loop examines the first `maxConnections` pairs, all of them if there are fewer, and none when the limit is not positive |
| Circuits.Form | solutions/day8/solution.js:91-123 | the connections made are no more than the pairs examined |
| Circuits.FormSymmetric | solutions/day8/solution.js:91-123 | the connections stay symmetric |
| Circuits.FormConnections | solutions/day8/solution.js:91-123 | every connection made is one of the pairs, and its two boxes end up in one circuit |
| Circuits.Endpoints | solutions/day8/solution.js:118 | the endpoints are exactly the index pairs of the pairs |
| Circuits.FormStep | solutions/day8/solution.js:95-121 | one more pair is one more attempt |
| Circuits.AttemptPair | solutions/day8/solution.js:98-120 | the loop body computes the attempt |
| Circuits.FormCircuitConnections | solutions/day8/solution.js:91-123 | the loop makes the attempts of the examined pairs in order |
| Circuits.LiveCircuits | solutions/day8/solution.js:132-136 | the set holds exactly the circuits some box is in |
| Circuits.Unconnected | solutions/day8/solution.js:139 | the count is zero exactly when every box has a circuit |
| Circuits.CountStep | solutions/day8/solution.js:132-139 | one more box adds its circuit to the set, or one to the unconnected count |
| Circuits.CountCircuits | solutions/day8/solution.js:132-141 | the loop counts the circuits in use and the boxes without one |
| Circuits.OneCircuit | solutions/day8/solution.js:211 | one circuit in use and no unconnected box means every box shares a single circuit, and conversely |
| Circuits.OneCircuitJoins | solutions/day8/solution.js:211 | one circuit in use and no unconnected box puts every box in one circuit |
| Circuits.JoinedIsOneCircuit | solutions/day8/solution.js:211 | every box in one circuit gives one circuit in use and no unconnected box |
| Circuits.SortedPairsIn | solutions/day8/solution.js:77-89 | the sorted pairs refer to the boxes |
| Circuits.FinishConnecting | solutions/day8/solution.js:182-215 | the loop keeps the network well-formed |
| Circuits.FinishConnectingResult | solutions/day8/solution.js:182-215 | a reported pair is one of the pairs and leaves every box in one circuit; no pair is reported only when the boxes did not already share one circuit and never came to |
| Circuits.ConnectAll | solutions/day8/solution.js:178-215 | the loop computes that result |
| Circuits.FirstSeen | solutions/day8/solution.js:132-136 | the circuits in use in order of first appearance, each once |
| Circuits.SizesCount | solutions/day8/solution.js:145-158 | there is one size per circuit in use and one per box without a circuit |
| Circuits.Elements | solutions/day8/solution.js:132-136 | the elements of a list |
| Circuits.DistinctCard | solutions/day8/solution.js:132-136 | a list without repeats has as many elements as entries |
| Circuits.InsertSize | solutions/day8/solution.js:161-162 | inserting into a descending list keeps it descending and adds exactly the new size |
| Circuits.SortDescending | solutions/day8/solution.js:161-162 | the sort by size is a descending permutation of the sizes |
| Circuits.CircuitSizes | solutions/day8/solution.js:145-158 | the loops collect a size per circuit in first-appearance order, then a 1 per box without a circuit |
| Circuits.CircuitsInUse | solutions/day8/solution.js:132-136 | the loop lists the circuits in use in order of first appearance |
| Circuits.Connected | solutions/day8/solution.js:126-129 | the network after the first `connectionCount` pairs is well-formed |
| Circuits.SolveForFirstStar | solutions/day8/solution.js:125-167 | part 1 fails on a non-numeric coordinate; otherwise it gives the number of circuits, counting each box without one, and the product of the three largest sizes |
| Circuits.FirstStarOf | solutions/day8/solution.js:128-165 | the sort, the connection loop and the count over the parsed boxes give the circuit count (each box without a circuit counted once) and the product of the three largest circuit sizes of `Connected` |
| Circuits.SolveForSecondStar | solutions/day8/solution.js:172-217 | part 2 fails on a non-numeric coordinate and when no pair leaves one circuit (`lastConnectedPair` stays `null`); otherwise it is the product of the x coordinates of that pair's boxes |
| Lights.CollectLit | solutions/day10/solution.js:41-47 | every collected light is to be switched on exactly when its character is `#` |
| Lights.ParseLine | solutions/day10/solution.js:30-92 | a line parses exactly when every wired index is in range of the diagram (a `NaN` index passes the check); the machine then holds the `[`, `(` and `{` tokens' contents in order, and its lights are on exactly for `#` |
| Lights.ParseMachineInstructions | solutions/day10/solution.js:27-95 | the input parses exactly when every trimmed non-empty line does, giving one machine per line |
| Lights.TargetMask | solutions/day10/solution.js:108-113 | bit i of the target is set exactly when light i is to be on, and no bit past the last light is set |
| Lights.ButtonMaskBits | solutions/day10/solution.js:128-130 | a button toggles light i exactly when i is wired an odd number of times, so an index listed twice cancels out |
| Lights.ButtonMaskBelow | solutions/day10/solution.js:128-130 | a button with in-range indexes toggles only lights of the diagram |
| Lights.Indexes | solutions/day10/solution.js:128-130 | the indexes convert exactly when none is `NaN` (`BigInt(NaN)` throws) |
| Lights.Buttons | solutions/day10/solution.js:126-137 | the buttons exist exactly when no index is `NaN`, and every button kept has a non-zero mask |
| Lights.RunCons | solutions/day10/solution.js:161-162 | pressing b and then a sequence is the sequence run from the state b leads to |
| Lights.Labels | solutions/day10/solution.js:168-178 | one label per press, the pressed button's |
| Lights.Reversed | solutions/day10/solution.js:181 | the reverse of a list |
| Lights.BetweenStart | solutions/day10/solution.js:151-154 | the search starts with the all-off state visited at 0 presses and queued |
| Lights.BetweenToScanning | solutions/day10/solution.js:157-159 | taking the head of the queue starts its scan at the current or the next level |
| Lights.ScanningSkip | solutions/day10/solution.js:164-166 | skipping a visited state keeps the scan invariant |
| Lights.ChainPush | solutions/day10/solution.js:168 | a new state recorded with its predecessor and button keeps every visited state reachable by its recorded presses |
| Lights.ClosedPush | solutions/day10/solution.js:168 | recording a state keeps every closed state closed |
| Lights.ExploredPush | solutions/day10/solution.js:168-191 | recording and queueing a state keeps the visited states and the queue one-to-one |
| Lights.LayeredPush | solutions/day10/solution.js:191 | queueing a state one press further keeps the queue in level order |
| Lights.NeighboursPush | solutions/day10/solution.js:161-191 | after a button is handled, the state it leads to is visited |
| Lights.ScanningPush | solutions/day10/solution.js:161-191 | handling a button keeps the scan invariant |
| Lights.ScanningToBetween | solutions/day10/solution.js:161-192 | a state whose buttons are all handled is closed |
| Lights.Spread | solutions/day10/solution.js:149-201 | when the states fewer than k presses away are closed, any sequence of at most k presses ends on a visited state at most that many presses away |
| Lights.FoundFewest | solutions/day10/solution.js:169 | when the target appears next to a state p presses away, no sequence of at most p presses reaches it |
| Lights.Exhausted | solutions/day10/solution.js:156-201 | an empty queue means no sequence of presses reaches the target |
| Lights.PressChain | solutions/day10/solution.js:168-179 | the presses recorded along the `previousKey` chain are valid and as many as the recorded press count |
| Lights.PressChainStep | solutions/day10/solution.js:174-178 | a state other than all-off links to a visited predecessor with fewer presses, and its chain is the predecessor's plus one button |
| Lights.PressChainRun | solutions/day10/solution.js:168-179 | the chain's presses lead from all-off to the state |
| Lights.ReversedSnoc | solutions/day10/solution.js:181 | reversing a list with one more element puts it in front |
| Lights.WalkedStep | solutions/day10/solution.js:174-179 | one step back along `previousKey` keeps the walk invariant and lowers the press count |
| Lights.WalkedHome | solutions/day10/solution.js:174-181 | at the all-off state the collected presses are the whole chain, and the reversed labels are theirs |
| Lights.Reconstruct | solutions/day10/solution.js:171-181 | the walk back yields exactly the chain of recorded presses and their labels in order: a valid sequence, as long as the recorded presses, that reaches the key from all-off |
| Lights.Expand | solutions/day10/solution.js:161-192 | the button loop of one state either finds the target one press beyond the current level or keeps the search invariant |
| Lights.Search | solutions/day10/solution.js:149-201 | the search reports no solution only when the target is unreachable; otherwise it reports a valid press sequence reaching the target, its labels and its length, and no shorter sequence reaches it |
| Lights.NoButtons | solutions/day10/solution.js:139-147 | with no buttons a non-zero target is unreachable |
| Lights.SolveMachineInFewestButtonPresses | solutions/day10/solution.js:106-202 | an all-off target needs no presses; a `NaN` index fails; no solution is reported only for an unreachable target; a reported solution is the fewest presses, with the labels of a sequence achieving it |
| LpModel.Abs | solutions/day10/lpsolver.js:106 | `Math.abs`: the result is not negative and is the argument or its negation |
| LpModel.DeepCopyConstraints | solutions/day10/lpsolver.js:3-9 | the copy has as many constraints as the original, each equal to its original |
| LpModel.NormalizeModel | solutions/day10/lpsolver.js:11-20 | variables, constraints and objective coefficients are kept; an empty sense becomes the default, a non-empty one is kept |
| LpModel.UnitVector | solutions/day10/lpsolver.js:24-25 | length `numVars`, 1 at the chosen index and 0 everywhere else |
| LpModel.CloneModelWithConstraint | solutions/day10/lpsolver.js:22-28 | the clone keeps the variables, the objective and every old constraint in order, and appends one unit-vector constraint with the given relation and right-hand side |
| LpModel.CloneKeepsWellFormed | solutions/day10/lpsolver.js:22-28 | adding a branching constraint to a well-formed model leaves it well-formed |
| LpTableau.SlackCount | solutions/day10/lpsolver.js:35-46 | the number of slack columns never exceeds the number of constraints |
| LpTableau.ArtificialCount | solutions/day10/lpsolver.js:35-46 | the number of artificial columns never exceeds the number of constraints |
| LpTableau.SlackCountStep | solutions/day10/lpsolver.js:38-45 | each constraint adds one slack column exactly when it is `<=` or `>=`, and one artificial column exactly when it is `>=` or `=` |
| LpTableau.CountsGrow | solutions/day10/lpsolver.js:38-45 | the running counts before a constraint, plus its own column, never exceed the counts at any later point |
| LpTableau.CountColumns | solutions/day10/lpsolver.js:35-46 | the counting loop yields exactly the slack and artificial counts of the constraints |
| LpTableau.ColumnLayout | solutions/day10/lpsolver.js:53-81 | slack columns sit between the original variables and the artificial block, artificial columns between the artificial start and the total, and no two constraints share a slack or an artificial column |
| LpTableau.InitialBasisIsUnitColumn | solutions/day10/lpsolver.js:63-81 | each row's initial basic column lies inside the tableau and is a unit column: 1 in its own row, 0 in every other row, the objective row included |
| LpTableau.Rows | solutions/day10/lpsolver.js:30-95 | the rows of a tableau as sequences, entry for entry |
| LpTableau.WriteConstraintRow | solutions/day10/lpsolver.js:58-83 | row `r` receives its coefficients, its slack and artificial entries and its right-hand side, its basic variable is recorded, and no other row or basis entry changes |
| LpTableau.BuildInitialTableau | solutions/day10/lpsolver.js:30-95 | a fresh tableau of one row per constraint plus the objective row, one column per variable plus the rhs, every entry as the layout prescribes, and the initial basis with its layout record |
| LpTableau.EliminatedEntry | solutions/day10/lpsolver.js:105-108 | a row whose pivot-column factor is below the tolerance keeps its entry |
| LpTableau.DivideBySelf | solutions/day10/lpsolver.js:99-102 | dividing the pivot by itself gives exactly 1 |
| LpTableau.DividePivotRow | solutions/day10/lpsolver.js:99-102 | the pivot row is divided by the pivot value and no other row changes |
| LpTableau.SubtractPivotRow | solutions/day10/lpsolver.js:107-109 | one row loses `factor` times the pivot row and no other row changes |
| LpTableau.Pivot | solutions/day10/lpsolver.js:97-112 | the pivot row is normalised so the pivot entry is 1, every other row with a non-negligible factor gets 0 in the pivot column and the others are untouched, the basis records the pivot column and no other basis entry changes |
| LpTableau.LoadObjectiveStart | solutions/day10/lpsolver.js:153-156 | the objective row becomes the negated coefficients over the first `columnCount` columns and 0 in the rhs column; the constraint rows are untouched |
| LpTableau.PriceRow | solutions/day10/lpsolver.js:157-165 | one more basic row is added into the objective row, scaled by its variable's coefficient when that is not negligible; the constraint rows are untouched |
| LpTableau.AddScaledRow | solutions/day10/lpsolver.js:162-164 | one row gains `coefficient` times another and no other row changes |
| LpTableau.SetObjectiveRow | solutions/day10/lpsolver.js:149-166 | the objective row becomes the negated coefficients plus the sum of the priced basic rows, and no constraint row changes |
| LpTableau.BasisSumOfUnitColumn | solutions/day10/lpsolver.js:157-165 | in a unit column, the sum over the priced basic rows is the coefficient of that row's own variable, or 0 when it is not priced |
| LpTableau.PricedOutBasicColumn | solutions/day10/lpsolver.js:149-166 | after the objective row is set, a basic unit column's objective entry is below the tolerance, and is exactly 0 when its coefficient is not negligible |
| LpTableau.PivotedRows | solutions/day10/lpsolver.js:97-112 | a pivot on rows of values keeps the number of rows and their width |
| LpTableau.PivotedRowsAgree | solutions/day10/lpsolver.js:97-112 | a tableau that agrees entry for entry with the pivot's effect holds the pivoted rows |
| LpTableau.FirstEligible | solutions/day10/lpsolver.js:172-178 | -1 exactly when every non-artificial entry of the row is negligible; otherwise the first column whose entry exceeds the tolerance |
| LpTableau.EliminatedRow | solutions/day10/lpsolver.js:169-184 | one row's step keeps the number of rows, their width and the basis length |
| LpTableau.FindEligible | solutions/day10/lpsolver.js:172-178 | the column loop finds the first eligible column of the row, or -1 |
| LpTableau.EliminateRow | solutions/day10/lpsolver.js:169-184 | a row with an artificial basic variable pivots on its first eligible column, or gets -1 when there is none; other rows change nothing |
| LpTableau.EliminateArtificialVariables | solutions/day10/lpsolver.js:168-186 | the tableau and basis are those of the row steps applied in order, each pivoting on the first eligible column; afterwards no row has an artificial basic variable, rows whose basic variable was not artificial keep it, and the others get a non-artificial column or none (-1) |
| LpTableau.RemoveArtificialColumns | solutions/day10/lpsolver.js:188-199 | with no artificial columns the tableau itself is returned; otherwise a fresh tableau of the same rows, keeping every column before the artificial block and moving the rhs column next to them |
| LpTableau.LastBasicRow | solutions/day10/lpsolver.js:204-209 | the last row before `k` whose basic variable is `v`, or -1 exactly when there is none |
| LpTableau.ExtractSolution | solutions/day10/lpsolver.js:201-211 | one value per original variable: the rhs of the last row where it is basic, and 0 when it is basic nowhere |
| LpSimplex.FindEntering | solutions/day10/lpsolver.js:118-129 | -1 exactly when no objective entry is below minus the tolerance; otherwise the chosen column: below minus the tolerance, most negative, and before every other column as negative |
| LpSimplex.FindLeaving | solutions/day10/lpsolver.js:130-144 | -1 exactly when no constraint row has a positive entry in the entering column; otherwise the first eligible row whose ratio is minimal, up to the tolerance |
| LpSimplex.Simplex | solutions/day10/lpsolver.js:114-147 | `Optimal` only when no objective entry is below minus the tolerance; `Unbounded` only when the chosen entering column (the first most negative) has no eligible row; each basis entry is its old value or a column below `columnCount` |
| LpSimplex.PhaseOneCoeffs | solutions/day10/lpsolver.js:221-224 | one coefficient per column: -1 on the artificial columns and 0 elsewhere |
| LpSimplex.MaximizingCoeffs | solutions/day10/lpsolver.js:244-248 | one coefficient per column: the negated objective coefficient on the original variables and 0 on the rest |
| LpSimplex.SolveLinearProgram | solutions/day10/lpsolver.js:213-263 | a feasible answer has one value per variable of the model |
| LpBranch.Round | solutions/day10/lpsolver.js:270 | `Math.round`: the integer within one half of the value, halves rounded up |
| LpBranch.Ceil | solutions/day10/lpsolver.js:301 | `Math.ceil`: the least integer not below the value |
| LpBranch.Fraction | solutions/day10/lpsolver.js:270 | the distance to the nearest integer, between 0 and one half |
| LpBranch.FindFractionalIndex | solutions/day10/lpsolver.js:265-277 | -1 exactly when every value is within the tolerance of an integer; otherwise the first index of the largest distance to an integer |
| LpBranch.Branch | solutions/day10/lpsolver.js:283-309 | the incumbent stays fit for the model (the right length and integral) and only ever changes to one whose objective is lower by more than the tolerance |
| LpBranch.SolveIntegerProgram | solutions/day10/lpsolver.js:279-320 | a feasible answer has one value per variable and every value is within the tolerance of an integer |
| PresentShapes.BitOfRowMask | solutions/day12/solution.js:89-95 | bit `i` of one row's mask is set exactly when `i` is one of that row's positions and its cell is 1 |
| PresentShapes.BitOfShapeMask | solutions/day12/solution.js:88-95 | for a 3x3 matrix, bit `i` of the mask is set exactly when `i < 9` and cell `(i % 3, i / 3)` is 1 |
| PresentShapes.EncodeMatrixToBitmask | solutions/day12/solution.js:82-97 | succeeds exactly on matrices of three rows of three cells, and then yields the mask of their 1-cells, below 512 |
| PresentShapes.EncodeAsWritten | solutions/day12/solution.js:82-97 | the check as written: succeeds exactly when there are three rows and the first row has three cells |
| PresentShapes.RaggedRowAliases | solutions/day12/solution.js:82-97 | a ragged matrix whose second row has a fourth cell passes the check as written, encodes to the same mask as a different matrix, and does not decode back to itself |
| PresentShapes.DecodeBitmaskToMatrix | solutions/day12/solution.js:99-107 | a 3x3 matrix whose cell `(x, y)` is 1 exactly when bit `3*y + x` is set |
| PresentShapes.DecodeEncode | solutions/day12/solution.js:82-107 | decoding the mask of any 3x3 matrix of 0s and 1s gives the matrix back |
| PresentShapes.EncodeDecode | solutions/day12/solution.js:82-107 | encoding the decoded matrix of any mask below 512 gives the mask back |
| PresentShapes.BitOfRemapped | solutions/day12/solution.js:118-124 | bit `t` of the partial remap is set exactly when `t` is among the mapped targets so far and the mapped source bit is set |
| PresentShapes.RemapBitmask | solutions/day12/solution.js:118-124 | bit `t` of the result is set exactly when `t` is a target of the mapping and the bit it maps from is set |
| PresentShapes.BitOfRotate | solutions/day12/solution.js:126 | a quarter turn sets bit `t` exactly when `t < 9` and the bit named by `ROTATE_90[t]` is set |
| PresentShapes.BitOfFlip | solutions/day12/solution.js:127 | a flip sets bit `t` exactly when `t < 9` and the bit named by `FLIP_HORIZONTAL[t]` is set |
| PresentShapes.TransformsStayBelow512 | solutions/day12/solution.js:126-127 | rotating or flipping any mask gives a mask below 512 |
| PresentShapes.RotateFourTimes | solutions/day12/solution.js:126 | four quarter turns give back any mask below 512 |
| PresentShapes.FlipTwice | solutions/day12/solution.js:127 | two flips give back any mask below 512 |
| PresentShapes.TransformsKeepPopCount | solutions/day12/solution.js:115-127 | rotating or flipping keeps the number of cells of the shape |
| PresentShapes.RawCells | solutions/day12/solution.js:143-153 | the cells collected from the first `p` bits lie inside the 3x3 box and number at most `p` |
| PresentShapes.RawCellsCount | solutions/day12/solution.js:143-153 | the scan collects exactly as many cells as the mask has set bits among the first `p` |
| PresentShapes.RawCellsAreBits | solutions/day12/solution.js:145-146 | every collected cell stands for a set bit among the scanned ones |
| PresentShapes.Extremes | solutions/day12/solution.js:147-150 | the running minima and maxima bound every cell and each is attained by some cell |
| PresentShapes.ExtremesBound | solutions/day12/solution.js:147-150 | the minima and maxima bound every cell |
| PresentShapes.ExtremesAttained | solutions/day12/solution.js:147-150 | for a non-empty list of cells each minimum and maximum is attained by some cell |
| PresentShapes.ScanCell | solutions/day12/solution.js:145-151 | one step of the scan appends the cell when its bit is set and keeps the minima and maxima of the cells so far |
| PresentShapes.ScanRow | solutions/day12/solution.js:144-152 | one row of the scan extends the cells and their extremes by that row |
| PresentShapes.ScanCells | solutions/day12/solution.js:143-153 | the whole scan yields the set cells in row-major order with their minima and maxima |
| PresentShapes.Shifted | solutions/day12/solution.js:164 | every cell moved by the offset, in order |
| PresentShapes.NormalizedCorners | solutions/day12/solution.js:164-170 | the shifted cells touch all four edges of the `width x height` box |
| PresentShapes.Normalized | solutions/day12/solution.js:164-170 | the variant keeps the mask, is normalised, fits in 3x3, and has each cell shifted by the minimum x and y |
| PresentShapes.CreateVariant | solutions/day12/solution.js:136-171 | the variant keeps the mask, has one cell per set bit, fits in 3x3 and is normalised (an empty mask gives a 0x0 variant), and its cells are the set bits shifted by the minimum x and y |
| PresentShapes.OrbitSequence | solutions/day12/solution.js:175-185 | the four rotations of the mask followed by the four rotations of its flip: eight masks |
| PresentShapes.SetAddProperties | solutions/day12/solution.js:177 | adding to an insertion-ordered set keeps it duplicate-free, adds just that value, grows by at most one and keeps its first element |
| PresentShapes.DedupProperties | solutions/day12/solution.js:174-187 | the insertion-ordered set of a sequence has no duplicates, holds exactly its values, is no longer than it, and starts with its first value |
| PresentShapes.CollectOrbit | solutions/day12/solution.js:174-186 | the masks collected are the insertion-ordered set of the eight orbit masks |
| PresentShapes.RotateTimesKeepsPopCount | solutions/day12/solution.js:176-179 | any number of quarter turns keeps the number of cells |
| PresentShapes.OrbitPopCount | solutions/day12/solution.js:173-185 | every mask of the orbit has as many cells as the original |
| PresentShapes.OrbitKeepsPopCount | solutions/day12/solution.js:173-188 | every distinct orbit mask has as many cells as the original |
| PresentShapes.VariantMasks | solutions/day12/solution.js:173-188 | between one and eight distinct masks, starting with the original, exactly the masks of the orbit |
| PresentShapes.GetShapeVariants | solutions/day12/solution.js:173-188 | one variant per distinct orbit mask, in insertion order, each normalised, within 3x3 and with as many cells as the shape |
| PresentBoard.PushNeighbours | solutions/day12/solution.js:208-219 | the marking stays exact (visited cells are the seen empty cells), the seen set only grows, and the queue grows by exactly the number of newly seen cells |
| PresentBoard.ExploreComponent | solutions/day12/solution.js:202-221 | the flood fill marks its start cell and counts a size of at least 1, exactly the number of cells it newly marks |
| PresentBoard.FindEmptyComponents | solutions/day12/solution.js:194-225 | every component size is at least 1 and the sizes add up to the number of empty board cells |
| PresentBoard.SmallestRemainingShapeArea | solutions/day12/solution.js:227-235 | 0 when every instance is used, otherwise the least area among the unused instances |
| PresentBoard.RemainingShapeArea | solutions/day12/solution.js:237-245 | the total area of the unused instances |
| PresentBoard.UnusedAreaOfPlacing | solutions/day12/solution.js:237-245 | marking an unused instance lowers the remaining area by exactly its area |
| PresentBoard.UnusedAreaOfNoneUsed | solutions/day12/solution.js:237-245 | with nothing used, the remaining area is the total area |
| PresentPlacements.AddRowBitFacts | solutions/day12/solution.js:267-269 | adding a bit to a row ORs it into that row's mask alone, adds that row, and keeps the rows distinct |
| PresentPlacements.PlacementRowsCover | solutions/day12/solution.js:262-275 | the rows are distinct, a row is listed exactly when some cell lands on it, and bit `b` of row `r` is set exactly when some cell lands on `(b, r)` |
| PresentPlacements.CellIndexInRegion | solutions/day12/solution.js:270 | `y * width + x` of a board cell is a board index with remainder `x` and quotient `y` |
| PresentPlacements.PlacementInsideRegion | solutions/day12/solution.js:530-554 | a normalised variant placed where it fits lies inside the region, and each cell index is `boardY * width + boardX` of its offset cell |
| PresentPlacements.RowMaskIsEntry | solutions/day12/solution.js:541-544 | with distinct rows, the mask looked up for a listed row is that row's mask |
| PresentPlacements.BuildPlacementFromVariant | solutions/day12/solution.js:530-554 | the placement of the variant at the offset, with its row masks and cell indices |
| PresentPlacements.RowAnchors | solutions/day12/solution.js:261 | one anchor per x offset of the row, in order |
| PresentPlacements.GridAnchorsSound | solutions/day12/solution.js:260-261 | every anchor of one variant's grid names that variant at an offset within the limits |
| PresentPlacements.AllAnchorsSound | solutions/day12/solution.js:254-261 | every anchor names one of the variants at an offset where it fits inside the region |
| PresentPlacements.GridAnchorsComplete | solutions/day12/solution.js:260-261 | every offset within the limits is an anchor of the grid |
| PresentPlacements.AnchorsComplete | solutions/day12/solution.js:254-261 | every offset where a variant fits inside the region is an anchor |
| PresentPlacements.AllAnchorsFits | solutions/day12/solution.js:255-261 | a variant that fits contributes the grid of all its offsets |
| PresentPlacements.AllAnchorsSkips | solutions/day12/solution.js:257-259 | a variant wider or taller than the region contributes no anchor |
| PresentPlacements.PlaceAll | solutions/day12/solution.js:260-285 | one placement per anchor, in order |
| PresentPlacements.PlaceGridAnchors | solutions/day12/solution.js:260-286 | the row-by-row placements of one variant are the placements of its grid of anchors |
| PresentPlacements.PlaceRow | solutions/day12/solution.js:261-285 | one row of offsets appends one placement per x offset |
| PresentPlacements.PlaceVariant | solutions/day12/solution.js:260-286 | one variant appends the placements of its whole grid of offsets |
| PresentPlacements.PlaceShapeVariant | solutions/day12/solution.js:254-287 | each variant extends the placements of the variants before it by its own anchors |
| PresentPlacements.PrecomputePlacementsForShape | solutions/day12/solution.js:247-291 | the placements of every variant at every offset where it fits |
| PresentPlacements.PrecomputedPlacements | solutions/day12/solution.js:247-291 | every precomputed placement lies inside the region with row masks built from its cells, and every variant at every offset where it fits is among them |
| PresentRegions.Repeat | solutions/day12/solution.js:395-400 | `count` copies of the shape |
| PresentRegions.PieceShapesCount | solutions/day12/solution.js:385-401 | one piece per unit of quantity |
| PresentRegions.PieceShapesPrefix | solutions/day12/solution.js:385-401 | the pieces of the first quantities come first |
| PresentRegions.RequiredAreaOfPieces | solutions/day12/solution.js:356 | the required area is the sum of the areas of the pieces |
| PresentRegions.SumAreasRepeat | solutions/day12/solution.js:389 | `count` copies of a shape cover `count` times its area |
| PresentRegions.EvaluateRegionHeuristics | solutions/day12/solution.js:355-375 | `Fails` exactly when the region is smaller than the required area; `Fits` exactly when it is not and the 3x3 slots are at least the pieces; `Unknown` otherwise |
| PresentRegions.GenerateHeuristicPlacements | solutions/day12/solution.js:556-583 | no placement when there are no slots or the pieces outnumber them; otherwise piece `k` gets its first variant in slot `k` |
| PresentRegions.FitsHasSlotPlacements | solutions/day12/solution.js:364-370 | a region judged to fit, with some piece, has slots in both directions and at least as many as pieces |
| PresentRegions.SlotPlacementInside | solutions/day12/solution.js:572-578 | a slot placement lies inside the region and each of its cells lies in its own slot's 3x3 box |
| PresentRegions.SlotPlacementsDisjoint | solutions/day12/solution.js:572-575 | two slot placements that cover the same cell are the same piece |
| PresentParse.MaskRow | solutions/day12/solution.js:298 | one 0 or 1 per character, 1 exactly for `#` |
| PresentParse.MaskMatrix | solutions/day12/solution.js:298 | one mask row per line |
| PresentParse.ShapeSectionMask | solutions/day12/solution.js:296-299 | a valid shape section yields a 3x3 drawing |
| PresentParse.ParseShapeDrawing | solutions/day12/solution.js:297-308 | succeeds exactly on a 3x3 drawing, giving its mask, one variant per distinct orbit mask and the variants' common cell count as the area |
| PresentParse.Count | solutions/day12/solution.js:327-328 | `Number` of a field when it is a whole number that is not negative |
| PresentParse.ParseQuantities | solutions/day12/solution.js:328-333 | succeeds exactly when each count is a whole number and names a defined shape; count `k` goes with shape `k` |
| PresentParse.ParseRegionFields | solutions/day12/solution.js:326-339 | succeeds exactly when the width, the height and every count parse, and gives the region with those values |
| PresentParse.ParseRegionLine | solutions/day12/solution.js:325-340 | a line with `:` whose fields parse gives its region; anything else is an error |
| PresentParse.ParseShapes | solutions/day12/solution.js:295-309 | succeeds exactly when every drawing is 3x3, giving shape `i` from drawing `i` |
| PresentParse.ParseShapeSections | solutions/day12/solution.js:295-309 | succeeds exactly when every shape section is valid, giving shape `i` from section `i` |
| PresentParse.ParseRegions | solutions/day12/solution.js:324-340 | succeeds exactly when every region line parses, giving region `k` from line `k` |
| PresentParse.ParseSections | solutions/day12/solution.js:294-352 | succeeds exactly when there is a section, every section before the last is a valid shape and every line of the last is a valid region; shapes and regions come from them in order |
| PresentParse.ParsePresentList | solutions/day12/solution.js:293-353 | the same, on the blank-line-separated, trimmed, non-empty sections of the input |
| PresentGreedy.CellSetCovers | solutions/day12/solution.js:596-599 | a cell is in a placement's cell set exactly when the placement covers it |
| PresentGreedy.CoverSetCovers | solutions/day12/solution.js:596-599 | a cell is covered by the placements exactly when one of them covers it |
| PresentGreedy.NoOverlapPush | solutions/day12/solution.js:589-601 | a placement on free cells keeps the placements from overlapping |
| PresentGreedy.PackingPush | solutions/day12/solution.js:589-601 | a placement that lands inside the board on free cells keeps the packing valid |
| PresentGreedy.NextRotation | solutions/day12/solution.js:638 | the rotation counter stays below 8 |
| PresentGreedy.CyclicStep | solutions/day12/solution.js:623 | stepping the offset moves one cell along the board, wrapping at the end |
| PresentGreedy.CyclicLap | solutions/day12/solution.js:648-651 | after as many steps as there are buckets the cyclic scan is back at its start |
| PresentGreedy.CyclicReaches | solutions/day12/solution.js:622-623 | the scan from any start reaches every board cell within one lap |
| PresentGreedy.LinearPosition | solutions/day12/solution.js:623-625 | a linear index of the board gives a column and a row inside it |
| PresentGreedy.CanPlace | solutions/day12/solution.js:589-594 | true exactly when the variant fits inside the board at the offset and all its cells are free |
| PresentGreedy.CellsFree | solutions/day12/solution.js:593 | true exactly when none of the offset cells is covered |
| PresentGreedy.Mark | solutions/day12/solution.js:598 | the board draws exactly one more covered cell |
| PresentGreedy.MarkCells | solutions/day12/solution.js:597-599 | the board draws the old cover plus the variant's offset cells |
| PresentGreedy.PlacementLands | solutions/day12/solution.js:596-601 | a free variant's placement adds exactly its offset cells to the cover, inside the board and on free cells |
| PresentGreedy.ApplyPlacement | solutions/day12/solution.js:596-601 | the placement is appended, it lands inside the board on free cells, and the board draws the new cover |
| PresentGreedy.FirstFreeVariant | solutions/day12/solution.js:631-641 | a found variant is the first free one at the cell counting cyclically from `rotationCounter`; when none is found, no variant of the shape is free there |
| PresentGreedy.FindPosition | solutions/day12/solution.js:622-643 | a found position is the first cell, in scan order from `scanPointer`, where some variant is free, with the first free variant there; when none is found, no variant is free anywhere on the board |
| PresentGreedy.StuckEverywhere | solutions/day12/solution.js:622-643 | failing at every cell of one lap means failing at every board cell |
| PresentGreedy.TryPlaceShape | solutions/day12/solution.js:621-644 | on success exactly one placement is appended, at the first scan position from `scanPointer` where a variant is free and in the first free variant from `rotationCounter`; `scanPointer` moves there and the counter advances; on failure the placements, `rotationCounter` and `scanPointer` are unchanged and no variant fits anywhere |
| PresentGreedy.Quantities | solutions/day12/solution.js:603-606 | one remaining count per bucket, equal to its quantity |
| PresentGreedy.QuantitiesSum | solutions/day12/solution.js:607 | the remaining counts add up to the number of pieces |
| PresentGreedy.SumZero | solutions/day12/solution.js:648-654 | the counts add up to 0 exactly when every count is 0 |
| PresentGreedy.SumDecrement | solutions/day12/solution.js:657 | taking one from a positive count lowers the total by one |
| PresentGreedy.AssignedPush | solutions/day12/solution.js:656-660 | a piece of bucket `i` placed next keeps every placement tied to its bucket's shape |
| PresentGreedy.TallyTake | solutions/day12/solution.js:656-657 | taking a piece from bucket `i` keeps the taken and remaining pieces adding up to each quantity |
| PresentGreedy.TallyComplete | solutions/day12/solution.js:646-669 | with nothing remaining, every piece of every bucket has been taken |
| PresentGreedy.NextBucket | solutions/day12/solution.js:647-654 | the first bucket with pieces left, scanning cyclically from `bucketIndex`; an empty one only when all are empty |
| PresentGreedy.TakePiece | solutions/day12/solution.js:647-658 | one piece is taken from the first bucket with pieces left, scanning cyclically from `bucketIndex` past only empty buckets; that bucket alone loses one, the total drops by one, and `bucketIndex` moves past it |
| PresentGreedy.TakeAndPlace | solutions/day12/solution.js:646-668 | one piece is taken from the first non-empty bucket cyclically from `bucketIndex` and handed to `tryPlaceShape`; the new placements, `rotationCounter` and `scanPointer` are those `tryPlaceShape` chooses for that shape (first scan position, first free variant, or nothing changed when the shape fits nowhere); the packing stays valid and the remaining total drops by one |
| PresentGreedy.PlacePieces | solutions/day12/solution.js:615-674 | the loop yields a valid packing tied to the buckets; complete means every piece placed, and a failure names a shape with pieces left that fits nowhere |
| PresentGreedy.GenerateGreedyVisualization | solutions/day12/solution.js:585-675 | no pieces gives no placements and completion; otherwise a valid packing of pieces of the buckets, complete exactly when no failed shape is reported, with every piece placed when complete and the reported shape fitting nowhere when not |
| PresentSolver.BitOfBoardRow | solutions/day12/solution.js:470-472 | bit `b` of a board row is set exactly when some placement's mask for that row sets it |
| PresentSolver.DisjointPush | solutions/day12/solution.js:428-473 | a placement whose masks miss the board keeps the placements disjoint |
| PresentSolver.DisjointPairwise | solutions/day12/solution.js:428-473 | in disjoint placements, every two placements' masks for a row share no bit |
| PresentSolver.WellPlacedCovers | solutions/day12/solution.js:262-275 | a precomputed placement's masks set exactly the cells it covers, all at non-negative coordinates |
| PresentSolver.CanPlaceIsDisjoint | solutions/day12/solution.js:428 | a placement that passes the row test shares no bit with any placed piece |
| PresentSolver.Placeable | solutions/day12/solution.js:426-432 | exactly the placements that pass the row test against the board, taken from the list |
| PresentSolver.Areas | solutions/day12/solution.js:229-241 | one area per instance, its shape's area |
| PresentSolver.Pruned | solutions/day12/solution.js:475-487 | true exactly when some empty component is smaller than the least remaining area and the other empty cells cannot hold the remaining area |
| PresentSolver.PlacedPush | solutions/day12/solution.js:468-473 | placing an option of an unused instance keeps the board the union of disjoint placements, each of its own instance |
| PresentSolver.ClearRestores | solutions/day12/solution.js:498-501 | clearing a placement's bits after setting them gives back the board |
| PresentSolver.DisjointCovers | solutions/day12/solution.js:428-473 | no two placed pieces cover the same cell |
| PresentSolver.UnusedCountMark | solutions/day12/solution.js:468 | marking an instance used lowers the number of unused instances by one |
| PresentSolver.RegionSolver.constructor | solutions/day12/solution.js:412-414 | an empty board with no instance used, no placement and an empty memo |
| PresentSolver.RegionSolver.ValidPlacements | solutions/day12/solution.js:426-432 | the placements that pass the row test against the current board |
| PresentSolver.RegionSolver.FindBestShape | solutions/day12/solution.js:418-445 | -1 exactly when every instance is used; otherwise an unused instance with its options, with fewer options than every earlier unused instance and, unless it has exactly one, no more than any later one |
| PresentSolver.RegionSolver.ApplyPlacement | solutions/day12/solution.js:470-472 | each board row ORs in the placement's mask for that row |
| PresentSolver.RegionSolver.RemovePlacement | solutions/day12/solution.js:499-501 | each board row clears the placement's mask for that row |
| PresentSolver.RegionSolver.Prune | solutions/day12/solution.js:475-488 | pruning happens only while some instance is unused |
| PresentSolver.RegionSolver.Place | solutions/day12/solution.js:470-473 | the placement is pushed for its instance, the board ORs in its masks, and the search state stays valid |
| PresentSolver.RegionSolver.Unplace | solutions/day12/solution.js:498-501 | the placement is popped and the board is exactly what it was before it was placed |
| PresentSolver.RegionSolver.PlaceAndRecurse | solutions/day12/solution.js:470-501 | a success extends the placements by this one and every instance is placed; a failure restores the placements and the board |
| PresentSolver.RegionSolver.TryOptions | solutions/day12/solution.js:469-502 | a success places every instance; a failure leaves the placements, the board and the used marks as they were |
| PresentSolver.RegionSolver.TryInstance | solutions/day12/solution.js:462-505 | a success places every instance; a failure restores the placements, the board and `used` |
| PresentSolver.RegionSolver.TryPlace | solutions/day12/solution.js:447-506 | a success places every instance, keeping the earlier placements; a failure restores the placements, the board and `used`, and every memo entry stays a failure |
| PresentSolver.InstancesOfAppend | solutions/day12/solution.js:395-400 | appending `count` copies of an instance of a shape appends that many copies of the shape to the pieces |
| PresentSolver.PushCopies | solutions/day12/solution.js:395-400 | the instances gain exactly `count` copies at the end |
| PresentSolver.AddQuantity | solutions/day12/solution.js:385-400 | the area grows by quantity times shape area; impossible exactly when a positive quantity has no placement; otherwise one instance per piece is appended |
| PresentSolver.BuildInstances | solutions/day12/solution.js:385-401 | the total area is the required area; impossible exactly when some positive quantity has no placement; otherwise one instance per piece, in order |
| PresentSolver.InstancesWellPlaced | solutions/day12/solution.js:385-401 | every instance's placements are precomputed placements inside the region |
| PresentSolver.SolutionPacked | solutions/day12/solution.js:508-514 | a complete search state is a packing of every piece, each in a placement of its own shape, with no two of them overlapping |
| PresentSolver.SolveRegion | solutions/day12/solution.js:377-515 | no fit gives no placements; a positive quantity without placements or too little area means no fit; a fit places every piece, each by a placement of its own shape, inside the region, with no two pieces overlapping |

## Left out

- Input and output in every solver are not modelled: `run`, `report`, `timeSolution`, reading the input files, `console.log` dumps, writing output files, and the emoji or Markdown renderings. Each solver starts from the puzzle text as a string.
- The collections that the model passes as values (the day 7 grid, the day 5 used indices, the day 10 `visited` map, the day 2 and day 6 lists) are copied rather than shared, so the model says nothing about aliasing between them. The source does not share them between owners. The day 8 circuit records are the exception noted below.
- Every part 2 that the repository leaves unsolved (days 2, 3, 4, 9, 10, 11 and 12) returns a constant string, so it is not modelled.
- JavaScript numbers and BigInts become unbounded `int`, `nat` or `real`. Puzzle values are assumed to stay below 2^53, so rounding, overflow and the float formatting of `String(n)` are not modelled.
- Text is a sequence of `char`. UTF-16 surrogate pairs, which `split('')` would cut in two, are not modelled.
- `Number(text)` and `parseInt(text, 10)` are modelled for decimal integers with optional sign and surrounding whitespace. Hexadecimal, exponent and fractional forms, and `Infinity`, all give `None`.
- Day 1: `lookupCountAsText` and the per-instruction log lines are output only, so they are left out.
- Day 2: the error messages are a datatype of error kinds rather than strings, and the echoed `firstId`/`lastId` fields of the analysis are omitted.
- Day 3: `Batteries.SolveForFirstStar` states only when the sum is a number. What each joltage means is stated by `Batteries.JoltageIsBestPair`, and the sum itself by `SumJoltages`.
- Day 4: each item's neighbours are computed as a value beside the item rather than stored as a field of a shared object. The mapper of `toString` returns one character, and the `x` rendering of accessible rolls is output, so it is left out.
- Day 5: the parse uses only the first two blank-line-separated sections, as the source does.
- Inventory.MergeRanges: the covered integers are stated to be kept only for well-formed ranges (start not above end, no `NaN`). For other ranges the contract states only that the loop ends with no overlaps and no more ranges.
- Inventory.SolveForSecondStar: the capacity is stated to count the covered integers only for well-formed ranges, for the same reason.
- Day 6: a column whose operator is neither `+` nor `*` gives no sheet (`Err`), where the source calls `undefined` and throws. So does a row too short for a part 2 column, where the source throws on `undefined.toString()`. Padding is modelled for one-character pad strings.
- Day 7: a grid without `S` makes the source loop forever in part 1 and overflow the stack in part 2; the model returns `Err` instead.
- Day 7: the `render` and `renderFn` output helpers are left out.
- Beams.SolveForFirstStar: ties the answer to the run of the beam loop, one turn at a time (`TraceFrom`), and bounds it by the number of splitters. It does not characterise in closed form which splitters a beam reaches.
- Circuits.ParseBox: a missing or non-numeric coordinate gives no box. The source keeps a box whose coordinate is `NaN`, and then compares `NaN` distances in the sort, where the order is up to the JavaScript engine.
- Circuits.ParseBoxes: fails as soon as one line has a `NaN` coordinate, for the same reason.
- Circuits.ParseJunctionBoxes: fails as soon as one line has a `NaN` coordinate, for the same reason.
- Circuits.SolveForFirstStar: returns `Err` when a coordinate is `NaN`, for the same reason. The source goes on with `NaN` distances.
- Circuits.SolveForSecondStar: returns `Err` when a coordinate is `NaN`, for the same reason.
- Day 8: a box's circuit, which the source holds as a shared mutable `Set`, is modelled as a circuit number per box. Aliasing between the sets is therefore captured only through the numbers. Coordinates are integers; fractional coordinates are not modelled.
- Day 9: the `produceOutput` branch writes a file, so it is left out. The renderer is modelled, but float and oversized coordinates are not.
- Day 10 part 1: the sum over machines (`solveForFirstStar`) and `renderLightDiagram` are left out; the model covers the parse and one machine's search.
- Day 11: the memo key is modelled as a pair of a device name and a set of visited names. The source builds a string key by joining names with commas, so names containing commas could collide; that collision is not modelled.
- Devices.PathFinder.FindPaths: the result is stated correct only when the memo already holds correct answers for the same end device. The source's memo key omits the end device, so a finder reused with a second end could return stale paths; the source never does this.
- Devices.PathFinder.Find: the same condition as `FindPaths`, for the same reason.
- Day 10 `lpsolver.js`: each number is an exact `real`, so floating-point rounding is not modelled. `EPSILON` is kept as a real constant.
- LpSimplex.Simplex: takes a `fuel` bound on the number of pivots and returns `OutOfFuel` when it runs out, because the source's `while (true)` loop has no termination argument.
- LpBranch.Branch: takes a `fuel` bound on the depth and on each LP solve, and reports whether some branch ran out, for the same reason.
- LpSimplex.SolveLinearProgram: returns `Exhausted` when fuel runs out. Its contract states only the solution's length; that the answer is optimal is not stated.
- LpSimplex.SolveLinearProgram: requires every coefficient list to be no longer than `numVars`. The source would write longer lists into the slack columns.
- LpTableau.BuildInitialTableau: has the same requirement as `SolveLinearProgram` about coefficient lists.
- LpBranch.SolveIntegerProgram: returns `Exhausted` when fuel runs out, and is proved integral but not optimal. That conflicting equalities give an infeasible answer is not proved.
- LpModel.CloneModelWithConstraint: requires `varIndex < numVars`. The source only passes the index of a fractional solution value, which satisfies this.
- LpModel: relation strings other than `<=`, `>=` and `=` are one `Other` case. Such a constraint gets neither a slack column nor an artificial column, as in the source.
- Day 12: the worker threads, the parallel pool, the progress timer, the Markdown reports and the orchestration in `solveForFirstStar` are concurrency and I/O, so they are left out. So are the shapes' and regions' `toString` methods.
- PresentSolver.SolveRegion: the `Date.now()` timeout is left out, so the search runs to completion and `timedOut` is always false.
- Day 12: the module-level `placementCache` is left out. Placements are recomputed as a pure function of the shape and the region size.
- Day 12: the closure state of `generateGreedyVisualization` (the board, the placements, `rotationCounter` and `scanPointer`) is passed into and out of its helper methods rather than shared. Only the board is an `array2`.
- PresentParse.ParseRegionLine: a width, height or count that is not a whole number is an `Err`, where the source carries on with `NaN`. A count for a shape that was never defined is also an `Err`, where the source fails later with a `TypeError` or ignores it.
- PresentParse.ParseShapeDrawing: a drawing that is not 3x3 is an `Err`, as the source throws. The corrected size check is used, and the check as written is kept separately.

## Findings

| source | as written | input that shows it | evidently intended | confidence | as-written member | corrected member |
|---|---|---|---|---|---|---|
| solutions/day12/solution.js:82-97 | `encodeMatrixToBitmask` checks only the number of rows and the width of the first row, then sets bit `y * 3 + x` for every 1-cell of every row | `[[0,0,0],[0,0,0,1],[0,0,0]]` passes the check, and its fourth cell in row 1 sets bit 6, so it encodes to the same mask as `[[0,0,0],[0,0,0],[1,0,0]]` and does not decode back to itself | reject every matrix that is not three rows of exactly three cells, so that decoding an encoded shape gives it back | not executed | PresentShapes.RaggedRowAliases | PresentShapes.EncodeMatrixToBitmask |
