# Advent of Code solvers, modelled in Dafny

This project models the puzzle solvers of a TypeScript Advent of Code repository, together with the two sparse grids they share. It covers 2022, 2023 and 2024. Each solver reads a puzzle input and computes two integer answers. The model starts from inputs that have already been parsed into records, sequences and maps. It then follows each solver's algorithm and its constants. Where the model's branches, edge cases or error conditions differ from the source's, the difference is listed under "Left out". Most differences concern NaN, `undefined` and input parsing.

Layout: one Dafny module per source file, all under `aoc/`.
- `aoc/common.dfy` (module `Common`) holds the vocabulary the solvers share:
  - optional values, and results that may be a thrown error;
  - the lodash helpers the solvers use (`sum`, `max`, `range`, `countBy`, `sortBy`);
  - `parseInt` without a radix: white space, a sign, a "0x" hexadecimal prefix, and decimal digits otherwise;
  - integer extrema.
- `aoc/grid2023.dfy` (module `Grid2023`) models `src/2023/grid.ts`. Its classes keep the fields the source keeps:
  - the `Range` min/max caches;
  - the columns;
  - the per-row ranges.

  A ghost map of the cells, and a validity predicate, state that every cached extent equals the extent of the cells written so far.
- `aoc/grid2022.dfy` (module `Grid2022`) models `src/2022/grid.ts`. Its extrema are computed on demand.
- `aoc/yYYYY_dNN.dfy` (module `DayYYYY_NN`) models `src/YYYY/N/index.ts`:
  - Code that updates state step by step is modelled as methods with loops and invariants. Each method is proved equal to a specification function.
  - Code that is pure becomes functions.
  - Lemmas then state the puzzle's properties about those functions.

JavaScript numbers are modelled as unbounded integers. Where the model covers a value that JavaScript would make `undefined` or `NaN`, it models that value explicitly, as `Option` or `Result`. The solvers where it does not are listed under "Left out". A thrown error is a `Failure` result.

## Model

| member | source | states |
|---|---|---|
| Grid2023.Range.constructor | src/2023/grid.ts:3-5 | a new range has neither bound |
| Grid2023.Range.Update | src/2023/grid.ts:7-14 | the bounds move only to take in the value: afterwards min ≤ value ≤ max, and a range spanning the values seen so far spans them with the new one |
| Grid2023.Range.SpansExtent | src/2023/grid.ts:3-14 | a range spanning a set has no bounds exactly when the set is empty, and otherwise holds the set's least and greatest element |
| Grid2023.Range.AsArray | src/2023/grid.ts:16-22 | undefined exactly when a bound is missing; otherwise the integers from min to max, in order |
| Grid2023.AsArrayOfSpan | src/2023/grid.ts:16-22 | for a range spanning a set: undefined exactly for the empty set, otherwise every integer between the least and the greatest element and each element of the set |
| Grid2023.Column.constructor | src/2023/grid.ts:25-27 | a new column holds no value and its range has no bounds |
| Grid2023.Column.Get | src/2023/grid.ts:29-31 | the value stored at y, or undefined |
| Grid2023.Column.Set | src/2023/grid.ts:33-37 | stores the value at y and keeps the column's range spanning its y values |
| Grid2023.Column.Has | src/2023/grid.ts:39-41 | true exactly when y holds a value |
| Grid2023.XsAfterSet | src/2023/grid.ts:50-68 | writing a cell adds its x to the x values and its y to the y values |
| Grid2023.ColumnYsAfterSet | src/2023/grid.ts:51-58 | writing a cell adds its y to its own column's y values and leaves every other column's alone |
| Grid2023.RowXsAfterSet | src/2023/grid.ts:62-67 | writing a cell adds its x to its own row's x values and leaves every other row's alone |
| Grid2023.EmptyCoordinates | src/2023/grid.ts:108-112 | a grid has no cell exactly when it has no y value |
| Grid2023.Grid.constructor | src/2023/grid.ts:44-48 | a new grid holds no cell and all its ranges are consistent |
| Grid2023.Grid.Set | src/2023/grid.ts:50-68 | stores the value at (x, y), changes no other cell, keeps the global, column and row ranges equal to the extents of the cells, and moves the x range only when the column is new |
| Grid2023.Grid.SetInColumn | src/2023/grid.ts:51-58 | creates the column (widening the x range) when it is missing, then stores the value in it |
| Grid2023.Grid.SetInRow | src/2023/grid.ts:60-67 | widens the y range and the row's x range, creating the row's range when it is missing |
| Grid2023.Grid.Get | src/2023/grid.ts:70-80 | the stored value of a written cell, whatever it is, and the supplied default for any other |
| Grid2023.Grid.Has | src/2023/grid.ts:82-88 | true exactly when the cell was written |
| Grid2023.Grid.GetYRange | src/2023/grid.ts:90-98 | the range of the column's own y values (a fresh empty range for a column never written), or the global y range |
| Grid2023.Grid.GetXRange | src/2023/grid.ts:100-106 | the range of the row's own x values (a fresh empty range for a row never written), or the global x range |
| Grid2023.Extents | src/2023/grid.ts:90-106 | the whole grid's x and y ranges: undefined exactly when the grid is empty, else the smallest box holding every cell, each bound reached by a cell |
| Grid2023.BoundingUnique | src/2023/grid.ts:90-106 | the grid's ranges are determined by its cells: two boxes bounding the same cells are equal |
| Grid2023.Grid.Lines | src/2023/grid.ts:114-121 | one rendered line per y, in order |
| Grid2023.Grid.ToStringRows | src/2023/grid.ts:108-124 | "<empty>" for an empty grid; otherwise the lines of every y from the least to the greatest y of the cells, joined by newlines |
| Grid2023.Grid.RowStringExtent | src/2023/grid.ts:114-121 | a row is rendered over its own x extent, and a row without cells as the empty line |
| Grid2023.SetThenGet | src/2023/grid.ts:50-88 | after `set` the cell is present and reads back the value; every other cell reads and tests as before |
| Grid2023.Grid3D.constructor | src/2023/grid.ts:127-128 | a new three-dimensional grid holds nothing |
| Grid2023.Grid3D.Set | src/2023/grid.ts:130-144 | the cell holds the value afterwards and no other cell changes |
| Grid2023.Grid3D.Get | src/2023/grid.ts:146-159 | the stored value of a written cell, the supplied default for any other |
| Grid2022.Grid.Set | src/2022/grid.ts:4-12 | writing a cell creates its column when missing and changes that one cell only; the column order and row order stay consistent with the data |
| Grid2022.Grid.Get | src/2022/grid.ts:14-24 | the stored value for a written cell; for any other the default, or undefined when none is given |
| Grid2022.Grid.XMin | src/2022/grid.ts:26-32 | the least column written, or +Infinity for an empty grid |
| Grid2022.Grid.XMax | src/2022/grid.ts:26-36 | the greatest column written, or -Infinity for an empty grid |
| Grid2022.Grid.YMin | src/2022/grid.ts:38-48 | the least row over all columns' keys, or +Infinity when no cell is written |
| Grid2022.Grid.YMax | src/2022/grid.ts:38-52 | the greatest row over all columns' keys, or -Infinity when no cell is written |
| Grid2022.SetThenGet | src/2022/grid.ts:4-24 | after a write the cell reads back the written value and every other cell reads as before |
| Grid2022.SetThenExtrema | src/2022/grid.ts:4-52 | after a write the extrema are finite and enclose the written cell |
| Day2022_01.ElfLines | src/2022/1/index.ts:10-17 | the input is cut at blank lines into one group per elf, and every line kept is a non-empty line of its chunk |
| Day2022_01.ElfChunksCoverInput | src/2022/1/index.ts:10 | the elf chunks joined back with blank lines are the whole input |
| Day2022_01.Totals | src/2022/1/index.ts:23 | one total per elf, the sum of its calories |
| Day2022_01.MostCalories | src/2022/1/index.ts:25-27 | the last of the sorted totals is the largest total; no elves give no answer |
| Day2022_01.LargestThree | src/2022/1/index.ts:28 | the last three sorted totals are three of the totals and no total left out exceeds any of them |
| Day2022_02.Looses | src/2022/2/index.ts:42-47 | the inverted table gives, for each sign, the sign that beats it |
| Day2022_02.BeatsCycle | src/2022/2/index.ts:42-47 | `beats` is a three-cycle and `looses` is its inverse on both sides |
| Day2022_02.GetMatchResult | src/2022/2/index.ts:66-74 | a draw exactly when the signs agree, a win exactly when my sign beats the other, a loss exactly when the other beats mine |
| Day2022_02.Part1Round | src/2022/2/index.ts:89-99 | a part-1 round scores between 1 and 9 |
| Day2022_02.Part1Total | src/2022/2/index.ts:90-99 | the total of n rounds lies between n and 9n |
| Day2022_02.Permutations | src/2022/2/index.ts:76-84 | six assignments, each giving distinct signs to X, Y and Z |
| Day2022_02.PermutationsComplete | src/2022/2/index.ts:76-84 | every assignment of distinct signs is among the six |
| Day2022_02.Part1 | src/2022/2/index.ts:86-103 | the first answer is the largest total over the six assignments |
| Day2022_02.Part1IsBest | src/2022/2/index.ts:86-103 | no assignment of distinct signs scores more than the first answer |
| Day2022_02.ChooseSign | src/2022/2/index.ts:107-117 | the sign chosen in part 2 produces exactly the result the code asks for |
| Day2022_02.Part2Round | src/2022/2/index.ts:106-123 | a part-2 round scores between 1 and 9 |
| Day2022_02.Part2 | src/2022/2/index.ts:105-124 | the second answer for n rounds lies between n and 9n |
| Day2022_03.ToSet | src/2022/3/index.ts:26-28 | a `Set` of a pack's items holds each item once and exactly the items of the pack |
| Day2022_03.MakePack | src/2022/3/index.ts:20-29 | the two halves, cut at half the length, together hold exactly the items of the whole pack |
| Day2022_03.Intersection | src/2022/3/index.ts:43-45 | exactly the items in both sets, without repeats when the first set has none |
| Day2022_03.PriorityOfLetters | src/2022/3/index.ts:33-41 | 'a'..'z' have priorities 1..26, 'A'..'Z' 27..52, and distinct letters distinct priorities |
| Day2022_03.Duplicate | src/2022/3/index.ts:49-51 | the item taken is in both compartments; there is none exactly when the compartments share no item |
| Day2022_03.Part1 | src/2022/3/index.ts:47-55 | the first answer exists exactly when every pack has an item in both compartments |
| Day2022_03.Badge | src/2022/3/index.ts:61-66 | the item taken is in all three packs; there is none exactly when the three share no item |
| Day2022_03.GroupsAreWhole | src/2022/3/index.ts:58 | packs that split into whole groups of three number a multiple of three |
| Day2022_03.Part2 | src/2022/3/index.ts:57-70 | the second answer exists exactly when the packs split into consecutive groups of three that each share an item |
| Day2022_03.Part2NeedsWholeGroups | src/2022/3/index.ts:57-70 | a second answer needs a number of packs divisible by three |
| Day2022_04.ParseRange | src/2022/4/index.ts:23-25 | never refuses: the ends are `parseInt` of the first two '-'-separated pieces, NaN kept as None, and a missing second piece is `undefined` (None) |
| Day2022_04.ParseRangeExtraPiece | src/2022/4/index.ts:23-25 | a third piece is read and ignored: "1-2-3" is the range 1-2 |
| Day2022_04.ParseRangeLeadingDash | src/2022/4/index.ts:23-25 | a leading '-' is a separator, so "-3-5" has a NaN low end and a high end of 3 |
| Day2022_04.ParseRangeShow | src/2022/4/index.ts:23-25 | "lo-hi" written from two naturals parses back to that range, both ends numbers |
| Common.HexPrefixRead | src/2022/4/index.ts:24 | `parseInt` called without a radix reads "0x1F" in base 16, as 31 |
| Common.HexPrefixSigned | src/2022/4/index.ts:24 | the hexadecimal prefix is read after white space and a sign, and the digits stop at the first non-hexadecimal character: " -0Xag" is -10 |
| Common.HexPrefixAlone | src/2022/4/index.ts:24 | "0x" with no hexadecimal digit after it is NaN |
| Day2022_04.IncludesIsOrder | src/2022/4/index.ts:27-29 | `rangeIncludes` holds for a range and itself exactly when both its ends are numbers; it is transitive and antisymmetric, and for a well-formed range it is inclusion of its sections |
| Day2022_04.NaNCountsNowhere | src/2022/4/index.ts:27-48 | a range with a NaN or missing end is in no containment and no overlap, on either side of the pair, so no answer counts its pair |
| Day2022_04.PartiallyIsOverlap | src/2022/4/index.ts:31-33 | `rangeIncludesPartially` is symmetric and, for well-formed ranges, holds exactly when the ranges share a section |
| Day2022_04.CountContained | src/2022/4/index.ts:35-39 | the first answer counts at most all pairs |
| Day2022_04.CountOverlapping | src/2022/4/index.ts:41-48 | the second answer counts at most all pairs |
| Day2022_04.Part1AtMostPart2 | src/2022/4/index.ts:35-48 | with well-formed ranges the first answer never exceeds the second |
| Day2022_05.StackOf | src/2022/5/index.ts:38-49 | a stack read from the drawing holds no blank crate and no more crates than there are crate lines |
| Day2022_05.StackOfDrawn | src/2022/5/index.ts:38-49 | when every line reaches column 4s+1, each crate of stack s is the single character drawn at that column on one of the crate lines |
| Day2022_05.ParseStacks | src/2022/5/index.ts:24-52 | one stack per number on the last line, stack s read bottom-up from column 4s+1 of the lines above it, blanks skipped |
| Day2022_05.PerformMove9000 | src/2022/5/index.ts:71-78 | a move naming existing stacks (numbered from 1) performs `count` single-crate pops and pushes; any other move leaves the stacks alone, and fails unless its count is zero |
| Day2022_05.StepsMoveReversed | src/2022/5/index.ts:71-78 | with enough crates on a different source, the source loses its top `count` crates and the target gains them reversed; other stacks are unchanged |
| Day2022_05.StepsSameStack | src/2022/5/index.ts:71-78 | moving crates from a non-empty stack onto itself changes nothing |
| Day2022_05.PerformMove9001 | src/2022/5/index.ts:94-99 | a move naming existing stacks splices the top `count` crates off and pushes them; any other move leaves the stacks alone |
| Day2022_05.Move9001Block | src/2022/5/index.ts:94-99 | with enough crates, the source loses its top `count` crates and the target gains them in their order, others unchanged; onto itself nothing changes |
| Day2022_05.TotalUpdate | src/2022/5/index.ts:71-99 | replacing one stack changes the crate total by the difference of the two stack sizes |
| Day2022_05.MovesKeepTotal | src/2022/5/index.ts:71-99 | both cranes, given enough crates, keep the total number of crates |
| Day2022_05.TopStacksMessage | src/2022/5/index.ts:80-82 | with one-character top crates, the message has one character per stack, its top crate, in stack order |
| Day2022_05.ApplyAll | src/2022/5/index.ts:84-109 | the moves keep the number of stacks |
| Day2022_05.FeasibleKeepsTotal | src/2022/5/index.ts:84-109 | a rearrangement whose every move finds enough crates keeps the number of crates |
| Day2022_05.Rearrange | src/2022/5/index.ts:84-109 | the stacks end as the moves applied in order; the answer is their tops; a move naming a missing stack stops the run |
| Day2022_06.SetSizeBound | src/2022/6/index.ts:14 | a window's `Set` has at most as many items as the window, and exactly as many when its characters are pairwise distinct |
| Day2022_06.FindFrom | src/2022/6/index.ts:13-19 | the scan from index i returns the first all-distinct window end after i, or throws when there is none |
| Day2022_06.FindMarker | src/2022/6/index.ts:12-20 | the result n has n ≥ length, n ≤ the buffer length, the `length` characters before n pairwise distinct, and no smaller n qualifies; "Marker not found" exactly when no window qualifies |
| Day2022_07.SizeNonNegative | src/2022/7/index.ts:37-39 | a directory's size, the sum of its contents' sizes, is never negative when no file size is |
| Day2022_07.Subdirectories | src/2022/7/index.ts:31-35 | only directories of the contents are kept, never more than there are contents |
| Day2022_07.ListAll | src/2022/7/index.ts:137-145 | the list starts with the directory itself and holds only directories |
| Day2022_07.SmallMembers | src/2022/7/index.ts:114-129 | the directories kept are exactly those of size at most the limit |
| Day2022_07.SmallAppend | src/2022/7/index.ts:124-126 | filtering by size distributes over concatenation, the step that lets the recursive search append the matches of each subdirectory |
| Day2022_07.FindIsSmallOfAll | src/2022/7/index.ts:114-129 | the recursive search returns, in pre-order, exactly the directories of `listAllDirectories` of size at most the limit |
| Day2022_07.Part1IsSumOfSmall | src/2022/7/index.ts:131-135 | the first answer is the total size of all directories of at most 100000 |
| Day2022_07.LargeEnoughSizes | src/2022/7/index.ts:154-156 | every directory of at least the missing space contributes its size, and every size kept belongs to such a directory |
| Day2022_07.Part2 | src/2022/7/index.ts:147-161 | the answer is the size of some directory, at least the missing space, and no directory that frees enough is smaller |
| Day2022_07.AddAtContents | src/2022/7/index.ts:23-25 | adding content appends exactly that item to the current directory and keeps the current path and its prefixes valid |
| Day2022_07.ParentValid | src/2022/7/index.ts:96-99 | the parent of a directory other than the root is a directory |
| Day2022_07.ChildValid | src/2022/7/index.ts:100-105 | entering a subdirectory of the current directory gives a valid current directory, that subdirectory |
| Day2022_07.FindByName | src/2022/7/index.ts:27-29 | the index of the first content with the name, or none exactly when no content has it |
| Day2022_07.ParseEntry | src/2022/7/index.ts:88-94 | "dir NAME" gives an empty directory; otherwise a file whose size is the parsed number |
| Day2022_07.Step | src/2022/7/index.ts:84-108 | a command that succeeds leaves the current directory a directory of the tree |
| Day2022_07.AddEntries | src/2022/7/index.ts:85-95 | adding the listed entries keeps the current directory valid and in place |
| Day2022_07.CdUpFromRootFails | src/2022/7/index.ts:97-99 | `cd ..` at the root fails its assertion |
| Day2022_07.CdDownAndUp | src/2022/7/index.ts:96-105 | `cd NAME` succeeds exactly when the first content named NAME is a directory, enters it, and `cd ..` then returns to the same state |
| Day2022_07.TreeStaysRoot | src/2022/7/index.ts:80-109 | commands never replace the root directory "/" |
| Day2022_07.BuildDirectories | src/2022/7/index.ts:73-112 | succeeds exactly when the first command is `cd /` and every later command succeeds in order; the result is the tree they built, rooted at "/" |
| Day2022_08.Ray | src/2022/8/index.ts:22-29 | the heights between a tree and the edge in one direction, nearest first, as many as there are cells to the edge |
| Day2022_08.EdgeVisible | src/2022/8/index.ts:22-33 | a tree on the edge is always visible |
| Day2022_08.CountVisible | src/2022/8/index.ts:15-38 | the count of trees for which every tree towards some edge is strictly shorter |
| Day2022_08.FirstRowVisible | src/2022/8/index.ts:18-35 | every tree of the first row is counted |
| Day2022_08.VisibleUpToBounds | src/2022/8/index.ts:15-38 | the first answer for an n-by-n forest lies between n and n·n |
| Day2022_08.ViewingDistanceStops | src/2022/8/index.ts:47-77 | a viewing distance counts the shorter trees and then the first tree at least as tall, or reaches the edge |
| Day2022_08.ShorterSeesEdge | src/2022/8/index.ts:22-77 | a tree visible from an edge sees every tree up to that edge |
| Day2022_08.Look | src/2022/8/index.ts:47-77 | each counting loop returns the viewing distance in its direction |
| Day2022_08.ScenicScore | src/2022/8/index.ts:45-79 | the scenic score is the product of the four viewing distances |
| Day2022_08.EdgeScenicZero | src/2022/8/index.ts:47-79 | a tree on the edge scores 0 |
| Day2022_08.BestScenic | src/2022/8/index.ts:40-87 | the second answer is at least every tree's scenic score and is some tree's score, or 0 |
| Day2022_09.FromDirection | src/2022/9/index.ts:48-60 | R, L, U and D give unit steps on one axis; any other letter throws |
| Day2022_09.Initial | src/2022/9/index.ts:67-71 | a new rope has the requested number of knots, all at the origin and touching, and the origin recorded as a tail cell |
| Day2022_09.Rope.constructor | src/2022/9/index.ts:67-71 | every knot starts at (0, 0) and the origin is the one tail cell recorded |
| Day2022_09.Rope.Catchup | src/2022/9/index.ts:81-102 | the knots and recorded cells become those of the catch-up from the given knot |
| Day2022_09.PullTouches | src/2022/9/index.ts:90-99 | a knot within two cells that is pulled by the sign of each axis difference ends touching the knot in front and moves at most one cell on each axis |
| Day2022_09.CatchupRestoresTouching | src/2022/9/index.ts:81-102 | when only one pair of knots is apart, and by at most two cells, the catch-up from it leaves every adjacent pair touching |
| Day2022_09.CatchupRecordsTail | src/2022/9/index.ts:81-102 | after the catch-up the last knot stands on a recorded cell, whether it moved or not |
| Day2022_09.CatchupKeepsLength | src/2022/9/index.ts:81-102 | the catch-up keeps the number of knots and only adds recorded cells |
| Day2022_09.StepKeepsValid | src/2022/9/index.ts:104-112 | after each unit step of the head and its catch-up, every adjacent pair of knots touches, the tail's cell is recorded and no recorded cell is lost |
| Day2022_09.MoveKeepsValid | src/2022/9/index.ts:104-112 | a whole move keeps the rope touching and the recorded cells only grow |
| Day2022_09.Rope.Move | src/2022/9/index.ts:104-112 | a move is its number of head steps, each followed by the catch-up; an unknown direction throws before anything changes |
| Day2022_09.RunKeepsValid | src/2022/9/index.ts:115-133 | running all moves keeps the rope touching and never forgets a recorded cell |
| Day2022_09.CountTailVisits | src/2022/9/index.ts:115-133 | the answer is the number of distinct cells recorded over all moves, with 2 knots for part 1 and 10 for part 2 |
| Day2022_09.VisitsAtLeastOne | src/2022/9/index.ts:67-133 | the origin is always counted, so the answer is at least 1 |
| Day2022_10.TraceLength | src/2022/10/index.ts:9-60 | a program runs for the sum of its instructions' cycles, one for `noop` and two for `addx` |
| Day2022_10.TraceAppend | src/2022/10/index.ts:78-84 | running two programs in turn records the first's cycles and then the second's from the x the first left |
| Day2022_10.AddxTakesEffectAfter | src/2022/10/index.ts:55-65 | `addx v` shows the old x during both its cycles and the new x only from the next instruction on |
| Day2022_10.PixelLit | src/2022/10/index.ts:46-50 | a pixel is '#' exactly when x is within one of the cycle number modulo 40 |
| Day2022_10.SignalStrength | src/2022/10/index.ts:14-69 | the sum of 20·x₂₀ + 60·x₆₀ + … + 220·x₂₂₀, available only once 220 cycles have run |
| Day2022_10.CPU.constructor | src/2022/10/index.ts:41-44 | x starts at 1 with no cycles and no pixels |
| Day2022_10.CPU.Cycle | src/2022/10/index.ts:46-53 | a cycle appends exactly one pixel, drawn from x and the cycle's column, and one record of x, leaving x alone |
| Day2022_10.CPU.Execute | src/2022/10/index.ts:55-65 | an instruction records the old x for each of its cycles and only then changes x, keeping one pixel per record |
| Day2022_10.RunProgram | src/2022/10/index.ts:78-98 | the first answer is the signal strength of the whole program's trace and the screen is drawn from that trace |
| Day2022_11.ApplyOperation | src/2022/11/index.ts:75-90 | the new worry is the sum or product of the two operands, each the old worry or a constant |
| Day2022_11.ThrowOf | src/2022/11/index.ts:36-47 | an item's new worry is the relaxed result of the operation, and it goes to the success target exactly when that is divisible by the divisor |
| Day2022_11.Monkey.constructor | src/2022/11/index.ts:21-33 | a monkey starts with its items and settings and no inspections |
| Day2022_11.Monkey.ProcessItems | src/2022/11/index.ts:35-53 | one throw per item, in order; afterwards the monkey holds nothing and has one more inspection per item it held |
| Day2022_11.Deliver | src/2022/11/index.ts:115-117 | thrown items are appended to their targets in order; a target that is not a monkey throws |
| Day2022_11.Push | src/2022/11/index.ts:116 | pushing an item changes only the target monkey's items |
| Day2022_11.Round | src/2022/11/index.ts:112-119 | the monkeys end as the round of the value model: each monkey in order processes its items and each item is appended to its target |
| Day2022_11.DeliverAddsItems | src/2022/11/index.ts:115-117 | delivering adds exactly the thrown items to the monkeys' total |
| Day2022_11.RoundConservesItems | src/2022/11/index.ts:112-119 | a completed round keeps the total number of items |
| Day2022_11.RoundKeepsInspections | src/2022/11/index.ts:35-119 | inspection counts never fall, and each monkey from the current one on gains at least the items it held |
| Day2022_11.DivModUnique | src/2022/11/index.ts:39-156 | a quotient and remainder in range are the ones `/` and `%` give |
| Day2022_11.ModuloKeepsTest | src/2022/11/index.ts:39-156 | taking the worry modulo a multiple of a divisor keeps divisibility by that divisor |
| Day2022_11.DivisorDividesProduct | src/2022/11/index.ts:139-145 | every divisor divides their product, which is positive when they all are |
| Day2022_11.LcmKeepsEveryTest | src/2022/11/index.ts:139-158 | part 2's relaxation changes no monkey's throwing decision |
| Day2022_11.GetLcm | src/2022/11/index.ts:139-145 | a product exists exactly when there are monkeys |
| Common.LastIsMax | src/2022/11/index.ts:122 | the last entry of the sorted counts is one of the counts and no count exceeds it |
| Common.RemoveLargest | src/2022/11/index.ts:122-124 | removing the largest count leaves a permutation of the rest of the sorted counts |
| Common.SortedTopTwo | src/2022/11/index.ts:122-124 | the last two sorted counts are two distinct monkeys' counts that no other monkey exceeds |
| Day2022_11.MonkeyBusiness | src/2022/11/index.ts:121-125 | the product of the two largest inspection counts; fewer than two monkeys throw |
| Day2022_11.Simulate | src/2022/11/index.ts:127-137 | after the given number of rounds, the monkey business of the resulting counts; a failing round fails the run |
| Day2022_11.Part1 | src/2022/11/index.ts:147-151 | twenty rounds with the worry divided by three |
| Day2022_11.Part2 | src/2022/11/index.ts:153-159 | ten thousand rounds with the worry kept modulo the divisors' product |
| Day2022_12.HeightValues | src/2022/12/index.ts:14-24 | 'S' has the height of 'a' (0), 'E' that of 'z' (25), and a lower-case letter its offset from 'a' |
| Day2022_12.NeighboursMeaning | src/2022/12/index.ts:64-82 | a cell's neighbours are exactly its orthogonally adjacent cells in the grid that are at most one higher |
| Day2022_12.CellNeighbours | src/2022/12/index.ts:60-82 | the four bounded `checkNeighbour` calls build exactly the cell's neighbour set |
| Day2022_12.CheckNeighbours | src/2022/12/index.ts:14-23 | every vertical neighbour read exists exactly when all lines are equally long; otherwise reading `undefined` throws |
| Day2022_12.CellsBeforeMembers | src/2022/12/index.ts:46-48 | the loops visit exactly the grid's cells, line by line |
| Day2022_12.WithCharMembers | src/2022/12/index.ts:56-58 | the potential starts are exactly the cells holding 'a' |
| Day2022_12.LastWithMeaning | src/2022/12/index.ts:52-55 | the start (end) is the last cell holding 'S' ('E'), absent exactly when no cell holds it |
| Day2022_12.VisitCell | src/2022/12/index.ts:49-84 | one cell's visit keeps start, end, potential starts and graph equal to those of the cells visited so far |
| Day2022_12.BuildProblem | src/2022/12/index.ts:35-97 | succeeds exactly when the lines are equally long and an 'S' and an 'E' exist; the graph has a node per cell with its climbable neighbours, the start and end are the last 'S' and 'E', the potential starts the 'a' cells in order |
| Day2022_12.Part1 | src/2022/12/index.ts:99-105 | the steps of the found path, one fewer than its nodes; no path fails |
| Day2022_12.Part2 | src/2022/12/index.ts:107-119 | the smallest non-zero step count over the potential starts, none when every one is zero |
| Common.IndexOfMeaning | src/2022/13/index.ts:30-31 | -1 exactly when the character does not occur; otherwise the index of its first occurrence |
| Day2022_13.TokenEndMeaning | src/2022/13/index.ts:30-41 | an integer token holds no ',' or ']' and ends at the first of them or at the end of the line |
| Day2022_13.ParseData | src/2022/13/index.ts:10-54 | the cursor loop over a line from position 1 gives the parse of the line's rest with one open list |
| Day2022_13.GoInt | src/2022/13/index.ts:29-48 | a written integer followed by ',' or ']' is read as one token and pushed onto the innermost list |
| Day2022_13.ShowParses | src/2022/13/index.ts:15-48 | reading a written packet followed by a delimiter pushes exactly that packet onto the innermost open list |
| Day2022_13.ItemsParse | src/2022/13/index.ts:14-49 | reading comma-separated written items followed by ']' appends them in order to the innermost list |
| Day2022_13.ParseRoundTrip | src/2022/13/index.ts:10-54 | parsing a written packet list gives back the same packet |
| Day2022_13.Compare | src/2022/13/index.ts:71-97 | the answer is always -1, 0 or 1 |
| Day2022_13.CompareReflexive | src/2022/13/index.ts:71-97 | a packet compared with itself gives 0 |
| Day2022_13.CompareAntisymmetric | src/2022/13/index.ts:71-97 | swapping the two packets negates the answer |
| Day2022_13.CompareLift | src/2022/13/index.ts:71-97 | an integer compares exactly as the one-element list holding it |
| Day2022_13.CompareTransitive | src/2022/13/index.ts:71-97 | "not after" is transitive, and a chain of two steps is a tie only when both steps are ties |
| Day2022_13.CompareListsTransitive | src/2022/13/index.ts:75-96 | the element-wise list comparison is transitive in the same sense |
| Day2022_13.RightOrderTransitive | src/2022/13/index.ts:71-97 | a packet in the right order before one that is in the right order before a third is in the right order before it |
| Day2022_13.Part1 | src/2022/13/index.ts:99-110 | the loop's sum of indices plus their count is the sum of the 1-based numbers of the pairs not ordered -1 |
| Day2022_13.RightOrderSumBounds | src/2022/13/index.ts:99-110 | the part 1 answer lies between 0 and n(n+1)/2 |
| Day2022_13.EqualPairsCount | src/2022/13/index.ts:99-110 | pairs of identical packets all count, giving n(n+1)/2 |
| Day2022_13.DividersOrdered | src/2022/13/index.ts:113 | [[2]] is ordered before [[6]] |
| Day2022_13.DividerPositions | src/2022/13/index.ts:112-127 | both dividers sit at positions from 1 to the number of packets and the product is at least 2 |
| Day2022_13.AheadOfSkipsSelf | src/2022/13/index.ts:120-124 | a packet is never counted ahead of itself |
| Day2022_13.AheadOfCounts | src/2022/13/index.ts:120-124 | every packet ordered before another is counted ahead of it |
| Day2022_14.YsMembers | src/2022/14/index.ts:34-41 | the flattened y list holds exactly the y of every coordinate of every path |
| Day2022_14.HeightIsRange | src/2022/14/index.ts:46-56 | the grid has one row per entry of lodash `range(0, maxY + 1)`, which counts down for a negative end, and only its first row is row 0 |
| Day2022_14.CountDownRows | src/2022/14/index.ts:43-56 | the single point (5, -3) passes `assert(maxY)` and gets two rows, from `range(0, -2)` |
| Day2022_14.CreateGrid | src/2022/14/index.ts:33-86 | succeeds exactly when there is a y, the largest is not zero, and every segment is straight with its ends on the grid; the grid has maxY + 1 rows (-maxY - 1 for a negative maxY) of 1000 cells, rock exactly on the cells a segment covers (ends included), '+' at (500, 0) otherwise, air elsewhere |
| Day2022_14.DrawnUnique | src/2022/14/index.ts:45-85 | the cells drawn after the last path determine a grid of any height: it is the rock-covered grid with the hole and air elsewhere |
| Day2022_14.DrawPath | src/2022/14/index.ts:59-82 | one path draws exactly when all its segments are drawable, and adds exactly the cells they cover |
| Day2022_14.CoveredStep | src/2022/14/index.ts:58-83 | drawing one more segment adds exactly the cells it covers to the rock |
| Day2022_14.DrawSegment | src/2022/14/index.ts:63-81 | the cells of the segment from one end to the other become rock; every other cell is unchanged |
| Day2022_14.PutCount | src/2022/14/index.ts:117-183 | writing one cell adds one to the count of the new material and takes one off the old one's |
| Day2022_14.HoleOf | src/2022/14/index.ts:96 | the hole column is -1 or a cell of the top row holding '+' |
| Day2022_14.SettleAbyssRest | src/2022/14/index.ts:103-120 | a grain rests where it started or in an air cell it fell into, and only where down, down-left and down-right are all blocked |
| Day2022_14.SettlePlug | src/2022/14/index.ts:132-151 | above a floor a grain rests where it started or in an air cell below it, never in the floor row |
| Day2022_14.SettlePlugRest | src/2022/14/index.ts:133-144 | a grain above the floor rests only where down, down-left and down-right (within the width) hold no air |
| Day2022_14.PourAbyssKeeps | src/2022/14/index.ts:95-183 | pouring never overwrites rock or sand, the sand count never drops, and when a grain escapes the next one would escape too |
| Day2022_14.PourPlugKeeps | src/2022/14/index.ts:124-183 | pouring onto the floor never overwrites rock or sand, the sand count never drops, and it ends with sand in the hole |
| Day2022_14.Cave.AddFloor | src/2022/14/index.ts:88-93 | one row of air and one row of rock as wide as the top row are appended, so no air is left in the last row |
| Day2022_14.Cave.DripSandUntilAbyss | src/2022/14/index.ts:95-122 | the grid after the grain loop and whether a grain escaped are those of pouring grain after grain from the hole |
| Day2022_14.Cave.DripSandUntilPlugHole | src/2022/14/index.ts:124-154 | the grid after the loop is that of pouring grains onto the floor until one rests at the top |
| Day2022_14.Cave.RestingPlace | src/2022/14/index.ts:132-151 | the inner loop stops where a grain from the hole comes to rest above the floor |
| Day2022_14.WithFloor | src/2022/14/index.ts:88-93 | the floored grid keeps the original rows and adds one full row of air and one of rock as wide as the top row, so no air is left at the bottom |
| Day2022_14.Part1 | src/2022/14/index.ts:185-192 | succeeds exactly when the grid can be created with a top row (any maxY but -1) and a grain escapes within the fuel; the answer is the sand count after pouring into the drawn grid |
| Day2022_14.Part2 | src/2022/14/index.ts:194-203 | succeeds exactly when the grid can be created with a top row (any maxY but -1); the answer is the sand count after pouring onto the floored drawn grid until the hole is plugged |
| Day2022_15.DistanceProperties | src/2022/15/index.ts:48-50 | the Manhattan distance is symmetric and zero exactly between equal coordinates |
| Day2022_15.CoveredMeaning | src/2022/15/index.ts:59-62 | a cell is covered exactly when some sensor is at most its beacon distance away |
| Day2022_15.SensorAndBeaconCovered | src/2022/15/index.ts:13-63 | every sensor's cell and its beacon's cell are covered |
| Day2022_15.ScanRowAscending | src/2022/15/index.ts:52-64 | for bounds in order the scan has maxX-minX+1 entries and entry i says whether (minX+i, y) is covered |
| Day2022_15.Bounds | src/2022/15/index.ts:67-79 | the scan bounds lie beyond every beacon and every sensor's reach |
| Day2022_15.OccupiedXsMembers | src/2022/15/index.ts:82-90 | every occupied x is that of a sensor or a beacon on the row |
| Day2022_15.Part1 | src/2022/15/index.ts:66-95 | fails exactly for no sensors or a zero bound; otherwise the covered cells of the row minus the distinct sensor and beacon x positions on it, never negative |
| Day2022_15.CountCoveredXs | src/2022/15/index.ts:94 | the true entries of a scan number the covered cells it spans |
| Day2022_15.Part1NonNegative | src/2022/15/index.ts:82-94 | the occupied positions are covered cells within the bounds, so they never outnumber the covered cells |
| Day2022_15.IndexOfFalseMeaning | src/2022/15/index.ts:101 | -1 exactly when every entry is true; otherwise every earlier entry is true |
| Day2022_15.RowScanNone | src/2022/15/index.ts:99-102 | a row's scan finds nothing exactly when every cell of the row is covered |
| Day2022_15.RowScanFound | src/2022/15/index.ts:99-102 | a found index names an uncovered cell after covered ones |
| Day2022_15.FirstUncoveredNone | src/2022/15/index.ts:97-108 | the row-by-row search finds nothing exactly when every cell of the square is covered |
| Day2022_15.FirstUncoveredSome | src/2022/15/index.ts:97-108 | a found cell is uncovered and every cell before it, row by row, is covered |
| Day2022_15.Part2 | src/2022/15/index.ts:97-108 | the loop reports the index of the first uncovered cell within its row times 4000000 plus its y, or -1 |
| Day2022_15.Part2IndexNotCoordinate | src/2022/15/index.ts:101-103 | from a square not starting at 0 the report is not that of the uncovered cell |
| Day2022_15.Part2Corrected | src/2022/15/index.ts:97-108 | the loop reports the first uncovered cell's x times 4000000 plus its y, or -1 |
| Day2022_15.Part2CorrectedFinds | src/2022/15/index.ts:97-108 | the corrected report names an uncovered cell of the square, -1 only when all are covered, and equals the source's when the square starts at 0 |
| Day2022_16.MaxBy | src/2022/16/index.ts:91 | the chosen solution is one of the options and no option releases more |
| Day2022_16.PathSolutionsAt | src/2022/16/index.ts:62-70 | one recursive search per tunnel, one minute later, in the tunnels' order |
| Day2022_16.Gain | src/2022/16/index.ts:87 | opening a valve with more than one minute left releases at least its rate |
| Day2022_16.OptionsShape | src/2022/16/index.ts:62-89 | the options are the tunnel searches, then, only when the valve is not yet open and its rate is positive, the search after opening it plus (minutesLeft-1)·rate |
| Day2022_16.SearchFits | src/2022/16/index.ts:49-98 | one minute left releases 0 with the status unchanged; otherwise the release is never negative, the caller's status entries are kept unchanged, and each newly opened valve has a positive rate and was opened with 1 to minutesLeft-1 minutes left |
| Day2022_16.OptionFits | src/2022/16/index.ts:62-89 | every option has the properties of SearchFits |
| Day2022_16.SearchBest | src/2022/16/index.ts:42-108 | no allowed sequence of moves and openings releases more than the search reports |
| Day2022_16.FirstStepBound | src/2022/16/index.ts:62-91 | a plan's first step matches one of the weighed options, whose release bounds the plan's |
| Day2022_16.SearchAchieved | src/2022/16/index.ts:42-108 | the reported release is that of some allowed sequence of moves and openings |
| Day2022_16.OptionAchieved | src/2022/16/index.ts:62-89 | each weighed option's release is achieved by some allowed plan |
| Day2022_16.ValvesMap | src/2022/16/index.ts:111 | every valve is stored under its own name, every input valve's name is a key, and every stored valve comes from the input |
| Day2022_16.MapClosed | src/2022/16/index.ts:62-111 | when every tunnel names an input valve, every lookup the search makes succeeds |
| Day2022_16.Part1Best | src/2022/16/index.ts:110-124 | part1 is the largest release of any allowed 30-minute plan from "AA" with nothing open: no plan does better and some plan achieves it |
| Day2022_17.RocksShaped | src/2022/17/index.ts:17-34 | the five rocks are non-empty rectangles at most 5 wide with a solid cell in their bottom and top rows |
| Day2022_17.HitsFromMeaning | src/2022/17/index.ts:49-55 | the row-by-row scan from a position finds a hit exactly when some solid cell at or after it in scan order is occupied |
| Day2022_17.HitsMeaning | src/2022/17/index.ts:38-59 | a rock hits exactly when it sticks out of the chamber or one of its cells is occupied |
| Day2022_17.WillHit | src/2022/17/index.ts:38-59 | the method returns true exactly when the rock at (x, y) is out of range or overlaps an occupied cell |
| Day2022_17.FloorBlocks | src/2022/17/index.ts:62-65 | a rock in range cannot enter the floor row |
| Day2022_17.Dx | src/2022/17/index.ts:83-87 | a jet pushes exactly one column, left for '<' and right otherwise |
| Day2022_17.FallRests | src/2022/17/index.ts:82-99 | a rock that starts clear rests clear, in range, on something, no higher than it started, after at least one jet |
| Day2022_17.FallAdvances | src/2022/17/index.ts:83-84 | every fall takes at least one jet |
| Day2022_17.FallRock | src/2022/17/index.ts:78-99 | the loop's resting point and next jet are those of the fall from (2, yMax+4) |
| Day2022_17.PlaceRock | src/2022/17/index.ts:101-107 | the grid after marking is the old grid plus exactly the rock's cells |
| Day2022_17.Init | src/2022/17/index.ts:62-74 | the start state has the floor, top 0, nothing recorded, and 0 is its top row |
| Day2022_17.SpawnClear | src/2022/17/index.ts:78-79 | a rock appearing at x = 2, three free rows above the top, overlaps nothing |
| Day2022_17.SettleRests | src/2022/17/index.ts:78-99 | the settled rock overlaps nothing, would hit something one row lower, and rests in range no higher than it appeared |
| Day2022_17.SettleGood | src/2022/17/index.ts:101-109 | settling keeps the floor, never lowers the top, uses at least one jet and leaves the skip state alone |
| Day2022_17.SettleTop | src/2022/17/index.ts:101-133 | after settling, yMax is still the highest occupied row |
| Day2022_17.AddRockTop | src/2022/17/index.ts:101-109 | adding a rock's cells and taking the maximum with its top row keeps yMax the highest occupied row |
| Day2022_17.TopAfter | src/2022/17/index.ts:109 | the maximum of two tops is the top of the union of the two grids |
| Day2022_17.RockCellsSpan | src/2022/17/index.ts:101-109 | a rock's cells lie within its rows and one of them lies in its top row |
| Day2022_17.SkipTo | src/2022/17/index.ts:125-127 | the source's skip stays between the current index and noRocks |
| Day2022_17.Skip | src/2022/17/index.ts:122-128 | a skip changes only ySkipped and the index, moves the index as SkipTo (or SkipToCorrected) says, and never lowers ySkipped when the recorded height is below the top |
| Day2022_17.Fold | src/2022/17/index.ts:111-130 | the cycle search leaves the grid, the top and the jet index alone and moves the index forward, never beyond noRocks |
| Day2022_17.FoldGood | src/2022/17/index.ts:111-130 | the cycle search keeps the invariant, the recorded point stays before the next rock, and ySkipped never drops |
| Day2022_17.Step | src/2022/17/index.ts:75-130 | one pass keeps the invariant, does not move the index back or past noRocks, and lowers neither the top nor ySkipped |
| Day2022_17.RunAdvance | src/2022/17/index.ts:75 | the run from a state is the run from the state one pass produces, one rock later |
| Day2022_17.RunGood | src/2022/17/index.ts:75-131 | the loop keeps its invariant and never lowers the top; it stops at noRocks or one past it, exactly at noRocks with the corrected skip |
| Day2022_17.StepTop | src/2022/17/index.ts:75-130 | one pass keeps yMax the highest occupied row |
| Day2022_17.RunTop | src/2022/17/index.ts:75-131 | the whole loop keeps yMax the highest occupied row |
| Day2022_17.HeightMeaning | src/2022/17/index.ts:133 | the result is the skipped height plus the highest occupied row, never negative |
| Day2022_17.SkipToOvershoots | src/2022/17/index.ts:125-127 | with 5 rocks left and a cycle of 5 the source's skip lands on the last index, so the loop accounts for one rock more than asked |
| Day2022_17.SkipOntoLastOvershoots | src/2022/17/index.ts:75-130 | a pass whose skip lands on `noRocks` itself ends the loop at `noRocks + 1`, one rock more than asked for, and only the source's skip can land there |
| Day2022_17.SkipToCorrected | src/2022/17/index.ts:125-127 | the intended skip stays before noRocks |
| Day2022_17.SkipToCorrectedFits | src/2022/17/index.ts:125-127 | the intended skip jumps whole cycles, leaves no room for another, stops before noRocks, and differs from the source's exactly when the rocks left are a multiple of the cycle |
| Day2022_17.DropRock | src/2022/17/index.ts:76-109 | the fall and the marking give the grid, top and jet index Settle describes |
| Day2022_17.CycleCheck | src/2022/17/index.ts:111-130 | the sentinel updates are the cycle search Fold on the state they stand for |
| Day2022_17.Round | src/2022/17/index.ts:75-130 | the loop body's new variables are Step of the old ones |
| Day2022_17.Solve | src/2022/17/index.ts:61-134 | solve returns the height the model's run of noRocks rocks gives, with the source's skip |
| Day2022_17.Part1 | src/2022/17/index.ts:136-138 | the height after 2022 rocks, never negative |
| Day2022_17.Part2 | src/2022/17/index.ts:140-142 | the height after 10^12 rocks, never negative |
| Day2022_18.NeighbourBack | src/2022/18/index.ts:23-30 | each offset is followed by its opposite: stepping by an offset and then by its opposite returns to the cell |
| Day2022_18.OpenSides | src/2022/18/index.ts:41-51 | at most k of the first k offsets of a cube are open |
| Day2022_18.FreeFaceCount | src/2022/18/index.ts:40-52 | the free faces of the listed cubes are at most six per input line |
| Day2022_18.BuildGrid | src/2022/18/index.ts:33-37 | the grid holds exactly the cells of the input |
| Day2022_18.Part1 | src/2022/18/index.ts:32-55 | the count is the number of (line, offset) pairs whose neighbour is no cube, between 0 and six per line |
| Day2022_18.TwoCubes | src/2022/18/index.ts:32-55 | two adjacent cubes show 10 free faces, wherever they are |
| Day2022_18.BoxCellsMeaning | src/2022/18/index.ts:98-107 | a cell is in the box's cell set exactly when the bounds test lets it through |
| Day2022_18.Bounds | src/2022/18/index.ts:64-77 | every cube lies strictly inside minCoord..maxCoord, so the start corner is in the box and is no cube |
| Day2022_18.Expand | src/2022/18/index.ts:91-114 | each in-box neighbour that is a cube adds one to the count and each other in-box neighbour is queued; the queue keeps only in-box non-cube cells |
| Day2022_18.Flood | src/2022/18/index.ts:79-117 | the air found lies in the box, holds no cube and contains the corner; every in-box free neighbour of air is air; every air cell is reachable from the corner by free in-box steps; each air cell is expanded once and the count is the faces they touch |
| Day2022_18.Part2 | src/2022/18/index.ts:57-118 | the count is the number of cube faces touched by the air reachable from the corner, which is closed under free in-box steps, and never more than part 1's count; 0 with no cubes |
| Day2022_18.TouchesOfSize | src/2022/18/index.ts:98-113 | the inner loop's count for one cell is the size of the set of its touching faces |
| Day2022_18.OpenOfSize | src/2022/18/index.ts:41-51 | part 1's count for one cube is the size of the set of its open faces |
| Day2022_18.TouchCountSet | src/2022/18/index.ts:84-115 | when every air cell is expanded once, the flood's count is the number of touching (air, offset) pairs |
| Day2022_18.FreeSetCount | src/2022/18/index.ts:40-52 | the free faces of the distinct cubes are at most part 1's line-by-line count |
| Day2022_18.MirroredSize | src/2022/18/index.ts:23-30 | seeing every face from its other side keeps the number of faces |
| Day2022_18.ExteriorBound | src/2022/18/index.ts:84-115 | the faces the air touches are, seen from their cubes, distinct free faces: part 2 counts no more than part 1 |
| Day2022_18.ReachStep | src/2022/18/index.ts:98-113 | a free in-box neighbour of a cell reached from the corner is itself reached |
| Day2022_18.ReachQueue | src/2022/18/index.ts:98-113 | every cell the flood queues is reachable from the corner |
| Day2022_18.ClosedAfterExpand | src/2022/18/index.ts:84-115 | expanding the head of the queue keeps every in-box free neighbour of air either air or queued |
| Day2022_18.WalkInClosed | src/2022/18/index.ts:84-115 | a set closed under free in-box steps holds the end of every walk that starts in it |
| Day2022_18.ReachableInClosed | src/2022/18/index.ts:84-115 | every cell reachable from the corner lies in any closed set that holds the corner |
| Day2022_18.ExteriorLeast | src/2022/18/index.ts:79-117 | the flood's air is the least set that holds the corner and is closed under free in-box steps |
| Day2022_18.ExteriorUnique | src/2022/18/index.ts:79-117 | the exterior air and the part 2 count are determined by the cubes alone |
| Day2022_19.AddMaterials | src/2022/19/index.ts:65-67 | each material of the sum is the sum of the two counts |
| Day2022_19.SubtractMaterials | src/2022/19/index.ts:69-71 | each material of the difference is the difference of the two counts |
| Day2022_19.AddSubtract | src/2022/19/index.ts:65-71 | subtracting what was added gives the materials back |
| Day2022_19.Buildable | src/2022/19/index.ts:101-105 | a robot is buildable exactly when it is allowed and the materials before collection cover each of its costs |
| Day2022_19.Disallow | src/2022/19/index.ts:112-114 | after waiting, a robot is allowed exactly when it was allowed and was not buildable |
| Day2022_19.Optimize | src/2022/19/index.ts:73-152 | optimize returns the value of the uncached search, including its loop over robot kinds |
| Day2022_19.BestAchievable | src/2022/19/index.ts:82-152 | the result is the geode count of a build order of exactly timeLeft minutes that obeys the allowed, affordability and cap rules |
| Day2022_19.WaitAchievable | src/2022/19/index.ts:107-117 | the waiting branch's value is reached by waiting one minute and then following a valid order |
| Day2022_19.BuildAchievable | src/2022/19/index.ts:119-139 | each building branch's value is reached by building that robot now and then following a valid order |
| Day2022_19.BestFromAchievable | src/2022/19/index.ts:119-145 | the running maximum of the robot loop is always the geode count of some valid order |
| Day2022_19.FollowsKeepsStock | src/2022/19/index.ts:101-129 | along a valid order from non-negative stock, materials and robots stay non-negative, robots never decrease, and no robot but the geode robot passes max(start, cap) |
| Day2022_19.BestFromAtLeast | src/2022/19/index.ts:119-145 | the robot loop never lowers the waiting solution |
| Day2022_19.WaitBound | src/2022/19/index.ts:82-117 | the result is at least materials[3] + timeLeft * robots[3], and exactly that with timeLeft 0 or 1 |
| Day2022_19.BestFromCovers | src/2022/19/index.ts:119-145 | the robot loop ends at least at the value of building any buildable robot under its cap that it reaches |
| Day2022_19.LastMinuteUpper | src/2022/19/index.ts:82-86 | with one minute left no valid order beats the geodes held plus the geode robots' yield |
| Day2022_19.GeodesStep | src/2022/19/index.ts:99-139 | a valid order's value and validity carry over to its tail from the state after its first minute |
| Day2022_19.BestUnfold | src/2022/19/index.ts:99-145 | with two minutes or more the search is the robot loop started from the waiting value |
| Day2022_19.WaitUpper | src/2022/19/index.ts:107-117 | a valid order that waits first is worth no more than the search |
| Day2022_19.BuildUpper | src/2022/19/index.ts:119-145 | a valid order that builds first is worth no more than the search |
| Day2022_19.BestUpper | src/2022/19/index.ts:73-152 | no build order of timeLeft minutes that obeys the allowed, affordability and cap rules opens more geodes than the search returns |
| Day2022_19.BestIsMax | src/2022/19/index.ts:73-152 | the search returns exactly the most geodes over the valid build orders of timeLeft minutes |
| Day2022_19.MaxRobots | src/2022/19/index.ts:157-159 | each cap is the largest cost in that material over the four robots |
| Day2022_19.QualityMeaning | src/2022/19/index.ts:154-169 | a blueprint's quality is non-negative and is reached by a valid build order from one ore robot that never overspends |
| Day2022_19.QualityLevel | src/2022/19/index.ts:154-169 | qualityLevel is the search from no materials and one ore robot, never negative |
| Day2022_19.ScoreNonNeg | src/2022/19/index.ts:171-181 | the quality sum is never negative |
| Day2022_19.Part1 | src/2022/19/index.ts:171-181 | the score is the sum of each 24-minute level times its blueprint number, never negative |
| Day2022_19.Levels | src/2022/19/index.ts:184-191 | each entry is the blueprint's level for the given minutes, in order, and is non-negative |
| Day2022_19.ProductNonNeg | src/2022/19/index.ts:193-195 | a product of non-negative levels is non-negative |
| Day2022_19.Multiply | src/2022/19/index.ts:193-195 | the reduce from the first level is the product of all levels |
| Day2022_19.Part2 | src/2022/19/index.ts:183-196 | no result (undefined) exactly for no blueprints; otherwise the product of the first up to three 32-minute levels, never negative |
| Day2022_20.Link | src/2022/20/index.ts:58-64 | the `prev` and `next` links make one ring of all the entries in input order, each entry linked both ways (what `validateList` checks) |
| Day2022_20.MoveForward | src/2022/20/index.ts:48-56 | the entry reached is the one `next` leads to after exactly `distance` steps |
| Day2022_20.ForwardInRing | src/2022/20/index.ts:48-56 | in a ring, `distance` steps from the k-th entry reach the entry (k + distance) modulo the ring's size places on |
| Day2022_20.RotateRing | src/2022/20/index.ts:28-40 | a ring read from any of its entries is still one ring with both directions of links agreeing |
| Day2022_20.Unlink | src/2022/20/index.ts:80-81 | joining the moving entry's two neighbours leaves one ring of all the other entries, in the same order |
| Day2022_20.Detach | src/2022/20/index.ts:80-81 | after the two link updates the remaining entries form one ring |
| Day2022_20.Relink | src/2022/20/index.ts:83-87 | setting the entry's links to `current` and `current.next` and pointing those back at it puts the entry into the ring right after `current` |
| Day2022_20.Attach | src/2022/20/index.ts:83-87 | after the four link updates the ring holds the entry right after `current` and is one ring again |
| Day2022_20.MixPrep | src/2022/20/index.ts:77-78 | `moveForward(entry, netMove)` reaches the entry the moving one will follow, the netMove-th of the others counted from it |
| Day2022_20.MixEntry | src/2022/20/index.ts:77-90 | a move leaves one valid ring (the check of `validateList`) whose order is the entry taken out and put back `netMove` places on |
| Day2022_20.MixStepPerm | src/2022/20/index.ts:77-90 | a move keeps every entry of the ring, exactly once |
| Day2022_20.MixRoundPerm | src/2022/20/index.ts:68-93 | one round of the loop keeps every entry of the ring, exactly once |
| Day2022_20.MixUpToPerm | src/2022/20/index.ts:68-93 | after any number of rounds the ring holds each entry exactly once |
| Day2022_20.MixKeepsValues | src/2022/20/index.ts:68-93 | the values read along the mixed ring are the input values, each as many times as in the input |
| Day2022_20.MixOne | src/2022/20/index.ts:68-92 | one loop round keeps one valid ring, now in the order after that entry's move |
| Day2022_20.Mix | src/2022/20/index.ts:58-93 | after the loop the links form one valid ring in the order of all the moves, taken in input order |
| Day2022_20.JsRem | src/2022/20/index.ts:69 | JavaScript's remainder lies strictly between -n and n and takes the sign of the dividend |
| Day2022_20.JsRemIsRem | src/2022/20/index.ts:69 | the remainder is a % n for a non-negative dividend and -((-a) % n) for a negative one |
| Day2022_20.NetMove | src/2022/20/index.ts:69-76 | the net move is never negative (the assertion on line 76) and is less than the list's length |
| Day2022_20.NetMoveSmall | src/2022/20/index.ts:69-73 | for values smaller in size than the list the net move agrees with the value modulo the n - 1 other entries |
| Day2022_20.NetMoveMisses | src/2022/20/index.ts:69-73 | as written, a 3 in a list of three entries has net move 0 and stays, though three steps among two others is one step |
| Day2022_20.CorrectedNet | src/2022/20/index.ts:69-73 | the corrected net move is the value modulo n - 1, between 0 and n - 2 |
| Day2022_20.FirstZero | src/2022/20/index.ts:95-98 | the position found holds a 0 and no earlier position does |
| Day2022_20.HasZero | src/2022/20/index.ts:95-98 | when the list holds a 0, the mixed ring meets one |
| Day2022_20.FromFirstRing | src/2022/20/index.ts:95 | the ring read from entry 0 is a valid ring that meets the value 0 |
| Day2022_20.FindZero | src/2022/20/index.ts:95-98 | the search from entry 0 stops at the first entry holding 0 |
| Day2022_20.StepOn | src/2022/20/index.ts:100-102 | `moveForward` by `step` from the entry k places round reaches the entry k + step places round |
| Day2022_20.ThreeOn | src/2022/20/index.ts:100-106 | the sum is of the values 1, 2 and 3 times `step` places after the 0 |
| Day2022_20.Coordinates | src/2022/20/index.ts:95-106 | the answer is the sum of the values 1000, 2000 and 3000 places after the first 0 met from entry 0 |
| Day2022_20.Part1 | src/2022/20/index.ts:58-107 | with a 0 in the list the answer is the grove sum of the ring mixed as written |
| Day2022_22.TurnTable | src/2022/22/index.ts:18-39 | a right and a left turn undo each other, four right turns are no turn, each right turn adds one to the facing score modulo 4, and the score tells the facing apart |
| Day2022_22.Get | src/2022/22/index.ts:48-56 | a cell has a character exactly when its character in the map is not a space |
| Day2022_22.First | src/2023/grid.ts:3-14 | the first flagged index, with none before it; none exactly when nothing is flagged |
| Day2022_22.Last | src/2023/grid.ts:3-14 | the last flagged index, with none after it; none exactly when nothing is flagged |
| Day2022_22.Extent | src/2023/grid.ts:3-14 | the range is empty exactly when nothing is flagged, else both ends are flagged and every flagged index lies between them |
| Day2022_22.RowExtent | src/2022/22/index.ts:94-104 | the ends of a row's range are cells of that row |
| Day2022_22.ColumnExtent | src/2022/22/index.ts:108-118 | the ends of a column's range are cells of that column |
| Day2022_22.InRow | src/2022/22/index.ts:94-104 | every cell lies within its row's range, so the range of the row the walker is on is never empty |
| Day2022_22.InColumn | src/2022/22/index.ts:108-118 | every cell lies within its column's range, so the range of the column the walker is on is never empty |
| Day2022_22.WrapBack | src/2022/22/index.ts:91-119 | within a range a step down and a step up stay within it and undo each other, wrapping included |
| Day2022_22.RowBack | src/2022/22/index.ts:91-104 | a horizontal step off the row's end wraps to its other end, and the step the other way comes back |
| Day2022_22.ColumnBack | src/2022/22/index.ts:105-119 | a vertical step off the column's end wraps to its other end, and the step the other way comes back |
| Day2022_22.CandidateBack | src/2022/22/index.ts:91-119 | from any cell, the cell a step leads to leads back to it when facing the other way |
| Day2022_22.Advance | src/2022/22/index.ts:121-124 | a step keeps the facing and either stays put or lands on a '.' cell |
| Day2022_22.AdvanceReverses | src/2022/22/index.ts:88-124 | a step taken from an open cell is undone by a step in the opposite facing |
| Day2022_22.Ahead | src/2022/22/index.ts:87-125 | steps keep the facing and, from a cell of the board, never leave the board |
| Day2022_22.StartIsTopLeft | src/2022/22/index.ts:73-79 | a board with any cell has a start, and it lies on the topmost row with a cell and left of every other cell of that row |
| Day2022_22.StartIsCell | src/2022/22/index.ts:73-79 | the start is a cell of the board, facing right |
| Day2022_22.FollowOnBoard | src/2022/22/index.ts:81-127 | from a cell of the board, any sequence of turns and moves ends on a cell of the board |
| Day2022_22.WalkEndsOnBoard | src/2022/22/index.ts:73-127 | the walk from the start ends on a cell of the board |
| Day2022_22.PasswordParts | src/2022/22/index.ts:129 | for columns below 249 the password's thousands give the row and its remainder gives the column and the facing score |
| Day2022_22.PasswordUnique | src/2022/22/index.ts:129 | for columns below 249 two final states with the same password are the same state |
| Day2022_22.Step | src/2022/22/index.ts:88-124 | one pass of the inner loop is one step as `Advance` defines it |
| Day2022_22.Steps | src/2022/22/index.ts:87-125 | the inner loop takes `steps` steps |
| Day2022_22.Walk | src/2022/22/index.ts:81-127 | the loop over the movements ends in the state the movements lead to from the start |
| Day2022_22.Part1 | src/2022/22/index.ts:72-130 | the result is the password of the walk from the start, and none on a board without cells |
| Day2022_23.AloneIff | src/2022/23/index.ts:16-53 | all four directions' three cells are free exactly when the eight cells around the elf are free |
| Day2022_23.ConsideredAll | src/2022/23/index.ts:102-103 | in every round the four directions looked at are the four directions, each once |
| Day2022_23.ValidAll | src/2022/23/index.ts:102-113 | all k directions looked at are valid exactly when each of them is free |
| Day2022_23.ValidFirst | src/2022/23/index.ts:102-119 | the first valid direction is the first free one in the round's order |
| Day2022_23.FreeAll | src/2022/23/index.ts:102-113 | the four looked at are free exactly when north, south, west and east are |
| Day2022_23.ProposalIs | src/2022/23/index.ts:100-131 | an elf proposes nothing when it is alone or no direction is free, and otherwise the step in the first free direction |
| Day2022_23.ProposalFree | src/2022/23/index.ts:115-124 | a proposed cell is empty and is not the elf's own cell |
| Day2022_23.FirstFreeIsFree | src/2022/23/index.ts:102-113 | the first free direction found has its three cells free |
| Day2022_23.PriorityTurns | src/2022/23/index.ts:103 | round r looks at direction r mod 4 first, and proposals repeat every four rounds |
| Day2022_23.ValidTurns | src/2022/23/index.ts:103 | the valid directions of round r+4 are those of round r |
| Day2022_23.Propose | src/2022/23/index.ts:100-124 | the direction loop and the test after it give the elf's proposal |
| Day2022_23.TallySnoc | src/2022/23/index.ts:126-130 | one more proposal adds one to its cell's count in `nextGrid` |
| Day2022_23.TallyCount | src/2022/23/index.ts:126-130 | `nextGrid` counts, for each cell, the elves that proposed it |
| Day2022_23.CountTwo | src/2022/23/index.ts:126-130 | two proposals of one cell give it a count of at least two |
| Day2022_23.CountOne | src/2022/23/index.ts:126-130 | a proposed cell has a count of at least one |
| Day2022_23.MovesIffAlone | src/2022/23/index.ts:137-143 | an elf moves exactly when it proposed a cell no other elf proposed |
| Day2022_23.TargetsElsewhere | src/2022/23/index.ts:121-124 | no elf proposes the cell it stands on |
| Day2022_23.RoundApart | src/2022/23/index.ts:137-149 | a round keeps the elves on distinct cells |
| Day2022_23.MovesZero | src/2022/23/index.ts:136-143 | no moves were counted exactly when every elf is where it was |
| Day2022_23.MovedNone | src/2022/23/index.ts:136-143 | none of the first n elves moved exactly when each of them is where it was |
| Day2022_23.OccSize | src/2022/23/index.ts:88-91 | elves on distinct cells fill as many grid cells as there are elves |
| Day2022_23.OccAppend | src/2022/23/index.ts:88-91 | setting one more elf's cell adds that cell to the grid |
| Day2022_23.ProposeAll | src/2022/23/index.ts:99-132 | the first pass sets every elf's target to its proposal and `nextGrid` to the tally of the proposals |
| Day2022_23.Resolve | src/2022/23/index.ts:134-149 | the second pass moves the elves that were alone on their target, resets every target, fills the new grid with the elves' cells and counts the moves |
| Day2022_23.ResolveOne | src/2022/23/index.ts:138-148 | one elf lands on its target when its count is one and stays otherwise; it moved exactly when its cell changed |
| Day2022_23.Round | src/2022/23/index.ts:97-149 | one round gives the elves after the round, the grid of their cells and the number of elves that moved |
| Day2022_23.PlayedIsAfter | src/2022/23/index.ts:97-149 | the fuel-cut round is the round |
| Day2022_23.AfterLocations | src/2022/23/index.ts:97-149 | a round depends only on where the elves stand |
| Day2022_23.PlayedApart | src/2022/23/index.ts:137-149 | one round keeps the elves on distinct cells |
| Day2022_23.SimulateApart | src/2022/23/index.ts:93-157 | however many rounds, elves on distinct cells stay so and fill as many cells as there are elves |
| Day2022_23.Settled | src/2022/23/index.ts:151-155 | after a round that moved no elf, the same round moves no elf again |
| Day2022_23.SimulateRounds | src/2022/23/index.ts:96-157 | `move` plays at least one round and no more than `maxRounds` |
| Day2022_23.SimulateStops | src/2022/23/index.ts:151-155 | `move` stops at `maxRounds`, or else on a round after which the elves stay put |
| Day2022_23.SimulateCapped | src/2022/23/index.ts:151-155 | with a cap, `move` always finishes within the capped number of rounds |
| Day2022_23.Move | src/2022/23/index.ts:84-157 | the grid is filled from the elves, then rounds are played until one moves no elf or the cap is reached; the grid returned holds the elves' cells |
| Day2022_23.Bounds | src/2022/23/index.ts:162-163 | the rectangle holds every elf and each of its four sides touches an elf |
| Day2022_23.InColumn | src/2022/23/index.ts:162-167 | a cell is in a column range exactly when its x matches and its y is in range |
| Day2022_23.InCells | src/2022/23/index.ts:162-167 | a cell is in the rectangle exactly when both its coordinates are in range |
| Day2022_23.ColumnSize | src/2022/23/index.ts:162-167 | a column range has as many cells as its height |
| Day2022_23.CellsSize | src/2022/23/index.ts:162-167 | the rectangle has width times height cells |
| Day2022_23.ColumnApart | src/2022/23/index.ts:162-167 | the last column shares no cell with the columns before it |
| Day2022_23.AreaStep | src/2022/23/index.ts:165-167 | the area is the area without the last column plus the height |
| Day2022_23.EmptyGround | src/2022/23/index.ts:165-169 | with elves on distinct cells, area less elves is the number of empty cells of the rectangle |
| Day2022_23.GroundedCounts | src/2022/23/index.ts:159-170 | part 1's answer is the number of empty cells in the elves' rectangle after the rounds |
| Day2022_23.Part1 | src/2022/23/index.ts:159-170 | ten capped rounds, then the rectangle's area less the elves |
| Day2022_23.Spreading | src/2022/23/index.ts:159-170 | the capped rounds, then the rectangle's area less the elves; none without elves |
| Day2022_23.Part2 | src/2022/23/index.ts:172-176 | the number of the first round in which no elf moves, when the fuel suffices |
| Day2022_24.MoveDist | src/2022/24/index.ts:24-32 | each of the five moves, staying included, changes the distance to the target by at most one |
| Day2022_24.JsRem | src/2022/24/index.ts:76 | JavaScript's `%`: smaller than the divisor in size and carrying the dividend's sign |
| Day2022_24.WrapIs | src/2022/24/index.ts:76 | the doubled JavaScript remainder plus one is the mathematical `(p - 1) mod length + 1` for every length of at least one |
| Day2022_24.CalculatorRange | src/2022/24/index.ts:72-92 | a wind's calculator always gives a cell in `[1, length]` of its row or column |
| Day2022_24.WrapPeriodic | src/2022/24/index.ts:76 | wrapping is unchanged by a shift of one full length |
| Day2022_24.CalculatorPeriodic | src/2022/24/index.ts:72-92 | a wind is back where it was after one full length of minutes |
| Day2022_24.Earlier | src/2022/24/index.ts:168-173 | of two answers, one of them, none only when both are none, and no later than either |
| Day2022_24.SolveSearch | src/2022/24/index.ts:101-179 | the loop over the five moves, keeping the best answer so far, computes the recursive search |
| Day2022_24.Blocked | src/2022/24/index.ts:142-156 | a move is blocked exactly when some wind of the column or row is on the cell at `time` |
| Day2022_24.BestIsEarliest | src/2022/24/index.ts:127-178 | the search's answer is none exactly when no open move leads anywhere, and otherwise is the answer of one open move and no later than any other |
| Day2022_24.SolveBounds | src/2022/24/index.ts:111-119 | an answer is never earlier than `time` plus the Manhattan distance left, so none comes when that exceeds `maxTime`, and never later than `maxTime` |
| Day2022_24.SolveCut | src/2022/24/index.ts:101-179 | a search with a smaller bound finds the larger bound's answer when it fits and none otherwise |
| Day2022_24.HoleFromFirst | src/2022/24/index.ts:184-188 | the first non-wall column from `x` on; none exactly when every column to the end is a wall |
| Day2022_24.FindHole | src/2022/24/index.ts:181-191 | the first non-wall cell of the row, and an error exactly when there is none |
| Day2022_24.Found | src/2022/24/index.ts:193-221 | once some bound finds an answer, every bound finds that same answer or none when it is too small |
| Day2022_24.WayTail | src/2022/24/index.ts:147-191 | a way less its first minute is a way from the cell entered in that minute, and that first move is one of the five moves onto an open cell |
| Day2022_24.SolveSound | src/2022/24/index.ts:147-191 | every answer of the search is the arrival time of a way through open cells that ends on the target |
| Day2022_24.SolveVia | src/2022/24/index.ts:160-188 | when a move enters an open cell from which the search finds an answer, the search from the cell before finds one no later |
| Day2022_24.SolveComplete | src/2022/24/index.ts:147-191 | for any way to the target arriving within the bound, the search finds an answer no later than that way |
| Day2022_24.ArrivesEarliest | src/2022/24/index.ts:147-221 | the time every bounded search agrees on is reached by some way, and no way reaches the target earlier |
| Day2022_24.SolveIteratively | src/2022/24/index.ts:193-221 | the answer, plus the free last minute, is the time every bounded search agrees on and the earliest arrival over all ways leaving at startTime |
| Day2022_24.Part1 | src/2022/24/index.ts:223-228 | fails exactly when a hole is missing; otherwise the earliest trip from the top hole to the bottom hole |
| Day2022_24.Part2 | src/2022/24/index.ts:230-239 | three earliest trips, each leaving the minute the previous one arrived |
| Day2022_25.DigitValue | src/2022/25/index.ts:28-36 | '2', '1', '-' and '=' add 2, 1, -1 and -2 times their weight; any other character adds nothing |
| Day2022_25.ValueCons | src/2022/25/index.ts:25-37 | a digit is weighted by 5 to the power of the number of digits to its right |
| Day2022_25.ToDecimal | src/2022/25/index.ts:22-40 | the loop over the reversed digits computes the number the string stands for |
| Day2022_25.ValueBounds | src/2022/25/index.ts:22-40 | `k` of the five digits stand for a number less than half of 5^k in size, and more than half of 5^(k-1) when the lead is not '0' |
| Day2022_25.Shorter | src/2022/25/index.ts:22-40 | of two canonical strings, the shorter stands for the number smaller in size |
| Day2022_25.Unique | src/2022/25/index.ts:42-78 | two canonical strings for the same number are equal, so `fromDecimal` inverts `toDecimal` on the strings it writes |
| Day2022_25.Zero | src/2022/25/index.ts:58-61 | the only canonical string for 0 is empty, so `fromDecimal(0)` writes nothing |
| Day2022_25.RoundRange | src/2022/25/index.ts:48-68 | the rounded count is one of the five digits exactly when the remainder is less than two and a half times the weight in size |
| Day2022_25.RoundRest | src/2022/25/index.ts:48-52 | after subtracting the rounded count, less than half the weight remains |
| Day2022_25.Push | src/2022/25/index.ts:54-66 | pushing a digit, but no leading '0', keeps the string canonical and moves its value up one position |
| Day2022_25.Encode | src/2022/25/index.ts:42-72 | with the invariant that the input is the remainder plus the digits so far at their weights: fails exactly when the number does not fit, and otherwise writes a canonical string for it |
| Day2022_25.FromDecimal | src/2022/25/index.ts:42-72 | over positions 100 down to 0: fails exactly when the number is not less than half of 5^101 in size; otherwise the canonical string whose value is the input, so `toDecimal(fromDecimal(n)) = n` |
| Day2022_25.Part1 | src/2022/25/index.ts:74-78 | the canonical string of the sum of the numbers' values, failing exactly when the sum does not fit |
| Day2023_01.WordsAt | src/2023/1/index.ts:38-43 | the values pushed for the words starting at a position are word values from 1 to 9 |
| Day2023_01.At | src/2023/1/index.ts:31-43 | a position gives values from 0 to 9 |
| Day2023_01.LineToDigits | src/2023/1/index.ts:28-47 | the character loop yields, position by position, what each position gives |
| Day2023_01.PushWords | src/2023/1/index.ts:38-43 | the word loop pushes the value of every word starting at the position, in key order |
| Day2023_01.AtIs | src/2023/1/index.ts:32-43 | a decimal digit gives its value; otherwise every word starting there gives its value, overlapping words included; a position with neither gives nothing |
| Day2023_01.FirstDigit | src/2023/1/index.ts:31-45 | the first digit of a line is the one given by the first position that gives any |
| Day2023_01.LastDigit | src/2023/1/index.ts:31-45 | the last digit of a line is the last one given by the last position that gives any |
| Day2023_01.DigitsRange | src/2023/1/index.ts:28-47 | every digit of a line lies in [0, 9] |
| Day2023_01.Calibration | src/2023/1/index.ts:52-57 | fails exactly when the line has no digits; otherwise ten times the first plus the last, a value in [0, 99] |
| Day2023_01.Total | src/2023/1/index.ts:52-59 | succeeds exactly when every line has a digit |
| Day2023_01.TotalRange | src/2023/1/index.ts:52-59 | the sum lies in [0, 99 times the number of lines] |
| Day2023_01.SumCalibrations | src/2023/1/index.ts:49-62 | the sum of the lines' calibration values, or the failure of the first line without digits |
| Day2023_01.FirstFailure | src/2023/1/index.ts:54 | the first line without digits decides the failure |
| Day2023_01.TotalIsSum | src/2023/1/index.ts:59 | when every line has digits, the answer is the sum of the calibration values |
| Day2023_02.AllColors | src/2023/2/index.ts:5-6 | the three colours are all listed |
| Day2023_02.IsPossible | src/2023/2/index.ts:50-63 | true exactly when no grab has a count above its colour's limit; a colour missing from a grab, or a count of 0, is not checked |
| Day2023_02.PossibleIdsAre | src/2023/2/index.ts:50-65 | the filter keeps the id of every possible game and only those |
| Day2023_02.Part1 | src/2023/2/index.ts:41-68 | the sum of the ids of the possible games |
| Day2023_02.MaxCount | src/2023/2/index.ts:73-79 | the largest count of a colour starts at 0 and never goes below it |
| Day2023_02.MaxCountIs | src/2023/2/index.ts:73-79 | the largest count is at least every count of the colour, and is 0 or one of them |
| Day2023_02.Raised | src/2023/2/index.ts:76-78 | `Math.max` of the count and the running maximum, for a colour the grab names |
| Day2023_02.RaiseAll | src/2023/2/index.ts:76-78 | every colour the grab names has its maximum raised to its count, and the others are kept |
| Day2023_02.GamePower | src/2023/2/index.ts:73-84 | the product of the three largest counts |
| Day2023_02.PowerNonNegative | src/2023/2/index.ts:74-81 | the power is never negative, as each maximum starts at 0 |
| Day2023_02.PossibleWithin | src/2023/2/index.ts:50-84 | a game is possible exactly when each colour's largest count is within the bag |
| Day2023_02.Powers | src/2023/2/index.ts:73-84 | one power per game, in order |
| Day2023_02.Part2 | src/2023/2/index.ts:70-89 | the sum of the games' powers |
| Day2023_03.RunEnd | src/2023/3/index.ts:62-69 | the end of the digits from a position: every position before it is a digit and it is the row's end or a non-digit |
| Day2023_03.FindRunEnd | src/2023/3/index.ts:62-69 | the `xEnd` loop stops at that end |
| Day2023_03.Runs | src/2023/3/index.ts:58-105 | the runs the scan meets are non-empty spans of digits that cannot be extended to the right, and the scan resumes at each run's end |
| Day2023_03.RunsLeftMaximal | src/2023/3/index.ts:58-105 | no run can be extended to the left either |
| Day2023_03.RunsOrdered | src/2023/3/index.ts:101 | the runs come in order and apart, so no number is read twice |
| Day2023_03.RunsCover | src/2023/3/index.ts:58-105 | every digit of a row lies in some run |
| Day2023_03.RunsMaximal | src/2023/3/index.ts:58-105 | the runs of a row are exactly its maximal runs of digits, covering every digit |
| Day2023_03.Column | src/2023/3/index.ts:83-84 | the cells checked in one column, one per row of `yChecks`, in order |
| Day2023_03.RingFromIs | src/2023/3/index.ts:77-82 | the ring from a column on holds exactly the cells above and below to `xEnd`, and the number's own row at its two ends |
| Day2023_03.RingIs | src/2023/3/index.ts:77-82 | the neighbour ring is the rows above and below from `xStart - 1` to `xEnd`, plus the two cells beside the number |
| Day2023_03.FirstSymbolIs | src/2023/3/index.ts:42-44 | the usage found holds a symbol (defined, not '.', not a digit) at a ring cell before which no cell holds one; none is found exactly when no cell does |
| Day2023_03.FirstSymbolAppend | src/2023/3/index.ts:77-99 | the first symbol of two stretches of cells is the first one's, if any, else the second's |
| Day2023_03.CheckColumn | src/2023/3/index.ts:83-98 | the inner loop of `checkLoop` finds the first symbol of its column |
| Day2023_03.FindSymbol | src/2023/3/index.ts:77-99 | `checkLoop` finds the first symbol of the whole ring, stopping there |
| Day2023_03.ScanIsRuns | src/2023/3/index.ts:58-105 | the parts of a row are one part or none per maximal run, in order |
| Day2023_03.ScanRow | src/2023/3/index.ts:58-105 | the `xStart` loop yields the row's parts: each number with the first symbol on its ring |
| Day2023_03.ExtractParts | src/2023/3/index.ts:46-109 | the parts row by row; an empty grid fails the assertion |
| Day2023_03.Numbers | src/2023/3/index.ts:115 | one number per part, in order |
| Day2023_03.Part1 | src/2023/3/index.ts:111-117 | the sum of the part numbers; fails only on an empty grid |
| Day2023_03.GearParts | src/2023/3/index.ts:123 | keeps exactly the parts whose symbol is '*' |
| Day2023_03.Locations | src/2023/3/index.ts:125-128 | the group keys: each location of a part exactly once |
| Day2023_03.Group | src/2023/3/index.ts:125-128 | a group holds exactly the parts at its location |
| Day2023_03.Ratios | src/2023/3/index.ts:130-136 | one ratio per group: the product of its two parts when it has exactly two, else 0 |
| Day2023_03.Part2 | src/2023/3/index.ts:119-138 | the sum of the gear ratios; fails only on an empty grid |
| Day2023_04.IntersectionIs | src/2023/4/index.ts:39-41 | the matches are exactly the winning numbers that are held, each counted once |
| Day2023_04.IntersectionOrder | src/2023/4/index.ts:39-41 | the matches come in order of first occurrence among the winning numbers |
| Day2023_04.IntersectionEmpty | src/2023/4/index.ts:39-41 | there are no matches exactly when no winning number is held |
| Day2023_04.PointsDouble | src/2023/4/index.ts:46-53 | no match scores 0, one scores 1, and each further match doubles the points |
| Day2023_04.CardPointsAre | src/2023/4/index.ts:46-53 | a card scores exactly when it holds a winning number |
| Day2023_04.CardPoints | src/2023/4/index.ts:46-53 | one point total per card, in order |
| Day2023_04.Part1 | src/2023/4/index.ts:43-57 | the sum of the points, never negative |
| Common.SumNumsFinite | src/2023/4/index.ts:71 | a sum is a number exactly when every term is, NaN otherwise |
| Common.DefinedEmpty | src/2023/4/index.ts:67-71 | lodash `sum` skips `undefined` entries: none is left exactly when all are `undefined` |
| Common.LodashSum | src/2023/4/index.ts:71 | a defined sum adds the defined entries |
| Common.LodashSumUndefined | src/2023/4/index.ts:71 | the sum is `undefined` exactly for a non-empty list of `undefined` |
| Day2023_04.MatchCounts | src/2023/4/index.ts:65 | one match count per card, in order |
| Day2023_04.Others | src/2023/4/index.ts:67-69 | the values of the copied cards, `undefined` past the last card |
| Day2023_04.OtherValues | src/2023/4/index.ts:67-69 | `matches.map` looks up the `m` cards after the card |
| Day2023_04.LookupOthers | src/2023/4/index.ts:64-69 | with the later cards' values stored, the lookups give their values and `undefined` past the last card |
| Day2023_04.Store | src/2023/4/index.ts:73 | storing a card's value extends the stored values by that card |
| Day2023_04.Part2 | src/2023/4/index.ts:59-78 | the loop from the last card to the first stores each card's value, and the answer is their sum |
| Day2023_04.ValueRecurrence | src/2023/4/index.ts:64-74 | when its copies exist, a card's value is one plus the values of the next m cards |
| Day2023_04.ValuesAtLeastOne | src/2023/4/index.ts:71 | when every copy exists, every card is worth at least 1 |
| Day2023_04.SumAtLeast | src/2023/4/index.ts:76 | values of at least 1 sum to at least their count |
| Day2023_04.Part2AtLeastCards | src/2023/4/index.ts:71-77 | when every copy exists, part 2 is at least the number of cards |
| Day2023_04.LastCardNaN | src/2023/4/index.ts:67-71 | a last card with a match adds 1 to `undefined`, so its value and part 2 are NaN |
| Day2023_04.ValuesSuffix | src/2023/4/index.ts:64-74 | a card's value does not depend on the cards before it |
| Day2023_05.SplitEntry | src/2023/5/index.ts:66-98 | one entry against one mapping pushes exactly the pieces `Split` describes onto the next stack and onto the result |
| Day2023_05.SplitAll | src/2023/5/index.ts:64-100 | the inner loop builds the next stack and the emitted pieces of `Step` over the whole stack |
| Day2023_05.MapRange | src/2023/5/index.ts:56-107 | the mapper closure returns the emitted pieces then the stack left, or fails its length assertion, as `Mapper` says |
| Day2023_05.SplitDisjoint | src/2023/5/index.ts:70-73 | an entry strictly beyond either end of the window passes on unchanged and nothing is emitted |
| Day2023_05.SplitPositive | src/2023/5/index.ts:76-97 | apart from a whole entry passed on, every piece passed on or emitted has a positive length |
| Day2023_05.SplitCovers | src/2023/5/index.ts:75-97 | each number of the entry inside the window is emitted shifted by destinationStart - sourceStart, and each number outside it is passed on |
| Day2023_05.SplitSound | src/2023/5/index.ts:75-97 | everything emitted is the shifted image of a number of the entry in the window, and everything passed on is a number of the entry outside it |
| Day2023_05.SplitLengths | src/2023/5/index.ts:75-97 | for non-negative lengths the pieces passed on and emitted add up to the entry's length |
| Day2023_05.StepCovers | src/2023/5/index.ts:64-100 | over a stack, numbers in the window are emitted shifted and the others move to the next stack |
| Day2023_05.StepLengths | src/2023/5/index.ts:64-100 | one mapping over a stack conserves the total length |
| Day2023_05.RunCovers | src/2023/5/index.ts:60-101 | after the mappings, a number is emitted as its image under the first window holding it (later mappings never touch it) or, when no window holds it, is still on the stack |
| Day2023_05.RunLengths | src/2023/5/index.ts:60-101 | emitted and remaining pieces together keep the total length of the initial stack |
| Day2023_05.MapperCovers | src/2023/5/index.ts:103-106 | for non-negative lengths the assertion `range.length === sumBy(allRanges, length)` holds, and the output holds the section's image of every number of the range |
| Day2023_05.MapRanges | src/2023/5/index.ts:118 | mapping every range and flattening gives `MapAll`, failing on the first failing range |
| Day2023_05.GetLocations | src/2023/5/index.ts:113-123 | the loop over the sections gives `Locations`, and stops at the first failure |
| Day2023_05.MapAllCovers | src/2023/5/index.ts:118 | every number of the ranges reaches its image through the section |
| Day2023_05.LocationsCover | src/2023/5/index.ts:113-123 | every seed number reaches its location through all the sections |
| Day2023_05.StepSound | src/2023/5/index.ts:64-100 | over a stack, every number emitted is the shifted image of a number of the stack inside the window, and every number passed on is one of the stack's outside it |
| Day2023_05.RunSound | src/2023/5/index.ts:60-101 | after the mappings, an emitted number is the first-window image of a number of the initial range, and a number left on the stack is one of its own that no window holds |
| Day2023_05.MapperSound | src/2023/5/index.ts:56-106 | every number the mapper returns is the section's image of a number of the range |
| Day2023_05.MapAllSound | src/2023/5/index.ts:118 | every number of the mapped ranges is the section's image of a number of the ranges |
| Day2023_05.LocationsSound | src/2023/5/index.ts:113-123 | every number of the location ranges is the location of some seed number |
| Day2023_05.LocationsPositive | src/2023/5/index.ts:64-118 | ranges that each hold a number are mapped to ranges that each hold a number |
| Day2023_05.ClosestLocation | src/2023/5/index.ts:125-132 | `undefined` exactly when there are no location ranges; otherwise a start of one of them and no larger than any of them |
| Day2023_05.ClosestBound | src/2023/5/index.ts:125-132 | the closest location is at most the location of every seed number |
| Day2023_05.ClosestAttained | src/2023/5/index.ts:125-132 | with non-empty seed ranges the closest location is the location of some seed number |
| Day2023_05.SeedNumbers | src/2023/5/index.ts:137 | part 1 makes each seed a range of length 1 |
| Day2023_05.Part1Bound | src/2023/5/index.ts:134-141 | part 1's answer is at most the location of every seed |
| Day2023_05.Part1Attained | src/2023/5/index.ts:134-141 | part 1's answer is the location of one of the seeds |
| Day2023_05.SeedPairs | src/2023/5/index.ts:146-151 | `chunk(seeds, 2)` gives one range per pair of seeds, the first its start and the second its length |
| Day2023_05.LoneLocation | src/2023/5/index.ts:56-106 | a last seed without a length that no window reaches passes every mapper whole and is its own location |
| Day2023_05.Part2Bound | src/2023/5/index.ts:143-155 | part 2 fails exactly for an odd seed list whose last seed some window reaches; otherwise its answer is at most the location of every seed number of the pairs and of the lone seed |
| Day2023_05.Part2Attained | src/2023/5/index.ts:143-155 | with pairs of positive length, part 2's answer is the location of a seed number of some pair or the lone last seed itself |
| Day2023_07.KindsAre | src/2023/7/index.ts:42 | the keys of `countBy(hand)` are exactly the cards of the hand, each once |
| Day2023_07.WithoutIs | src/2023/7/index.ts:47 | deleting a key keeps every other key, each once, and removes one key when it was present |
| Day2023_07.GetType | src/2023/7/index.ts:41-72 | counting, taking out the jokers, sorting largest first, adding the jokers to the first count and branching give the hand type of the classification by the two largest counts |
| Day2023_07.RankKinds | src/2023/7/index.ts:42-48 | the kinds ranked are all kinds, or all but J when jokers are wild and the hand has more than one kind; the joker count is 0, the number of J, or undefined when there is no J |
| Day2023_07.TopCounts | src/2023/7/index.ts:50-51 | the first count is the largest ranked count plus the jokers, undefined when either is missing; the second is the second largest |
| Day2023_07.AddToLargest | src/2023/7/index.ts:51 | the in-place bump of `counts[0]` leaves `counts[1]` as it was |
| Day2023_07.DescendingFirst | src/2023/7/index.ts:50 | the reversed sort puts the largest count first |
| Day2023_07.DescendingSecond | src/2023/7/index.ts:50 | the reversed sort puts second the largest of the other counts |
| Day2023_07.TypeByTopTwo | src/2023/7/index.ts:50-71 | the type depends only on the largest and second largest counts (the jokers added to the largest) |
| Day2023_07.TypeOfOneKind | src/2023/7/index.ts:45-54 | a hand of one kind of card is classified by its single count, jokers or not |
| Day2023_07.TopTwoUnique | src/2023/7/index.ts:50 | the largest and second largest counts are determined by the counts |
| Day2023_07.JokersJoinLargest | src/2023/7/index.ts:44-51 | with jokers, a hand of more than one kind holding a J ranks its other kinds (at least one) and adds the number of J to the largest of them |
| Day2023_07.NoJokerIsHighCard | src/2023/7/index.ts:44-51 | as written, with jokers a hand of more than one kind without a J adds `undefined` to its largest count and is a high card |
| Day2023_07.JokersUndefined | src/2023/7/index.ts:46 | with jokers, a hand of more than one kind without a J has an undefined joker count |
| Day2023_07.FourKindDrops | src/2023/7/index.ts:44-56 | a four of a kind without a J is FOUR_KIND without jokers and HIGH_CARD with them |
| Day2023_07.FourAndOneKinds | src/2023/7/index.ts:42 | four of one card and one other give two keys, in order of first appearance |
| Day2023_07.FourAndOneCounts | src/2023/7/index.ts:42 | four of one card and one other are counted 4 and 1 |
| Day2023_07.CorrectedWithoutJoker | src/2023/7/index.ts:44-51 | with a joker count of 0 for a hand without a J, the hand has the same type with jokers as without |
| Day2023_07.RankedWithoutJoker | src/2023/7/index.ts:45-48 | without a J, deleting the J key changes nothing and the corrected joker count is 0 |
| Day2023_07.CorrectedWithJoker | src/2023/7/index.ts:44-51 | for a hand with a J the corrected type is the type as written |
| Day2023_07.JokersDefined | src/2023/7/index.ts:46 | for a hand with a J the joker count is the number of J, or 0 when jokers do not count |
| Day2023_07.CardIndexIsIndexOf | src/2023/7/index.ts:106-107 | the card index is `cardValues.indexOf`, non-negative exactly for the thirteen cards |
| Day2023_07.CardIndexIs | src/2023/7/index.ts:5-19 | a card's index is below 13 and no other character shares it |
| Day2023_07.GameComparator | src/2023/7/index.ts:93-114 | the comparator's loop gives the difference of type indices when the types differ, else the difference of the first differing cards' indices, else 0 |
| Day2023_07.CompareOrders | src/2023/7/index.ts:93-114 | a game compares below another exactly when its type is weaker, or the types agree and at the first differing card its card is weaker |
| Day2023_07.CompareAntisymmetric | src/2023/7/index.ts:93-114 | swapping the games negates the comparison |
| Day2023_07.CompareZero | src/2023/7/index.ts:93-114 | the comparison is 0 exactly when the types and the five cards are equal |
| Day2023_07.CompareTransitive | src/2023/7/index.ts:93-114 | the comparator is transitive, both for below and for equal, so sorting by it is well defined |
| Day2023_07.RankedBets | src/2023/7/index.ts:119 | each game's bet is weighted by its rank in the sorted list |
| Day2023_07.RankBounds | src/2023/7/index.ts:116-119 | ranks run from 1 to the number of games |
| Day2023_07.RankOrders | src/2023/7/index.ts:117 | a weaker game, or an equal earlier one, ranks lower |
| Day2023_07.RanksDistinct | src/2023/7/index.ts:117-119 | no two games share a rank, so the ranks are the sorted positions plus 1 |
| Day2023_07.WeakestFirst | src/2023/7/index.ts:117-119 | a game weaker than every other has rank 1 |
| Day2023_07.Games | src/2023/7/index.ts:82-90 | each line's game has its hand, its bet and the type `getType` gives |
| Day2023_08.FirstArrivalUnique | src/2023/8/index.ts:49 | the loop stops at the first final position, so the step count it can return is unique |
| Day2023_08.FinalStart | src/2023/8/index.ts:49 | a start that is already final takes 0 moves |
| Day2023_08.PositionShift | src/2023/8/index.ts:50 | after a whole number of instruction rounds the walk restarts the instructions from where it stands |
| Day2023_08.CycleNeverArrives | src/2023/8/index.ts:49-53 | a walk back on its start after whole rounds without a final node never reaches one, so the loop never ends |
| Day2023_08.NoArrivalYet | src/2023/8/index.ts:49-52 | no first arrival before a step that is not final, nor at a step where the walk is stuck |
| Day2023_08.CountMoves | src/2023/8/index.ts:45-56 | a count is the first step at which the walk stands on a final node ("ZZZ", or a name ending in 'Z' in ghost mode); a failure means no such step up to the bound |
| Day2023_08.Part1 | src/2023/8/index.ts:58-63 | the step count from "AAA" to "ZZZ" is the first arrival |
| Day2023_08.Part2Counts | src/2023/8/index.ts:65-69 | every node whose name ends in 'A' gets its first ghost-mode arrival, and no other node gets a count |
| Day2023_09.Differences | src/2023/9/index.ts:18-22 | one value fewer, each the step from one value to the next |
| Day2023_09.DifferencesTelescope | src/2023/9/index.ts:18-22 | the first value plus the sum of the differences is the last value |
| Day2023_09.DifferencesAppend | src/2023/9/index.ts:18-22 | appending a value appends its step to the differences |
| Day2023_09.BelowShape | src/2023/9/index.ts:24-39 | each row is the differences of the row above, only the last is all zero, and there are at most one more rows than values |
| Day2023_09.DifferencesStack | src/2023/9/index.ts:24-39 | the pushing loop builds the sequence followed by its rows of differences down to the first all-zero row |
| Day2023_09.BelowStep | src/2023/9/index.ts:29-35 | one push moves the next row from the rows still to come onto the stack |
| Day2023_09.AddLastsSome | src/2023/9/index.ts:44-47 | the reverse sum of last values is a number exactly when no row is empty |
| Day2023_09.AddLastsCons | src/2023/9/index.ts:45-46 | the top row adds its last value to the sum of the rows below |
| Day2023_09.StackCons | src/2023/9/index.ts:24-39 | the stack is the sequence over the stack of its differences, or over the all-zero row alone |
| Day2023_09.PredictLoop | src/2023/9/index.ts:41-50 | the reverse loop computes the sum of the rows' last values, NaN as soon as a row is empty |
| Day2023_09.SingleValueIsNaN | src/2023/9/index.ts:41-50 | a one-value sequence predicts NaN |
| Day2023_09.QuadraticIsNaN | src/2023/9/index.ts:41-50 | [1, 2, 4] predicts NaN: its rows run out before an all-zero one with a value |
| Day2023_09.PredictAgrees | src/2023/9/index.ts:41-50 | wherever the source predicts a number, it is the corrected extrapolation |
| Day2023_09.ZeroExtrapolates | src/2023/9/index.ts:33 | an all-zero row extrapolates to 0 |
| Day2023_09.ExtrapolateStep | src/2023/9/index.ts:45-46 | the extrapolation is the last value plus the extrapolation of the differences |
| Day2023_09.ExtrapolateExtends | src/2023/9/index.ts:41-50 | appending the extrapolation extends the differences by their own extrapolation, which is what a prediction means |
| Day2023_09.ConstantPredicts | src/2023/9/index.ts:41-50 | a constant sequence extrapolates to its constant |
| Day2023_09.ConstantPredictsAsWritten | src/2023/9/index.ts:41-50 | with at least two values the source predicts that constant too |
| Day2023_09.SumOptionsMeaning | src/2023/9/index.ts:57 | the sum is NaN exactly when a prediction is, and otherwise the sum of the predictions |
| Day2023_09.SumOptionsPrefix | src/2023/9/index.ts:57 | one more prediction is added to the running sum |
| Day2023_09.PredictionsAgree | src/2023/9/index.ts:55 | every prediction that is a number is the corrected extrapolation of its sequence |
| Day2023_09.Part1 | src/2023/9/index.ts:52-59 | the answer is the sum of the predictions, in order, NaN as soon as one is |
| Day2023_09.CorrectedExamples | src/2023/9/index.ts:41-50 | the corrected rule predicts 5 for [5] and 7 for [1, 2, 4] |
| Day2023_10.PipesJoinTwo | src/2023/10/index.ts:11-36 | every pipe joins exactly two different unit directions |
| Day2023_10.PipeOrderIsPipes | src/2023/10/index.ts:65 | the key order lists exactly the six pipes |
| Day2023_10.FindStart | src/2023/10/index.ts:50-62 | the start is an 'S' cell, or (-1, -1) |
| Day2023_10.LastIndexOf | src/2023/10/index.ts:56-60 | the last position of the character in the row, or -1 when it is absent |
| Day2023_10.FindStartIsLast | src/2023/10/index.ts:50-62 | no 'S' comes after the start in reading order, and the start is (-1, -1) only when there is no 'S' |
| Day2023_10.JoinsBack | src/2023/10/index.ts:67-86 | a neighbour joins back only when it is a pipe one of whose directions points back at the start |
| Day2023_10.FirstFitMeaning | src/2023/10/index.ts:65-91 | the start becomes the first pipe in key order whose neighbours join back, no pipe is chosen only when none fits, and a neighbour that cannot be read stops the search |
| Day2023_10.InferStart | src/2023/10/index.ts:64-92 | the loop picks what the first-fit search over the key order picks |
| Day2023_10.InferredJoins | src/2023/10/index.ts:66-88 | a pipe that replaces the start is joined back along both its directions |
| Day2023_10.Step | src/2023/10/index.ts:104-114 | a step moves one unit along the chosen direction |
| Day2023_10.NeverReverses | src/2023/10/index.ts:107-112 | after the first step the walk never goes straight back |
| Day2023_10.ParityAfter | src/2023/10/index.ts:112-114 | every step flips the parity of x + y |
| Day2023_10.ReturnIsEven | src/2023/10/index.ts:116-118 | a walk back on the start has taken an even number of steps |
| Day2023_10.StuckForever | src/2023/10/index.ts:104-105 | once a step has no pipe to read the walk cannot go on |
| Day2023_10.NoReturnYet | src/2023/10/index.ts:103-122 | no return before a step off the start, and none at all once the walk cannot go on |
| Day2023_10.LoopLength | src/2023/10/index.ts:97-123 | the length is the first step count at which the walk stands on the start again; a failure means a tile without a pipe or no return within the bound |
| Day2023_10.Part1 | src/2023/10/index.ts:125-130 | the answer is half the loop length of the loaded map, and it is whole |
| Day2023_11.Width | src/2023/11/index.ts:16-25 | no line is longer than the width |
| Day2023_11.Span | src/2023/11/index.ts:31-32 | the range runs from the first to the last line holding a galaxy and covers every galaxy; none exactly when there is no galaxy |
| Day2023_11.FirstFlag | src/2023/11/index.ts:31 | the first line holding a galaxy from a given line on |
| Day2023_11.LastFlag | src/2023/11/index.ts:31 | the last line holding a galaxy below a given line |
| Day2023_11.ExpandingShape | src/2023/11/index.ts:30-48 | the expanding lines are exactly the empty lines inside the range, ascending |
| Day2023_11.CountBelowIsEmptyBetween | src/2023/11/index.ts:61-62 | a line is shifted by the number of empty lines from the start of the range up to it |
| Day2023_11.ExpandingSplit | src/2023/11/index.ts:34-37 | the expanding lines of a range are those of its two halves, in order |
| Day2023_11.ExpandingLength | src/2023/11/index.ts:34-37 | there are as many expanding lines as empty lines |
| Day2023_11.CountBelowAppend | src/2023/11/index.ts:62 | counting the lines before a value adds up over a split list |
| Day2023_11.CountBelowAll | src/2023/11/index.ts:62 | when every line is before the value, all are counted |
| Day2023_11.CountBelowNone | src/2023/11/index.ts:62 | when no line is before the value, none is counted |
| Day2023_11.CountBelowMonotone | src/2023/11/index.ts:62-67 | a later line is shifted at least as far |
| Day2023_11.Analyse | src/2023/11/index.ts:51-58 | both ranges are non-empty when the image has a galaxy |
| Day2023_11.ExpandAll | src/2023/11/index.ts:60-72 | each galaxy is moved by the factor times the expanding lines before it on each axis |
| Day2023_11.RowGalaxiesMeaning | src/2023/11/index.ts:64-71 | a row yields exactly its galaxies inside the range |
| Day2023_11.GalaxiesMeaning | src/2023/11/index.ts:60-72 | the rows yield exactly the galaxies inside both ranges |
| Day2023_11.AllGalaxiesAreAll | src/2023/11/index.ts:56-72 | the scan over the ranges meets every galaxy of the image and nothing else |
| Day2023_11.ExpandUniverse | src/2023/11/index.ts:50-75 | the expanded galaxies in reading order; a failure exactly when there is no galaxy |
| Day2023_11.ExpandGalaxies | src/2023/11/index.ts:60-74 | the nested loops push every galaxy, expanded, in reading order |
| Day2023_11.ExpandAllAppend | src/2023/11/index.ts:69 | expanding a list piece by piece expands the whole list |
| Day2023_11.ExpandByZero | src/2023/11/index.ts:61-68 | with factor 0 no galaxy moves |
| Day2023_11.ExpandKeepsOrder | src/2023/11/index.ts:61-68 | with a factor of at least 0 the expansion keeps the order of galaxies on each axis |
| Day2023_11.MulMonotone | src/2023/11/index.ts:62 | multiplying by a factor of at least 0 keeps order |
| Day2023_11.ExpandedDistance | src/2023/11/index.ts:82-84 | an expanded distance is the original distance plus the factor for every expanding line between the two galaxies |
| Day2023_11.AxisDistance | src/2023/11/index.ts:83-84 | along one axis the distance grows by the factor times the expanding lines crossed |
| Day2023_11.AxisAbs | src/2023/11/index.ts:83-84 | shifts in the same order as the points add to their distance |
| Day2023_11.Distribute | src/2023/11/index.ts:89 | multiplication distributes over the sum |
| Day2023_11.DistancesFromLinear | src/2023/11/index.ts:81-86 | the distances from one galaxy grow linearly with the factor |
| Day2023_11.PairSumLinear | src/2023/11/index.ts:77-90 | the answer is the sum of the original distances plus the factor times the expanding lines crossed, over all pairs |
| Day2023_11.PairSumNonNegative | src/2023/11/index.ts:77-90 | the sum of distances is never negative |
| Day2023_11.DistancesFromNonNegative | src/2023/11/index.ts:81-86 | the distances from one galaxy sum to at least 0 |
| Day2023_11.GetDistances | src/2023/11/index.ts:77-90 | the loops sum the distance of every pair of galaxies once, the first before the second |
| Day2023_11.Solve | src/2023/11/index.ts:92-107 | the answer is the sum of the pairwise distances of the expanded galaxies; a failure exactly when there is no galaxy |
| Day2023_11.Part1 | src/2023/11/index.ts:92-99 | the original distances plus one for every expanding line crossed |
| Day2023_11.Part2 | src/2023/11/index.ts:101-108 | the original distances plus 999999 for every expanding line crossed |
| Day2023_12.AreGroupsSatisfied | src/2023/12/index.ts:31-49 | the two loops return exactly the group check: each group a run of consecutive indices that does not go on, and every broken index used |
| Day2023_12.GroupsSatisfiedIsRuns | src/2023/12/index.ts:31-49 | for groups of at least 1, the check holds exactly when the maximal runs of consecutive broken indices have the group sizes, in order |
| Day2023_12.CheckIsRuns | src/2023/12/index.ts:34-48 | from any cursor, the check holds exactly when the runs of the remaining indices have the remaining group sizes |
| Day2023_12.GroupIsFirstRun | src/2023/12/index.ts:35-43 | one group is met at the cursor exactly when the run starting there has its size |
| Day2023_12.BeyondFails | src/2023/12/index.ts:36-48 | once the cursor is past the end, no group of at least 1 is met, since reads there are undefined |
| Day2023_12.RunTooLongRejected | src/2023/12/index.ts:41-43 | a run that goes on past its group is rejected |
| Day2023_12.FirstRun | src/2023/12/index.ts:35-39 | the run at the head of a non-empty list is between 1 and its length |
| Day2023_12.FirstRunAtLeast | src/2023/12/index.ts:35-39 | a run is at least k long exactly when the next k - 1 entries go on from the first one by one |
| Day2023_12.RunLengthsCover | src/2023/12/index.ts:48 | the runs are all at least 1 and together use every entry |
| Day2023_12.Classify | src/2023/12/index.ts:55-63 | the loop collects the positions of '#' and of '?' |
| Day2023_12.PositionsMeaning | src/2023/12/index.ts:55-63 | the positions collected are exactly those holding the character, ascending |
| Day2023_12.ChoicesCount | src/2023/12/index.ts:69 | there are n choose k candidates for k missing broken springs among n unknown ones |
| Day2023_12.ChoicesMembers | src/2023/12/index.ts:69 | each candidate has k entries, all unknown positions |
| Day2023_12.CountValid | src/2023/12/index.ts:71-79 | the count of candidates that pass the filter is at most the number of candidates |
| Day2023_12.RowArrangements | src/2023/12/index.ts:54-83 | the callback returns the row's arrangements: 1 when nothing is missing, else the candidates that satisfy the groups |
| Day2023_12.ArrangementsBound | src/2023/12/index.ts:65-79 | a row has at most (unknown choose missing) arrangements |
| Day2023_12.NothingMissingIsOne | src/2023/12/index.ts:80-82 | with no broken spring missing a row counts exactly 1 |
| Day2023_12.CountedAreArrangements | src/2023/12/index.ts:71-76 | every counted candidate's broken springs form runs of exactly the group sizes |
| Day2023_12.Part1NonNegative | src/2023/12/index.ts:85 | the sum over all rows is at least 0 |
| Day2023_13.HorizontalReflection | src/2023/13/index.ts:17-28 | the labelled search returns the search function's answer: the first line whose mirrored rows all match, counted in rows above it |
| Day2023_13.ReflectionMeaning | src/2023/13/index.ts:17-28 | a found line lies in [1, n - 1], mirrors, and no earlier line mirrors; none found means no line mirrors |
| Day2023_13.MirroredUpsideDown | src/2023/13/index.ts:19-23 | a line mirrors exactly when the matching line of the pattern turned upside down mirrors |
| Day2023_13.Rotate | src/2023/13/index.ts:31-37 | the loop builds one row per column of the first row, each the column read from the bottom up |
| Day2023_13.ReversedColumn | src/2023/13/index.ts:33-36 | joining the characters of the reversed rows reads the column upwards |
| Day2023_13.ColumnUpMeaning | src/2023/13/index.ts:33-36 | in a rectangular pattern the column read upwards has one character per row, the bottom row's first |
| Day2023_13.VerticalIsColumns | src/2023/13/index.ts:30-40 | a vertical line is found on the rotated pattern exactly when every row mirrors around it |
| Day2023_13.ColumnMirror | src/2023/13/index.ts:30-40 | two rows of the rotated pattern are equal exactly when the two columns agree in every row |
| Day2023_13.ScoreMeaning | src/2023/13/index.ts:45-52 | a horizontal line scores 100 per row above it; otherwise the columns left of a vertical line, or 0; an empty pattern fails |
| Day2023_13.Part1Meaning | src/2023/13/index.ts:42-54 | the sum fails exactly when some pattern is empty, and is otherwise at least 0 |
| Day2023_14.WidthIsXRange | src/2023/14/index.ts:9-26 | the loaded grid's x range is 0 .. width - 1: every cell lies in it and every column in it holds a cell |
| Day2023_14.InCellsOf | src/2023/14/index.ts:16-23 | the grid holds a cell at (x, y) exactly when line y has a character x |
| Day2023_14.MoveKeeps | src/2023/14/index.ts:43-47 | a move swaps a round rock with empty space: the cells present, the cube rocks and the number of round rocks are unchanged |
| Day2023_14.Platform.Pass | src/2023/14/index.ts:34-51 | one pass keeps the cells present, the cube rocks and the round-rock count; when it makes no move the platform is unchanged and no round rock in the square can move |
| Day2023_14.Platform.Roll | src/2023/14/index.ts:28-53 | rolling keeps the cells present, the cube rocks and the round-rock count, and once settled no round rock in the square has empty space in the direction |
| Day2023_14.RowLoadUpdate | src/2023/14/index.ts:61-68 | changing one cell of a row changes the row's sum by that cell's change |
| Day2023_14.GridLoadUpdate | src/2023/14/index.ts:60-69 | changing one cell inside the square changes the load by that cell's change |
| Day2023_14.NorthMoveAddsOne | src/2023/14/index.ts:55-70 | a round rock rolled one row north inside the square raises the load by exactly 1 |
| Day2023_14.LoadIgnoresOutside | src/2023/14/index.ts:56-61 | a cell outside the square, where the row range is taken from the x range, never counts |
| Day2023_14.Part1 | src/2023/14/index.ts:72-79 | a failure on an empty grid; otherwise the load of a settled north tilt with the same cells, cube rocks and round-rock count as the input |
| Day2023_15.ComputeHash | src/2023/15/index.ts:16-26 | the loop computes the hash: per character add its code, times 17, modulo 256 |
| Day2023_15.HashRange | src/2023/15/index.ts:16-26 | the hash lies in [0, 256) and the empty string hashes to 0 |
| Day2023_15.HashStreams | src/2023/15/index.ts:19-23 | hashing a + b is hashing b from the hash of a |
| Day2023_15.HashExample | src/2023/15/index.ts:16-26 | "HASH" hashes to 52 |
| Day2023_15.Part1Range | src/2023/15/index.ts:28-33 | the sum of the step hashes lies in [0, 255 per step] |
| Day2023_15.FindIndex | src/2023/15/index.ts:59 | the index of the first lens with the label, or -1 when none has it |
| Day2023_15.PutMeaning | src/2023/15/index.ts:61-67 | "=" on a present label replaces its focal length in its slot and changes nothing else; on a new label it appends at the end |
| Day2023_15.TakeMeaning | src/2023/15/index.ts:68-72 | "-" removes exactly the lens with the label, keeping the others in order, and leaves the box unchanged when the label is absent |
| Day2023_15.OperationsKeepUnique | src/2023/15/index.ts:59-72 | both operations keep each label at most once per box; the label is present after "=" and absent after "-" |
| Day2023_15.OperateKeepsHash | src/2023/15/index.ts:56-72 | every lens in a box still hashes to that box after a step on it |
| Day2023_15.Facility.Apply | src/2023/15/index.ts:40-73 | a step changes only the box its label hashes to, to the operation's result, and keeps every box's labels unique and hashing to it |
| Day2023_15.BoxPowerUpdate | src/2023/15/index.ts:75-80 | changing the focal length in slot i changes the box's power by (i + 1) times the change |
| Day2023_15.AppendPower | src/2023/15/index.ts:75-80 | appending a lens adds its focal length times its slot number |
| Day2023_15.TotalPowerUpdate | src/2023/15/index.ts:75-82 | changing box b changes the total by (b + 1) times the change of its power |
| Day2023_15.EmptyPower | src/2023/15/index.ts:75-82 | empty boxes have no focusing power |
| Day2023_15.Part2 | src/2023/15/index.ts:35-84 | the loop leaves the boxes the steps arrange, all valid, and returns their focusing power |
| Day2023_16.InteractionsMeaning | src/2023/16/index.ts:17-48 | empty space passes a beam on; a splitter met side-on passes it and met face-on splits it into the two perpendicular directions; each mirror turns a beam a quarter and turns the result back |
| Day2023_16.ReachableNext | src/2023/16/index.ts:117-123 | a state following a reachable one is reachable |
| Day2023_16.ClosedHoldsReachable | src/2023/16/index.ts:84-124 | a set of states holding the start and closed under following holds every reachable state |
| Day2023_16.Process | src/2023/16/index.ts:86-123 | one pass of the loop keeps the energy grid recording exactly the processed states, each direction once per cell, the count equal to the grid's cells, every processed and queued state reachable and every successor processed or queued; it processes a new state or shortens the queue; a failure only for a reachable cell with a character outside the table |
| Day2023_16.RecordsKeep | src/2023/16/index.ts:104-115 | recording a direction new to a cell keeps each cell's directions distinct and counts a cell only the first time |
| Day2023_16.PendingKeep | src/2023/16/index.ts:117-123 | after a state is processed and its beams queued, every successor of a processed state is processed or queued |
| Day2023_16.Energise | src/2023/16/index.ts:74-125 | the count returned is the number of cells some beam from the start passes through; a failure only when a reachable beam meets a character outside the table |
| Day2023_16.ClosedEnergised | src/2023/16/index.ts:86-89 | once the queue is empty the energy grid's cells are exactly the energised cells |
| Day2023_16.Part1 | src/2023/16/index.ts:50-67 | the energised count of the grid of the input's non-empty lines |
| Day2023_17.TurnsMeaning | src/2023/17/index.ts:11-23 | each heading has two distinct turns, and a direction is a turn exactly when its offset is perpendicular to the heading's: never straight on, never back |
| Day2023_17.AheadStanding | src/2023/17/index.ts:95 | a run's entry ends its directions with the run's direction |
| Day2023_17.MovesSound | src/2023/17/index.ts:86-104 | every entry `addMoves` pushes is a run of at least `minStep` and at most `maxStep` blocks, all on the map, losing its heat plus exactly the blocks entered, its directions extended by the run |
| Day2023_17.MovesComplete | src/2023/17/index.ts:86-104 | every run of `minStep` to `maxStep` blocks that stays on the map is pushed |
| Day2023_17.MovesStop | src/2023/17/index.ts:89-93 | once a block ahead lies off the map nothing further is pushed |
| Day2023_17.AddMoves | src/2023/17/index.ts:75-105 | appends to the queue exactly the runs of `minStep` to `maxStep` blocks in the direction, stopping at the edge of the map |
| Day2023_17.RouteExtend | src/2023/17/index.ts:128-131 | a route followed by a quarter turn and a run is a route |
| Day2023_17.ReachedTurn | src/2023/17/index.ts:128-131 | a state following a reached one by a quarter turn and a run is reached |
| Day2023_17.MinIndex | src/2023/17/index.ts:71-73 | the position of an entry losing no more heat than any queued, as the priority queue pops |
| Day2023_17.PopDone | src/2023/17/index.ts:113-126 | after a pop every entry that was queued, or settled at no more heat, still is |
| Day2023_17.PopReached | src/2023/17/index.ts:113-126 | after a pop every queued entry and every settled (block, heading) is still reached by a route at its heat |
| Day2023_17.PopOrdered | src/2023/17/index.ts:113-126 | popping the least heat and settling it keeps every settled heat at most every queued one |
| Day2023_17.PopSound | src/2023/17/index.ts:113-126 | a pop keeps the queue and status reached, ordered, and the first runs done |
| Day2023_17.PopExpanded | src/2023/17/index.ts:118-126 | a pop keeps every run after a settled (block, heading)'s turns queued or settled at no more heat |
| Day2023_17.PopSearch | src/2023/17/index.ts:113-126 | a pop keeps the search's invariant for all but the newly settled key, which lies on the map and holds the most heat settled |
| Day2023_17.UnsettledShrinks | src/2023/17/index.ts:118-126 | settling a new (block, heading) of the map leaves fewer unsettled, so the search ends |
| Day2023_17.PushExpanded | src/2023/17/index.ts:98-102 | pushing keeps every expanded key expanded |
| Day2023_17.PushedReached | src/2023/17/index.ts:128-131 | a run pushed after a quarter turn from a reached state is reached, ends on the map and loses no less heat |
| Day2023_17.PushSound | src/2023/17/index.ts:128-131 | pushing the runs after a turn from the state just settled keeps the search sound and expands that turn |
| Day2023_17.Expand | src/2023/17/index.ts:128-131 | after the turns loop every settled (block, heading) has all its runs after each quarter turn queued or settled at no more heat |
| Day2023_17.Visit | src/2023/17/index.ts:112-132 | one pass of the loop keeps the search's invariant and either settles a new (block, heading) or shortens the queue |
| Day2023_17.LaunchSearch | src/2023/17/index.ts:107-110 | the two first `addMoves` calls from the start, heading east and south, with nothing settled, satisfy the search's invariant |
| Day2023_17.LaunchSettled | src/2023/17/index.ts:107-132 | once the queue is empty, the end of every first run is settled at no more heat than the run loses |
| Day2023_17.TurnSettled | src/2023/17/index.ts:112-132 | once the queue is empty, a quarter turn and run from a state settled at no more heat ends in a state settled at no more heat |
| Day2023_17.SettledRoute | src/2023/17/index.ts:112-132 | once the queue is empty, every route's end is settled at no more heat than the route loses: the first heat popped is the least |
| Day2023_17.MinBy | src/2023/17/index.ts:134-139 | undefined exactly when every option is undefined, else the value of a present option no larger than any present one |
| Day2023_17.Answer | src/2023/17/index.ts:134-142 | the answer exists exactly when a route reaches the bottom-right block heading south or east, is the heat of such a route, and is no more than any such route's |
| Day2023_17.FindPath | src/2023/17/index.ts:59-143 | fails on an empty map; otherwise succeeds exactly when a route from the top-left block reaches the bottom-right one heading south or east, with the least heat any such route loses |
| Day2023_17.Part1 | src/2023/17/index.ts:144-149 | the least heat over routes of runs of one to three blocks, failing as `findPath` does |
| Day2023_17.Part2 | src/2023/17/index.ts:151-156 | the least heat over routes of runs of four to ten blocks, failing as `findPath` does |
| Day2023_18.NeighbourBack | src/2023/18/index.ts:16-21 | the moves table pairs each direction with its opposite: stepping one way and back returns to the cell |
| Day2023_18.RunMeaning | src/2023/18/index.ts:121-125 | one instruction digs exactly `count` distinct cells (none for a count below 1), the k-th of them k steps along its direction |
| Day2023_18.ElementsAppend | src/2023/18/index.ts:118-126 | the cells of two runs dug one after the other are the cells of each |
| Day2023_18.DigRun | src/2023/18/index.ts:119-125 | the grid gains exactly the run's cells, each set to '#', every other cell keeps its value, and the digger ends `count` steps along (where it was for a count below 1) |
| Day2023_18.DigTrench | src/2023/18/index.ts:114-126 | starting from the empty grid at the origin, the grid ends holding exactly the trench's cells, each '#' |
| Day2023_18.UnsetShrinks | src/2023/18/index.ts:82-85 | setting an unset cell of the box leaves one cell fewer unset, so the fill ends |
| Day2023_18.QueuedTail | src/2023/18/index.ts:69 | after the first pop, every queued cell still neighbours a filled cell |
| Day2023_18.CoveredTail | src/2023/18/index.ts:69-83 | popping a cell that is set, or outside the box with the escape recorded, leaves every neighbour of a filled cell queued, set or recorded as outside |
| Day2023_18.PopOutside | src/2023/18/index.ts:72-80 | a popped cell outside the box sets `outside` and keeps the fill's invariant |
| Day2023_18.PopSet | src/2023/18/index.ts:82-83 | a popped cell already set changes nothing and keeps the fill's invariant |
| Day2023_18.MarkedGrows | src/2023/18/index.ts:84-85 | marking one more cell extends the marked region by exactly that cell |
| Day2023_18.LinkedGrows | src/2023/18/index.ts:85-89 | each newly filled cell is the start or a neighbour of a cell filled before it |
| Day2023_18.DistinctGrows | src/2023/18/index.ts:83-85 | a cell filled only when unset is filled at most once |
| Day2023_18.RegionGrows | src/2023/18/index.ts:82-85 | marking a popped unset cell of the box '?' and filling it keeps the region unset before, in the box, distinct and linked |
| Day2023_18.QueuedGrows | src/2023/18/index.ts:87-89 | the four neighbours pushed after a fill neighbour a filled cell |
| Day2023_18.CoveredGrows | src/2023/18/index.ts:87-89 | after a fill, the filled cell's four neighbours are queued |
| Day2023_18.PopFill | src/2023/18/index.ts:82-90 | a popped unset cell of the box is marked '?', filled, and its neighbours queued, keeping the fill's invariant |
| Day2023_18.Flood | src/2023/18/index.ts:63-91 | the fill from an unset cell of the box marks '?' a list of distinct cells of the box, unset before, starting at the start, each linked to an earlier one; every neighbour of them is set or outside the box; `outside` is set exactly when one of them neighbours a cell outside the box |
| Day2023_18.FloodDone | src/2023/18/index.ts:68-91 | once the queue is empty every neighbour of a filled cell is set or outside the box, and `outside` holds exactly when the region reaches past the box |
| Day2023_18.Label | src/2023/18/index.ts:93-95 | every filled cell gets the label, every other cell keeps its value |
| Day2023_18.ReachFirst | src/2023/18/index.ts:82-89 | a walled-off pocket holding a filled cell holds the start the cell was reached from |
| Day2023_18.ReachAll | src/2023/18/index.ts:82-89 | a walled-off pocket holding the start holds every cell filled from it |
| Day2023_18.EscapedNotEnclosed | src/2023/18/index.ts:72-80 | no cell of a region that reaches past the box lies in a pocket walled off by the trench |
| Day2023_18.KeptIsPocket | src/2023/18/index.ts:68-95 | a region that stays in the box is a pocket walled off by the trench |
| Day2023_18.FillStep | src/2023/18/index.ts:93-95 | labelling a region '.' when it escaped and '#' otherwise keeps the trench as it was, every cell in the box, and every other set cell '#' exactly when walled off by the trench and '.' otherwise |
| Day2023_18.FillRegions | src/2023/18/index.ts:56-97 | every unset cell of the box starts a fill; afterwards every cell of the box is set, the trench unchanged, and every other cell '#' exactly when walled off by the trench and '.' otherwise |
| Day2023_18.DugBeforeStep | src/2023/18/index.ts:101-105 | scanning one more cell adds it to the count exactly when it holds '#' |
| Day2023_18.DugBeforeRow | src/2023/18/index.ts:100-101 | the end of one column of the scan is the start of the next |
| Day2023_18.CountDug | src/2023/18/index.ts:99-108 | the number of cells of the box holding '#' |
| Day2023_18.DugIsLagoon | src/2023/18/index.ts:99-108 | once every cell of the box is set and labelled, the '#' cells are the trench's '#' cells and the cells walled off by it |
| Day2023_18.FillInterior | src/2023/18/index.ts:46-109 | fails exactly on an empty grid (the range assertion), else the number of cells of the bounding box that are trench cells holding '#' or walled off by the trench |
| Day2023_18.Part1 | src/2023/18/index.ts:111-129 | fails exactly when the plan digs no cell, else the size of the lagoon: the trench's cells and the cells of its bounding box it walls off |
| Day2023_21.LoadInput | src/2023/21/index.ts:15-44 | the map holds every character at its (x, y) with the start shown as '.'; the start is the last 'S' in reading order; a failure exactly when there is none |
| Day2023_21.StartIsPlot | src/2023/21/index.ts:27-33 | the start is a plot of the map |
| Day2023_21.AddMoves | src/2023/21/index.ts:61-76 | a destination's moves add each of its plot neighbours not yet targeted, once, keeping the list free of repeats and the target grid its set |
| Day2023_21.GetDestinations | src/2023/21/index.ts:53-83 | the destinations are exactly the positions reached in exactly `steps` steps, each once; zero steps give just the start |
| Day2023_21.Part1 | src/2023/21/index.ts:85-92 | the count is the number of positions reached in exactly 64 steps; a failure exactly when the map has no start |
| Day2023_21.ReachSound | src/2023/21/index.ts:56-80 | every position reached in `n` steps ends a walk of `n` steps from the start over neighbouring plots |
| Day2023_21.ReachComplete | src/2023/21/index.ts:56-80 | the end of every such walk of `n` steps is reached in `n` steps |
| Day2023_21.ReachOpen | src/2023/21/index.ts:67-69 | after at least one step every destination is a plot: rocks and cells off the map never are |
| Day2023_21.ReachParity | src/2023/21/index.ts:46-51 | after `n` steps x + y has the parity of the start's plus `n` |
| Day2023_19.FirstMatch | src/2023/19/index.ts:105-118 | the index of the first rule whose condition holds: no earlier rule's condition holds and, short of the end, the rule at the index matches |
| Day2023_19.IsAccepted | src/2023/19/index.ts:96-119 | the loop over the rules follows the first matching rule's result, else the default; "A" accepts, "R" rejects, a missing workflow fails the `assert` |
| Day2023_19.FirstMatchIs | src/2023/19/index.ts:105-118 | an index with no match before it and a match at it (or the end) is the first match |
| Day2023_19.AcceptsFuel | src/2023/19/index.ts:96-119 | a verdict reached within some number of workflows is the same with any larger bound |
| Day2023_19.AcceptedPartsMeaning | src/2023/19/index.ts:236-241 | the filtered parts are exactly the input parts the run from "in" accepts |
| Day2023_19.SetRange | src/2023/19/index.ts:131-136 | setting one feature's range leaves the other three unchanged |
| Day2023_19.ContainsFeature | src/2023/19/index.ts:121-150 | a blueprint stands for a part exactly when each feature's rating lies in that feature's range |
| Day2023_19.AddConditionMeaning | src/2023/19/index.ts:121-150 | narrowing keeps exactly the blueprint's parts that meet the condition; `undefined` means none of them does |
| Day2023_19.AddConditionShape | src/2023/19/index.ts:121-150 | narrowing changes only the condition's feature, to a sub-range, and keeps non-empty ranges non-empty |
| Day2023_19.AddConditions | src/2023/19/index.ts:152-165 | the loop equals applying the conditions in turn, stopping at the first `undefined` |
| Day2023_19.AddAllMeaning | src/2023/19/index.ts:152-165 | the result stands for exactly the parts meeting every condition; `undefined` means no part of the blueprint meets them all |
| Day2023_19.AddConditionsToAll | src/2023/19/index.ts:167-181 | the loop keeps the blueprints that survive the conditions, narrowed, in order |
| Day2023_19.AddAllToAllMeaning | src/2023/19/index.ts:167-181 | the kept blueprints cover a part exactly when the input covers it and it meets every condition |
| Day2023_19.Negate | src/2023/19/index.ts:210-222 | the negated condition (`<t` to `>t-1`, `>t` to `<t+1`) holds exactly when the condition fails |
| Day2023_19.Negations | src/2023/19/index.ts:200-223 | after `k` rules the added conditions are the negations of those rules' conditions, in order |
| Day2023_19.ComputeBlueprints | src/2023/19/index.ts:183-234 | the recursion with its loop over the rules equals the branch-by-branch definition, failing on a missing workflow |
| Day2023_19.RulesFailureStays | src/2023/19/index.ts:205-207 | once one rule's branch fails, the whole computation fails the same way |
| Day2023_19.CoveredConcat | src/2023/19/index.ts:205-207 | the pushed-together list covers a part exactly when one of the two lists does |
| Day2023_19.BranchConditions | src/2023/19/index.ts:200-204 | a rule's branch conditions hold exactly when that rule is the first that matches |
| Day2023_19.DefaultConditions | src/2023/19/index.ts:225-231 | the default's conditions hold exactly when no rule matches |
| Day2023_19.ComputeRulesMeaning | src/2023/19/index.ts:200-223 | the rules' blueprints cover exactly the parts whose first matching rule leads to acceptance |
| Day2023_19.ComputeMeaning | src/2023/19/index.ts:183-234 | the blueprints computed from a workflow cover exactly the parts of the input that `isAccepted` accepts from there |
| Day2023_19.BlueprintValue | src/2023/19/index.ts:266-271 | the loop multiplies the four range widths |
| Day2023_19.VolumePositive | src/2023/19/index.ts:266-271 | a blueprint with non-empty ranges stands for at least one combination |
| Day2023_19.Part2 | src/2023/19/index.ts:251-275 | the sum of the combinations of the blueprints computed from "in" and the full 1 to 4000 ranges; a failure exactly when that computation fails |
| Day2023_19.Part2Covers | src/2023/19/index.ts:251-264 | the part 2 blueprints cover a part exactly when its ratings lie in 1 to 4000 and part 1's run accepts it |
| Day2023_20.SendAll | src/2023/20/index.ts:31-33 | one pulse of the given type to every output, in order |
| Day2023_20.Module.constructor | src/2023/20/index.ts:21-24 | a new module: its wiring as given, a flip-flop off, a conjunction having heard nothing |
| Day2023_20.Module.Process | src/2023/20/index.ts:26-73 | processing updates the module's own state and returns the pulses as each kind's `process` does |
| Day2023_20.BroadcastForwards | src/2023/20/index.ts:29-35 | a broadcaster sends the incoming pulse's type to every output and keeps its state |
| Day2023_20.FlipFlopMeaning | src/2023/20/index.ts:37-52 | a flip-flop ignores a high pulse; on a low one it toggles and sends high exactly when now on; two low pulses restore it |
| Day2023_20.ConjunctionMeaning | src/2023/20/index.ts:54-73 | a conjunction records the pulse against its source and sends low exactly when every input's last pulse was high |
| Day2023_20.InputsMap | src/2023/20/index.ts:105-111 | the map has a key exactly for the names some line lists as an output, holding the listing lines' names in order |
| Day2023_20.PushStep | src/2023/20/index.ts:107-110 | one more push keeps the map equal to the inputs read so far |
| Day2023_20.PushTarget | src/2023/20/index.ts:108-109 | the pushed name lands on the output's entry only |
| Day2023_20.LineStep | src/2023/20/index.ts:106-111 | after a line's outputs, the map holds the inputs of the lines read |
| Day2023_20.PushesMeaning | src/2023/20/index.ts:107-110 | a name is pushed for a target exactly when that line lists the target |
| Day2023_20.InputsOfMeaning | src/2023/20/index.ts:105-115 | a module's inputs are exactly the modules that list it as an output |
| Day2023_20.BuildNetwork | src/2023/20/index.ts:113-129 | fresh, distinct modules, one per line name, each made from the last line of that name with its inputs from the map |
| Day2023_20.LastLineStep | src/2023/20/index.ts:114-126 | a later line of the same name replaces the module stored before |
| Day2023_20.DistinctStep | src/2023/20/index.ts:117-126 | storing a new module keeps the network's modules distinct objects |
| Day2023_20.LoadedStep | src/2023/20/index.ts:114-126 | storing a line's module keeps the network equal to the lines read so far |
| Day2023_20.LoadedAll | src/2023/20/index.ts:113-129 | once every line is read the network names are the line names, each module from its last line |
| Day2023_20.Press | src/2023/20/index.ts:134-164 | the FIFO loop equals working the queue through from the button's low pulse: the new counts and the new module states |
| Day2023_20.DeliverPulse | src/2023/20/index.ts:150-162 | the destination's module processes the pulse, only its state changes, and what it sends is queued with it as the source |
| Day2023_20.DeliverMeaning | src/2023/20/index.ts:150-162 | a pulse to a name without a module changes nothing and sends nothing; otherwise only its destination's state changes and every pulse sent has it as the source |
| Day2023_20.CountOfAppend | src/2023/20/index.ts:148 | pulses of a type in two queues together add up |
| Day2023_20.CountOfFront | src/2023/20/index.ts:143-148 | taking the first pulse removes exactly its own count |
| Day2023_20.RunCountsQueue | src/2023/20/index.ts:142-148 | every queued pulse gets counted by its type |
| Day2023_20.RunFuel | src/2023/20/index.ts:142-163 | more steps allowed change no finished run |
| Day2023_20.PressesFailureStays | src/2023/20/index.ts:173-175 | once a press fails, the later presses fail too |
| Day2023_20.Part1 | src/2023/20/index.ts:166-179 | the low count times the high count after 1000 presses, the module states carried from press to press |
| Day2023_20.PressesCountLow | src/2023/20/index.ts:173-175 | n presses count at least n low pulses, the button's own |
| Day2023_22.Drop | src/2023/22/index.ts:28-39 | the dropped brick is the same brick one cell lower, everything else unchanged |
| Day2023_22.CubesMeaning | src/2023/22/index.ts:41-48 | cube l of a brick is its start moved l along its direction; a non-positive length gives no cubes |
| Day2023_22.TilesMeaning | src/2023/22/index.ts:41-56 | a brick has length distinct cubes, none below its bottom cubes, and every bottom cube is one of them |
| Day2023_22.BrickName | src/2023/22/index.ts:59-71 | a name is a non-empty string of the letters A to Z |
| Day2023_22.GetBrickName | src/2023/22/index.ts:59-71 | the digit loop builds the base-26 name of the index |
| Day2023_22.NameRoundTrip | src/2023/22/index.ts:59-71 | reading the name back in base 26 gives the index |
| Day2023_22.NamesDistinct | src/2023/22/index.ts:59-71 | two lines never share a brick name |
| Day2023_22.MakeBrick | src/2023/22/index.ts:91-105 | the brick starts at the first end, is upright or along y only when the other coordinates agree, and its last cube is the second end |
| Day2023_22.AddSupport | src/2023/22/index.ts:146-150 | the contact is recorded on both bricks and no brick is added |
| Day2023_22.AddSupportInv | src/2023/22/index.ts:146-150 | recording a contact keeps support symmetric and names only bricks |
| Day2023_22.Scan | src/2023/22/index.ts:139-152 | the scan of the bottom cubes adds no brick |
| Day2023_22.ScanInv | src/2023/22/index.ts:139-152 | the scan keeps support symmetric and names only bricks |
| Day2023_22.ScanLanded | src/2023/22/index.ts:139-152 | the brick lands exactly when a scanned cube is at z = 0 or in an occupied cell |
| Day2023_22.ScanGrows | src/2023/22/index.ts:139-152 | the scan only adds to the support sets |
| Day2023_22.ScanSupports | src/2023/22/index.ts:139-152 | every occupied cell met before the floor records its brick as a support, both ways |
| Day2023_22.ScanTiles | src/2023/22/index.ts:139-152 | the loop with its break computes the scan |
| Day2023_22.PlaceMeaning | src/2023/22/index.ts:154-157 | placing adds exactly the brick's cubes, holding its name, and leaves every other cell as it was |
| Day2023_22.PlaceTiles | src/2023/22/index.ts:154-157 | the loop setting the cubes computes the placement |
| Day2023_22.Step | src/2023/22/index.ts:136-160 | one brick keeps the bricks and a grid naming only bricks, and either lands or joins the still-falling list one lower |
| Day2023_22.StepInv | src/2023/22/index.ts:136-160 | one brick keeps support symmetric and names only bricks |
| Day2023_22.Fall | src/2023/22/index.ts:133-161 | a round keeps the bricks, a grid naming only bricks, and still-falling bricks that are bricks |
| Day2023_22.FallInv | src/2023/22/index.ts:133-161 | a round keeps support symmetric and names only bricks |
| Day2023_22.FallRound | src/2023/22/index.ts:133-161 | the for loop of a round computes the round |
| Day2023_22.SettleRound | src/2023/22/index.ts:132-164 | settling with bricks still falling is one round and then the rest |
| Day2023_22.SettleKeys | src/2023/22/index.ts:121-166 | settling keeps exactly the bricks' entries |
| Day2023_22.SettleInv | src/2023/22/index.ts:132-164 | from a consistent start, settling records support both ways and names only bricks |
| Day2023_22.Initial | src/2023/22/index.ts:121-129 | every brick has an entry with no supports |
| Day2023_22.Gravity | src/2023/22/index.ts:118-167 | the settled support relation has one entry per brick, is recorded both ways and names only bricks |
| Day2023_22.GravityLoop | src/2023/22/index.ts:118-167 | the while loop of rounds computes the settled relation, failing when the rounds run out |
| Day2023_22.RemovableMeaning | src/2023/22/index.ts:169-175 | a brick can go exactly when every brick resting on it rests on some other brick too |
| Day2023_22.PushReady | src/2023/22/index.ts:187-193 | exactly the bricks resting on the current one whose supports are all removed are pushed |
| Day2023_22.JustifiedGrows | src/2023/22/index.ts:182-194 | a brick justified in falling stays so as more bricks are removed |
| Day2023_22.ChainStepJustified | src/2023/22/index.ts:182-194 | every brick removed in a step had all its supports removed and rests on a removed brick |
| Day2023_22.ChainStepReady | src/2023/22/index.ts:182-194 | every brick whose supports are all removed is removed or still waiting on the stack |
| Day2023_22.ChainStep | src/2023/22/index.ts:182-194 | one pass of the worklist loop keeps its invariant |
| Day2023_22.ChainDone | src/2023/22/index.ts:182-196 | with the stack empty the removed set is a chain: it holds the brick, is closed under falling, and every other member fell |
| Day2023_22.GetChainLength | src/2023/22/index.ts:177-197 | the count is the size of a removed set that is a chain of the brick |
| Day2023_22.RemovableCount | src/2023/22/index.ts:203-205 | never more than the number of bricks |
| Day2023_22.Part1 | src/2023/22/index.ts:199-207 | fails exactly when settling fails, else counts the removable bricks |
| Day2023_22.ChainsStep | src/2023/22/index.ts:213 | a chain for the next brick extends the list of chains |
| Day2023_22.SumChains | src/2023/22/index.ts:213-215 | the sum over the bricks of the size of a chain less one |
| Day2023_22.Part2 | src/2023/22/index.ts:209-217 | fails when settling fails, else sums one less than a chain size per settled brick |
| Day2023_22.ChainCounts | src/2023/22/index.ts:213 | every chain holds its brick, so no term of the sum is negative |
| Day2024_01.Lefts | src/2024/1/index.ts:22 | the first list holds the first number of every line, in order |
| Day2024_01.Rights | src/2024/1/index.ts:23 | the second list holds the second number of every line, in order |
| Day2024_01.SortedUnique | src/2024/1/index.ts:25-26 | two ascending lists with the same elements are the same list, so the sorted lists are determined by their contents |
| Day2024_01.Part1Meaning | src/2024/1/index.ts:19-31 | the total distance of the sorted lists is never negative, and is zero exactly when both lists hold the same numbers the same number of times |
| Day2024_01.DistancesZero | src/2024/1/index.ts:28-30 | the summed pairwise distances are non-negative and zero exactly when the lists are equal |
| Day2024_01.Part1Symmetric | src/2024/1/index.ts:19-31 | swapping the two columns leaves the total distance unchanged |
| Day2024_01.RightCounts | src/2024/1/index.ts:36-39 | the count map has a key for exactly the numbers of the second list, each mapped to how often it occurs there |
| Day2024_01.CountAbsent | src/2024/1/index.ts:41-45 | a number missing from the second list counts zero, as the default for a missing key gives |
| Day2024_01.Part2 | src/2024/1/index.ts:33-46 | the similarity score is the sum over the first list of each number times its count in the second |
| Day2024_01.SimilarityAppendLeft | src/2024/1/index.ts:41-45 | one more number in the first list adds that number times its count in the second |
| Day2024_01.SimilarityAppendRight | src/2024/1/index.ts:41-45 | one more number in the second list adds that number times its count in the first |
| Day2024_01.SimilaritySymmetric | src/2024/1/index.ts:33-46 | the similarity score does not depend on which list is first |
| Day2024_02.SafeMeaning | src/2024/2/index.ts:19-30 | a report is safe exactly when its levels rise throughout or fall throughout by 1 to 3 each step; fewer than two levels are safe |
| Day2024_02.SafeSlice | src/2024/2/index.ts:19-30 | any run of consecutive levels of a safe report is safe |
| Day2024_02.Without | src/2024/2/index.ts:49 | removing a level gives a report one shorter with the other levels in order |
| Day2024_02.IsTolerable | src/2024/2/index.ts:43-55 | the filter accepts a report exactly when it is safe or some single removed level makes it safe |
| Day2024_02.SafeIsTolerable | src/2024/2/index.ts:43-55 | a safe report stays safe without its first or last level |
| Day2024_02.DampenerHelps | src/2024/2/index.ts:40-59 | the report 1 2 9 is unsafe but accepted with the dampener |
| Day2024_02.Part2 | src/2024/2/index.ts:40-59 | the count is the number of reports the dampened filter accepts |
| Day2024_02.DampenerCountsMore | src/2024/2/index.ts:32-59 | part 2 counts at least as many reports as part 1 |
| Day2024_03.Run | src/2024/3/index.ts:47-69 | the sum is that of the products of the multiplications, counting, when switches are respected, only those made while the last switch before them, on any line, was `do()` |
| Day2024_03.IgnoringDos | src/2024/3/index.ts:53-59 | ignoring the switches every multiplication counts |
| Day2024_03.FlagMeaning | src/2024/3/index.ts:50-64 | the flag is set exactly when the last switch so far is `do()`, or there is none |
| Day2024_03.ResultsConcat | src/2024/3/index.ts:50-66 | the flag carries from one line into the next: running two runs of instructions in turn is running their concatenation |
| Day2024_03.RespectingDosDrops | src/2024/3/index.ts:56-64 | respecting the switches only drops products, so the sum is between zero and the unswitched sum |
| Day2024_03.Part2AtMostPart1 | src/2024/3/index.ts:71-77 | part 2 is between zero and part 1 |
| Day2024_03.DontExample | src/2024/3/index.ts:53-66 | `mul(2,4) don't() mul(5,5) do() mul(8,5)` yields 8 and 40 with switches and 8, 25 and 40 without |
| Day2024_04.Part1SearchMeaning | src/2024/4/index.ts:31-61 | the search from a position in a direction succeeds exactly when the four cells along it spell XMAS |
| Day2024_04.HitsMeaning | src/2024/4/index.ts:63-80 | a (row, column, direction) is counted exactly when XMAS reads from there in that direction |
| Day2024_04.Part1 | src/2024/4/index.ts:63-80 | the count is the number of XMAS occurrences, positions and directions counted separately |
| Day2024_04.MatchesPart2Meaning | src/2024/4/index.ts:93-117 | a cross centre is an inner `A` whose diagonal neighbours are an `M` and an `S` on each diagonal |
| Day2024_04.CrossUpsideDown | src/2024/4/index.ts:82-117 | on a rectangular grid, turning it upside down maps crosses to crosses |
| Day2024_04.CrossesMeaning | src/2024/4/index.ts:119-133 | a position is counted exactly when it is a cross centre |
| Day2024_04.Part2 | src/2024/4/index.ts:119-133 | the count is the number of cross centres |
| Day2024_05.IndexOf | src/2024/5/index.ts:48-49 | the index is -1 exactly when the page is absent, else its first occurrence |
| Day2024_05.IsValidOrder | src/2024/5/index.ts:45-56 | the check fails exactly when some rule has both pages present with the later page first |
| Day2024_05.ValidOrderMeaning | src/2024/5/index.ts:45-56 | on distinct pages, valid means every rule's first page appears before its second |
| Day2024_05.CorrectOrder | src/2024/5/index.ts:58-72 | one pass moves each violated rule's later page to just before the earlier one, rule by rule |
| Day2024_05.CorrectedPermutes | src/2024/5/index.ts:58-72 | a correction pass only reorders the pages |
| Day2024_05.ValidUnchanged | src/2024/5/index.ts:58-72 | a valid update is left as it is |
| Day2024_05.CorrectRepairs | src/2024/5/index.ts:62-69 | correcting a violated rule satisfies that rule |
| Day2024_05.MiddlesSum | src/2024/5/index.ts:37-43 | the middle pages read and not `undefined` add up to the middle pages of the odd-length updates |
| Day2024_05.GetScoreMeaning | src/2024/5/index.ts:37-43 | lodash `sum` skips the `undefined` middle of an even-length update: the score is the sum of the odd-length updates' middle pages, `undefined` exactly when there are updates and all have even length, 0 for none |
| Day2024_05.EvenSkipped | src/2024/5/index.ts:37-43 | [[1, 2, 3], [4, 5]] scores 2: the even-length update is skipped |
| Day2024_05.PartsSplit | src/2024/5/index.ts:74-99 | the valid and the invalid updates split the updates between them |
| Day2024_05.Part1 | src/2024/5/index.ts:74-80 | the score is `getScore` of the valid updates, in their order |
| Day2024_05.Repair | src/2024/5/index.ts:90-93 | the repaired update is valid and holds the same pages; a valid update comes back unchanged |
| Day2024_05.Part2 | src/2024/5/index.ts:82-99 | the score is `getScore` of valid reorderings of the invalid updates, in their order; a failure only when the repair rounds run out |
| Day2024_06.LoadInput | src/2024/6/index.ts:24-45 | the map keeps every row with the guard's cell shown as '.'; the guard is the last cell in reading order that is neither '.' nor '#'; a failure exactly when there is none |
| Day2024_06.Round | src/2024/6/index.ts:57-104 | one round reports leaving when the cell ahead is off the map, and otherwise turns right before an obstacle or steps forward |
| Day2024_06.Part1 | src/2024/6/index.ts:48-108 | the count is the number of distinct positions occupied up to the first round whose step leaves the map; a failure only when no round within the fuel leaves |
| Day2024_06.FourTurns | src/2024/6/index.ts:79-92 | four right turns restore the direction; a direction arrow turns to another arrow |
| Day2024_06.AdvanceMeaning | src/2024/6/index.ts:73-104 | a round either turns in place before an obstacle or moves onto the free cell ahead keeping the direction |
| Day2024_06.WalkStaysInside | src/2024/6/index.ts:73-104 | a guard starting on the map is on the map after any number of rounds |
| Day2024_06.VisitedInside | src/2024/6/index.ts:52-55 | every visited position is on the map, and the start is visited |
| Day2024_07.EvaluateFront | src/2024/7/index.ts:35-49 | combining the first two values by the first operator keeps the left-to-right value |
| Day2024_07.ValidSound | src/2024/7/index.ts:28-52 | a valid equation has a choice of operators that evaluates, left to right, to its result |
| Day2024_07.ValidComplete | src/2024/7/index.ts:28-52 | an equation with such a choice of operators is valid |
| Day2024_07.ValidMeaning | src/2024/7/index.ts:28-52 | an equation is valid exactly when it has values and some choice of `+` and `*` evaluates to its result |
| Day2024_07.Examples | src/2024/7/index.ts:28-52 | 190 from 10 19 and 3267 from 81 40 27 are valid; 83 from 17 5 is not |
| Day2024_07.Part1Bounds | src/2024/7/index.ts:54-60 | with non-negative results the sum lies between zero and the sum of all results |
| Day2024_08.FrequencyMap | src/2024/8/index.ts:26-39 | the map has a key for exactly each symbol other than '.' on the map, holding its cells in reading order |
| Day2024_08.LocationsMeaning | src/2024/8/index.ts:26-39 | a symbol's list holds exactly the cells showing it, each once |
| Day2024_08.LocationPairs | src/2024/8/index.ts:49-60 | the pairs are exactly the entries at two different indices, in both orders |
| Day2024_08.PairAntinode | src/2024/8/index.ts:70-81 | a pair adds its antinode, as far beyond the first antenna as the second is before it, when within the map |
| Day2024_08.LineMeaning | src/2024/8/index.ts:96-117 | the walk is the points first antenna plus k steps for k from 0, stopping just before the first point off the map |
| Day2024_08.PairLine | src/2024/8/index.ts:96-117 | the walk adds the points of the line from the first antenna away from the second |
| Day2024_08.SymbolDone | src/2024/8/index.ts:67-69 | the pairs listed for a frequency cast exactly the antinodes of its pairs of distinct antennas |
| Day2024_08.Collect | src/2024/8/index.ts:62-83 | the collected set is the union of the antinodes of all pairs of distinct antennas of one frequency |
| Day2024_08.Part1 | src/2024/8/index.ts:62-86 | the count is the number of distinct part 1 antinodes |
| Day2024_08.Part2 | src/2024/8/index.ts:88-122 | the count is the number of distinct points on the walks of all pairs |
| Day2024_08.Part1WithinPart2 | src/2024/8/index.ts:62-122 | every part 1 antinode is a part 2 antinode |
| Day2024_08.AntennasResonate | src/2024/8/index.ts:98-101 | in part 2 every antenna that has a partner of its frequency is an antinode |

## Left out

- Throughout: reading input files, splitting them into lines, regular-expression parsing where it is not named below, `console.log` output, the `main` drivers and stub `part2` functions that return a constant are not modelled; each model takes the parsed input as parameters.
- The 2022 solvers for days 18, 22, 23 and 24 call members that src/2022/grid.ts does not define: `Grid3D`, and `getXRange` and `getYRange`. These are taken to behave like the members of the same names in src/2023/grid.ts. `Grid3D` holds the cells written, and a row's or column's range is the extent of the cells present in it.
- Day2022_07.ParseEntry: a file size that `parseInt` cannot read is refused. In the source it is NaN, which makes the size of every directory holding it NaN, so none of them passes a size comparison.
- Day2022_11.Part2: requires every divisor to be above zero. In the source a zero divisor makes the modulus 0 and every relaxed worry NaN, so every item then goes to its failure target.
- Day2022_12: the shortest paths come from a graph library; they are parameters of the model.
- Day2022_13: a token `parseInt` reads as NaN is a Failure, where the source stores NaN as an integer packet; other tokens are read as `parseInt` reads them (leading blanks, a sign, a "0x" hexadecimal prefix, the longest digit run). Part2 is a counted position rather than a sort. loadInput is not modelled.
- Day2022_14: the abyss pour loops forever once the source is plugged, so it runs on fuel.
- Day2022_14.CreateGrid: a rock with x outside 0 to 999 is a Failure. In the source, writing past the end of a row lengthens that row, and a negative x adds a property that is not an array element; the later pour reads those rows as so changed.
- Day2022_15: the input regex is not modelled.
- Day2022_16: the memo cache is not modelled; a tunnel to an unknown valve is excluded by a requires; MaxBy's choice among ties (the first) is not stated; the status printed by console.log is not modelled.
- Day2022_17: `grid.yMax` is read as the tracked yMax (HeightMeaning proves they agree); with no jets every push is to the right and no skip happens, as in the source; the cycle heuristic is modelled as written (it is not proved to find a true cycle).
- Day2022_18: Grid3D<boolean> is modelled as the set of cells it holds (it only ever stores true); the empty input, whose corner is NaN in the source, gives 0.
- Day2022_19: the memo cache is not modelled; its key (src/2022/19/index.ts:88-91) leaves out the allowed-robot flags and is only formed when timeLeft is a multiple of 5 or above 10, so a cached value computed under one set of flags can be returned under another, and the source's result may then differ from the uncached search that Best and Optimize model; the regex input parser and the console output are not modelled.
- Day2022_19.BestIsMax: the maximum over valid build orders assumes no robot costs geodes, which the parser guarantees by writing 0 in that column; the prunings of the search are part of what "valid" means there, so no claim is made about orders that break them.
- Day2022_20: entries are modelled by their input index, with `next` and `prev` as sequences of indices in place of object references; `validateList` is the `Ring` predicate, proved after every move rather than checked; Part1 requires a 0 in the list, as without one the search never ends; the console output and the stub part2 are not modelled.
- Day2022_22: the map is taken as its lines, with the movements already split; src/2022/grid.ts has no `getXRange`/`getYRange`, so the row and column ranges are modelled as `getXRange(y)`/`getYRange(x)` of the 2023 grid give them (the extent of the cells present on that row or column); on an empty board the source computes with undefined coordinates, modelled as no password; part2 is a stub.
- Day2022_23: the elves' array is updated in place in the source; here each pass returns the new sequence of elves. src/2022/grid.ts has no `getXRange`/`getYRange`; the rectangle is taken over the elves' cells, which are the cells the grid holds. Without elves the source computes with undefined bounds; the model gives no answer.
- Day2022_23.Part2: the loop of `move` without a cap need not end; the model runs at most `fuel` rounds and gives no answer when they are not enough.
- Day2022_24: the `cache` map of `solve` is not modelled (it stores the value the recursion computes); `loadInput`'s building of the wind maps is taken as given; src/2022/grid.ts has no `getXRange`/`getYRange`, so the rows' column ranges and the grid's row range are parameters; a column or row missing from a wind map, where the source would fail on `undefined`, counts as one without winds; a width or height of 0, where the source computes NaN, gives no wind position.
- Day2022_24.SolveIteratively: the loop with a growing bound need not end; the model tries at most `fuel` bounds and gives no answer when they are not enough; `Math.floor(maxTime * 1.1)` is taken with 1.1 as the exact decimal, not its binary floating-point value.
- Day2022_25: `Math.pow` and the division by 5^idx are taken over exact integers, where the source computes in doubles that lose exactness above 2^53; `Math.round` is modelled as rounding half up, and no quotient of an integer by an odd power of five lies half way; the error message leaves out the count; part2 is a stub.
- Day2023_01: reading the input file and printing are not modelled; `main` is modelled as SumCalibrations over the lines.
- Day2023_02: the input parser is not modelled; a grab is a map from the three colours to counts. `Object.entries(grab)` is visited in the fixed colour order, not in the order the grab names its colours, which does not change a maximum. A colour name outside the three is not modelled.
- Day2023_03: the grid is read through the non-empty input lines `loadInput` stores, cell (x, y) being character x of line y; the parts are grouped by their location pair, where the source's key is the string "x-y", which is one-to-one on the non-negative coordinates a symbol has; the `as Indicator` cast keeps any symbol character.
- Day2023_04: the card parser is not modelled; `Math.pow(2, m - 1)` is exact for the match counts a card can have; JavaScript numbers are modelled as integers or NaN, and NaN arises only from adding 1 to `undefined`; the stored values are summed in card order rather than in the map's insertion order, which gives the same sum.
- Day2023_05: the almanac parser and the `console.log` calls are not modelled; the `undefined` length of a lone last seed is not carried through the arithmetic, but its effect is modelled: the range survives a mapping only when the window ends before it, and otherwise fails the mapper's assertion.
- Day2023_06: the race solver computes with square roots in floating point, which is not modelled.
- Day2023_07: the input parser is not modelled; hands are taken as five-character strings, as the `Hand` tuple type states; `Object.values(...).sort()` sorts the counts as strings, which agrees with the numeric order for the single-digit counts of a five-card hand; `getWinnings` sorts the array in place, which is modelled by each game's rank (1 plus the number of games a stable sort places before it), not by the array update.
- Day2023_08.CountMoves: the source loops until a final node and never gives up; the model takes a step bound `fuel` and reports a failure beyond it, and `CycleNeverArrives` names the inputs on which the source does not end.
- Day2023_08.Part2Counts: the least common multiple of the counts comes from the `compute-lcm` package, which is not part of this model; the starts are the keys of a map, so their order is not modelled, and keys inherited from the JavaScript object prototype are ignored.
- Day2023_09: `part2` prints the input unchanged and is not modelled; the input is parsed by `parseInt`, which is not modelled.
- Day2023_10: `part2` prints the map and is not modelled; a neighbour of the start that is not a pipe, '.' or 'S' makes the source throw, which is a failure here.
- Day2023_10.LoopLength: the source walks until it is back on the start and never gives up; the model takes a step bound `fuel`, and reading `offsets` of a tile that is not a pipe, which throws in the source, is a failure.
- Day2023_11: the grid of `loadInput` is read from the lines directly, as a `true` at every '#'; the extents stand for `getXRange`/`getYRange` of the grid library, and a failed `assert` on an empty image is a failure.
- Day2023_12: `part2` only prints its input and is not modelled; `combinations` is modelled by the set of k-element subsequences, not by the library's enumeration order, which cannot change a count; groups are whole numbers as parsed, a `parseInt` of NaN is not modelled.
- Day2023_13: `part2` only prints its input and is not modelled; an empty pattern, where `pattern[0].length` throws, is modelled as a failure of the whole sum.
- Day2023_14.Platform.Roll: the `while (movement)` loop runs at most `fuel` passes, and Part1 fails when they are not enough; termination of the unbounded loop is not proved. The grid is the map of cells `loadInput` sets, not the sparse grid library, and its x range is proved to be 0 .. width - 1 (WidthIsXRange). `part2` only prints and is not modelled.
- Day2023_15: the steps are taken as already split at '=' or with the trailing '-' dropped, with the value `parseInt` gives taken as an integer; a step whose value is not a number (NaN in the source) is not modelled. Character codes are `charCodeAt`'s UTF-16 units, taken as the code of each `char`.
- Day2023_16: the grid is the map of cells `loadInput` sets, not the sparse grid library; a cell holding a character outside the `interactions` table, where the source throws on `undefined`, is modelled as a failure; `part2` only prints and is not modelled.
- Day2023_17: `loadInput` is not modelled (the map is given as a map from blocks to their digits, so `parseInt` never yields NaN); the priority queue is a sequence popped at an entry of least heat, so the order among equal heats may differ from the library's heap, which changes no answer; `computeHash` joins a block and a heading into a string and is modelled as the pair itself, which it determines.
- Day2023_18: `loadInput`'s text parsing and the colour field are not modelled (instructions are given as values); the grid is a map from coordinates to '#', '.' or '?' rather than the sparse grid library, and its ranges are computed from the set cells, as the library's `getXRange` and `getYRange` do; `part2` only prints and is not modelled.
- Day2023_19: `loadInput`'s text parsing is not modelled (workflows and parts are given as values); the recursion of `isAccepted` and `computeBlueprints` carries a bound on the number of workflows visited, since a cycle of workflows would never end; Part1 sums each part's four ratings and part 2's sum counts each accepted combination once only when the blueprints are disjoint, which is not proved (the coverage is, by ComputeMeaning).
- Day2023_20: the module classes' common base becomes one `Module` class with a `kind`, since the model has no subclasses; `loadInput`'s regular-expression parsing is not modelled (the parsed lines are given as values); `press` takes at most a given number of pulses, since pulses can circle for ever; the network is required to hold distinct module objects, as `loadInput` builds it; `part2` only prints the network and is not modelled.
- Day2023_21: the map is a map of cells in place of the sparse grid library, and `loadInput` is modelled by the functions `CellsOf` and `StartOf` on the non-empty lines; `uniq` is modelled as removing nothing, since it compares the fresh coordinate objects by reference; `part2` only prints and is not modelled.
- Day2023_22: `parseCoordinate` and the line splitting of `loadInput` are not modelled (the ends are given as integers to `MakeBrick`); the `sortBy` on z is left out: `Gravity`, `Part1` and `Part2` take the bricks already in that order, as `gravity` receives them, and settle them in the order given; `gravity` takes at most a given number of rounds and `getChainLength` at most a given number of worklist passes, since a brick below the floor never lands; the `Grid3D` helper is a map from coordinates to names; the chain found is proved closed and justified, not the smallest such set.
- Day2024_01: `loadInput`'s line splitting and `parseInt` are not modelled; the input is the list of number pairs.
- Day2024_02: `loadInput` is not modelled; the input is the list of reports as integer lists.
- Day2024_03: `parseLine`'s regular expression is not modelled; the input is each line's instructions, with the one-to-three-digit operands as natural numbers.
- Day2024_04: `loadInput` is not modelled; the grid is the list of non-empty input lines, and a column past the end of a shorter row reads as no character.
- Day2024_05: `loadInput` is not modelled, so pages are integers and never NaN; the `while (!isValidOrder)` repair loop, which need not end for contradictory rules, runs under a fuel bound, and `Part2` fails when the fuel runs out.
- Day2024_06: `LoadInput` takes the non-empty lines; the `while (true)` walk, which never ends for a guard walking in a cycle, runs under a fuel bound and `Part1` fails when the fuel runs out; the `r:c` strings of the visited set are modelled as pairs, which they encode one to one; `part2` returns 0 and is not modelled.
- Day2024_07: `loadInput` and its `parseInt` are not modelled; results and values are integers without the 53-bit precision limit of JavaScript numbers; `part2` returns 0 and is not modelled.
- Day2024_08: `loadInput`'s splitting is not modelled; the grid is the list of non-empty lines; the frequencies are visited in the map's key set rather than in insertion order, which changes no result since the antinodes form a set; the `r,c` strings of the antinode sets are modelled as pairs, which they encode one to one.

## Findings

| source | as written | input that shows it | evidently intended | confidence | as-written member | corrected member |
|---|---|---|---|---|---|---|
| src/2022/15/index.ts:101-103 | `part2` multiplies the index of the first uncovered cell within the scanned row, not its x coordinate | no sensors, square from 5 to 5: the uncovered cell is (5, 5) but the report is 5 | (minXY + index) * 4000000 + y | medium, not executed; both calls in the file start the square at 0, where the two agree | Day2022_15.Part2IndexNotCoordinate | Day2022_15.Part2Corrected |
| src/2022/17/index.ts:125-127 | after a skip the index lands on `rockIdx + floor((noRocks - rockIdx)/rockIncr)·rockIncr`, and the loop's `rockIdx++` then counts that rock as placed too | jets ">" and 11 rocks: the phases repeat at rock 6 with a cycle of 5, the skip lands on 11 and the loop has accounted for 12 rocks | count only the rocks after the current one: `floor((noRocks - rockIdx - 1)/rockIncr)` cycles | medium, not executed; it needs the rocks left to be an exact multiple of the cycle | Day2022_17.SkipToOvershoots | Day2022_17.SkipToCorrectedFits |
| src/2022/20/index.ts:69-73 | `netMove` is the value modulo the list's length n, but a moving entry steps past only the n - 1 other entries | the list [3, 0, 0]: 3 % 3 is 0, so entry 0 keeps its place, while three steps past the two others is one step and puts it after entry 1 | the value modulo n - 1 | medium, not executed; the two agree whenever the value is smaller in size than the list | Day2022_20.NetMoveMisses | Day2022_20.CorrectedNet |
| src/2023/7/index.ts:44-51 | with jokers, a hand of more than one kind sets `jokersCount = countsDict["J"]`, which is `undefined` when the hand holds no J; `counts[0] += undefined` is NaN, so the hand falls through to HIGH_CARD | "AAAAK" in part 2: FOUR_KIND without jokers, HIGH_CARD with them | a joker count of 0 for a hand without a J | high, not executed; any part 2 input with a J-less hand of two or more kinds is affected | Day2023_07.FourKindDrops | Day2023_07.CorrectedWithoutJoker |
| src/2023/9/index.ts:41-50 | `predict` adds `entry[entry.length - 1]` of every row, and an empty row gives `undefined`, so the prediction is NaN; the stack ends in an empty row whenever the sequence has one value, or whenever the rows run out before one is all zero | [5] gives NaN; so does [1, 2, 4], whose rows are [1, 2], [1] and [] | an empty row counts as 0, so [5] predicts 5 and [1, 2, 4] predicts 7 | medium, not executed; puzzle inputs have enough values for the rows to reach zero | Day2023_09.SingleValueIsNaN | Day2023_09.Extrapolate |
