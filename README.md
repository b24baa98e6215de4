# Advent of Code 2022 solvers, days 1 to 11

This project models the algorithm half of each `src/days/dayN.tsx` solver: the
function that turns the puzzle text into data (`prepare`) and the functions
that compute the two answers from it. Each day is one Dafny module
(`Day1` … `Day11`, files `day1.dfy` … `day11.dfy`). Two shared modules model
the JavaScript built-ins the solvers rely on:

- `Text` (`text.dfy`) covers `split`, `join`, `trim`, `replace` and a lenient
  `parseInt` that skips leading white space and takes a sign. After a `0x` or
  `0X` prefix it reads the longest run of hexadecimal digits, otherwise the
  longest run of decimal digits, and it gives `None` for `NaN`. It also holds the `Option` and
  `Result` wrappers; `Result.Error` carries the message of an exception the
  solver would throw.
- `Lists` (`lists.dfy`) covers sums, `Math.max`, the stable ascending
  `sort`, `slice` with a negative start, `filter` and `flat`.

Each file keeps the form of its source:

- Pure solvers become functions: days 1, 2 and 4, `getTopOfAllRows`,
  `getVisibleTrees`, `buildOperation`, `gcd` and `getMostActive`.
- Loops that push into arrays or update counters become methods with loop
  invariants, proved against a specification function. Examples are
  `findGroupKeys`, both crane simulators, `findIndexFirstNonDuplicateN`,
  the day 7 searches, the day 8 grid build, `runCommands` and `findLcm`.
- Objects that are updated in place become classes:
  - day 7's directory tree is `FileSystem`, an arena of directories addressed
    by index;
  - day 9's knots are `Knot` objects linked by `nextKnot`;
  - day 11's monkey map is `Troop`.

  Their methods are proved equal to the functional step they perform
  (`Apply`, `Tick`, `Throw`/`Turn`/`Round`).

Properties are proved as lemmas next to the functions they are about. They
include round trips (rendering groups and preparing them back; decimal text
and `parseInt`), invariants (crates are conserved, the rope stays taut, the
day 7 sizes stay rolled up, monkey items are conserved), minimality of the
searches, and the congruence argument behind day 11's `% lcm` relief.

## Model

| member | source | states |
|---|---|---|
| Text.Split | src/days/day1.tsx:8 | `split(sep)` returns at least one piece; joining the pieces with `sep` gives the text back; no piece contains `sep` |
| Text.SplitJoin | src/days/day1.tsx:8 | splitting the join of pieces that cannot hide the separator gives the same pieces back |
| Text.Find | src/days/day5.tsx:50 | the first occurrence of a pattern: it occurs there, not earlier, and `None` means nowhere |
| Text.ReplaceAt | src/days/day5.tsx:50 | `replace` substitutes the first occurrence only, leaving the text around it unchanged |
| Text.Trim | src/days/day1.tsx:8 | `trim` returns a contiguous part of the text with only white space cut off before and after it; the part does not start or end in white space, and text that has no such ends is returned unchanged |
| Text.ParseDecimal | src/days/day1.tsx:8 | `parseInt` of a number's decimal digits gives the number back |
| Text.ParseNegativeDecimal | src/days/day4.tsx:20 | `parseInt` of `-` followed by a number's digits gives the negated number |
| Text.ParseIntText | src/days/day9.tsx:33 | `parseInt` of any integer's decimal text gives the integer back |
| Text.DecimalValue | src/days/day1.tsx:8 | the decimal digits of a number are worth that number |
| Text.ParseInt | src/days/day1.tsx:8 | a number is read only from text holding a decimal digit, and a negative one only from text holding a minus sign |
| Text.HexRead | src/days/day1.tsx:8 | `0x` followed by hexadecimal digits reads as their value in base 16 |
| Text.HexPrefixAlone | src/days/day1.tsx:8 | `0x` not followed by a hexadecimal digit is `NaN` |
| Lists.Max | src/days/day1.tsx:39 | `Math.max(...xs)` on a non-empty list is one of its elements and no element is larger |
| Lists.SortBy | src/days/day1.tsx:16 | sorting ascending by a key returns a permutation of the input in ascending key order |
| Lists.SliceStart | src/days/day1.tsx:16 | where `slice(start)` begins: a negative start counts from the end, and the start is clamped to the length |
| Lists.TopBy | src/days/day11.tsx:93 | sort then `slice(-1 * n)`: for n ≥ 1 the result has min(n, length) elements, ascending, drawn from the input; nothing left out outranks the first one kept, and nothing outranks the last |
| Lists.TopByKeys | src/days/day11.tsx:93 | two lists with the same keys in the same order give top slices with the same keys |
| Lists.SumPermutation | src/days/day1.tsx:40 | a sum does not depend on the order of the summands |
| Lists.SumAppend | src/days/day1.tsx:12 | the sum of a concatenation is the sum of the sums |
| Lists.Filter | src/days/day4.tsx:17 | `filter` keeps exactly the elements that satisfy the predicate, in their original order |
| Lists.FilterFilter | src/days/day4.tsx:89-90 | filtering twice keeps what satisfies both predicates |
| Lists.FilterStronger | src/days/day4.tsx:89-90 | a stronger predicate keeps no more elements than a weaker one |
| Lists.FilterCount | src/days/day4.tsx:89-92 | the filtered list has exactly one element per position whose element passes |
| Lists.SumBounds | src/days/day2.tsx:30 | terms between lo and hi sum to between lo and hi times their count |
| Lists.FlattenAround | src/days/day8.tsx:86 | `flat` places each piece between the pieces before it and the pieces after it |
| Lists.RemoveAt | src/days/day7.tsx:157 | taking one element out of a list without repeats removes exactly that value |
| Day1.Prepare | src/days/day1.tsx:7-9 | one group per blank-line-separated block of the trimmed input, one number per line of the block |
| Day1.Reduce | src/days/day1.tsx:11-13 | one total per group: entry i is the sum of group i |
| Day1.ReduceKeepsTotal | src/days/day1.tsx:11-13 | the totals add up to the sum of every number in the input |
| Day1.GetTopN | src/days/day1.tsx:15-17 | for n ≥ 1, the min(n, length) largest totals in ascending order, drawn from the input; no total left out is larger than the smallest one kept; the input is a value and is not changed |
| Day1.Solve | src/days/day1.tsx:36-40 | part 1 is one of the totals and no total is larger; part 2 is the sum of three totals (all of them when fewer) drawn from the list, none left out larger than any kept |
| Day1.TopOneIsMax | src/days/day1.tsx:39-40 | the sum of the top 1 equals the maximum total |
| Day1.SingleTop | src/days/day1.tsx:39-40 | a one-element top drawn from the totals that no total exceeds sums to the maximum |
| Day1.ParseLines | src/days/day1.tsx:8 | one number per line, each what `parseInt` gives that line |
| Day1.PrepareRender | src/days/day1.tsx:7-9 | preparing groups of numbers written in the puzzle's format gives the groups back |
| Day1.RenderBlocks | src/days/day1.tsx:8 | splitting such a text at blank lines gives back exactly the blocks written |
| Day2.Code | src/days/day2.tsx:11-17 | `A`,`B`,`C` and `X`,`Y`,`Z` become 1, 2, 3 |
| Day2.Prepare | src/days/day2.tsx:10-18 | one round per line of the trimmed input, one code per space-separated word, each code the one `Code` gives that word |
| Day2.ScoreRound1 | src/days/day2.tsx:21-30 | a round scores the shape plus 3 for a draw and 6 for a win; from 1 to 9 for codes 1 to 3 |
| Day2.ScoreRound2 | src/days/day2.tsx:34-49 | the score is the chosen shape plus 0, 3 or 6 for a loss, a draw or a win; from 1 to 9 |
| Day2.Chosen | src/days/day2.tsx:37-49 | the shape part 2 picks loses to, draws with or beats the opponent as the result code asks |
| Day2.ScoresAgree | src/days/day2.tsx:20-51 | part 2's score equals part 1's score of the chosen shape |
| Day2.Part2IsPart1OfChosen | src/days/day2.tsx:33-51 | part 2's total equals part 1's total over the chosen shapes |
| Day2.AppendRound | src/days/day2.tsx:30-50 | one more round adds exactly its score to either total |
| Day2.CalculateScorePart1 | src/days/day2.tsx:20-31 | part 1's total over rounds of codes 1 to 3 lies between the number of rounds and nine times that |
| Day2.CalculateScorePart2 | src/days/day2.tsx:33-51 | part 2's total over rounds of codes 1 to 3 lies between the number of rounds and nine times that |
| Day2.Scores1 | src/days/day2.tsx:20-31 | one part 1 score per round, in order |
| Day2.Scores2 | src/days/day2.tsx:33-50 | one part 2 score per round, in order |
| Day3.Prepare | src/days/day3.tsx:12-14 | the lines of the trimmed input: no piece holds a newline, and joined by newlines they give the trimmed input back |
| Day3.Halves | src/days/day3.tsx:18-20 | a rucksack splits at `ceil(length / 2)`: two parts that make it up again, the first at most one longer |
| Day3.SharedFrom | src/days/day3.tsx:21-25 | the first position from `i` on whose item is also in the second half; `None` when there is none |
| Day3.Duplicate | src/days/day3.tsx:17-27 | the earliest item of the first half that also occurs in the second; the error "No duplicate found" exactly when the halves share nothing |
| Day3.FindDuplicate | src/days/day3.tsx:18-26 | the search loop returns what `Duplicate` specifies |
| Day3.FindDuplicates | src/days/day3.tsx:16-28 | one duplicate per rucksack in order, or the first rucksack's error |
| Day3.ChunkKey | src/days/day3.tsx:33-41 | a chunk's key is the first item of its first rucksack found in the next two; none when there is none; reading a second or third rucksack that is missing is an error |
| Day3.SearchChunk | src/days/day3.tsx:34-41 | the inner loop returns what `ChunkKey` specifies |
| Day3.Chunk | src/days/day3.tsx:33 | `slice(i, i + size)`: the next `size` rucksacks, fewer at the end |
| Day3.FindGroupKeys | src/days/day3.tsx:30-44 | the chunk loop returns what `GroupKeysFrom` specifies |
| Day3.GroupKeysSpec | src/days/day3.tsx:30-44 | at most one key per chunk, and each key is the key of a chunk starting a whole number of chunks after the first, held by all three rucksacks of that chunk |
| Day3.GroupKeysNoError | src/days/day3.tsx:30-44 | with chunks of 3 and a multiple of 3 rucksacks no missing rucksack is read |
| Day3.WholeChunksNoError | src/days/day3.tsx:30-44 | from any whole number of chunks of at least 3 on, no missing rucksack is read |
| Day3.Priority | src/days/day3.tsx:47-49 | `a`..`z` are worth 1..26 and `A`..`Z` 27..52 |
| Day3.PriorityRoundTrip | src/days/day3.tsx:47-49 | letters and priorities 1..52 correspond one to one |
| Day3.SumPriorities | src/days/day3.tsx:46-51 | the sum over letters lies between their number and 52 times that |
| Day3.SumPrioritiesAppend | src/days/day3.tsx:46-51 | one more item adds exactly its priority |
| Day4.Prepare | src/days/day4.tsx:12-14 | one entry per line of the trimmed input, holding the line's pieces between commas: no piece holds a comma, and joined by commas they give the line back |
| Day4.FindCompleteOverlaps | src/days/day4.tsx:16-27 | exactly the pairs in which one range contains the other |
| Day4.FindAnyOverlaps | src/days/day4.tsx:29-42 | exactly the pairs whose ranges overlap |
| Day4.ContainingMeansSubset | src/days/day4.tsx:25 | for ordered ranges the test holds iff every number of one range lies in the other |
| Day4.OverlappingMeansShared | src/days/day4.tsx:40 | for ordered ranges the test holds iff some number lies in both, iff the larger start is at most the smaller end |
| Day4.Symmetric | src/days/day4.tsx:25-40 | both tests are symmetric in the two ranges |
| Day4.ContainingImpliesOverlapping | src/days/day4.tsx:25-40 | for ordered ranges containment implies overlap |
| Day4.SolveCounts | src/days/day4.tsx:88-92 | for ordered ranges, filtering the overlapping pairs for containment finds every containing pair, so part 1 counts the containing pairs of the whole list |
| Day4.Solve | src/days/day4.tsx:88-92 | part 2 counts the overlapping pairs, part 1 the containing pairs among them, so part 1 ≤ part 2 |
| Day4.RangeRoundTrip | src/days/day4.tsx:19-21 | `a-b` written in decimal reads back as a and b |
| Day4.UnorderedContainment | src/days/day4.tsx:25-40 | for reversed ranges the written tests can report containment without overlap |
| Day5.Crate | src/days/day5.tsx:33-35 | a row adds the letter after a `[` at position 4k to stack k, and nothing otherwise |
| Day5.Prepare | src/days/day5.tsx:17-43 | one stack per four characters of the first line; stack k holds the row letters from the bottom up; the commands are the lines of the trimmed second part |
| Day5.ParseCommandText | src/days/day5.tsx:50 | `move a from b to c` reads back as the three numbers |
| Day5.StepsKeepCrates | src/days/day5.tsx:53-77 | neither crane creates or loses a crate |
| Day5.StepsTransfer | src/days/day5.tsx:53-77 | between two stacks the 9000 moves the top min(n, height) crates in reversed order and the 9001 in their order; from a stack onto itself nothing changes |
| Day5.MoveEachTransfers | src/days/day5.tsx:53-58 | n single pops and pushes amount to one reversed block move |
| Day5.Transfer9000 | src/days/day5.tsx:53-58 | between two stacks the 9000 moves the top min(n, height) crates in reversed order |
| Day5.Transfer9001 | src/days/day5.tsx:74-77 | between two stacks the 9001 moves the top min(n, height) crates in their order |
| Day5.SameStack | src/days/day5.tsx:53-77 | a move from a stack onto itself leaves every stack as it was, for either crane |
| Day5.SingleMovesAgree | src/days/day5.tsx:53-77 | moving one crate, the two cranes agree |
| Day5.Apply9000 | src/days/day5.tsx:49-59 | one command on a copy of the last state, popping and pushing one crate at a time |
| Day5.Apply9001 | src/days/day5.tsx:70-79 | one command on a copy of the last state, splicing off the top block and pushing it |
| Day5.Trace | src/days/day5.tsx:46-79 | one state per command plus the first, which is the prepared stacks |
| Day5.TraceKeepsCrates | src/days/day5.tsx:45-82 | every recorded state holds the crates of the first |
| Day5.Crate9000Simulator | src/days/day5.tsx:45-62 | the recorded states are the trace of the 9000 over the commands |
| Day5.Crate9001Simulator | src/days/day5.tsx:64-82 | the recorded states are the trace of the 9001 over the commands |
| Day5.TopOfAllRows | src/days/day5.tsx:84-86 | the top crate of each stack in stack order, when no stack is empty |
| Day6.UniqueDistinct | src/days/day6.tsx:16-17 | the size of the set of a window's characters equals its length iff they are pairwise distinct |
| Day6.FindIndexFirstNonDuplicateN | src/days/day6.tsx:14-22 | the loop returns what `FirstFrom` specifies |
| Day6.FirstFromSpec | src/days/day6.tsx:15-21 | searching from a position gives the earliest window end from there, or the not-found error iff there is none |
| Day6.FirstWindow | src/days/day6.tsx:14-22 | the answer i lies in n..length, ends a window of n distinct characters, and no smaller end does; the error is thrown iff there is none, in particular when the text is shorter than n |
| Day6.Monotone | src/days/day6.tsx:14-22 | a window of n + 1 distinct characters is never found before one of n |
| Day6.SamplePacket | src/days/day6.tsx:35 | the sample `bvwbjplbgvbhsrlpgdmjqwftvncz` gives 5 for n = 4 |
| Day6.SampleMessage | src/days/day6.tsx:36 | the same sample gives 23 for n = 14 |
| Day7.Start | src/days/day7.tsx:24-30 | the empty root, with the cursor on it, is a consistent state |
| Day7.FileSystem.constructor | src/days/day7.tsx:24-30 | the new file system holds the empty root with the cursor on it |
| Day7.Apply | src/days/day7.tsx:32-78 | a line keeps the tree consistent and sizes rolled up, adds the listed file size to the total, and fails with a TypeError when the cursor is not on a directory of the tree |
| Day7.CdUpAndHome | src/days/day7.tsx:37-44 | `cd ..` at the root stays there, and from an inherited `Object.prototype` member goes to the root; `cd /` returns to the root |
| Day7.CdUpToParent | src/days/day7.tsx:37-42 | `cd ..` below the root moves to the parent |
| Day7.CdByName | src/days/day7.tsx:45-47 | `cd name` moves to that child; to the inherited member when the name is an `Object.prototype` property; to no directory otherwise |
| Day7.ListingNeedsDirectory | src/days/day7.tsx:37-70 | with the cursor on no directory of the tree, a listing line and a `cd` by name throw, and so does `cd ..` from no directory at all |
| Day7.OtherCommands | src/days/day7.tsx:49-51 | `ls` and other commands change nothing |
| Day7.DirIdempotent | src/days/day7.tsx:55-63 | `dir name` changes nothing when the name is a child or an `Object.prototype` property, and a second one changes nothing |
| Day7.AddedFileKeeps | src/days/day7.tsx:65-76 | adding a file to every directory up the parent chain keeps each size equal to the files below it, and adds the size to the total |
| Day7.RaisedStep | src/days/day7.tsx:71-76 | one turn of the parent loop adds the size to exactly one more ancestor |
| Day7.WithDir | src/days/day7.tsx:55-63 | a name that is neither a child nor an `Object.prototype` property is appended and linked under its name; otherwise nothing changes |
| Day7.Cd | src/days/day7.tsx:37-47 | a `cd` that lands on a directory lands on one of the tree |
| Day7.InheritedNameThrows | src/days/day7.tsx:45-66 | `cd /`, `ls`, `dir constructor`, `cd constructor`, `ls`, `100 f` throws a TypeError |
| Day7.InheritedFileThrows | src/days/day7.tsx:64-70 | inside an inherited member, `ls` then a file line throws a TypeError |
| Day7.RootSize | src/days/day7.tsx:65-76 | the root's size is the size of every file in the tree |
| Day7.RunTotal | src/days/day7.tsx:31-79 | after the whole listing the files total the starting total plus every listed size |
| Day7.Run | src/days/day7.tsx:31-79 | processing all lines keeps the tree consistent; the only failure is the TypeError |
| Day7.RootHoldsListedFiles | src/days/day7.tsx:23-81 | from an empty root, the root's size is the sum of every listed file size |
| Day7.FileSystem.AddFile | src/days/day7.tsx:65-76 | the `while` loop up the parents leaves the tree that `AddedFile` specifies |
| Day7.FileSystem.ProcessLine | src/days/day7.tsx:32-78 | processing a line in place gives the state `Apply` specifies, and fails exactly when it does |
| Day7.Prepare | src/days/day7.tsx:23-81 | the directories after every line, or the TypeError of the first failing line |
| Day7.FindDirectoriesSmallerThanN | src/days/day7.tsx:89-103 | exactly the directories of the subtree, the start included, of size at most n, each once |
| Day7.SumOfSizes | src/days/day7.tsx:157 | the sum of the found sizes is the total over the chosen set |
| Day7.SmallTotalMonotone | src/days/day7.tsx:89-157 | that total does not decrease as n grows |
| Day7.FindSmallestGreaterThanN | src/days/day7.tsx:110-124 | the start or a descendant of size at least n, no larger than the start and than any descendant of size at least n |
| Day7.GetDeletionCandidate | src/days/day7.tsx:133-137 | a directory of the subtree that is the start or frees the required space, that frees it whenever the start does, and no larger than any other directory that frees it |
| Day7.Answers | src/days/day7.tsx:155-158 | part 1 is the total of the small directories; part 2 is the size of a directory that is the root or frees the needed space, frees it whenever the root does, and is no larger than any directory that frees it |
| Day7.Solve | src/days/day7.tsx:23-158 | the answers exist iff every line can be processed, and then are those `Answers` states of the final tree; otherwise the TypeError |
| Day8.Heights | src/days/day8.tsx:25-31 | one row per line of the trimmed input and one height per character |
| Day8.DigitHeight | src/days/day8.tsx:31 | a digit character reads as its value |
| Day8.LookSpec | src/days/day8.tsx:45-77 | looking along a line: blocked iff some tree is at least as tall; the count reaches the first such tree, or the edge |
| Day8.NorthView | src/days/day8.tsx:45-60 | `blockedNorth` iff a tree above is as tall; `sceneNorth` counts up to and including it, or to the edge; at most the row index |
| Day8.SouthView | src/days/day8.tsx:45-60 | the same for south, bounded by the column's depth |
| Day8.EastView | src/days/day8.tsx:62-77 | the same for east, bounded by the row's end |
| Day8.WestView | src/days/day8.tsx:62-77 | the same for west, at most the column index |
| Day8.Prepare | src/days/day8.tsx:23-83 | the nested loops that update earlier trees in place build the grid `Forest` specifies |
| Day8.BuildGrid | src/days/day8.tsx:24-82 | the row loop builds the grid `Forest` specifies |
| Day8.CompareVertical | src/days/day8.tsx:45-60 | comparing a tree with one below updates the upper tree's south sight and the lower tree's north sight, and nothing else |
| Day8.CompareHorizontal | src/days/day8.tsx:62-77 | comparing a tree with one to its right updates the left tree's east sight and the right tree's west sight, and nothing else |
| Day8.ForestShape | src/days/day8.tsx:25-80 | one row per line, one tree per character, each with the digit's height and scenic 0 |
| Day8.Visibility | src/days/day8.tsx:86 | a tree is visible iff all trees in some direction are lower |
| Day8.EdgeVisible | src/days/day8.tsx:86 | trees on an edge are visible |
| Day8.VisibleTreesSpec | src/days/day8.tsx:85-87 | the visible trees are the grid's trees not blocked in all four directions |
| Day8.VisibleTreesCount | src/days/day8.tsx:85-87 | the list of visible trees has one entry per grid position holding a visible tree |
| Day8.ScoringKeepsVisible | src/days/day8.tsx:88-97 | setting the scenic scores moves no tree in or out of view |
| Day8.CalculateScenics | src/days/day8.tsx:88-97 | every tree's scenic becomes the product of its four counts, and the result is their maximum, or 0 |
| Day8.EdgeScenic | src/days/day8.tsx:88-97 | a tree's scenic score is 0 iff it stands on an edge |
| Day8.Answers | src/days/day8.tsx:149-152 | part 1 is the number of grid positions holding a visible tree; part 2 is the best scenic score |
| Day9.Prepare | src/days/day9.tsx:28-37 | one vector per line of the trimmed input |
| Day9.ParseLine | src/days/day9.tsx:29-35 | `D n` reads as direction D and distance n |
| Day9.Follow | src/days/day9.tsx:72-103 | a follower moves at most one on each axis and diagonally only when both gaps are non-zero and add up to more than 2; a touching follower stays; one at most two away on each axis ends up touching |
| Day9.Dragged | src/days/day9.tsx:65-105 | a head step moves the head by the step and every later knot follows the one before it |
| Day9.DraggedTaut | src/days/day9.tsx:70-105 | a rope whose knots touch their leaders still does after a unit head step |
| Day9.RunTaut | src/days/day9.tsx:45-108 | a rope that starts taut stays taut through the simulation |
| Day9.MoveDirection | src/days/day9.tsx:46-67 | U adds n to y, D subtracts n from y, L subtracts n from x, R adds n to x |
| Day9.Add | src/days/day9.tsx:106 | `visited.add(p)`: p is in the result, nothing else is added, and earlier entries keep their places |
| Day9.AddDistinct | src/days/day9.tsx:106 | adding to a list without repeats makes none |
| Day9.TicksVisited | src/days/day9.tsx:65-107 | the last knot's position is recorded after every step; a one-knot rope records nothing more |
| Day9.RunVisited | src/days/day9.tsx:39-115 | the collected positions start with the head's start, never repeat, and for one knot are that start alone |
| Day9.BuildRope | src/days/day9.tsx:117-130 | max(length, 1) fresh knots at (0, 0), linked head to tail |
| Day9.Knot.constructor | src/days/day9.tsx:118-125 | a new knot literal `{ x: 0, y: 0 }` stands at the origin with no next knot |
| Day9.Pull | src/days/day9.tsx:71-104 | one follower update in place gives the position `Follow` specifies |
| Day9.StepRope | src/days/day9.tsx:65-107 | one head step on the linked knots gives the knots and visited list `Tick` specifies |
| Day9.RunSimulation | src/days/day9.tsx:39-116 | the linked knots end where `Run` puts them, and the visited list is `Run`'s |
| Day9.MoveRope | src/days/day9.tsx:45-107 | one vector's steps on the linked knots give the knots, heading and visited list `Move` specifies |
| Day9.Answers | src/days/day9.tsx:147-149 | the answers count the positions of a 2-knot and a 10-knot rope's tail |
| Day10.Prepare | src/days/day10.tsx:15-17 | the lines of the trimmed input: no piece holds a newline, and joined by newlines they give the trimmed input back |
| Day10.Parse | src/days/day10.tsx:32-47 | a line is `noop`, `addx` with its number, or another command |
| Day10.Execute | src/days/day10.tsx:31-53 | one line of the loop updates cycle, x, pixels and signals as `Exec` specifies |
| Day10.RunCommands | src/days/day10.tsx:19-58 | the signals and pixels are `Run`'s, starting at cycle 1 with x = 1 |
| Day10.ExecTicks | src/days/day10.tsx:35-46 | `noop` is one cycle; `addx v` is two cycles and adds v after the second pixel |
| Day10.RunTrace | src/days/day10.tsx:19-58 | for `noop`/`addx` input, the run follows the register trace: one value per cycle |
| Day10.PixelCount | src/days/day10.tsx:25-43 | one pixel per cycle: as many as noops plus twice the addx lines |
| Day10.Hits | src/days/day10.tsx:38-53 | the key cycles hit are in increasing order, each at most once |
| Day10.LitCovers | src/days/day10.tsx:25-29 | away from the end of a row, the written test lights the pixel iff the sprite's three columns cover the beam's column (`Covers`, the intended test) |
| Day10.SignalsStep | src/days/day10.tsx:40-52 | one more cycle adds its signal cycle·x iff it is a key cycle |
| Day10.RowEndDark | src/days/day10.tsx:25-29 | at cycle 40 the written test uses the next row's start: a sprite at 39 covers the beam yet leaves the pixel dark, and one at 0 does not cover it yet lights it |
| Day10.OtherRecordsAgain | src/days/day10.tsx:47-52 | an unknown command adds no cycle but records a key cycle again |
| Day10.Answers | src/days/day10.tsx:88-90 | part 1 is the sum of the signals at cycles 20, 60, …, 220 |
| Day11.BuildOperation | src/days/day11.tsx:13-38 | an operation for the four modifiers and the "unknown magnitude or modifier" error otherwise; only division by a number is fractional |
| Day11.OperationMeaning | src/days/day11.tsx:14-35 | `old` gives w·w, 0, 1 or w + w; a number m gives w·m, w − m or w + m |
| Day11.Get | src/days/day11.tsx:77-79 | `monkeys.get(id)` finds the monkey stored under id, or nothing |
| Day11.Set | src/days/day11.tsx:58-65 | `monkeys.set(id, m)` stores m under id, keeps every other entry, and appends new keys at the end |
| Day11.KeyedUnique | src/days/day11.tsx:46 | keys that stand at their own positions are exactly keys without repeats |
| Day11.Throw | src/days/day11.tsx:72-81 | a throw keeps the ids and rules and the number of monkeys, and shortens the thrower's queue by one |
| Day11.Turn | src/days/day11.tsx:72-82 | a turn keeps the ids, rules and number of monkeys, and leaves the monkey's queue empty |
| Day11.ThrowSpec | src/days/day11.tsx:72-81 | one item: the front item leaves, its new worry is relief(op(w)), it joins the back of the true or false target's queue, and the count goes up by one |
| Day11.ThrowConserves | src/days/day11.tsx:72-81 | throwing keeps the number of items, less one when the target is missing |
| Day11.TurnInspects | src/days/day11.tsx:72-82 | a turn raises the count by the number of items held, and empties the queue |
| Day11.Round | src/days/day11.tsx:70-84 | a round keeps the ids, the rules and the number of monkeys |
| Day11.Rounds | src/days/day11.tsx:86-90 | successive rounds keep the ids, the rules and the number of monkeys |
| Day11.RoundsConserve | src/days/day11.tsx:70-90 | when every target exists and differs from its sender, the rounds keep the number of items |
| Day11.Troop.Inspect | src/days/day11.tsx:73-81 | one throw on the monkeys in place gives the map `Throw` specifies |
| Day11.Troop.constructor | src/days/day11.tsx:46-68 | a troop holding the given map |
| Day11.Troop.TakeTurn | src/days/day11.tsx:72-82 | the `while` loop over one queue gives the map `Turn` specifies |
| Day11.Troop.ProcessRound | src/days/day11.tsx:70-84 | each monkey's turn in map order gives the map `Round` specifies |
| Day11.Troop.RunRounds | src/days/day11.tsx:86-90 | `rounds` successive rounds, none for a negative count |
| Day11.Read | src/days/day11.tsx:51-57 | each number of a block is what `parseInt` gives its text |
| Day11.Entry | src/days/day11.tsx:54-65 | the entry `set` stores: the id and a monkey with its items, operation, divisor, targets and count 0; the `buildOperation` error otherwise |
| Day11.BlocksRead | src/days/day11.tsx:47-57 | every block of the input is read: id, items, modifier, divisor and targets are what `parseInt` gives their texts |
| Day11.Collect | src/days/day11.tsx:46-68 | the entries succeed iff every block does, in order; otherwise the first block's error |
| Day11.Load | src/days/day11.tsx:47-67 | the map holds exactly the ids set, with counts 0 |
| Day11.LoadLatest | src/days/day11.tsx:58-65 | an id set twice holds the later monkey |
| Day11.Build | src/days/day11.tsx:46-68 | a map of fresh monkeys, or the first block's error |
| Day11.BuildMonkeys | src/days/day11.tsx:46-68 | the map holds exactly the blocks' ids, each with the last block of that id |
| Day11.Prepare | src/days/day11.tsx:46-68 | succeeds iff every block's modifier is known; the map is not empty and every count is 0 |
| Day11.Gcd | src/days/day11.tsx:96-101 | on naturals: gcd(a, 0) = a; the result divides both and every common divisor divides it |
| Day11.JsGcd | src/days/day11.tsx:96-101 | `gcd` with JavaScript's `%`, on any integers: its magnitude is the gcd of the magnitudes, and gcd(a, 0) = a |
| Day11.LcmStep | src/days/day11.tsx:107-108 | x·y / gcd(x, y) is a positive common multiple |
| Day11.JsLcmStep | src/days/day11.tsx:107-108 | for non-zero x and y, `gcd` is non-zero and x·y / gcd(x, y) is a non-zero number both divide |
| Day11.FindLcm | src/days/day11.tsx:103-112 | for non-zero divisors, a non-zero number every divisor in the list divides |
| Day11.Third | src/days/day11.tsx:131 | `Math.floor(w / 3)` |
| Day11.JsRem | src/days/day11.tsx:133 | JavaScript's `%` for a non-zero divisor: the sign of the dividend, smaller in magnitude than the divisor, and the same remainder class |
| Day11.ApplyCongruent | src/days/day11.tsx:74 | an integer operation maps numbers with the same remainder to numbers with the same remainder |
| Day11.DivisibleCongruent | src/days/day11.tsx:76 | numbers with the same remainder modulo a multiple of a non-zero d pass or fail the test by d together |
| Day11.ThrowMirrors | src/days/day11.tsx:72-81 | two maps whose items agree modulo m stay so after the same throw |
| Day11.RoundsMirror | src/days/day11.tsx:70-90 | two such maps stay in step through any number of rounds |
| Day11.RemainderKeepsCounts | src/days/day11.tsx:132-133 | relief by a remainder modulo a common multiple of the divisors gives the same counts and product as unreduced arithmetic |
| Day11.GetMostActive | src/days/day11.tsx:92-94 | the min(n, size) monkeys with the largest counts, in ascending order, drawn from the map; none left out has a larger count than the first kept |
| Day11.Business | src/days/day11.tsx:137-138 | the product of the counts of two monkeys that no other monkey outdoes; the one count for a single monkey |
| Day11.ActivityBusiness | src/days/day11.tsx:137-138 | maps with the same counts in the same order have the same product |
| Day11.Simulate | src/days/day11.tsx:129-138 | a fresh troop run for the rounds gives the product of its two largest counts |
| Day11.SimulateReduced | src/days/day11.tsx:132-138 | 10000 rounds with `w % lcm` relief, for a non-zero lcm that every divisor divides, give the product that 10000 unreduced rounds give |
| Day11.Solve | src/days/day11.tsx:129-138 | part 1 after 20 rounds with `floor(w / 3)`; part 2, present iff no divisor is 0, after 10000 rounds; both products of the two largest counts |
| Day11.SimulateLong | src/days/day11.tsx:132-138 | when no divisor is 0, 10000 rounds with `w % findLcm(divisors)` relief give the product of 10000 unreduced rounds; otherwise no answer |
| Day11.Answers | src/days/day11.tsx:126-138 | the two answers for a prepared map, part 2 present iff no divisor is 0, or the error of `prepare` |

## Left out

- The React components (`Day`, hooks, state setters, `useMemo`, timing, `try`/`catch` into warnings) and the rendering helpers: `buildDisplay`/`buildRow` (day 3), `buildVisualisation` (day 4), `buildHeightMap` (day 8), `displayCRT` (day 10) and the day 1 chart. They only build the view.
- `src/components`, `src/Header.tsx`, `src/Main.tsx`, `src/setupProxy.js` and `src/days/template.tsx` are not part of this model. They hold layout, routing, HTTP headers and an empty template.
- JavaScript numbers are unbounded integers. Precision loss above 2^53 is not modelled.
- Day 11's `old / m` gives fractional numbers. Operations are restricted by a precondition to the integer ones (`Integral`). The day 11 answers assume the map is `Ready`: every id is unique and no monkey throws to itself. A self-throw can make the source loop forever; `Ready` also excludes maps with a self-throw on which the source would stop.
- `parseInt` giving `NaN`, and reading past the end of an array, become preconditions (`WellFormed`, `Readable`, `Numeric`, `Paired`, `Drawable`). Day 8 also requires that no row is longer than the rows above it (`Narrowing`), because the source reads trees of the row above by index. There are two exceptions, where the code handles the failure and the model does too:
  - day 7's `cd` into an unknown name leaves no current directory, and the next listing line then fails with a TypeError; a name inherited from `Object.prototype` (`constructor`, `toString`, …) counts as present for `dir` and leads `cd` to a member that is not a directory;
  - day 3's chunk that lacks a second or third rucksack fails with an error.
- Day 9 keeps its visited positions as a list of integer pairs in insertion order. The model does not encode them as `"x,y"` strings and read them back.
- Day 11's `Map` is modelled as the keys in insertion order plus one rule and one hold per key. The monkey objects are not shared by reference.
- Day 11's `console.log` is left out.
- Day7.FindDirectoriesSmallerThanN: states which directories are found, not the order in which the stack visits them. Numeric-looking directory names would change JavaScript's object key order and are not modelled.
- Day11.FindLcm: states that the result is a non-zero common multiple of the divisors (up to sign), not that it is the least one. The day 11 answers need only the former.
- Day5.TopOfAllRows: the source reads `undefined` from an empty stack. The contract states the top crates only when no stack is empty.
- Day11.Solve: when some test divisor is 0 the source's `findLcm` gives 0 or `NaN`, every relieved level becomes `NaN` and goes to the false target, and the source still shows a product. The model gives no part 2 (`None`) then.
- Day11.SimulateLong: gives `None` when some test divisor is 0, for the reason given for `Day11.Solve`.
- Day11.Answers: gives no part 2 when some test divisor is 0, for the reason given for `Day11.Solve`.
- Text strings are sequences of characters, each taken as one UTF-16 code unit. Input is assumed to be ASCII (at most, the Basic Multilingual Plane). Day 6 slices code units while `new Set` counts code points, and days 2 and 3 use `charCodeAt`; outside that range the two would differ.
