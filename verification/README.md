# Advent of Code 2022 solvers, modelled in Dafny

This project models the Rust solvers of an Advent of Code 2022 repository, one Dafny
module per source file (`Day01` for `src/day01.rs`, and so on), and proves properties of
the model. Four shared modules hold what several days use: `Util` (options, sums, ranges),
`Text` (the standard library's integer parsing, `trim` and `split` family), `Sorting` (a
descending sort for the "largest k" answers) and `Bfs` (the relaxation breadth-first search
of the day 12 grid and the day 16 valve reducer).

Each source function becomes a Dafny function, or a method when it loops. Where the
function only computes (a fold, a sum, a wrapper that fixes a constant), what the result
means is stated by a lemma about it or by the contract of the member it calls, and the
table below names that member. Each operation has a partner: an inverse (parsers and renderers,
SNAFU numerals), an invariant (the monkeys' items, the elves' count, the mixing
permutation), or an independent reference definition (shortest distances, the elves' round,
the sand's resting place), connected by a lemma over all inputs.

Conventions:

- A panic of the source (an `unwrap` on bad input, an index out of bounds, a failed
  `assert!`, a division by zero) is a `None` or `Err` result of the model.
- The arithmetic follows a release build. Where the width of an integer changes a result
  that the model states, the wrap is written out: the `usize` free space of day 7, the
  `u8` heights of day 8, the `u64` worry levels, modulus and answer of day 11, and the
  `usize` move counter of day 23. Elsewhere integers are unbounded, so the model agrees
  with the source as long as no fixed-width value overflows; "## Left out" names the
  members whose fixed-width sums, products or coordinates are left unbounded.
- Hash maps and hash sets become Dafny maps and sets; a loop over a hash set is proved for
  every visiting order.
- Foreign calls (regular expressions, `pathfinding::topological_sort`) are not modelled:
  their results arrive as parameters.

Day 22 and day 24 are stubs in the source and day 19's `part2` is a stub too; none is
modelled.

The counter of day 23's `step_once` is wrong as written (see "## Findings"): `Day23.Part1`
and `Day23.Part2` run the corrected `Day23.Step`, and `Day23.Part1AsWritten` and
`Day23.Part2AsWritten` run the code as written (`Day23.StepAsWritten`).

## Model

| member | source | states |
|---|---|---|
| Day01.ParseCalorie | src/day01.rs:11-17 | a blank line is the separator 0; any other line yields a value in 1..2^32-1 exactly when it parses as a non-zero u32, and fails otherwise |
| Day01.ParseCalories | src/day01.rs:9-17 | every line is parsed; the result exists iff each line parses, and then holds each line's value in order |
| Day01.FlattenSplitZero | src/day01.rs:18-33 | the pieces between separators, concatenated, are exactly the non-blank values in order |
| Day01.Grouped | src/day01.rs:18-33 | the groups number one per separator plus one for a non-empty final piece, and their concatenation is the sequence of non-blank values |
| Day01.Group | src/day01.rs:18-31 | the grouping loop (push on a value, close the group on a separator even when empty, keep a non-empty last group) yields the reference grouping |
| Day01.InputGenerator | src/day01.rs:8-34 | fails iff some line does not parse; otherwise returns the grouping of the parsed values |
| Day01.TrailingSeparator | src/day01.rs:24-31 | a separator at the very end closes the last group and no empty group is added after it |
| Day01.TrailingValue | src/day01.rs:29-31 | when the input ends in a value, the last non-empty group is kept |
| Day01.Totals | src/day01.rs:38-39 | one total per group, each the sum of that group |
| Day01.Part1 | src/day01.rs:36-42 | fails iff there are no groups; otherwise the result is the total of some group and no group's total exceeds it |
| Day01.Part2 | src/day01.rs:44-51 | the answer is the sum of three totals (all of them when there are fewer groups) none of which is smaller than any total left out |
| Day01.Part2AtLeastPart1 | src/day01.rs:36-51 | in unbounded arithmetic, the sum of the three largest totals is never below the largest total |
| Day02.WinningScore | src/day02.rs:22-33 | 3 exactly for a draw, 6 exactly when my hand beats the other, 0 exactly when the other beats mine |
| Day02.WinningScoreSymmetry | src/day02.rs:22-33 | a hand against itself scores 3, and the two sides of any game share 6 points |
| Day02.ParseLeft | src/day02.rs:52-63 | accepts exactly "A", "B", "C", and the accepted letter is the one the result stands for |
| Day02.ParseRight | src/day02.rs:93-104 | accepts exactly "X", "Y", "Z", and the accepted letter is the one the result stands for |
| Day02.DesiredHand | src/day02.rs:80-90 | the chosen hand loses against the other hand for X, draws for Y and wins for Z |
| Day02.DesiredHandUnique | src/day02.rs:80-90 | no other hand gives the required outcome |
| Day02.RoundScore1 | src/day02.rs:130-134 | the first reading scores the outcome of my hand plus 1, 2 or 3 for X, Y, Z, always within 1..9 |
| Day02.RoundScore2 | src/day02.rs:136-140 | the second reading scores 0, 3 or 6 for X, Y, Z plus the shape value of the desired hand, always within 1..9 |
| Day02.TotalsBounded | src/day02.rs:120-128 | both totals lie between the number of rounds and nine times that number |
| Day02.ParseRound | src/day02.rs:110-115 | an accepted line is, after trimming, exactly the letter of its left column, one space and the letter of its right column |
| Day02.ParseRoundTrip | src/day02.rs:110-115 | every line "<A/B/C> <X/Y/Z>" reads back as its two columns |
| Day02.Sample | src/day02.rs:120-128 | the guide A Y, B X, C Z scores 15 under the first reading and 12 under the second |
| Day03.Priority | src/day03.rs:23-29 | defined exactly for ASCII letters; lower-case letters get 1..26, upper-case letters 27..52 |
| Day03.Letter | src/day03.rs:23-29 | every priority 1..52 is the priority of some letter |
| Day03.PriorityInjective | src/day03.rs:23-29 | two letters with the same priority are equal, and Letter inverts Priority |
| Day03.Priorities | src/day03.rs:19-21 | defined iff every character is a letter; then the set holds exactly the priorities of the characters, so repeats collapse |
| Day03.ParseRucksack | src/day03.rs:12-15 | after trimming, the line is cut at half its length and each half becomes its priority set; fails iff some character is not a letter |
| Day03.InputGenerator | src/day03.rs:9-17 | fails iff some line holds a non-letter; blank lines are dropped, so there are at most as many rucksacks as lines |
| Day03.Single | src/day03.rs:34 | yields the element exactly when the set has one element, and fails for none or several |
| Day03.Common | src/day03.rs:34 | the result is in both halves and is the only priority they share; it fails iff the halves do not share exactly one |
| Day03.CommonLetter | src/day03.rs:14-34 | when two halves share exactly the letter c, the rucksack's common item is c's priority |
| Day03.Part1 | src/day03.rs:31-36 | defined iff every rucksack's halves share exactly one priority |
| Day03.SumAllValue | src/day03.rs:35 | when every per-rucksack answer exists, the total is their plain sum |
| Day03.IntersectAll | src/day03.rs:43-47 | the fold of intersections holds exactly the priorities every rucksack of the group carries |
| Day03.Badge | src/day03.rs:43-50 | the badge is carried by all members and is the only such priority; it fails iff there is not exactly one |
| Day03.Chunks | src/day03.rs:41 | every chunk is non-empty with at most n elements, and all but the last have exactly n |
| Day03.ChunksConcat | src/day03.rs:41 | concatenating the chunks gives back the input |
| Day03.Part2 | src/day03.rs:38-52 | defined iff every group of three has a unique badge |
| Day04.Meaning | src/day04.rs:30-36 | for well-formed intervals, containment holds iff every section of the inner interval lies in the outer one, and overlap holds iff the two share a section |
| Day04.Relations | src/day04.rs:30-36 | containment is reflexive, overlap is symmetric, and containment in either direction implies overlap for well-formed intervals |
| Day04.CountContained | src/day04.rs:38-44 | the answer is the number of pair indices at which one interval contains the other |
| Day04.CountOverlapping | src/day04.rs:46-49 | the answer is the number of pair indices at which the two intervals overlap |
| Day04.ContainedAtMostOverlapping | src/day04.rs:38-49 | the part 1 count never exceeds the part 2 count, which never exceeds the number of pairs |
| Day04.ParseInterval | src/day04.rs:14-22 | an accepted interval is well formed (lower <= upper) and fits in a u32 |
| Day04.ParsePair | src/day04.rs:11-26 | both intervals of an accepted pair are well formed |
| Day04.ParseIntervalRoundTrip | src/day04.rs:14-22 | "lo-hi" reads back as (lo, hi) when lo <= hi and is rejected when lo > hi |
| Day04.ParsePairRoundTrip | src/day04.rs:11-26 | a rendered pair "a-b,c-d" of well-formed intervals reads back as that pair |
| Day05.MultiMove | src/day05.rs:13-18 | the top count crates of the source stack move onto the target in the same order; every other stack is unchanged, and the number of crates is kept |
| Day05.MoveOne | src/day05.rs:21-24 | one pop and push is a move of one crate, and changes nothing when source and target coincide |
| Day05.SingleMovesReverse | src/day05.rs:20-25 | moving count crates one at a time puts the same crates on the target in reverse order, removes them from the source and leaves every other stack unchanged |
| Day05.OneCrateAgrees | src/day05.rs:13-25 | for a single crate the two machines agree |
| Day05.SingleMovesConserve | src/day05.rs:20-25 | one-at-a-time moves keep the number of crates |
| Day05.TopStr | src/day05.rs:27-31 | at most one character per stack; when no stack is empty it is exactly the top crate of each stack in stack order |
| Day05.TopStrSkipsEmpty | src/day05.rs:27-31 | an empty stack contributes nothing |
| Day05.Rearrange | src/day05.rs:80-98 | when every move can be carried out, the stack count and the number of crates are unchanged; a move taking more crates than its source holds is a failure |
| Day05.DecodeMove | src/day05.rs:66-72 | accepts iff the count is at least 1 and both stack numbers lie in 1..stacks, and then converts them to 0-based indices |
| Day05.Column | src/day05.rs:48-55 | column i is read at character 4i+1 of each drawing line, bottom line first, with spaces dropped; it fails iff some line is too short |
| Day05.ColumnFull | src/day05.rs:48-55 | when every line has a crate in column i, the column lists all of them from the bottom line up |
| Day05.ParseStacks | src/day05.rs:38-57 | there are (width of the numbers line + 1) / 4 stacks |
| Day05.Columns | src/day05.rs:48-56 | stack i is column i of the drawing |
| Day06.Marker | src/day06.rs:9-12 | the result ends a window of n pairwise distinct characters and no earlier window does; there is no result iff no such window exists |
| Day06.MarkerFrom | src/day06.rs:9-11 | the first window end at or after j whose n characters are distinct, none in between; none iff there is no such end |
| Day06.FindFirstDistinct | src/day06.rs:4-13 | the sliding scan over the trimmed input reports the first marker end, which is at least n and at most the input length; a stream without a marker is the failure |
| Day06.MarkerFirst | src/day06.rs:10-11 | a window end with no marker before it is the reported marker |
| Day06.MarkerNone | src/day06.rs:12 | a stream with no distinct window reports nothing |
| Day06.DistinctSuffix | src/day06.rs:10 | the last m characters of a distinct window of width n are distinct too, for m <= n |
| Day06.PacketBeforeMessage | src/day06.rs:15-23 | when a message marker exists, a packet marker exists and ends no later |
| Day06.Part1 | src/day06.rs:15-18 | part 1 is the first marker of width 4 in the trimmed input |
| Day06.Part2 | src/day06.rs:20-23 | part 2 is the first marker of width 14 in the trimmed input |
| Day06.Sample | src/day06.rs:15-18 | the first sample stream has its packet marker end at 7 |
| Day07.Named | src/day07.rs:50-54 | lists exactly the indices of the children with the given name; it is empty iff no child has that name |
| Day07.AddChild | src/day07.rs:36-60 | fails on a file; with an empty path it succeeds iff no child has the new node's name, and then appends exactly that node; a path step naming zero or several children fails; the root's name and kind are kept |
| Day07.AddChildSize | src/day07.rs:36-67 | a successful insertion grows the tree's size by exactly the inserted node's size |
| Day07.AddChildUnique | src/day07.rs:41-47 | insertion keeps sibling names unique throughout the tree |
| Day07.ChildSize | src/day07.rs:62-67 | a child is never larger than its directory |
| Day07.OutputLength | src/day07.rs:101-104 | the output of a command is the longest run of following lines that do not start with '$' |
| Day07.ParseCommands | src/day07.rs:88-114 | the transcript yields at most one command per line, and it is rejected unless its first line starts with '$' |
| Day07.ChangeDir | src/day07.rs:131-139 | "/" clears the path, ".." pops the last name and fails at the root, and any other name not starting with '/' is pushed |
| Day07.AddEntry | src/day07.rs:142-151 | a successful "dir" or "size name" entry never shrinks the tree |
| Day07.AddEntries | src/day07.rs:141-153 | the entries of one listing keep the root's name and kind |
| Day07.AddEntriesUnique | src/day07.rs:141-153 | adding a listing keeps sibling names unique |
| Day07.ReplayUnique | src/day07.rs:124-155 | replaying the commands keeps sibling names unique and the root a directory |
| Day07.BuildTreeWellFormed | src/day07.rs:86-158 | a rebuilt tree is a directory whose sibling names are unique everywhere |
| Day07.MustStartAtRoot | src/day07.rs:116-120 | a transcript that opens with ls instead of "cd /" is rejected |
| Day07.PopPush | src/day07.rs:164-172 | popping a node and pushing its children keeps the multiset of directory sizes still to visit |
| Day07.Part1 | src/day07.rs:160-176 | the stack walk returns the sum of the sizes of all directories of size at most 100000 |
| Day07.DirSizesBounded | src/day07.rs:62-67 | no directory in a tree is larger than its root |
| Day07.PrunedMinIsMin | src/day07.rs:189-204 | descending only into qualifying directories loses nothing: the answer is the size of a qualifying directory and no qualifying directory is smaller, or usize::MAX when none qualifies |
| Day07.PrunedWalk | src/day07.rs:189-204 | the stack walk that pops nodes and pushes the children of every qualifying directory ends with the smallest size the pruned recursion finds |
| Day07.FreeSpace | src/day07.rs:183 | the free space is the capacity minus the used space when the tree fits on the disk, and wraps modulo 2^64 (a release build's usize subtraction) when it does not |
| Day07.Part2 | src/day07.rs:178-205 | 0 when the (wrapped) free space already reaches 30000000; otherwise, for a directory root whose size is below usize::MAX, the size of a directory whose deletion frees enough and no smaller qualifying directory; usize::MAX for a file root |
| Day08.NewForest | src/day08.rs:11-23 | fails iff there are no rows or some row's length differs from the first; otherwise the grid keeps the rows and takes the first row's length as width |
| Day08.ByteHeight | src/day08.rs:110 | a digit byte gives its value; every other byte below 256 gives a height above 9 (`b - b'0'` wraps on u8 in a release build), never an error |
| Day08.ParseRow | src/day08.rs:110 | one height per byte of the line, each the byte's wrapped difference from '0' |
| Day08.ParseRenderRow | src/day08.rs:110 | reading back a row of heights 0 to 9 written as digits gives the heights |
| Day08.NonDigitHeights | src/day08.rs:110 | the line "a/" reads as heights 49 and 255: non-digits are not refused |
| Day08.Get | src/day08.rs:29-35 | defined exactly for in-bounds coordinates, and then is the tree at that cell |
| Day08.AllLower | src/day08.rs:40-58 | holds iff every tree of the line of sight is strictly lower |
| Day08.IsVisible | src/day08.rs:37-63 | defined exactly in bounds, and true iff in at least one of the four directions every tree up to the edge is strictly lower |
| Day08.BorderVisible | src/day08.rs:40-60 | every tree on the border is visible |
| Day08.LowerRun | src/day08.rs:73-95 | the run of strictly lower trees at the front of a line of sight, ending at the first tree at least as tall |
| Day08.ViewingDistance | src/day08.rs:69-98 | a viewing distance never exceeds the distance to the edge; it stops at and includes the first tree at least as tall, and reaches the edge when every tree is lower |
| Day08.ScenicScore | src/day08.rs:65-101 | defined exactly in bounds, and then is the product of the four viewing distances |
| Day08.BorderScore | src/day08.rs:69-98 | a tree on the border scores 0 |
| Day08.ScoreBound | src/day08.rs:69-98 | a score is at most the product of the four distances to the edges |
| Day08.CountColumns | src/day08.rs:122-125 | the visible trees among the first m columns number at most m times the height |
| Day08.CountColumnCounts | src/day08.rs:122-125 | the count of one column is the number of visible positions in it |
| Day08.CountColumnsCounts | src/day08.rs:122-125 | the count of the first m columns is the number of visible positions in them |
| Day08.Part1 | src/day08.rs:120-126 | the answer is exactly the number of grid positions holding a visible tree, so at most the number of trees |
| Day08.ThinGridVisible | src/day08.rs:120-126 | in a grid at most two trees wide or high every tree is counted as visible |
| Day08.ScoreTable | src/day08.rs:130-132 | one score per cell, column by column |
| Day08.Part2 | src/day08.rs:128-135 | fails iff the grid is empty; otherwise the result is the score of some tree and no tree scores more |
| Day08.SampleScore1 | src/day08.rs:143-155 | in the sample grid the tree at (2, 1) scores 4 |
| Day08.SampleScore2 | src/day08.rs:157-169 | in the sample grid the tree at (2, 3) scores 8 |
| Day09.MoveVec | src/day09.rs:17-29 | a move shifts the point by exactly one unit along one axis |
| Day09.MoveVecInverse | src/day09.rs:17-29 | moving in the opposite direction undoes a move (D and U, L and R are opposite vectors) |
| Day09.ParseDir | src/day09.rs:32-44 | accepts exactly "D", "U", "L", "R", each as its own direction |
| Day09.ParseMove | src/day09.rs:51-54 | an accepted line contains a space after trimming and has an amount that fits in a usize |
| Day09.InputGenerator | src/day09.rs:46-56 | succeeds iff every non-blank line parses; blank lines are dropped |
| Day09.ParseMoveRoundTrip | src/day09.rs:51-54 | a line "<letter> <amount>" reads back as that direction and amount |
| Day09.Toward | src/day09.rs:62-63 | the follower moves at most one unit on each axis; a knot next to the one ahead ends up touching it, and a knot too far away does move |
| Day09.FollowFrom | src/day09.rs:59-67 | knots before i are unchanged; a knot too far from the moved knot ahead steps toward it by the signs of the differences; after the first knot close enough to the one ahead, every later knot is unchanged |
| Day09.FollowHead | src/day09.rs:58-68 | the rope keeps its length and its head |
| Day09.FollowTaut | src/day09.rs:58-68 | when all knots after i touched their predecessors before the knot ahead moved one step, every pair of consecutive knots touches afterwards |
| Day09.Step | src/day09.rs:77-78 | the head moves one unit in the direction, and a rope whose consecutive knots touch still has that property |
| Day09.Run | src/day09.rs:75-81 | any sequence of unit moves keeps consecutive knots touching |
| Day09.Trail | src/day09.rs:73-79 | the visited tail positions include the starting tail and the final tail |
| Day09.SimulateRope | src/day09.rs:70-84 | the loop ends with the rope of the reference run, still taut, and counts the distinct tail positions, at least 1 because the origin is counted |
| Day09.Part1 | src/day09.rs:86-89 | the number of distinct tail positions of a two-knot rope, at least 1 |
| Day09.Part2 | src/day09.rs:91-94 | the number of distinct tail positions of a ten-knot rope, at least 1 |
| Day09.SingleKnot | src/day09.rs:70-84 | a one-knot rope is just the head, which goes where the moves take it |
| Day09.HeadFollowsMoves | src/day09.rs:77 | the head of any rope goes exactly where the moves take it |
| Day10.ParseInstruction | src/day10.rs:23-33 | "noop" and only "noop" is Noop; an accepted addx line starts with "addx " and carries an operand within i32 |
| Day10.ParseRoundTrip | src/day10.rs:23-33 | the written form of every instruction (noop, addx with an i32 operand) parses back to it |
| Day10.ParseErrors | src/day10.rs:28-32 | an unknown mnemonic, a missing operand and a non-numeric operand are rejected |
| Day10.ParseOutOfRange | src/day10.rs:29 | an operand beyond i32::MAX is rejected |
| Day10.NewCpu | src/day10.rs:46-48 | a new CPU has X = 1, cycle 0, pc 0 and no cycles spent on the current instruction |
| Day10.PreCycle | src/day10.rs:54-57 | the cycle and the in-instruction counter each grow by exactly 1 and nothing else changes |
| Day10.PostCycle | src/day10.rs:59-65 | once the counter reaches the instruction's cycles (1 for noop, 2 for addx) the instruction executes, pc advances by one and the counter resets; otherwise nothing changes; the cycle is never touched |
| Day10.Execute | src/day10.rs:67-72 | only addx changes X, by its operand |
| Day10.Trace | src/day10.rs:50-72 | the trace of X has one entry per cycle the program takes |
| Day10.Pixel | src/day10.rs:109-114 | a pixel is lit iff X is within 1 of the column (cycle - 1) mod 40, and a newline follows column 39 |
| Day10.CycleStep | src/day10.rs:92-99 | one pre_cycle/post_cycle pair extends the trace by the current X |
| Day10.TraceEnd | src/day10.rs:50-72 | when no instruction is left the trace is complete and X is 1 plus the sum of all addx operands |
| Day10.Part1 | src/day10.rs:88-102 | the loop sums cycle times X over the sampled cycles 20, 60, ..., 220; the run takes exactly the program's total cycles and ends with X at 1 plus the sum of the addx operands |
| Day10.Part2 | src/day10.rs:104-119 | the loop draws, after a leading newline, one pixel per cycle of the trace |
| Day10.NoopTrace | src/day10.rs:12-17 | a program of noops keeps X at 1 for one cycle each |
| Day10.NoopDelta | src/day10.rs:67-72 | a program of noops never changes X |
| Day10.SmallExample | src/day10.rs:67-72 | noop, addx 3, addx -5 runs five cycles with X at 1, 1, 1, 4, 4 and ends at -1 |
| Day11.Apply | src/day11.rs:20-29 | fails exactly for a division or remainder by zero; otherwise the result is below 2^64, congruent modulo 2^64 to the exact result, and equal to it whenever the exact result fits in a u64 (release-build wrapping) |
| Day11.DivModExact | src/day11.rs:25-26 | a division or remainder of a u64 by a non-zero number never wraps |
| Day11.SubAfterAdd | src/day11.rs:22-23 | subtracting m undoes adding m |
| Day11.DivAfterMul | src/day11.rs:24-26 | dividing by a non-zero m undoes multiplying by m, and the remainder by m is then 0 |
| Day11.SquareIsMul | src/day11.rs:24-27 | squaring is multiplying the value by itself |
| Day11.ParseOperation | src/day11.rs:35-51 | "old * old" and only it is Square; any other accepted text is one of the five "old <op> " prefixes followed by a u64 for that operation; text not starting with "old " is rejected |
| Day11.ParseArg | src/day11.rs:39-47 | after a recognised prefix the operation is accepted iff the rest parses as a u64, and carries that number |
| Day11.ParseRender | src/day11.rs:35-51 | every operation written out in the input's form parses back to itself |
| Day11.Modulus | src/day11.rs:72 | the u64 modulus is below 2^64 and equals the exact product of the test divisors whenever that product fits |
| Day11.ModulusMultiple | src/day11.rs:72 | every monkey's non-zero test divisor divides the exact product of the divisors |
| Day11.ModulusWraps | src/day11.rs:72 | two test divisors of 2^32 give a wrapped modulus of 0, so the product does not always keep the tests' verdicts |
| Day11.ModReduce | src/day11.rs:77-78 | reducing modulo a multiple of t keeps the remainder by t |
| Day11.ReductionKeepsTarget | src/day11.rs:72-83 | when the product of the divisors fits in a u64, reducing a worry level modulo it sends the item to the same monkey as the unreduced level |
| Day11.Inspect | src/day11.rs:77 | the new worry level is below the modulus; the inspection fails exactly when the operation fails or the modulus is 0 |
| Day11.TargetOf | src/day11.rs:78-82 | the target is one of the two targets, and there is none when the test divisor is 0 |
| Day11.Throw | src/day11.rs:75-83 | one handled item: the monkey's inspections grow by exactly 1 and no other count changes; the item goes to true_target iff it is divisible by the test and to false_target otherwise, reduced below the modulus, at the back of that queue; the number of items and the monkeys' rules are unchanged |
| Day11.ThrowBelow | src/day11.rs:77 | after a throw every held item is still below the modulus |
| Day11.Turn | src/day11.rs:75-84 | after a finished turn the monkey's queue is empty, its inspection count grew by exactly the number of pops, that number is at least its starting queue length (self-throws are popped again), and the number of items is unchanged |
| Day11.TurnFuelMonotone | src/day11.rs:75-84 | a turn that finished within some fuel finishes the same way with any larger fuel, so the fuel bound only cuts off turns that have not ended |
| Day11.TurnWithoutSelfThrow | src/day11.rs:75-84 | a monkey whose two targets are other monkeys pops each starting item exactly once, and its turn needs no more fuel than its queue length |
| Day11.SelfThrowLeaves | src/day11.rs:75-84 | an item thrown by a monkey to itself is popped again: with items [1], old + 1, test 2 and targets 0/1, the turn ends after two pops with the item 3 at monkey 1 |
| Day11.TurnFacts | src/day11.rs:75-84 | a turn changes no other monkey's inspection count and keeps every held item below the modulus |
| Day11.Round | src/day11.rs:74-85 | a round keeps the number of monkeys and the number of items |
| Day11.RoundFacts | src/day11.rs:74-85 | inspection counts never decrease over a round, and held items stay below the modulus |
| Day11.Rounds | src/day11.rs:73-86 | any number of rounds keeps the number of monkeys and items |
| Day11.RoundsBelow | src/day11.rs:73-86 | rounds keep every held item below the modulus |
| Day11.DoRounds | src/day11.rs:70-93 | succeeds iff the rounds do; with two or more monkeys the result is the u64 (wrapping) product of a pair that is the top two inspection counts |
| Day11.TopTwoWhenTwo | src/day11.rs:88-92 | taking the two largest counts after sorting in descending order gives a pair that is the top two |
| Day12.FindFirst | src/day12.rs:23-26 | the index of the first cell holding c; none iff c does not occur |
| Day12.NewGrid | src/day12.rs:17-30 | succeeds iff the width is non-zero, divides the length, and both S and E occur; start and end are the first S and the first E, rewritten to a and z, and every other cell is unchanged |
| Day12.DivExact | src/day12.rs:18-21 | the length equals width times (length / width) exactly when the width divides it |
| Day12.CoordsRoundTrip | src/day12.rs:32-38 | to_coords(to_idx(x, y)) = (x, y) for x < width, and to_idx(to_coords(i)) = i |
| Day12.StepTranspose | src/day12.rs:91-105 | the reverse step rule is the forward rule with the two cells swapped |
| Day12.At | src/day12.rs:51-75 | signed coordinates name a cell exactly when they lie inside the grid, and then name its index |
| Day12.Neighbors | src/day12.rs:50-75 | every queued neighbour is a cell of the grid |
| Day12.NeighborsMembers | src/day12.rs:50-75 | the queued neighbours are exactly the in-bounds left, right, up and down cells that the step rule allows |
| Day12.EdgeUpDown | src/day12.rs:91-105 | a step the forward rule allows is one the reverse rule allows from the other end |
| Day12.EdgeDownUp | src/day12.rs:91-105 | a step the reverse rule allows is one the forward rule allows from the other end |
| Day12.EdgeReverse | src/day12.rs:91-105 | the reverse search walks exactly the forward edges backwards |
| Day12.NeighborsAdjacent | src/day12.rs:50-75 | every queued neighbour is one of the four adjacent cells |
| Day12.StepGraph | src/day12.rs:47-75 | one adjacency list per cell, namely its allowed neighbours |
| Day12.StepGraphTransposed | src/day12.rs:91-105 | the reverse step graph is the forward one with every edge turned around |
| Day12.BfsImpl | src/day12.rs:40-89 | the source is at distance 0, every cell holds its shortest step count or usize::MAX when unreachable, and along every allowed step the distance grows by at most one |
| Day12.Forward | src/day12.rs:91-97 | the forward search gives shortest step counts from the start |
| Day12.Backward | src/day12.rs:99-105 | the reverse search gives shortest step counts from the end along reversed steps |
| Day12.Part1 | src/day12.rs:119-123 | the answer is the shortest step count from the start to the end, or usize::MAX when the end cannot be reached |
| Day12.ForwardReverse | src/day12.rs:91-105 | the distance from the start to the end equals the reverse distance from the end back to the start |
| Day12.MinOverA | src/day12.rs:128-131 | the smallest distance among cells of height a, none iff there is no such cell |
| Day12.Part2 | src/day12.rs:125-133 | fails iff no cell has height a; otherwise it is the reverse distance of some cell of height a, and no cell of height a is closer to the end |
| Day12.BothParts | src/day12.rs:119-133 | since the start has height a, part 2 never exceeds part 1 |
| Day12.InputGenerator | src/day12.rs:109-117 | the width is the length of the first line, and a text without a newline is rejected |
| Bfs.Distances | src/day12.rs:40-89 | the relaxation search from src (also the valve reducer's search) leaves src at 0 and every node at its shortest edge count, or at the sentinel when unreachable |
| Bfs.Expand | src/day12.rs:47-85 | relaxing the out-edges of a dequeued node keeps the queue invariant and strictly lowers the sum of distances unless nothing changes |
| Bfs.RelaxEdge | src/day12.rs:79-84 | a neighbour whose distance improves gets the dequeued node's distance plus one and is queued |
| Bfs.RelaxedDistances | src/day12.rs:86-88 | with the queue empty, the relaxed distances are exactly the shortest-path counts |
| Bfs.DistanceStep | src/day12.rs:77-85 | shortest distances grow by at most one along every edge |
| Bfs.DistanceUnique | src/day12.rs:40-89 | a node has exactly one shortest distance |
| Bfs.DistanceTranspose | src/day12.rs:99-105 | distances in the transposed graph are the distances of the reversed pairs |
| Day13.CmpFlip | src/day13.rs:56-77 | swapping the operands reverses the verdict, so the list-versus-integer arm is the mirror of the integer-versus-list arm |
| Day13.CmpListFlip | src/day13.rs:60 | lexicographic list comparison reverses when the lists are swapped |
| Day13.CmpReflexive | src/day13.rs:56-77 | every packet compares Equal to itself |
| Day13.PrefixLess | src/day13.rs:60 | a proper prefix of a list is Less than the list |
| Day13.EmptyList | src/day13.rs:61-71 | an integer is Greater than [], and [] is Less than an integer |
| Day13.IntAsList | src/day13.rs:61-74 | an integer compares like the one-element list holding it: first against the head, then 1 against the length |
| Day13.EqualButDistinct | src/day13.rs:56-77 | 2 and [2] are distinct packets that compare Equal |
| Day13.DigitEnd | src/day13.rs:33-34 | the end of the run of digits starting at i: every character before it is a digit and the one at it is not |
| Day13.ParseEndsWithBracket | src/day13.rs:25-46 | a successful parse ends exactly with a closing bracket as the last character |
| Day13.ParseErrors | src/day13.rs:16-47 | a bare number, trailing text, an unmatched ']', an unclosed '[' and a foreign character are rejected |
| Day13.ParsePrinted | src/day13.rs:19-44 | reading the printed form of a packet in the middle of a text adds that packet to the innermost open list and continues right after it |
| Day13.ParsePrintRoundTrip | src/day13.rs:16-47 | parsing the printed form of a list whose integers fit in u32 gives the list back |
| Day13.Dividers | src/day13.rs:102-103 | "[[2]]" and "[[6]]" parse to the two divider packets |
| Day13.SwapPairsPart1 | src/day13.rs:89-97 | a pair's index counts for the input or for the input with that pair swapped exactly when its packets are not Equal, never for both |
| Day13.CmpView | src/day13.rs:56-77 | every comparison, mixed ones included, is the lexicographic comparison of the two packets seen as lists, an integer seen as the one-element list holding it |
| Day13.CmpTrans | src/day13.rs:56-77 | the order is transitive: from x not Greater than y and y not Greater than z, x compares with z as the two steps combine (Less unless both are Equal) |
| Day13.CmpListTrans | src/day13.rs:56-77 | the lexicographic comparison of packet lists is transitive in the same way |
| Day13.InsertionPoint | src/day13.rs:106 | the insertion point lies past every packet x is not Less than, at the first packet x is Less than |
| Day13.InsertSorted | src/day13.rs:106 | insertion places the packet at its insertion point and keeps everything else in order |
| Day13.InsertSortedPerm | src/day13.rs:106 | insertion adds exactly the one packet |
| Day13.InsertSortedSorted | src/day13.rs:106 | inserting into a sorted list keeps it sorted |
| Day13.SortPackets | src/day13.rs:106 | the result is a permutation of the input in which no packet is Greater than the next |
| Day13.SortedOrdered | src/day13.rs:106 | in a sorted list no packet is Greater than any later packet |
| Day13.AboveInsertion | src/day13.rs:106 | in a sorted list every packet from the insertion point on is Greater than the inserted packet |
| Day13.EqualToAppend | src/day13.rs:106 | the packets Equal to p in a concatenation are those of the first part followed by those of the second |
| Day13.NoneEqual | src/day13.rs:106 | a list with no packet Equal to p has no such packets to keep |
| Day13.NoneEqualAbove | src/day13.rs:106 | in a sorted list nothing from the insertion point of a packet Equal to p on is Equal to p |
| Day13.FilterAround | src/day13.rs:106 | the packets Equal to p in a list with one packet placed between two parts are those of the first part, the packet's own, and those of the second part |
| Day13.FilterOne | src/day13.rs:106 | a single packet is kept exactly when it is Equal to p |
| Day13.InsertEqual | src/day13.rs:106 | placing a packet Equal to p in front of a part with none Equal to p adds it after every packet Equal to p already there |
| Day13.InsertUnequal | src/day13.rs:106 | placing a packet not Equal to p anywhere leaves the packets Equal to p unchanged |
| Day13.InsertSortedSplit | src/day13.rs:106 | inserting into a sorted list puts the packet between two parts of the list, and when the packet is Equal to p nothing after it is Equal to p |
| Day13.InsertStable | src/day13.rs:106 | inserting into a sorted list keeps the packets Equal to p in their order, with the new packet last among them when it is Equal to p |
| Day13.SortStable | src/day13.rs:106 | the sort is stable: the packets Equal to any p keep their input order, as `sort` promises |
| Day13.Position | src/day13.rs:108-109 | the first index holding the packet; none iff it does not occur |
| Day13.DividersPresent | src/day13.rs:104-106 | both dividers are still there after sorting |
| Day13.DividerPositions | src/day13.rs:99-110 | after the dividers are added and the list is sorted into an ordered permutation, each reported position holds its divider and no earlier position does |
| Day14.MaxY | src/day14.rs:21-27 | no position an obstacle contains lies below its max_y |
| Day14.MaxYReached | src/day14.rs:21-27 | a well-formed obstacle contains a position in its max_y row |
| Day14.ParsePos | src/day14.rs:39-42 | an accepted position had a comma and holds two u32 values |
| Day14.ParseRenderPos | src/day14.rs:39-42 | "x,y" for a position that fits in u32 reads back as that position |
| Day14.Segment | src/day14.rs:61-68 | a pair of points makes a segment iff they share a row or a column (a diagonal pair panics); the segment runs from the smaller to the larger coordinate and contains exactly the points between the two ends |
| Day14.SegmentEnds | src/day14.rs:61-68 | a segment contains both of its end points |
| Day14.PathSegments | src/day14.rs:60-70 | one segment per window of two consecutive points; fails iff some window is diagonal |
| Day14.BuildObstacles | src/day14.rs:58-73 | fails iff some path has a diagonal window; otherwise every obstacle is a well-formed rock segment |
| Day14.PathSegmentsCover | src/day14.rs:60-70 | the segments of one path cover exactly the positions between two consecutive points of the path |
| Day14.BuildObstaclesCover | src/day14.rs:58-73 | the rock covers exactly the positions on some segment of some path |
| Day14.BlockedAddSand | src/day14.rs:104-106 | a resting grain blocks exactly one more position |
| Day14.LowestRow | src/day14.rs:81 | fails iff there are no obstacles; otherwise no blocked position lies lower, and some obstacle reaches that row |
| Day14.Candidates | src/day14.rs:91 | a grain tries three places, all one row lower: down, down-left, down-right |
| Day14.FreeShrinks | src/day14.rs:104-105 | a grain coming to rest uses up exactly its position among the vacant cone positions, so the room left strictly shrinks and the pouring terminates |
| Day14.Fall1 | src/day14.rs:90-107 | a grain that rests lies on a free cone position with all three candidates blocked |
| Day14.Fall1Abyss | src/day14.rs:92-98 | a grain falls into the abyss only below the lowest rock, and only when some candidate is free |
| Day14.Replays1Step | src/day14.rs:84-108 | a grain that comes to rest, followed by a replay from the grown obstacles, is a replay from the original ones with one more grain |
| Day14.Replays1Starts | src/day14.rs:84-108 | a replay starts with the spawn free; it holds a grain exactly when the first grain comes to rest, and its first grain is where that grain rests |
| Day14.ReplaysShift1 | src/day14.rs:84-108 | dropping the first grain of a replay into the obstacles leaves a replay of the rest |
| Day14.Replays1Unique | src/day14.rs:84-108 | two replays of the same obstacles are equal: the sequence of resting grains is determined |
| Day14.Replays1Count | src/day14.rs:84-108 | a replay starts with the spawn free, and every replay of the same obstacles has its count |
| Day14.Pour1 | src/day14.rs:84-108 | the run is a replay: each appended grain rests where a grain dropped from the spawn onto the obstacles so far comes to rest, and the run stops at the first grain that falls past the lowest rock, with the spawn still free |
| Day14.Pour1Total | src/day14.rs:84-108 | whenever a replay of the obstacles exists, the pouring loop returns one instead of panicking, so together with `Pour1`'s contract it returns a replay exactly when one exists |
| Day14.SpawnFreeBefore | src/day14.rs:85-88 | a spawn free at the end was free at the start |
| Day14.Part1 | src/day14.rs:78-111 | an answer exists exactly when there is rock and some replay above the lowest rock exists, i.e. the spawn is free and no grain reaches column 0; the answer is that replay's grain count, and every such replay has that count |
| Day14.Fall2 | src/day14.rs:125-138 | a grain rests on a free cone position above the floor, with each of its three candidates at or below the floor or blocked |
| Day14.Replays2Step | src/day14.rs:119-139 | a grain that comes to rest above the floor, followed by a replay from the grown obstacles, is a replay from the original ones with one more grain |
| Day14.Replays2Starts | src/day14.rs:119-139 | a replay holds a grain exactly when the spawn starts free, and its first grain is where that grain rests |
| Day14.ReplaysShift2 | src/day14.rs:119-139 | dropping the first grain of a floor replay into the obstacles leaves a replay of the rest |
| Day14.Replays2Unique | src/day14.rs:119-139 | two floor replays of the same obstacles are equal |
| Day14.Replays2Count | src/day14.rs:115-139 | a floor replay counts 0 when the spawn starts covered, and every floor replay of the same obstacles has its count |
| Day14.Pour2 | src/day14.rs:119-139 | the run is a floor replay: each appended grain rests where a grain dropped from the spawn comes to rest above the floor, and the run stops once the spawn is covered, by the last grain when any grain was added |
| Day14.Pour2Total | src/day14.rs:119-139 | whenever a floor replay exists, the pouring loop returns one instead of panicking, so together with `Pour2`'s contract it returns a floor replay exactly when one exists |
| Day14.Part2 | src/day14.rs:113-142 | an answer exists exactly when there is rock and some replay with the floor two rows below the lowest rock exists, i.e. no grain reaches column 0; it is 0 when the spawn is already occupied, and otherwise the grain count of that replay, which every such replay shares |
| Day15.DistanceMetric | src/day15.rs:12-14 | the Manhattan distance is 0 exactly on equal points, symmetric, and obeys the triangle inequality |
| Day15.TuningDecode | src/day15.rs:16-18 | for 0 <= y < 4000000 the frequency 4000000 x + y encodes the position: the quotient is x and the remainder is y |
| Day15.ParseReport | src/day15.rs:28-39 | a report is accepted iff all four captured coordinates parse as i32, and holds the sensor and beacon they give |
| Day15.ParseReportRoundTrip | src/day15.rs:28-39 | the rendered coordinates of a sensor and beacon read back as that report |
| Day15.RowCoverExcludes | src/day15.rs:47-57 | the cells one sensor contributes on the row are exactly those within its beacon distance, other than the beacon itself |
| Day15.RowCoverOutOfReach | src/day15.rs:50-51 | a row beyond the sensor's reach contributes nothing |
| Day15.RowCoverSpan | src/day15.rs:52-56 | a reachable row without the beacon contributes the whole span of 2 dx + 1 cells |
| Day15.RowCoverBeaconRow | src/day15.rs:52-56 | on the beacon's row the span reaches exactly to the beacon, which is left out |
| Day15.NoBeacon | src/day15.rs:44-61 | the merged cells of the row are exactly those some sensor rules out |
| Day15.NoBeaconSingle | src/day15.rs:44-61 | with one sensor the row's cells are that sensor's span |
| Day15.CornerPoints | src/day15.rs:63-83 | the four corners east, west, south and north lie at distance exactly d from the sensor, on its row or column |
| Day15.Diag | src/day15.rs:85-121 | for a diagonal segment the walk starts at a, ends at b, has one point per unit step plus one, and steps by the signs of the differences |
| Day15.Perimeter | src/day15.rs:125-180 | the four diagonal walks around a sensor yield 4 (d + 1) points |
| Day15.PerimeterRing | src/day15.rs:125-180 | every point of the four walks lies exactly d from the sensor |
| Day15.Scan | src/day15.rs:123-183 | the candidates in scanning order, one ring per sensor |
| Day15.ScanRing | src/day15.rs:126-127 | every scanned position is one farther from some sensor than that sensor's beacon |
| Day15.FirstUndetected | src/day15.rs:129-139 | the first scanned position inside the square that every sensor fails to reach, none iff there is no such position |
| Day15.FindBeaconPos | src/day15.rs:123-183 | a result is the frequency of a scanned position in [0, MAX] squared that is strictly farther from every sensor than its beacon; none iff no scanned position is |
| Day15.FoundBeacon | src/day15.rs:129-139 | a reported position is ruled out by no sensor, and its frequency decodes back to it |
| Day15.Part2 | src/day15.rs:190-193 | with the square 0..4000000, a result is the frequency of a scanned position no sensor reaches; none (the panic) iff no scanned position qualifies |
| Day15.SideRing | src/day15.rs:85-121 | a diagonal from a north or south corner to an east or west corner of a ring stays on that ring |
| Day16.LastWins | src/day16.rs:28-45 | the valves collected by name: names pairwise distinct, the same set of names as the input, and each kept valve the last input line with its name |
| Day16.LaterLineWins | src/day16.rs:28-45 | of two lines describing AA, only the later one is kept |
| Day16.InsertByKeySorted | src/day16.rs:48-49 | inserting a valve with a fresh name keeps the list ordered by (descending flow, name) |
| Day16.SortByKey | src/day16.rs:47-51 | the valves in index order: a permutation of the input ordered by descending flow, then by name |
| Day16.SortByKeyNames | src/day16.rs:47-78 | sorting keeps the set of names and their distinctness |
| Day16.Lookup | src/day16.rs:63-64 | a tunnel's name resolves to the index of the valve with that name |
| Day16.TunnelGraph | src/day16.rs:63-64 | one adjacency list per valve, over valve indices: every edge leads to a valve named among the tunnels, and every tunnel to a described valve is an edge |
| Day16.DistanceReaches | src/day16.rs:53-74 | a valve is reached by the search exactly when its distance is below u32::MAX |
| Day16.RelevantFrom | src/day16.rs:79-80 | exactly the valves with positive flow or named AA, in increasing index order |
| Day16.PositiveCount | src/day16.rs:47 | the flow-positive valves at the front of the order |
| Day16.PositivesFirst | src/day16.rs:47-51 | in index order the flow-positive valves hold exactly the indices 0 .. m-1 |
| Day16.RelevantZeroFlow | src/day16.rs:79-80 | among zero-flow valves with distinct names at most one is kept, namely AA |
| Day16.ReduceValve | src/day16.rs:53-87 | None exactly when the search reaches a valve with a tunnel to an undescribed name (the lookup `nodes[to]` panics); otherwise the reduced valve keeps its flow, and its distance map holds, for exactly the flow-positive valves, the BFS edge count from the source, u32::MAX when unreachable |
| Day16.ReduceAll | src/day16.rs:76-89 | None exactly when some listed search reaches an undescribed name; otherwise one reduction per listed valve, in list order |
| Day16.RelevantResolved | src/day16.rs:76-89 | a search from some relevant valve reaches an undescribed name exactly when a search from a listed relevant valve does |
| Day16.InputGenerator | src/day16.rs:11-90 | None exactly when a search from a kept valve reaches a tunnel to an undescribed name; otherwise, over the valves kept last-line-wins, one reduced valve per relevant valve, in index order, each the reduction of that valve |
| Day16.ReducedSelfDistance | src/day16.rs:55 | a flow-positive reduced valve lies at distance 0 from itself |
| Day16.ReducedPositives | src/day16.rs:47-89 | the flow-positive valves are exactly the first m reduced valves |
| Day16.ReducedAtMostStart | src/day16.rs:47-80 | after the flow-positive valves at most one reduced valve follows, the start |
| Day16.ReducedHasStart | src/day16.rs:109 | a zero-flow AA is kept, right after the flow-positive valves, so it is the last reduced valve where the searches start |
| Day16.ReducedWellFormed | src/day16.rs:79-89 | every distance map is keyed by exactly the flow-positive reduced valves |
| Day16.Gain | src/day16.rs:98-104 | 0 exactly when d + 1 >= time or the flow is 0, and never more than flow times (time - 1) |
| Day16.GainMonotone | src/day16.rs:98-104 | gain grows with the time left and shrinks with the distance |
| Day16.Step1Effect | src/day16.rs:145-153 | a move leaves 1 <= time < the old time, targets a closed valve, adds exactly its bit to the mask and exactly its gain to the pressure |
| Day16.Successors1 | src/day16.rs:145-154 | the pushed states are exactly the single-agent moves, all with less time left |
| Day16.Bound1Covers | src/day16.rs:134-141 | the pruning sum is at least the gain of any single move |
| Day16.Run1Monotone | src/day16.rs:128-155 | along a run time strictly drops, pressure never drops, the mask strictly grows, and after j moves exactly j valves are open |
| Day16.Forest1Step | src/day16.rs:128-155 | popping a state and pushing its successors lowers the size of the remaining search tree by one, so the search terminates |
| Day16.Queue1Next | src/day16.rs:128-155 | every queued state stays paired with a run from the start that reaches it |
| Day16.Expanded1Step | src/day16.rs:128-155 | popping a state that is either pruned (its pressure plus bound is at most the new max) or expanded (all its successors pushed) keeps the coverage invariant: every dequeued state not pruned by the max has each successor queued or dequeued |
| Day16.Part1 | src/day16.rs:106-158 | None exactly when the list is empty or longer than 63 (the assert); otherwise the answer is the pressure of some dequeued state and of some run from the start at AA with 30 minutes; every dequeued state is reached by such a run and releases at most the answer; and every dequeued state whose pressure plus bound exceeds the answer had all its successors dequeued |
| Day16.Step2Effect | src/day16.rs:211-235 | a dual move lowers the total clock, leaves both agents on valves, adds exactly the opened valve's bit to the shared mask, and never lowers the pressure |
| Day16.Step2OneAgent | src/day16.rs:211-235 | exactly one agent moves, its clock drops but stays positive, the other agent keeps its clock and position, and the second agent moves only from a different valve |
| Day16.Successors2 | src/day16.rs:211-235 | the pushed states are exactly the dual moves, the first agent's before the second's, each targeting a valve no farther for the moving agent than for the other |
| Day16.Bound2FromAllOpen | src/day16.rs:195-206 | the dual pruning sum vanishes once every flow-positive valve is open |
| Day16.Run2Monotone | src/day16.rs:186-236 | along a dual run the total clock strictly drops, pressure never drops, and after j moves exactly j valves are open |
| Day16.Forest2Step | src/day16.rs:186-236 | popping a state and pushing its successors lowers the size of the remaining search tree by one |
| Day16.Queue2Next | src/day16.rs:186-236 | every queued state stays paired with a dual run from the start that reaches it |
| Day16.NoMoves2From | src/day16.rs:191-193 | once both agents have at most one minute left, neither agent has a move, so skipping the state loses no successor |
| Day16.Expanded2Step | src/day16.rs:186-236 | popping a state that is finished, pruned by the dual bound, or expanded (all its dual successors pushed) keeps the coverage invariant of the dual search |
| Day16.Part2 | src/day16.rs:160-239 | None exactly when the list is empty or longer than 63 (the assert); otherwise the answer is the pressure of some dequeued state and of some dual run from both agents at AA with 26 minutes; every dequeued state is reached by such a run and releases at most the answer; and every dequeued state whose pressure plus dual bound exceeds the answer had all its successors dequeued |
| Day16.SampleRun1 | src/day16.rs:247-261 | on the example network some single-agent run releases 1651 |
| Day16.SampleRun2 | src/day16.rs:263-277 | on the example network some dual run releases 1707 |
| Day17.JetOf | src/day17.rs:21-31 | `<` reads as a push left and `>` as a push right; every other byte is an error |
| Day17.JetOfChar | src/day17.rs:21-31 | each jet is read back from its own character |
| Day17.ParseJets | src/day17.rs:34-38 | the read succeeds exactly when every character is `<` or `>`, and then gives one jet per character |
| Day17.ParseRendered | src/day17.rs:34-38 | reading the rendering of a jet pattern gives the pattern back |
| Day17.InputOfRender | src/day17.rs:34-38 | the trimmed input of a rendered pattern reads back as that pattern |
| Day17.ColumnsFitMeaning | src/day17.rs:107-121 | the column loop accepts exactly when each examined column of the rock is clear of the walls and of occupied cells |
| Day17.FitsByColumns | src/day17.rs:107-121 | the cell-by-cell notion of a rock fitting agrees with the column-by-column check |
| Day17.HorizontalCheck | src/day17.rs:106-124 | the push is either taken whole or refused |
| Day17.HorizontalCheckFits | src/day17.rs:106-124 | a push is taken exactly when the rock fits where it would be pushed to |
| Day17.RestsAnyMeaning | src/day17.rs:133-159 | the landing test finds a resting column exactly when one of the rock's columns sits on an occupied cell |
| Day17.ColumnLower | src/day17.rs:141-143 | a clear column can be lowered by one exactly when it does not rest |
| Day17.RestsIffBlocked | src/day17.rs:133-161 | a rock that fits comes to rest exactly when it could not move one unit down |
| Day17.FitsAboveFloor | src/day17.rs:75-76 | a rock that fits never has its base on the floor, so `current_y - 1` never underflows |
| Day17.BlockPlacement | src/day17.rs:7-13 | there are five shapes, each sitting on its base and spawning between the walls |
| Day17.Fall | src/day17.rs:102-162 | the fall ends with a valid jet index, with the rock's base between 1 and its spawn height |
| Day17.FallLands | src/day17.rs:104-162 | where the fall stops the rock fits and rests: one unit lower it would not fit |
| Day17.LandCells | src/day17.rs:144-155 | landing adds exactly the cells the rock covers inside the chamber, and nothing else changes |
| Day17.TopOfBounds | src/day17.rs:7-13 | the rock's top is the highest cell of one of its columns and bounds all of them |
| Day17.LandTop | src/day17.rs:153 | after a landing the tallest cell is the old top or the rock's own top cell |
| Day17.Start | src/day17.rs:75-76 | the empty chamber holds exactly the floor cells at height 0 and has its top there |
| Day17.SpawnFits | src/day17.rs:102-103 | a rock spawned at offset 0 with its base four above the tallest cell fits |
| Day17.SpawnLands | src/day17.rs:99-162 | the spawned rock comes to rest where it fits, and one unit lower it would not |
| Day17.Drop | src/day17.rs:99-164 | one rock keeps the chamber valid and never lowers the tower |
| Day17.DropCells | src/day17.rs:99-164 | dropping a rock adds exactly its cells where it came to rest |
| Day17.DropKeeps | src/day17.rs:144-155 | dropping a rock frees no cell |
| Day17.RunUnique | src/day17.rs:81-168 | the chamber after `i` rocks is determined by the jets |
| Day17.RunGrows | src/day17.rs:81-168 | along a run the tower never shrinks and no cell is ever freed |
| Day17.SameShape | src/day17.rs:82-93 | skipping whole rounds of five rocks keeps the shape of the next rock |
| Day17.SkipCycles | src/day17.rs:88-95 | the skip covers whole cycles and leaves fewer than one cycle of the remaining rocks; the added height is the cycles times the growth |
| Day17.Consult | src/day17.rs:85-97 | on a repeated key the rock counter jumps by whole rounds without passing `N` and the saved growth stays non-negative; a new key is remembered with the rock index and height |
| Day17.DropNext | src/day17.rs:99-164 | the run is extended by dropping the next rock, and the tower does not shrink |
| Day17.Tetris | src/day17.rs:72-171 | None exactly when the jet list is empty; otherwise the answer is the saved growth plus the tallest cell of a run simulated rock by rock, the simulated and skipped rocks together reach `N`, and skips are whole rounds of shapes |
| Day17.Part1 | src/day17.rs:173-176 | the height is that of a run plus saved growth, with 2022 rocks accounted for |
| Day17.Part2 | src/day17.rs:178-181 | the height is that of a run plus saved growth, with a trillion rocks accounted for |
| Day18.Neighbors | src/day18.rs:8-31 | exactly the six face-adjacent cubes, each once |
| Day18.AdjacentSymmetric | src/day18.rs:8-15 | face adjacency is symmetric and no cube is its own neighbour |
| Day18.ParseCube | src/day18.rs:37-47 | a cube exactly when `splitn(3, ',')` gives three pieces that each parse as an `i32`, with those coordinates |
| Day18.ParseCubeRoundTrip | src/day18.rs:37-47 | a cube with `i32` coordinates written `x,y,z` parses back to itself |
| Day18.Collect | src/day18.rs:56-57 | the lines' cubes when every line reads, and an error otherwise |
| Day18.Dedup | src/day18.rs:57 | collecting into a set holds every cube once and no other |
| Day18.InputGenerator | src/day18.rs:51-58 | succeeds exactly when every non-blank trimmed line is a cube; the cubes are then exactly those the lines describe, each once |
| Day18.CountSplit | src/day18.rs:64 | every neighbour is counted as inside or outside a set, never both |
| Day18.Part1Faces | src/day18.rs:61-66 | the exposed faces are six per cube minus the faces touching another cube |
| Day18.LoneCube | src/day18.rs:61-66 | a lone cube shows all six faces |
| Day18.FacesDisjoint | src/day18.rs:101-104 | faces counted against a set of non-cubes are among the droplet's exposed faces |
| Day18.BoundingBox | src/day18.rs:70-75 | the box grown by one on every side holds every cube strictly inside and contains its own low corner |
| Day18.AirNeighbors | src/day18.rs:87-96 | the queued neighbours are exactly those inside the box that are not cubes |
| Day18.FloodExpand | src/day18.rs:84-99 | expanding a newly inserted cell keeps every queued cell reachable air and the visited set closed up to the queue |
| Day18.FloodFill | src/day18.rs:77-99 | the filled set contains the start, holds only air reachable from it inside the box, and is closed under stepping to adjacent air |
| Day18.Part2 | src/day18.rs:69-105 | None exactly for an empty droplet; otherwise the count of faces touching the outside air, where the outside air is exactly the air reachable from the box corner, and never more than the part-1 count |
| Day19.ParseNumbers | src/day19.rs:30-36 | every capture reads as a `u8`, or there is no result |
| Day19.ParseBlueprint | src/day19.rs:23-38 | a blueprint exactly when the line captures seven numbers that all fit in a `u8`, holding those numbers in order |
| Day19.ParseBlueprintRoundTrip | src/day19.rs:23-38 | a blueprint whose numbers fit in a `u8` is read back from their decimal text |
| Day19.ParseBlueprints | src/day19.rs:133-139 | the blueprints exactly when every line parses, one per line in order |
| Day19.Initial | src/day19.rs:55-67 | the start has the given minutes, one robot (an ore robot) and an empty stock |
| Day19.Apply | src/day19.rs:101-110 | one minute: robots are added by the build, the stock pays for it, and only the robots owned at the start of the minute produce |
| Day19.Iterations | src/day19.rs:75-78 | a `for ... { if !ok { break } }` loop reaches exactly the passes before the first failing check |
| Day19.ClayLoopComplete | src/day19.rs:89-98 | the clay loop reaches every build whose clay and ore counts pass their checks |
| Day19.ObsidianLoopComplete | src/day19.rs:82-98 | the obsidian loop's `break` cuts off only counts above an affordable one, so every build passing the checks is reached |
| Day19.BuildsSound | src/day19.rs:75-113 | a build the four loops reach passed all four checks |
| Day19.BuildsComplete | src/day19.rs:75-113 | the four loops reach every build that passes all four checks |
| Day19.Successors | src/day19.rs:69-118 | every pushed state is one minute later |
| Day19.SuccessorsMembers | src/day19.rs:69-118 | the pushed states are exactly the allowed builds applied to the state |
| Day19.SuccessorsExist | src/day19.rs:70 | nothing is pushed exactly when no time is left |
| Day19.SuccessorStep | src/day19.rs:101-110 | along one minute robots are only added, the stock keeps at least what the old robots produced, and geodes grow by the old geode robots |
| Day19.Heuristic | src/day19.rs:120-129 | with no time left the bound is the geode count; otherwise at least the stock plus what the current geode robots collect |
| Day19.HeuristicTriangle | src/day19.rs:124-126 | the bound's last term is `0 + 1 + ... + (t - 1)` geodes, one new geode robot per remaining minute |
| Day19.HeuristicStep | src/day19.rs:120-129 | a minute that builds at most one geode robot never raises the bound |
| Day19.HeuristicBoundsPath | src/day19.rs:120-129 | the bound covers every run that builds at most one geode robot per minute |
| Day19.HeuristicMissesDoubleBuild | src/day19.rs:75-129 | the successors allow building two geode robots in one minute, and a run doing so ends above the bound |
| Day19.Search | src/day19.rs:145-164 | the search visits the start; every visited state and the holder of the answer has each property the start passes on to successors; no visited state holds more than the answer; every successor of a visited state whose bound reaches the answer is visited |
| Day19.MaxGeodes | src/day19.rs:144-166 | the answer is the geode count of some state reachable from the start; every visited state is reachable and holds no more; the search expands every visited state whose bound reaches the answer |
| Day19.Part1 | src/day19.rs:142-169 | the sum of each blueprint's index times a geode count reachable from the 24-minute start of that blueprint |
| Day20.InputGenerator | src/day20.rs:5-11 | succeeds exactly when every non-blank trimmed line parses as an `isize`; then at most one number per line, each within the `isize` range |
| Day20.InputGeneratorRoundTrip | src/day20.rs:5-11 | numbers written one per line read back as those numbers |
| Day20.Identity | src/day20.rs:14 | the starting arrangement holds index `k` at position `k` |
| Day20.IdentityIndices | src/day20.rs:14 | the starting arrangement holds each index below `len` once |
| Day20.Position | src/day20.rs:18-26 | the first position holding the index |
| Day20.Remove | src/day20.rs:19 | removal shortens the list by one and drops exactly the removed element |
| Day20.Insert | src/day20.rs:21 | insertion lengthens the list by one, puts the element at the given place and keeps the rest |
| Day20.RemoveInsert | src/day20.rs:19-21 | inserting at a place and removing there again restores the list |
| Day20.NewIndex | src/day20.rs:20 | the new place lies below `len - 1`, as `rem_euclid` by the shortened length gives |
| Day20.MixOne | src/day20.rs:17-21 | moving one number keeps the arrangement a permutation, puts the index at its new place, and leaves the others in their cyclic order |
| Day20.MixPass | src/day20.rs:16-22 | a pass keeps the arrangement a permutation of `0 .. len - 1` |
| Day20.Mixed | src/day20.rs:14-23 | the final arrangement exists unless a single number is mixed at least once (a remainder by zero), and is then a permutation |
| Day20.ZeroIndex | src/day20.rs:25 | the first input index holding 0, and none exactly when there is no 0 |
| Day20.Mix | src/day20.rs:13-34 | None exactly when there is no 0 or a single number is mixed; otherwise the sum of the numbers 1000, 2000 and 3000 places after the 0 in the mixed arrangement, each times the key |
| Day20.MixPassLoop | src/day20.rs:16-22 | the loop over the original indices computes one pass |
| Day20.MoveOne | src/day20.rs:17-21 | the loop body moves index `i` by `n` places |
| Day20.MixLoop | src/day20.rs:14-23 | the nested loops compute the mixed arrangement |
| Day20.AfterZero | src/day20.rs:25-31 | zero places after the 0 is the 0 itself |
| Day20.AfterCyclic | src/day20.rs:29-31 | counting places is cyclic: `len` more places lead back to the same number |
| Day21.Apply | src/day21.rs:21-29 | a value exactly when both operands are already evaluated and a division's divisor is not zero |
| Day21.ApplyAgree | src/day21.rs:21-29 | a job's value depends only on its operands' values |
| Day21.ApplyExtend | src/day21.rs:46-49 | recording a new monkey does not change the value of a job that was already computable |
| Day21.EvalStep | src/day21.rs:46-49 | one pass of the evaluation loop keeps the recorded map a solution of exactly the names evaluated so far |
| Day21.EvalFromSolves | src/day21.rs:45-49 | an evaluation that succeeds records exactly the listed monkeys, each with a value solving its job's equation |
| Day21.EvalFromOrdered | src/day21.rs:45-49 | an evaluation that succeeds found every operand already evaluated: the order is topological |
| Day21.EvaluateAll | src/day21.rs:45-49 | a successful evaluation solves every listed monkey's equation along a topological order |
| Day21.SolutionUnique | src/day21.rs:44-52 | two solutions covering a topologically ordered list agree on every listed monkey |
| Day21.EvaluateP1 | src/day21.rs:44-52 | root's number as recorded by the evaluation loop |
| Day21.EvaluateP1Unique | src/day21.rs:44-52 | root's number is the one every solution of the monkeys' equations gives it |
| Day21.FixRoot | src/day21.rs:55-60 | root's job becomes the subtraction of its own operands; a number at the root panics |
| Day21.Patch | src/day21.rs:63-72 | the evaluation in part 2 uses root's fixed job and `humn` yelling the trial value, and every other job unchanged |
| Day21.ZeroMeansEqual | src/day21.rs:63-79 | a zero from the fixed root means root's two operands agree, with `humn` yelling the trial value |
| Day21.SecantStep | src/day21.rs:95 | the secant step exists exactly when the two results differ |
| Day21.SecantAffine | src/day21.rs:81-96 | on an affine function the secant step from two different points lands on the root |
| Day21.Search | src/day21.rs:88-96 | a returned trial value makes the fixed root evaluate to zero |
| Day21.EvaluateP2 | src/day21.rs:54-97 | a returned value exists only when root is an operation, and it makes root's two operands equal |
| Day21.ParseRational | src/day21.rs:110 | a number is a quotient of two `i64`s with a non-zero denominator |
| Day21.ParseRationalWhole | src/day21.rs:110 | a whole `i64` written in decimal reads back as itself |
| Day21.ParseRationalFraction | src/day21.rs:110 | `n/d` reads back as the quotient, and as nothing for a zero denominator |
| Day21.DecodeLine | src/day21.rs:104-121 | the name is the first four bytes; a number when byte 6 is a digit; otherwise a 17-byte line whose operands are bytes 6-9 and 13-16 |
| Day21.DecodeRender | src/day21.rs:104-121 | a line written from a four-byte name and a whole non-negative `i64` or two four-byte operands decodes back to them |
| Day21.DecodeLines | src/day21.rs:101-104 | the lines decode exactly when every non-blank trimmed line does |
| Day21.DecodedFromLine | src/day21.rs:101-124 | every decoded job comes from one of the lines |
| Day21.ToMapKeys | src/day21.rs:124 | collecting into a map keeps exactly the names of the pairs |
| Day21.ToMapLast | src/day21.rs:124 | a name maps to the job of its last pair |
| Day21.InputGenerator | src/day21.rs:100-125 | a map exactly when every non-blank trimmed line decodes; each entry is the decoding of one of the lines |
| Day23.Clearance | src/day23.rs:23-28 | the middle cell of each side's clearance is the step in that direction |
| Day23.FirstClearFirst | src/day23.rs:54-59 | the scan finds the earliest clear direction in the rotated order, and none only when no side is clear |
| Day23.ChoiceRotates | src/day23.rs:53-60 | an elf proposes exactly when it has a neighbour and some side is clear, taking the first clear side in the order rotated by the round index |
| Day23.Proposal | src/day23.rs:60-61 | the proposed cell is one step from the elf onto a free cell, in the chosen direction |
| Day23.ProposersOpposite | src/day23.rs:56-65 | two elves proposing the same cell come from its opposite sides, so `target + dir` is the other proposer |
| Day23.Dest | src/day23.rs:52-77 | an isolated or colliding elf stays; a moving elf lands on its own free proposal |
| Day23.DestUnshared | src/day23.rs:52-77 | an elf moves exactly when nobody else proposes its cell |
| Day23.DestInjective | src/day23.rs:52-77 | different elves end a round on different cells |
| Day23.ImageSize | src/day23.rs:52-77 | a round keeps the number of elves |
| Day23.Round | src/day23.rs:47-77 | a round keeps the number of elves |
| Day23.RoundUnchanged | src/day23.rs:47-77 | a round leaves the elves in place exactly when no elf moves |
| Day23.VisitFresh | src/day23.rs:61-62 | an elf whose target is still free in the new grid takes it |
| Day23.VisitClash | src/day23.rs:62-65 | an elf whose target is taken stays, and its partner is put back on its own cell at `target + dir` |
| Day23.AllVisited | src/day23.rs:52-77 | after the loop the new grid is the round's outcome, with every collision settled |
| Day23.Visit | src/day23.rs:48-77 | in any visiting order the loop builds the round's outcome, and its counter is twice the movers less the booking's excess for the collisions |
| Day23.Wrap | src/day23.rs:48-68 | the counter lives in a `usize`, wrapping modulo 2^64 |
| Day23.WrapZero | src/day23.rs:79 | a counter below 2^64 in magnitude wraps to zero only when it is zero |
| Day23.StepOnce | src/day23.rs:47-80 | as written, the round reports progress exactly when two movers per collision pair are not cancelled, which is not the same as the grid changing |
| Day23.StepOnceCorrected | src/day23.rs:47-80 | with each collision taking back one move per elf, the round reports progress exactly when it changes the grid |
| Day23.Rounds | src/day23.rs:82-93 | any number of rounds keeps the number of elves |
| Day23.Step | src/day23.rs:46-96 | runs at most the limit of rounds, every round before the last changed the grid, and stopping before the limit means the last round changed nothing |
| Day23.StepAsWritten | src/day23.rs:46-96 | runs at most the limit of rounds, every earlier round's counter was positive, and stopping before the limit means the last counter was not |
| Day23.StallStopsEarly | src/day23.rs:66 | on six elves where two move and four collide in pairs, the written counter says no progress although the grid changed |
| Day23.StallPart2Differs | src/day23.rs:112-116 | on those elves the written part 2 answers 1 while the corrected count goes on |
| Day23.MoversCollidingDisjoint | src/day23.rs:52-77 | no elf both moves and collides |
| Day23.RowsOfPlainLines | src/day23.rs:32-35 | lines that are already trimmed and non-blank are the rows |
| Day23.ElvesOfRender | src/day23.rs:30-44 | reading back a drawing of the elves gives the same elves |
| Day23.RenderOfElves | src/day23.rs:30-44 | drawing the elves read from a picture gives the picture back |
| Day23.InputOfRender | src/day23.rs:30-44 | the input generator reads back every picture drawn at least one cell wide |
| Day23.BoundsUnique | src/day23.rs:99-102 | the bounding rectangle of the elves is determined by them |
| Day23.BoundingBox | src/day23.rs:99-102 | the four scans find the smallest rectangle holding every elf, with an elf on each side |
| Day23.OpenCount | src/day23.rs:103 | the empty cells of that rectangle number its area less the elves |
| Day23.OpenSpaces | src/day23.rs:98-104 | the empty cells of the smallest rectangle holding every elf, and `None` exactly for no elves |
| Day23.StopsAtUnique | src/day23.rs:46-96 | `step` has one stopping round for each grid and limit |
| Day23.Part1 | src/day23.rs:106-110 | the empty cells around the elves after the corrected `step` with a limit of ten rounds |
| Day23.Part1AsWritten | src/day23.rs:106-110 | the empty cells around the elves after the written `step` with a limit of ten rounds |
| Day23.Part2 | src/day23.rs:112-116 | the number of the first round in which no elf moves |
| Day23.Part2AsWritten | src/day23.rs:112-116 | the round after which the written `step` stops |
| Day25.SnafuDigit | src/day25.rs:13-22 | a digit exactly for the five SNAFU characters, each worth -2 to 2; any other character panics |
| Day25.DigitFor | src/day25.rs:34-43 | the character rendered for a remainder reads back as the remainder less two |
| Day25.FromSnafu | src/day25.rs:12-31 | a value exactly for a string of SNAFU digits, and the value is its base-5 reading with digits -2 to 2 |
| Day25.Digits | src/day25.rs:51-56 | the rendering loop produces SNAFU digits, and none exactly for zero |
| Day25.ToSnafu | src/day25.rs:33-59 | a non-empty string of SNAFU digits |
| Day25.DigitsValue | src/day25.rs:51-56 | the digits of the loop read back as the value |
| Day25.RoundTrip | src/day25.rs:12-59 | reading back a rendered non-negative value gives the value |
| Day25.LeadingDigit | src/day25.rs:45-56 | zero renders as `0`, and a positive value starts with `1` or `2` |
| Day25.CanonicalRoundTrip | src/day25.rs:12-59 | every canonical numeral with a non-negative value is the rendering of that value, so the two functions are inverse on canonical numerals |
| Day25.ToExamples | src/day25.rs:33-59 | the renderings of 0 to 10 |
| Day25.FromExamples | src/day25.rs:12-31 | the values of the numerals for 0 to 10 |
| Day25.SumValues | src/day25.rs:61-67 | the sum exists exactly when every line is a SNAFU numeral |
| Day25.Part1 | src/day25.rs:60-68 | a canonical numeral whose value is the sum of the lines; none for a bad digit or a negative sum |
| Sorting.SortDesc | src/day01.rs:48 | a descending rearrangement of the same elements |
| Sorting.SortDescHeadIsMax | src/day01.rs:48-49 | the first element of the descending sort is the maximum |
| Sorting.SumLargestAtLeastMax | src/day01.rs:47-50 | the sum of the largest `k >= 1` non-negative elements is at least the maximum |
| Sorting.ProductLargestTwo | src/day11.rs:90-92 | the product of the two first elements of the descending sort multiplies a largest element with the largest of the rest |
| Util.MapAll | src/day10.rs:84 | a `collect` or `unwrap` over every element: a result exactly when every element succeeds, holding their results in order |
| Text.ParseUnsignedRoundTrip | src/day04.rs:16 | parsing the decimal rendering of an unsigned value that fits gives it back |
| Text.ParseSignedRoundTrip | src/day09.rs:53 | parsing the decimal rendering of a signed value in range gives it back |
| Text.Trim | src/day25.rs:6 | the input minus its leading and trailing whitespace, starting and ending with a non-whitespace character |
| Text.TrimUnchanged | src/day25.rs:6 | a string with no whitespace at either end trims to itself |
| Text.StripPrefix | src/day10.rs:28 | the rest after the prefix exactly when the string starts with it, and prefix plus rest is the string |
| Text.SplitOnceAt | src/day09.rs:52 | splitting once cuts at the first separator |
| Text.SplitTwoAt | src/day04.rs:12 | `splitn(2, c)` cuts at the first separator |
| Text.ParseUnsigned | src/day04.rs:16 | an accepted string is non-empty and its value lies below the type's limit (u32::MAX + 1 for `parse::<u32>`) |
| Text.ParseSigned | src/day15.rs:32-37 | an accepted value lies in the signed type's range |
| Text.SplitN | src/day04.rs:12-15 | between 1 and n pieces; no piece but the last holds the separator, and the last holds none either when fewer than n pieces came out |
| Text.SplitNJoin | src/day04.rs:12-15 | the pieces of `splitn` joined with the separator give back the string |

## Left out

- Day01.Totals: the calorie totals are unbounded naturals. The source sums `u32` values (src/day01.rs:39 and :47), which wrap in a release build once a group exceeds `u32::MAX`; `Part1` and `Part2` inherit this, and so does the final `u32` sum of the top three (src/day01.rs:50).
- Day01.Part2AtLeastPart1: holds of the unbounded model only. With wrapping `u32` sums it fails: three groups of 4000000000 give `part2` = 3410065408, below `part1` = 4000000000.
- Day02.Total1, Day02.Total2: the scores are summed as unbounded naturals; the `u32` sums of `part1` and `part2` (src/day02.rs:122 and :127) are not modelled to wrap.
- Day03.SumAll: the priority sums are unbounded naturals; the `u32` sums of `part1` and `part2` (src/day03.rs:35 and :51) are not modelled to wrap.
- Day08.ScenicScore, Day13.Part1, Day13.Part2: the scenic-score products, the `usize` sum of pair indices and the product of the divider positions are unbounded naturals; their wrap-around is not modelled.
- Day11.Turn: a turn is followed for at most 2^64 pops (the range of the u64 inspection counter); a turn that would pop more gives `None` instead of running on.
- Day11.Throw: inspection counts are unbounded naturals; the u64 counter's wrap-around after 2^64 inspections is not modelled.
- Day11: `input_generator` (the regular expression over each monkey's paragraph) is not modelled; the monkeys are given as values.
- Day08: `input_generator`'s line handling (trimming, skipping empty lines, the length check) is not modelled apart from one row's conversion (`ParseRow`); rows are given as values to `NewForest`, which carries the same length check.
- Day07.Size, Day07.Part2: sizes are unbounded naturals; the wrap-around of `usize` sums above 2^64 is not modelled, and `Part2` promises its minimum only for a root smaller than `usize::MAX`.
- Day14.Fall1, Day14.Fall2: a grain at column 0 stops the fall, the panic a checked build raises on `sand.x - 1` (src/day14.rs:91 and :126): `Fall1` yields `Panic` and `Fall2` yields `None`, and the pours and both parts then answer `None`. A release build would wrap the candidate to column `u32::MAX`, which the model does not follow. From the spawn at column 500 only a cave deeper than 500 rows reaches column 0.
- Day16.Gain: pressures, times and the `d + 1` of the search are unbounded naturals; `u32` overflow of the pressure sums is not modelled. The distance map of a valve keeps every flow-positive valve, so an unreachable one stays at the `u32::MAX` sentinel of the breadth-first search (src/day16.rs:54 and :83). There a release build wraps `d + 1` to 0, and `gain` credits `flow * time_left`. The model keeps `d + 1` unbounded, so `Gain` is 0 on the sentinel.
- Day16.Successors1, Day16.Successors2: a move is allowed only when `d + 1 < time`, with `d + 1` unbounded, so a valve at the sentinel distance is never a move. In a release build the wrapped `d + 1` passes the filters at src/day16.rs:146, :213 and :226; the agent then reaches the valve and opens it without spending time. The model agrees with the source when every flow-positive valve is reachable from every flow-positive valve and from `AA`, as in a connected tunnel network.
- Day16.Part1, Day16.Part2: inherit the two lines above. Tunnels `AA`-`BB` (flow 5) and `CC` (flow 7)-`DD` make a network where they differ: a release build of `part1` reaches `CC` without spending time and answers 360, and the model answers 140. Both searches promise soundness and coverage: the answer is the pressure of a dequeued state, and every dequeued state whose pressure plus bound exceeds the answer had all its successors dequeued. They do not promise optimality: `part2`'s index-based bound (src/day16.rs:204) is not admissible, since two valves of flow 10 at distance 1 with 26 minutes get a bound of 470 against a reachable 480. `Part1` requires the reduced network to be `Closed` and `Part2` requires it `WellFormed`; these hold for every output of `InputGenerator` (`ReducedWellFormed`), which is the only way the source builds the valves.
- Day16.Part2: the source visits each valve's distance map in `FxHashMap` order (src/day16.rs:141, :208 and :221). The model fixes ascending index order (`Moves1From`, `Moves2aFrom`, `Moves2bFrom`). Because the bound of `part2` is not admissible, which states get pruned depends on the visiting order, so the source's answer may depend on it; the model describes the ascending order only.
- Day16.InputGenerator: the regular expression that splits a valve line is not modelled; the lines arrive as name, flow and tunnel list.
- Day19.Apply: stock and robot counts and the heuristic's products are unbounded naturals; the `u8` arithmetic of the source is not modelled to wrap (its parser does check that every blueprint number is a `u8`).
- Day19.MaxGeodes, Day19.Part1: promises soundness (the best is reached by some run) and coverage (every successor of a state the bound did not cut was visited), not optimality; the heuristic ignores building several geode robots in one minute (`HeuristicMissesDoubleBuild`), so it is not an admissible bound and optimality does not hold in general.
- Day19: `part2` is a stub in the source and is not modelled; the regular expression over a blueprint line is not modelled either, the numbers arrive as captures.
- Day20.Mix: values, `n * decryption_key`, `pos + n` and the sum of the three coordinates are unbounded integers; the `isize` wrap-around is not modelled.
- Day09.Step: knot coordinates are unbounded integers; the `i32` range is not modelled.
- Day15.Distance: coordinates and distances are unbounded integers; the `i32` subtractions and the `u32` distance are not modelled to overflow.
- Day18.BoundingBox: coordinates, including the box widened by one on each side, are unbounded integers; the `i32` `min - 1` and `max + 1` are not modelled to overflow.
- Day23.Round: elf coordinates are unbounded integers; the `i32` range of `Pos` is not modelled.
- Day23.Part1AsWritten: requires fewer than 2^64 elves, so that the `usize` counter's wrap can only hide a zero count when the true count is zero (`WrapZero`); `Part2AsWritten` and `StepAsWritten` carry the same requirement.
- Day25.FromSnafu: values are unbounded integers; the `i64` accumulation and the `i64` sum in `part1` are not modelled to overflow.
- Day17.Tetris, Day17.Part1, Day17.Part2: heights and the skipped growth are unbounded naturals; `u64` overflow is not modelled. The surface part of the cycle cache's key (`calculate_normalized_surface`) is a function parameter of `Tetris`; the source's walk along the top of the tower is not modelled. The height credited for skipped cycles is promised to be non-negative and to cover whole rounds of the five shapes, not to equal what the skipped rocks would have added: that rests on the key capturing the tower's shape, which the source assumes and the model does not prove.
- Day10.Trace: the register `X` and the signal strengths are unbounded integers; `i32` overflow is not modelled.
- Day21.ParseRational: the value of `n/d` is the exact quotient. `Rational64` reduces the fraction and would wrap the sign of a denominator that reduces to `i64::MIN`; that corner is not modelled.
- Day21.Apply: numbers are exact rationals (`real`); `Rational64` overflow in the operations and in the secant step is not modelled.
- Day21.EvaluateP1: the evaluation order is a parameter; `topo_sort` (a call into the `pathfinding` crate) is not modelled, and the order is only required to be free of duplicates.
- Day21.Search: the source loops until it finds a zero; the model bounds the trials by `fuel` and returns `None` when it runs out. Convergence of the secant search is not proved.
- Day05: the regular expression over a move line is not modelled; `DecodeMove` starts from the three captured numbers.
- Day15: the regular expression over a report line is not modelled; `ParseReport` starts from the four captured numbers.
- Day22 and Day24: stubs in the source that return 0; not modelled.
- Hash maps and hash sets are Dafny maps and sets. For the order of the elves in `step_once` (day 23) the model proves the result for every visiting order. The searches of day 16 visit a fixed order instead (see `Day16.Part2` above).
- Bytes are characters: day05 `Column`, day06, day12 `Codes`, day17, day21 `DecodeLine` and day25 index the input's bytes (`as_bytes`), which the model reads as a sequence of characters. For ASCII input the two agree; a multi-byte character is one element of the model's string but several bytes in the source.
- Text.Trim: trims ASCII whitespace only; `str::trim` also trims the other Unicode `White_Space` characters.
- The test harness of the source (`aoc_runner` attributes, the sample tests) is not modelled; the sample answers appear as lemmas only where the computation is small (day02, day06, day08, day10, and runs of the day16 searches that reach 1651 and 1707); the other samples would need the whole simulation unfolded by the solver.

## Findings

| source | as written | input that shows it | evidently intended | confidence | as-written member | corrected member |
|---|---|---|---|---|---|---|
| src/day23.rs:66 | an elf that finds its target taken takes 2 off the move counter, although only its partner's move was counted, so the counter is the movers less the collision pairs and `step` stops when twice the movers equal the colliding elves | `Stall()`: a 2 by 2 block of elves with a pair two rows below it; in round 0 the top two elves move north and the other four collide in two pairs, so the counter is 2 + 2 x (1 - 2) = 0 and `step` stops although the grid changed | take off only the partner's move (`moves -= 1`), so the counter is the number of movers and `step` stops after the first round in which no elf moves | not executed | Day23.StepAsWritten, Day23.StallStopsEarly | Day23.StepOnceCorrected, Day23.Step |
