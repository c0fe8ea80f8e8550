# Advent of Code 2022 puzzles, modelled in Dafny

This project models eleven small solutions to Advent of Code 2022 puzzles,
written in Java, C++, C, Kotlin and Python, and proves what each of them
computes. The puzzles are independent. Each source file becomes one module:

- `Cleaning` (04/cleaning.py): section ranges "lo-hi,lo-hi", containment and overlap.
- `DataStream` (06/DataStream.cpp): the first window of 4 or 14 characters that has no repeated character.
- `Ropes` (09/ropes.py): a rope of knots following its head; the number of fields the tail visits.
- `Calories` (01/CountingCalories.kt): a two-state machine that sums groups of numbers, and `NGreatest`, a sorted list capped at a capacity.
- `Cargo` (05/CargoSpace.cpp): crate stacks read from a drawing, and moves one crate at a time or in bulk.
- `Day10` (10/Day10.java): a two-instruction CPU, a signal-strength meter and a 40 x 6 CRT fed by the CPU's per-cycle reports.
- `Day10Variant` (10/Main.java): the second CPU with 1-based cycles and one optional hook.
- `Trees` (08/trees.c): trees visible from outside a 9 x 9 grid, and the best scenic score.
- `FileSystem` (07/FileSystem.cpp): a directory tree built by replaying `$ cd` / `$ ls` output, and the two size aggregates.
- `Hill` (12/HillClimbing.cpp): a height map read into a graph, and breadth-first search for the shortest climb.
- `Monkeys` (11/Day11.java): monkeys that pass items between queues by evaluating an expression and a divisibility test.

Three shared modules hold what several puzzles use:
- `Wrappers`: `Option` and `Result`.
- `Decimal`: decimal digit strings and their round trip.
- `Text`: Python's `str.split`.

`JavaLang` holds the Java semantics the Java puzzles rely on: `%` and `/`
truncating toward zero, and `String.split`.

Code that updates state in place is modelled as classes with `modifies`
clauses, and its loops as `while` loops with invariants:
- the CPUs, the meter and the CRT screen (an `array2`);
- the crate stacks;
- `NGreatest`, the directory arena and the scanner;
- the BFS of `Hill`;
- the monkeys and their engine.

Each such method is proved against a function of the old state. The
properties the sources promise are then lemmas about those functions.
Pure code (intervals, rope steps, expressions, the calorie states)
becomes functions and lemmas.

Exceptions become `Result` values that name the exception. Undefined
behaviour in C and C++ becomes a precondition. Callbacks (CPU hooks,
`traverse`) become the sequence of values they would be called with.

## Model

| member | source | states |
|---|---|---|
| Decimal.DigitPrefix | 04/cleaning.py:5 | the length of the longest run of digits at the front, as a greedy `\d+` consumes it |
| Decimal.ParseRender | 04/cleaning.py:25 | reading a rendered natural number gives it back |
| Decimal.ParseRenderSigned | 10/Day10.java:16 | `parseInt` of a rendered integer, sign included, gives it back |
| Decimal.ParseSigned | 01/CountingCalories.kt:5 | a number exactly for digits after an optional `+` or `-`, with the sign applied to the digits' value; every other text, the empty one included, gives nothing |
| Decimal.DigitPrefixOfDigits | 05/CargoSpace.cpp:57-59 | a digit run followed by a non-digit is consumed exactly |
| Text.Split | 04/cleaning.py:29 | `split(",")` gives at least one piece and no piece contains the separator |
| Text.JoinSplit | 04/cleaning.py:29 | joining the pieces with the separator gives back the line |
| Text.SplitCons | 04/cleaning.py:29 | a separator-free word, the separator, then the rest splits into that word followed by the rest's pieces |
| JavaLang.JavaRem | 10/Day10.java:78 | Java's `%` agrees with the mathematical remainder for a non-negative dividend and is never positive for a negative one |
| JavaLang.JavaDiv | 11/Day11.java:36 | Java's `/` truncates toward zero: the remainder has the dividend's sign and is smaller than the divisor in magnitude |
| JavaLang.RemZero | 11/Day11.java:166 | the test `x % divisor == 0` means divisibility for negative `x` too |
| JavaLang.DivModUnique | 10/Day10.java:83-84 | quotient and remainder are determined by `a == q * b + r` with `0 <= r < b` |
| JavaLang.DropTrailingEmpty | 10/Day10.java:12 | what `split` keeps is a prefix of the pieces that does not end in an empty piece, and every piece it drops is empty |
| JavaLang.JavaSplit | 10/Day10.java:12 | Java's `split` of a non-empty string is a prefix of Python-style splitting |
| Cleaning.FromString | 04/cleaning.py:21-25 | a word parses exactly when it starts with digits, a dash and more digits, and the range is the values of the two digit runs; any other word is a ValueError for that word |
| Cleaning.FromStringRejects | 04/cleaning.py:21-25 | "12", "3-", "-4-5" and "7x8" each raise ValueError |
| Cleaning.Unpack2 | 04/cleaning.py:29-33 | the unpacking succeeds exactly for two words that both parse, and gives their ranges in order |
| Cleaning.HasContainment | 04/cleaning.py:31-33 | a verdict exactly for a line that parses; otherwise the parse error is raised |
| Cleaning.HasOverlap | 04/cleaning.py:35-37 | a verdict exactly for a line that parses; otherwise the parse error is raised |
| Cleaning.HasContainmentMeaning | 04/cleaning.py:31-33 | for two well-formed ranges the verdict is whether every section of one lies in the other |
| Cleaning.HasOverlapMeaning | 04/cleaning.py:35-37 | for two well-formed ranges the verdict is whether they share a section |
| Cleaning.FullyContainsMeaning | 04/cleaning.py:11-12 | `fully_contains(a, b)` holds exactly when every section of `b` is in `a`; it is reflexive |
| Cleaning.OverlapsMeaning | 04/cleaning.py:14-16 | `overlaps` holds exactly when the ranges share a section, and is symmetric |
| Cleaning.OverlapsDisjunctsAgree | 04/cleaning.py:15-16 | the two disjuncts of `overlaps` state the same condition |
| Cleaning.ContainmentImpliesOverlap | 04/cleaning.py:11-16 | a well-formed range contained in another overlaps it, both ways round |
| Cleaning.SplitPair | 04/cleaning.py:29 | a line of two comma-free words splits into exactly those two words |
| Cleaning.FromStringDigits | 04/cleaning.py:5 | "digits-digits" followed by a non-digit reads as the range of the two values |
| Cleaning.FromStringRender | 04/cleaning.py:21-25 | a rendered range "lo-hi" reads back as that range, whatever non-digit text follows |
| Cleaning.HasContainmentSymmetric | 04/cleaning.py:31-33 | `has_containment` says true for one order of the two words exactly when it does for the other, and fails for one exactly when it fails for the other |
| Cleaning.HasOverlapSymmetric | 04/cleaning.py:35-37 | for any two comma-free words, `has_overlap` parses the line in one order exactly when it parses it in the other, and then gives the same answer |
| Cleaning.ReadRenderedLine | 04/cleaning.py:28-29 | a rendered line "lo-hi,lo-hi" reads back as its two ranges |
| DataStream.Stream.constructor | 06/DataStream.cpp:11 | the stream holds exactly the given text |
| DataStream.Stream.FindFirstUniqueWindow | 06/DataStream.cpp:22-27 | the result is the end of the first distinct window, or the data length when there is none; no earlier window is distinct |
| DataStream.Stream.AreCharactersUnique | 06/DataStream.cpp:29-36 | true exactly when no two positions in [start, end) hold the same character |
| DataStream.Stream.FindStartOfPacket | 06/DataStream.cpp:13-15 | the first distinct window of width 4, as above |
| DataStream.Stream.FindStartOfMessage | 06/DataStream.cpp:17-19 | the first distinct window of width 14, as above |
| DataStream.NarrowerWindow | 06/DataStream.cpp:29-36 | the tail of a distinct window is distinct |
| DataStream.PacketNoLaterThanMessage | 06/DataStream.cpp:13-19 | the start of packet is never after the start of message |
| Ropes.MoveKnot | 09/ropes.py:1-2 | the knot is displaced by exactly the move vector, so it lands as far from where it was as the move is long |
| Ropes.MoveTranslates | 09/ropes.py:1-5 | moving two knots by the same vector keeps their distance and whether they touch |
| Ropes.SignedOne | 09/ropes.py:10-13 | the sign of `x`: in {-1, 0, 1}, negative exactly for negative `x`, positive exactly for positive `x` |
| Ropes.CalculateFollowMove | 09/ropes.py:7-8 | a unit step whose components point from the follower toward the leader |
| Ropes.ParseMoves | 09/ropes.py:15-21 | an empty line is an IndexError; only lines starting with U, L, D or R parse, and any other first character is a ValueError; after a direction the line parses exactly when `int(line[2:])` reads a number, giving that many moves (none for a negative one) of the direction's unit vector, and otherwise a ValueError for the count |
| Ropes.ParseMovesRejects | 09/ropes.py:15-21 | "", "X 3", "U x" and "U" each raise their own error |
| Ropes.ParseMovesRender | 09/ropes.py:15-21 | "<dir> <n>" yields exactly n copies of the direction's unit vector |
| Ropes.TouchMeaning | 09/ropes.py:4-5 | touching means Chebyshev distance at most one; it is symmetric and reflexive |
| Ropes.FollowCatchesUp | 09/ropes.py:30-34 | a follower at most two cells away touches its leader after one follow step |
| Ropes.FollowFromTaut | 09/ropes.py:29-34 | the catching-up pass leaves every knot touching its predecessor; no knot moves more than one cell; knots before the pass are unchanged; an already-touching pair stops it |
| Ropes.StepKeepsRopeTaut | 09/ropes.py:27-34 | after each head step the rope is taut again and no knot moved more than one cell |
| Ropes.FinalTaut | 09/ropes.py:26-35 | over a whole input the rope stays taut |
| Ropes.StepHead | 09/ropes.py:28-34 | the in-place update of the knot list is one head step and the catching-up pass |
| Ropes.FollowMoves | 09/ropes.py:27-35 | the moves of one line advance the knots and add each step's last knot to the visited set |
| Ropes.CalculateVisitedFields | 09/ropes.py:23-36 | the number of distinct positions of the last knot after every step of every line, from knots all at (0, 0); the first rejected line's error otherwise |
| Ropes.Start | 09/ropes.py:24 | `num_knots` knots, all at (0, 0) |
| Ropes.FinalSnoc | 09/ropes.py:35 | one more step adds the new position of the last knot to the visited positions |
| Ropes.TailVisitsBounds | 09/ropes.py:23-36 | 0 fields with no steps, between 1 and the number of steps otherwise |
| Calories.Take | 01/CountingCalories.kt:68-71 | the first `k` elements, or all of them when there are fewer |
| Calories.TakeN | 01/CountingCalories.kt:68-71 | `takeN(n)` keeps the first n values of the list |
| Calories.NGreatest.constructor | 01/CountingCalories.kt:40-42 | an empty list with the given capacity, no value inserted yet |
| Calories.InsertNodeElements | 01/CountingCalories.kt:59-65 | `_insert` is sorted insertion cut off at the remaining capacity; without a value it is a plain cut |
| Calories.InsertSortedMultiset | 01/CountingCalories.kt:62-64 | insertion adds exactly the value to the list's values |
| Calories.InsertSortedPosition | 01/CountingCalories.kt:63-64 | the value lands in front of the first value it is not smaller than |
| Calories.InsertSortedDescending | 01/CountingCalories.kt:63-64 | insertion keeps the list non-increasing |
| Calories.TakeDescending | 01/CountingCalories.kt:60-61 | cutting a non-increasing list keeps it non-increasing |
| Calories.InsertKeepsGreatest | 01/CountingCalories.kt:39 | after an insert the list still holds the `capacity` greatest values inserted, sorted |
| Calories.InsertBounded | 01/CountingCalories.kt:60-61 | the list never holds more than `capacity` values and grows by at most one |
| Calories.NGreatest.Insert | 01/CountingCalories.kt:44-47 | the head becomes `_insert(x, head, 0)`; the values seen grow by `x`; the list stays the greatest of them |
| Calories.NGreatest.ToList | 01/CountingCalories.kt:49-57 | the values from head to tail |
| Calories.ToIntOrNull | 01/CountingCalories.kt:5 | a line gives a number exactly when it is digits after an optional sign, with the sign applied; every other line, the blank one included, gives `null` |
| Calories.Consume | 01/CountingCalories.kt:22-36 | Ready keeps its state on null and starts counting on n; Counting adds n, or on null inserts the sum and returns to Ready with 0 |
| Calories.CountCalories | 01/CountingCalories.kt:1-7 | the list read at the end holds the three greatest sums of the groups a null line closed |
| Calories.UnclosedGroupIgnored | 01/CountingCalories.kt:2-7 | a trailing group that no null line closes is never inserted |
| Calories.BlankClosesGroup | 01/CountingCalories.kt:32-35 | a null line after a group closes exactly that group |
| Calories.ExtraBlankIgnored | 01/CountingCalories.kt:24-25 | null lines outside a group change nothing |
| Calories.ScanAllSnoc | 01/CountingCalories.kt:3-6 | the machine state after one more line is one more step of the machine |
| Cargo.LayerWidth | 05/CargoSpace.cpp:42 | column i exists exactly when position 1 + 4i is inside the layer line |
| Cargo.CrateAt | 05/CargoSpace.cpp:43-49 | a column yields a crate exactly when its character is a letter |
| Cargo.WithLayer | 05/CargoSpace.cpp:39-51 | the stacks grow to the layer's width when they are fewer |
| Cargo.CargoSpace.constructor | 05/CargoSpace.cpp:36 | there are no stacks yet |
| Cargo.CargoSpace.AddLayer | 05/CargoSpace.cpp:39-51 | the stacks become the old stacks with the layer slid underneath |
| Cargo.LayerKeepsTops | 05/CargoSpace.cpp:47-48 | sliding a layer underneath never changes an existing top crate |
| Cargo.LayerAddsLetters | 05/CargoSpace.cpp:42-50 | stack i gains one crate, at its bottom, exactly when the character at 1 + 4i is a letter, and is otherwise unchanged |
| Cargo.ParseMove | 05/CargoSpace.cpp:37 | a parsed destination is a single digit, made 0-based |
| Cargo.NumberRender | 05/CargoSpace.cpp:37 | a written number followed by a non-digit is read as that number, leaving the rest |
| Cargo.FieldRender | 05/CargoSpace.cpp:37 | a literal word followed by a written number is read as that number, leaving the rest |
| Cargo.ParseMoveLine | 05/CargoSpace.cpp:56-59 | a well-formed move line parses, with both stack numbers made 0-based |
| Cargo.TwoDigitDestinationRejected | 05/CargoSpace.cpp:37 | a two-digit destination does not match the pattern |
| Cargo.CargoSpace.ExecuteMove | 05/CargoSpace.cpp:53-77 | an unparsable line leaves the stacks unchanged; otherwise the move of the chosen discipline |
| Cargo.CargoSpace.MoveOneByOne | 05/CargoSpace.cpp:65-70 | the one-at-a-time move wherever `back()` never meets an empty stack: an out-of-range `from` throws at once, an out-of-range `to` throws after the first crate left, and a move onto the same stack leaves it as it was whatever the count |
| Cargo.CargoSpace.ShiftCrates | 05/CargoSpace.cpp:66-70 | the top `count` crates leave `from` and arrive on `to` reversed |
| Cargo.CargoSpace.CycleCrates | 05/CargoSpace.cpp:66-70 | moving any number of crates from a non-empty stack onto itself changes nothing |
| Cargo.CargoSpace.MoveBulk | 05/CargoSpace.cpp:71-76 | the bulk move; an out-of-range `from` or `to` throws before any stack changes, even when both are the same number |
| Cargo.DefinedEdgeMoves | 05/CargoSpace.cpp:65-76 | "move 5 from 1 to 1" on two crates changes nothing, "move 3 from 1 to 9" throws after one crate left, a bulk "move 1 from 9 to 9" throws with no change, and the empty-stack and self-insert moves are undefined |
| Cargo.CargoSpace.GetTopmostCrates | 05/CargoSpace.cpp:79-85 | one character per stack: its top crate, or a space when empty |
| Cargo.RepeatedReverses | 05/CargoSpace.cpp:65-70 | `count` single moves leave the moved crates on `to` in reverse of their order on `from` |
| Cargo.RepeatedShape | 05/CargoSpace.cpp:65-70 | the same, and no other stack changes |
| Cargo.OneByOneReversesBulk | 05/CargoSpace.cpp:65-76 | both disciplines take the same crates; the one-at-a-time one stacks them in reverse of the bulk order |
| Cargo.OneByOneKeepsCrates | 05/CargoSpace.cpp:65-70 | a one-at-a-time move keeps the total, takes `count` from `from`, adds `count` to `to`, leaves the rest |
| Cargo.BulkKeepsCrates | 05/CargoSpace.cpp:71-76 | the same for the bulk move |
| Cargo.MovedTop | 05/CargoSpace.cpp:65-76 | the new top of `to` is the crate `count` from the top (one at a time) or the old top of `from` (bulk) |
| Cargo.Reverse | 05/CargoSpace.cpp:66-70 | the reversal: same length, element i from position length - 1 - i |
| Cargo.TotalUpdate | 05/CargoSpace.cpp:65-76 | replacing one stack changes the total by the difference in height |
| Day10.Parse | 10/Day10.java:11-19 | "noop" exactly when the first word is `noop`; addx exactly when the first word is `addx` and a second word parses as an integer |
| Day10.ParseRendered | 10/Day10.java:11-19 | "noop" and "addx n" are read for every integer n |
| Day10.ParseRejects | 10/Day10.java:11-19 | an empty line, "addx" alone and an unknown instruction throw |
| Day10.ParseRejectsNumber | 10/Day10.java:11-19 | "addx foo" throws from `parseInt` |
| Day10.Ticks | 10/Day10.java:35-43 | one report for noop, two for addx, numbered on from the current cycle, all with the old register |
| Day10.TicksReportOldRegister | 10/Day10.java:35-43 | every report has the register as it was before the instruction; noop leaves it unchanged |
| Day10.TicksExtendConsecutive | 10/Day10.java:26-33 | the reports stay numbered 0, 1, 2, ... as instructions run |
| Day10.Cpu.Tick | 10/Day10.java:30-33 | the cycle goes up by one and the new cycle is reported with the register |
| Day10.Cpu.AddX | 10/Day10.java:35-39 | two cycles reporting the old register, then the register grows by x |
| Day10.Cpu.Noop | 10/Day10.java:41-43 | one cycle, register unchanged |
| Day10.Cpu.Handle | 10/Day10.java:11-19 | a rejected line throws before any cycle; otherwise the instruction's reports and register update |
| Day10.Cpu.constructor | 10/Day10.java:26-28 | the cycle starts at -1 and the register at 1 |
| Day10.MeterSamples | 10/Day10.java:53-58 | the meter adds cycle times register exactly at 1-based cycles 20, 60, ..., 220 |
| Day10.SampledCycles | 10/Day10.java:55 | `cycle % 40 == 20 && cycle <= 220` picks exactly six cycles |
| Day10.SignalOfRun | 10/Day10.java:53-58 | over a run's reports, the meter reads the sum of cycle times register at the six sampled cycles |
| Day10.SamplesSnoc | 10/Day10.java:53-58 | one more report adds its sample, if its cycle is sampled |
| Day10.NoSamplesYet | 10/Day10.java:55 | before cycle 20 nothing is sampled |
| Day10.SignalStrengthMeter.OnCycle | 10/Day10.java:53-58 | the report joins those seen and the strength stays their signal sum |
| Day10.SignalStrengthMeter.GetSignalStrength | 10/Day10.java:61 | the strength is the signal sum of the reports seen |
| Day10.SignalStrengthMeter.constructor | 10/Day10.java:60 | the strength starts at 0 with nothing seen |
| Day10.Crt.OnCycle | 10/Day10.java:66-69 | the sprite moves to the register; the screen shows, at every position, the pixel of the last report for that cycle |
| Day10.Crt.constructor | 10/Day10.java:92-95 | the sprite at 0, nothing seen yet, a fresh 6 x 40 screen |
| Day10.Crt.IsSpriteVisible | 10/Day10.java:77-80 | lit exactly when the column of the cycle is at most one from the sprite |
| Day10.Crt.DrawPixel | 10/Day10.java:82-90 | the pixel goes to row cycle / 40, column cycle % 40; a cycle past the last row changes nothing; no other pixel changes |
| Day10.Crt.Row | 10/Day10.java:72-73 | a row of the screen as a string |
| Day10.Crt.GetScreen | 10/Day10.java:71-75 | every screen character sits at its row-and-column offset; the rows are separated by newlines |
| Day10.RowsLayout | 10/Day10.java:72-74 | where each character of the joined rows comes from |
| Day10Variant.Cpu.constructor | 10/Main.java:21-26 | cycle 0, register 1, op NOOP, argument 0, no cycles remaining, no hook |
| Day10Variant.Cpu.SetPreCycleHook | 10/Main.java:15-17 | only the hook changes |
| Day10Variant.Cpu.Tick | 10/Main.java:28-32 | the cycle goes up first, so the hook sees 1-based cycles; no hook, no call; one fewer cycle remaining |
| Day10Variant.Cpu.AddX | 10/Main.java:34-41 | op ADDX, argument x, two hook calls with the old register, then the addition; no cycles remain |
| Day10Variant.Cpu.Noop | 10/Main.java:43-47 | op NOOP, one hook call, register unchanged, no cycles remain |
| Day10Variant.Cpu.Handle | 10/Main.java:4-13 | the same parse as the first CPU; a rejected line changes nothing |
| Day10Variant.Reported | 10/Main.java:28-30 | the first CPU's reports as this CPU's hook sees them: the cycle one higher, the same register |
| Day10Variant.ReportedAppend | 10/Main.java:28-30 | reporting a concatenation reports each part |
| Day10Variant.SameRun | 10/Main.java:28-47 | one instruction on both CPUs: a hook that has seen the first CPU's reports so far also sees that instruction's reports, shifted to 1-based cycles |
| Day10Variant.RunBoth | 10/Main.java:28-47 | both CPUs built by their constructors and fed the same lines up to the first rejected one: the hook has seen exactly the first CPU's reports with 1-based cycles, and the registers agree |
| Trees.CountVisibleTrees | 08/trees.c:20-65 | the border trees plus the interior trees taller than everything between them and some edge |
| Trees.ScanFromLeft | 08/trees.c:24-30 | marks exactly the interior trees of the row taller than every tree to their left |
| Trees.ScanFromRight | 08/trees.c:31-37 | the same from the right |
| Trees.ScanFromTop | 08/trees.c:41-47 | the same from the top of a column |
| Trees.ScanFromBottom | 08/trees.c:48-54 | the same from the bottom |
| Trees.ScanRows | 08/trees.c:23-38 | after the row scans, a cell is marked exactly when a row scan marks it |
| Trees.ScanColumns | 08/trees.c:40-55 | after the column scans, a cell is marked exactly when it is an interior tree visible from some edge |
| Trees.CountMarked | 08/trees.c:58-62 | the number of marked interior cells |
| Trees.CountMarkedInRow | 08/trees.c:59-61 | the number of marked cells in one interior row |
| Trees.CountRow | 08/trees.c:59-61 | at most the number of interior cells of the row |
| Trees.CountBounds | 08/trees.c:57-64 | the count lies between 2 (H + W) - 4 and H W |
| Trees.ViewCount | 08/trees.c:71-75 | the count in one direction is at most the distance to the edge |
| Trees.ViewCountMeaning | 08/trees.c:71-75 | every tree before the last one counted lets the view pass; the last blocks it unless it is at the edge |
| Trees.LookUp | 08/trees.c:69-75 | the upward count |
| Trees.LookLeft | 08/trees.c:78-84 | the leftward count |
| Trees.LookDown | 08/trees.c:87-93 | the downward count |
| Trees.LookRight | 08/trees.c:96-102 | the rightward count |
| Trees.ScenicScore | 08/trees.c:67-106 | the product of the four directional counts |
| Trees.BorderScoresZero | 08/trees.c:105 | a tree on the border scores 0 |
| Trees.InteriorViewBounds | 08/trees.c:69-102 | an interior tree sees between one tree and the distance to the edge in each direction |
| Trees.BestScenicScore | 08/trees.c:108-117 | the largest score over all cells: no score exceeds it, and it is 0 or some cell's score |
| FileSystem.PreOrder | 07/FileSystem.cpp:42-47 | a traversal starts with the directory itself and stays inside the arena after it |
| FileSystem.FirstNamed | 07/FileSystem.cpp:20-25 | -1 exactly when no child has the name; otherwise the first child with the name |
| FileSystem.FileTree.constructor | 07/FileSystem.cpp:119 | the tree is the root "/" alone, without parent, children or files |
| FileSystem.FileTree.GetChild | 07/FileSystem.cpp:20-25 | the first child with the name, or -1 for `nullptr` |
| FileSystem.FileTree.GetSize | 07/FileSystem.cpp:27-33 | the directory's own files plus the sizes of its children |
| FileSystem.FileTree.AddFile | 07/FileSystem.cpp:35 | the directory's files grow by s; the arena stays a tree |
| FileSystem.FileTree.AddSubDir | 07/FileSystem.cpp:37-40 | a new empty child at the end of the children, with this directory as parent; the arena stays a tree |
| FileSystem.AddFileSizes | 07/FileSystem.cpp:27-35 | `add_file(s)` raises the size of the directory and of each ancestor by exactly s, and no other size |
| FileSystem.AddSubDirSizes | 07/FileSystem.cpp:37-40 | `add_sub_dir` changes no existing size, and the new directory has size 0 |
| FileSystem.SubDirKeepsTree | 07/FileSystem.cpp:37-40 | adding a subdirectory keeps parent and child links in agreement |
| FileSystem.SizeIsFileSum | 07/FileSystem.cpp:27-33 | a directory's size is the sum of the files of the directories its traversal visits |
| FileSystem.TraverseVisitsAllOnce | 07/FileSystem.cpp:42-47 | the traversal from the root visits every directory exactly once |
| FileSystem.Occurrences | 07/FileSystem.cpp:42-47 | a directory occurs in the traversal of `j` once if `j` is it or an ancestor, otherwise never |
| FileSystem.AncestorByChild | 07/FileSystem.cpp:42-47 | `j` is an ancestor of `x` exactly when it is `x` or one of its children leads to `x`, never both |
| FileSystem.RootAncestor | 07/FileSystem.cpp:119 | the root is an ancestor of every directory |
| FileSystem.SizeBelowRoot | 07/FileSystem.cpp:27-33 | no directory is larger than the root |
| FileSystem.ChildSizeBelow | 07/FileSystem.cpp:27-33 | no child is larger than its parent |
| FileSystem.FileLineMeaning | 07/FileSystem.cpp:99-102 | a listing line is a file exactly when it is a number, one space and a name, and the file's size is that number |
| FileSystem.CommandLine | 07/FileSystem.cpp:123 | a recognised command is `ls` or `cd` |
| FileSystem.CommandLineOf | 07/FileSystem.cpp:123 | a command line as typed is read back |
| FileSystem.DirLine | 07/FileSystem.cpp:124 | a recognised directory line names a valid directory |
| FileSystem.LinesRecognized | 07/FileSystem.cpp:123-125 | the commands, directory lines and file lines of a session are recognised, with their size |
| FileSystem.LinesRejected | 07/FileSystem.cpp:123 | `$ cd` alone asks for the empty name; other commands and a trailing space do not match |
| FileSystem.Scanner.constructor | 07/FileSystem.cpp:119-122 | a root named "/" without parent, the working directory at the root, mode INIT |
| FileSystem.Scanner.Process | 07/FileSystem.cpp:62-67 | INIT leaves the tree alone and takes a command step; LS takes a listing step |
| FileSystem.Scanner.InitState | 07/FileSystem.cpp:72-87 | `ls` switches to LS, `cd` moves, anything else throws |
| FileSystem.Scanner.LsState | 07/FileSystem.cpp:89-105 | a `$` line returns to INIT and is re-read; `dir x` adds a subdirectory; `<n> name` adds n bytes; anything else throws |
| FileSystem.Scanner.Cd | 07/FileSystem.cpp:107-117 | "/" goes to the root, ".." to the parent, a name to the first matching child or throws |
| FileSystem.SubSizeT | 07/FileSystem.cpp:145 | `size_t` subtraction stays in range and is exact without wrap-around |
| FileSystem.MinAtLeast | 07/FileSystem.cpp:146-149 | the smallest size at least `diff` and below the start value, or the start value |
| FileSystem.Result2Attained | 07/FileSystem.cpp:144-149 | result 2 is SIZE_T_MAX or the size of a directory of at least the space needed |
| FileSystem.Result2Minimal | 07/FileSystem.cpp:144-149 | no directory of at least the space needed is smaller than result 2 |
| FileSystem.Result2WhenRoomSuffices | 07/FileSystem.cpp:145 | with enough room already, the subtraction wraps and result 2 is SIZE_T_MAX |
| FileSystem.Result1CountsEachOnce | 07/FileSystem.cpp:137-142 | result 1 adds up the size of every directory of at most 100000, each exactly once |
| Hill.Height | 12/HillClimbing.cpp:23-24 | the start is stored as 'a' and the end as 'z'; other heights as read |
| Hill.Vertices | 12/HillClimbing.cpp:18-28 | no vertex is S or E, and there are no more vertices than characters |
| Hill.LastMarker | 12/HillClimbing.cpp:23-24 | -1, or the index of a vertex stored as the marker's height: 'a' for S, 'z' for E |
| Hill.MarkerStep | 12/HillClimbing.cpp:23-24 | one more character moves the marker to the new vertex exactly when it is the marker letter |
| Hill.ReadStep | 12/HillClimbing.cpp:18-28 | one more character adds a vertex, or sets the field width at the first newline after a vertex |
| Hill.HillClimbingAlgorithm.ReadVertices | 12/HillClimbing.cpp:17-28 | the vertices, the width of the first row, the last S and E positions, and an empty edge set per vertex |
| Hill.HillClimbingAlgorithm.AddEdges | 12/HillClimbing.cpp:30-48 | every vertex gets exactly the edges of its climbable grid neighbours; `out_of_range` is thrown exactly when the vertex count is not a multiple of the width |
| Hill.HillClimbingAlgorithm.ReadGraph | 12/HillClimbing.cpp:14-49 | the vertices, the width, the markers and the edge sets of `read_graph`; it throws `out_of_range` exactly when the vertex count is not a multiple of the width |
| Hill.HillClimbingAlgorithm.constructor | 12/HillClimbing.cpp:103-108 | no vertices, edges or parents, field width 0, and `start` and `end` at vertex 0 as the value-initialising `HillClimbingAlgorithm()` leaves them |
| Hill.ClimbableNeighbours | 12/HillClimbing.cpp:31-48 | the edges of one vertex, and whether `vertices.at(right)` stays in range: it does not exactly for a last vertex that is not at the end of its row |
| Hill.LastRightInRange | 12/HillClimbing.cpp:44-47 | the last vertex has a column to its right exactly when the vertex count is not a multiple of the width |
| Hill.EdgeSet | 12/HillClimbing.cpp:31-48 | every edge out of a vertex goes to another vertex of the grid at most one higher |
| Hill.EdgeMeaning | 12/HillClimbing.cpp:31-48 | an edge goes exactly to an up, down, left or right neighbour, never across rows, at most one higher |
| Hill.EdgeIsNeighbour | 12/HillClimbing.cpp:31-48 | every edge goes to a climbable grid neighbour |
| Hill.NeighbourIsEdge | 12/HillClimbing.cpp:31-48 | every climbable grid neighbour is an edge |
| Hill.Horizontal | 12/HillClimbing.cpp:40-47 | left and right neighbours are the next index in the same row only |
| Hill.Vertical | 12/HillClimbing.cpp:32-39 | the neighbour below is `w` further on |
| Hill.DownGuardOneRow | 12/HillClimbing.cpp:36 | on a one-row grid the guard as written lets vertex 0 look below the grid |
| Hill.DownGuardAgrees | 12/HillClimbing.cpp:36 | on two rows or more the guard as written is `i + w < n` |
| Hill.Ascending | 12/HillClimbing.cpp:92 | `std::set<int>` yields its members in increasing order |
| Hill.Expand | 12/HillClimbing.cpp:90-99 | one pass of the outer loop keeps the search invariant and discovers something or shrinks the queue |
| Hill.Search | 12/HillClimbing.cpp:80-100 | the queue loop of `bfs` on a graph: the start has no parent; every parent link is an edge; depths are distances from the start where the end is reached |
| Hill.HillClimbingAlgorithm.Bfs | 12/HillClimbing.cpp:78-101 | stores the result of `Hill.Search` on its own edges, start and end in `parent`: the start has no parent; every parent link is an edge; depths are distances from the start where the end is reached |
| Hill.HillClimbingAlgorithm.FindShortestPath | 12/HillClimbing.cpp:53-63 | INT_MAX when the end is the start or unreachable, otherwise the length of a shortest path |
| Hill.HillClimbingAlgorithm.FindShortestPathFromAnyA | 12/HillClimbing.cpp:65-75 | INT_MAX or a distance from some 'a'; never more than the steps any 'a' needs; afterwards `start` is the last 'a' and `parent` holds that search, or both are unchanged when there is no 'a' |
| Hill.Layered | 12/HillClimbing.cpp:89-100 | until the end is found, a vertex reachable in k steps is discovered no deeper than k, or k is beyond the queue's head |
| Hill.DiscoverLinks | 12/HillClimbing.cpp:93-97 | discovering a successor keeps the parent tree, and its depths stay reachable |
| Hill.DiscoverEnd | 12/HillClimbing.cpp:93-98 | the end, discovered from `u`, is no nearer than one level below `u` |
| Hill.DistanceUnique | 12/HillClimbing.cpp:51-52 | a shortest distance is unique |
| Hill.DistanceAtMost | 12/HillClimbing.cpp:51-52 | a shortest distance is no more than any number of steps that reaches |
| Hill.ReachGrows | 12/HillClimbing.cpp:51-52 | more steps reach at least as much |
| Monkeys.FromChar | 11/Day11.java:46-53 | exactly '+', '-', '*' and '/' are accepted, each for its own operation; anything else is IllegalArgumentException |
| Monkeys.FromCharSymbol | 11/Day11.java:46-53 | each operation is read back from its symbol |
| Monkeys.Apply | 11/Day11.java:29-37 | fails exactly on a null operand or division by zero; otherwise gives a number |
| Monkeys.Evaluate | 11/Day11.java:29-37 | an operation that evaluates gives a number |
| Monkeys.EvaluateLocal | 11/Day11.java:58-68 | the value depends only on the bindings of the expression's own variables; a scalar ignores the bindings |
| Monkeys.EvaluateTotal | 11/Day11.java:29-37 | without division, and with every variable bound, evaluation gives a number |
| Monkeys.Inspect | 11/Day11.java:103-115 | the relieved level is the operation's value divided by 3, truncated; it goes to `recipients[0]` exactly when divisible |
| Monkeys.Monkey.ThrowItem | 11/Day11.java:103-108 | null from an empty queue with the counter unchanged; otherwise the front item leaves, the counter goes up by one, and the throw follows `Inspect` |
| Monkeys.Monkey.CatchItem | 11/Day11.java:111 | the item joins the back of the queue |
| Monkeys.Monkey.constructor | 11/Day11.java:96-101 | the given queue and rules, with no inspection counted |
| Monkeys.Monkey.FromString | 11/Day11.java:131-138 | a fresh monkey with the parsed items and rules, or the parse's exception |
| Monkeys.Numbers | 11/Day11.java:142-147 | at most one number per character of the line |
| Monkeys.NumbersEmpty | 11/Day11.java:171-172 | the search for `\d+` finds nothing exactly when the line has no digit |
| Monkeys.NumbersAfter | 11/Day11.java:143-146 | the first number after digit-free text is found whole, and the search goes on after it |
| Monkeys.ParseItems | 11/Day11.java:140-149 | a line with the prefix gives at most one non-negative level per character; any other line is IllegalArgumentException |
| Monkeys.ParseOperation | 11/Day11.java:151-159 | an accepted line has the prefix and gives one operation on `old` or written numbers; anything else is IllegalArgumentException |
| Monkeys.ParseTest | 11/Day11.java:161-167 | an accepted line is the prefix followed by one digit or more and nothing else; anything else is IllegalArgumentException |
| Monkeys.ParseRecipients | 11/Day11.java:169-178 | both recipients are non-negative; a failure is IllegalArgumentException |
| Monkeys.ParseMonkey | 11/Day11.java:131-138 | a text of one line or none lacks `lines[1]`; a monkey that is read has no inspection yet, and its items, operation, divisor and recipients come from lines 1, 2, 3, 4 and 5 |
| Monkeys.ParseItemsRender | 11/Day11.java:140-149 | a starting-items line written as the puzzle input writes it reads back as its worry levels, in order |
| Monkeys.ParseItemsRejects | 11/Day11.java:141 | `parseItems` throws exactly when the line lacks the prefix |
| Monkeys.OperandOfRender | 11/Day11.java:156-157 | a written number is read back as that scalar |
| Monkeys.ParseOperationRender | 11/Day11.java:151-159 | "new = <lhs> <op> <rhs>" reads back as that operation, for every operator and accepted operands |
| Monkeys.ParseOperationRejects | 11/Day11.java:152-154 | a line without the prefix, or with a left operand that is neither `old` nor a number, throws IllegalArgumentException |
| Monkeys.ParseTestRender | 11/Day11.java:161-167 | "divisible by <n>" reads back as divisor n |
| Monkeys.ParseTestRejects | 11/Day11.java:162-164 | a missing divisor, or text after it, throws, since the whole line must match |
| Monkeys.ParseRecipientsRender | 11/Day11.java:169-178 | each recipient is the first number of its line |
| Monkeys.ParseRecipientsRejects | 11/Day11.java:169-178 | `parseRecipients` throws exactly when one of the lines has no digit |
| Monkeys.Step | 11/Day11.java:75-76 | one throw: the thrower loses its front item and counts it; the recipient gains it at the back; nothing else changes; or the exception, with the item already gone |
| Monkeys.Turn | 11/Day11.java:74-77 | a turn keeps every monkey's rules and throws at most `fuel` items; one that ends without an exception leaves the monkey's queue empty |
| Monkeys.Turns | 11/Day11.java:73-78 | the turns from a given monkey on keep every monkey's rules; there is at most one turn per remaining monkey, and exactly one each when nothing is raised |
| Monkeys.Round | 11/Day11.java:72-79 | a round keeps every monkey's rules and, when nothing is raised, has one turn per monkey |
| Monkeys.TurnFuel | 11/Day11.java:74-77 | more fuel changes nothing about a turn that has ended |
| Monkeys.TurnEnds | 11/Day11.java:74-77 | when no monkey names itself as a recipient, a turn given as many throws as the monkey holds items ends, and the monkey catches none of its own throws |
| Monkeys.TurnsEnd | 11/Day11.java:73-78 | without self-throws, the turns from any monkey on end when each may throw as many items as all the monkeys hold |
| Monkeys.RoundEnds | 11/Day11.java:72-79 | without self-throws, a round ends when each turn may throw as many items as all the monkeys hold |
| Monkeys.SelfThrowEnds | 11/Day11.java:74-77 | a monkey that throws an item back to itself can still finish its turn: with `new = old + 3`, `divisible by 2` and recipients 0 and 1, the item 4 is thrown to monkey 0 as 2, then to monkey 1 as 1 |
| Monkeys.SelfThrowLoops | 11/Day11.java:74-77 | a monkey whose every throw goes back to itself never finishes its turn, however many throws it is given |
| Monkeys.TurnEmptiesQueue | 11/Day11.java:74-77 | a completed turn empties the monkey's queue, counts each item once, and appends each thrown item to its recipient in order |
| Monkeys.RoundBookkeeping | 11/Day11.java:72-79 | each monkey ends holding what later monkeys threw it; it inspected its own items plus what earlier monkeys threw it this round |
| Monkeys.TurnsBookkeeping | 11/Day11.java:73-78 | the same, for the turns from any monkey on |
| Monkeys.StepConserves | 11/Day11.java:75-76 | a throw moves an item without losing or creating one |
| Monkeys.TurnConserves | 11/Day11.java:74-77 | a turn keeps the number of items |
| Monkeys.RoundConserves | 11/Day11.java:72-79 | a round keeps the number of items |
| Monkeys.Engine.AddMonkey | 11/Day11.java:90 | a monkey read from the text joins the end of the list; on an exception the list is unchanged |
| Monkeys.Engine.ThrowOnce | 11/Day11.java:75-76 | the monkeys' states after one throw are those of `Step` |
| Monkeys.Engine.TakeTurn | 11/Day11.java:74-77 | the monkeys' states after a turn that ends within `fuel` throws are those of `Turn`, with its exception if it raises one |
| Monkeys.Engine.PlayRound | 11/Day11.java:72-79 | the monkeys' states after a round whose turns end within `fuel` throws each are those of `Round`, with its exception if it raises one |
| Monkeys.Engine.GetMonkeyBusiness | 11/Day11.java:81-88 | 1 with no monkey, the one counter with a single monkey, and otherwise the largest counter times the largest of the others |
| Monkeys.Engine.constructor | 11/Day11.java:93 | the list of monkeys starts empty |
| Monkeys.Engine.States | 11/Day11.java:93 | one state per monkey in the list, in order |
| Monkeys.SortDescending | 11/Day11.java:85 | the counts sorted largest first, a rearrangement of them |
| Monkeys.BusinessOfFew | 11/Day11.java:81-88 | monkey business is 1 with no monkey and the single count with one |
| Monkeys.BusinessOfTopTwo | 11/Day11.java:81-88 | with two monkeys or more it is the largest count times the largest of the others |
| Monkeys.SortedProduct | 11/Day11.java:85-87 | it is the product of the first two counts in descending order |
| Monkeys.Max | 11/Day11.java:85 | the largest count is among the counts and no count exceeds it |
| Monkeys.RemoveOne | 11/Day11.java:86 | the counts without one occurrence of the value |

## Left out

- File reading, the `main` drivers and all console output: the modules take lines or strings as parameters. This covers the input loops of 05/CargoSpace.cpp:14-33 and 01/CountingCalories.kt:1-10, the 20 rounds of 11/Day11.java:191-196, and the final extra tick of 10/Day10.java:112.
- Debug printing: `printf` inside `scenic_score`, `toString` and `showMonkeys` of the monkeys, and the `cerr` message of `execute_move`. The off-screen `println` of `drawPixel` is modelled only as "the screen is unchanged".
- Regular expressions: each pattern is modelled as a small recogniser of the same language over the characters it can meet. Unicode classes are left out: `\d` and `\w` are ASCII only, and so are Python's `int()`, which also accepts `_` separators that are not modelled, and Java's `Integer.parseInt` (10/Day10.java:16 and 10/Main.java:9), which also accepts non-ASCII Unicode digits; in 11/Day11.java the numbers reach `parseLong` through Java's ASCII-only `\d`.
- Machine integers: Java `int`/`Long` and Kotlin `Int` wrap-around, C `char` heights, and numbers too large for `parseInt`/`parseLong`/`stoi`/`sscanf` are all modelled as unbounded integers. Exception: `size_t` arithmetic is modelled modulo 2^64 in result 2 of 07/FileSystem.cpp:145 and in the down guard of 12/HillClimbing.cpp:36.
- Java `Long` boxing is modelled only where `null` can arise: an unbound variable in an expression.
- Undefined behaviour of the C++ sources becomes a precondition:
  - in a move (`Cargo.MoveDefined`): a one-at-a-time move that calls `back()` on an empty stack, which happens when `from` is empty at the first crate or runs dry while giving crates to another existing stack (`Cargo.OneByOneDefined`); and a bulk move from an existing stack of more crates than it holds, or onto itself (`Cargo.BulkDefined`). A stack number out of range is not undefined: `at` throws `out_of_range`, and the model returns that outcome;
  - data shorter than the window (`DataStream.Stream.FindFirstUniqueWindow`);
  - `cd ..` at the root (`FileSystem.CdUpAtRoot`). The source only sets the working directory to `nullptr` there; the undefined dereference comes with a later `cd <name>` or listing line, and a later `cd /` would recover. The model has no null working directory, so it excludes the `cd ..` itself, a stronger precondition than the source needs;
  - a height map with a vertex but no newline after one, where `i % field_width` divides by a zero width (`Hill.HillClimbingAlgorithm.ReadGraph`);
  - a search on an empty height map, where `discovered[start]` indexes an empty vector (`Hill.HillClimbingAlgorithm.Bfs`).
- Hill.HillClimbingAlgorithm.ReadGraph: a one-row map throws `out_of_range` in the source, from the down guard at 12/HillClimbing.cpp:36-38 (see Findings); the model builds the intended edges there instead, with no down neighbour. A map whose vertex count is not a multiple of the width throws from `vertices.at(right)` at line 46, and the model returns that error.
- Calories.ToIntOrNull: Kotlin's `toIntOrNull` returns `null` for a number outside the 32-bit `Int` range and accepts non-ASCII digits; the model reads any ASCII digit string after an optional sign as its unbounded value and gives `None` for anything else, so an out-of-range line, which the source treats as a blank line closing a group, is a number here.
- Monkeys.Engine.TakeTurn: a turn in which a monkey keeps throwing to itself never ends in the source; a method must end, so `TakeTurn` and `PlayRound` require the turn (the round) to end within `fuel` throws per turn, and `Turn` and `Round` give `None` otherwise (`SelfThrowLoops` shows such a turn, `SelfThrowEnds` a self-throw that ends).
- Monkeys.Monkey.ThrowItem: the test is modelled by its parsed divisor, since `parseTest` only ever builds `x % divisor == 0`.
- Monkeys.Engine.GetMonkeyBusiness: the `Long` product may overflow in Java, which is not modelled.
- Day10.Crt.OnCycle: requires a non-negative cycle, which is all the CPU reports; a negative one would make the array index throw.
- Calories.NGreatest: the generic element type is modelled as `int`.
- Raw pointers, `new`/`delete` and the destructors of 07/FileSystem.cpp: the directories are an arena of records with parent and child indices.
- FileSystem.FileLine: the pattern `(\d+) [\w.-]+` is recognised, but a size too large for `%zu` is not modelled.

## Findings

| source | as written | input that shows it | evidently intended | confidence | as-written member | corrected member |
|---|---|---|---|---|---|---|
| 12/HillClimbing.cpp:36 | `i <= vertices.size() - field_width - 1` is computed in `size_t`; with one row the right side wraps to SIZE_T_MAX, so the guard holds for every vertex | the one-row map "ab\n": vertex 0 looks down at index 2, and `vertices.at(2)` throws `out_of_range` | a down neighbour exists exactly when `i + field_width < vertices.size()` | not executed | Hill.DownGuardOneRow | Hill.ClimbableNeighbours |
