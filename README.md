# Advent of Code solvers, modelled in Dafny

This project models the puzzle solvers of the advent-of-code repository:
- the 2021 days 1 to 4 in Rust and C++;
- the 2022 days 1 to 12 in Rust;
- the 2023 days 1 to 4 in Rust;
- the 2024 days 1 to 7 in Python.

Each solver file has its own module, for example `KeepAway` for the 2022 day 11 monkeys and `GiantSquid` for the 2021 bingo. Two shared modules hold the string and number handling the solvers rely on:
- `Text`: digits, `parse`, `split`, `split_whitespace`, `lines` and `trim`;
- `Arith`: sums, products and maxima.

How the source is turned into Dafny:
- Code that updates objects in place becomes a class whose methods name what they modify. These include the monkeys and the game, the rope and its knots, the CPU and the CRT, the height map, the guard, the bingo boards, the submarines and the C++ diagnostic processor.
- Each such method is proved against a specification function on values.
- Loops become `while` or `for` loops with their invariants.
- Expression code becomes functions and lemmas.
- A panic (`unwrap`, out-of-range indexing, `u32` overflow where the code checks it), a raised exception or a C++ `throw` is modelled as `None` or an error variant. It is never excluded by a precondition, except where a line under "## Left out" says so.

Beyond each operation's contract, the model proves properties that relate operations to each other:
- round trips between printing and parsing;
- conservation of items between monkeys and of crates between stacks;
- the idempotence of marking a bingo number;
- the equivalence of the Rust and C++ variants of the same puzzle;
- the puzzles' own claims, such as "the window increases are the increases between measurements three apart".

## Model

| member | source | states |
|---|---|---|
| CalorieCounting.FindFrom | 2022/rust/advent_of_code/src/day1/src/main.rs:38 | the first place at or after `start` where the separator occurs, and no earlier one; `None` when it occurs nowhere after `start` |
| CalorieCounting.SplitStr | 2022/rust/advent_of_code/src/day1/src/main.rs:38 | splitting at a separator always yields at least one part |
| CalorieCounting.JoinSplitStr | 2022/rust/advent_of_code/src/day1/src/main.rs:38 | joining the parts with the separator gives the string back |
| CalorieCounting.SplitStrCuts | 2022/rust/advent_of_code/src/day1/src/main.rs:38 | every part but the last runs up to the first separator after it, and the last part holds no separator |
| CalorieCounting.SplitStrUnique | 2022/rust/advent_of_code/src/day1/src/main.rs:38 | any parts that join to the string and are cut at each first separator, with none in the last, are exactly the split |
| CalorieCounting.ElfInventories | 2022/rust/advent_of_code/src/day1/src/main.rs:37-39 | the inventory cut at each first blank line: at least one block, the blocks joined by blank lines are the inventory, every block but the last runs up to the first blank line after it, and the last block holds none |
| CalorieCounting.CaloriesOfIsSum | 2022/rust/advent_of_code/src/day1/src/main.rs:41-45 | an elf's calories are the sum of its lines, and the fold panics exactly when a line is not a `u32` |
| CalorieCounting.ReduceIsFold | 2022/rust/advent_of_code/src/day1/src/main.rs:25-45 | the second form's `reduce` gives the same total, and the same panics, as `get_elf_calories` |
| CalorieCounting.BlockRoundTrip | 2022/rust/advent_of_code/src/day1/src/main.rs:41-45 | a block written from numbers that fit in a `u32` totals their sum |
| CalorieCounting.ElfCaloriesExample | 2022/rust/advent_of_code/src/day1/src/main.rs:58-62 | "1000\n2000\n3000" totals 6000 |
| CalorieCounting.TotalsOf | 2022/rust/advent_of_code/src/day1/src/main.rs:8-11 | one total per block, in order, each the calories of that block |
| CalorieCounting.ElfTotals | 2022/rust/advent_of_code/src/day1/src/main.rs:7-11 | the trimmed input has at least one elf |
| CalorieCounting.PartOne | 2022/rust/advent_of_code/src/day1/src/main.rs:14 | part one fails exactly when a total fails, and is otherwise one of the totals and at least all of them |
| CalorieCounting.Insert | 2022/rust/advent_of_code/src/day1/src/main.rs:18 | inserting into a list sorted from the largest down keeps it so and adds exactly that element |
| CalorieCounting.SortDescending | 2022/rust/advent_of_code/src/day1/src/main.rs:18 | the reverse sort is in descending order and a permutation of the totals |
| CalorieCounting.SortedStartsWithMax | 2022/rust/advent_of_code/src/day1/src/main.rs:14-18 | the first of the sorted totals is the largest |
| CalorieCounting.PartTwo | 2022/rust/advent_of_code/src/day1/src/main.rs:16-19 | part two needs at least three elves; with fewer the slice panics |
| CalorieCounting.TopThreeDominate | 2022/rust/advent_of_code/src/day1/src/main.rs:18-19 | no elf past the first three carries more than any of the three |
| StrategyGuide.ShapeScore | 2022/rust/advent_of_code/src/day2/src/main.rs:28-33 | a shape scores 1 to 3, an unknown hand 0 and only that |
| StrategyGuide.OutcomeScore | 2022/rust/advent_of_code/src/day2/src/main.rs:35 | the outcome scores 0, 3 or 6, and 3 exactly when the hands are equal |
| StrategyGuide.OutcomeOfKnownHands | 2022/rust/advent_of_code/src/day2/src/main.rs:35 | between shapes a draw scores 3, beating the opponent 6 and otherwise 0, when the opponent beats the player |
| StrategyGuide.HandsOf | 2022/rust/advent_of_code/src/day2/src/main.rs:22-24 | each word reads as the hand of its first character; an empty word panics |
| StrategyGuide.EvaluateGame | 2022/rust/advent_of_code/src/day2/src/main.rs:21-38 | a game scores at most 9 |
| StrategyGuide.EvaluateGameOfLetters | 2022/rust/advent_of_code/src/day2/src/main.rs:21-38 | a line of two letters scores the player's shape plus the outcome against the opponent |
| StrategyGuide.HandsOfPair | 2022/rust/advent_of_code/src/day2/src/main.rs:22-26 | two non-empty words read as the hands of their first letters |
| StrategyGuide.RockAgainstPaper | 2022/rust/advent_of_code/src/day2/src/main.rs:46-47 | "A Y" scores 8 |
| StrategyGuide.PaperAgainstRock | 2022/rust/advent_of_code/src/day2/src/main.rs:49-50 | "B X" scores 1 |
| StrategyGuide.ScissorsAgainstScissors | 2022/rust/advent_of_code/src/day2/src/main.rs:52-53 | "C Z" scores 6 |
| StrategyGuide.Scores | 2022/rust/advent_of_code/src/day2/src/main.rs:14-15 | one score per game, in order |
| StrategyGuide.SumScoresAtMost | 2022/rust/advent_of_code/src/day2/src/main.rs:17 | the sum of scores of at most 9 is at most 9 per game |
| StrategyGuide.SumScoresConcat | 2022/rust/advent_of_code/src/day2/src/main.rs:17 | the fold splits over concatenated lists of games |
| StrategyGuide.SumScores | 2022/rust/advent_of_code/src/day2/src/main.rs:17 | the fold fails exactly when the score of some game failed |
| StrategyGuide.TotalScore | 2022/rust/advent_of_code/src/day2/src/main.rs:14-18 | the total never exceeds 9 per game |
| StrategyGuide.PartOne | 2022/rust/advent_of_code/src/day2/src/main.rs:14-18 | the total of the trimmed input's lines fails exactly when some line's game panics, and is at most 9 per line |
| Hands.HandFrom | 2022/rust/advent_of_code/src/day2/src/game.rs:12-21 | a letter is unknown exactly when it is not one of `ABCXYZ`, and an unknown hand keeps that letter as its name |
| Hands.OpponentLetter | 2022/rust/advent_of_code/src/day2/src/game.rs:15-17 | each shape has an opponent's letter among `A`, `B`, `C` |
| Hands.PlayerLetter | 2022/rust/advent_of_code/src/day2/src/game.rs:15-17 | each shape has a player's letter among `X`, `Y`, `Z` |
| Hands.HandFromLetters | 2022/rust/advent_of_code/src/day2/src/game.rs:12-21 | both letters of a shape read back as that shape |
| Hands.Beater | 2022/rust/advent_of_code/src/day2/src/game.rs:23-53 | every shape is beaten by another shape, never by itself |
| Hands.PartialCmp | 2022/rust/advent_of_code/src/day2/src/game.rs:23-53 | the comparison is undefined exactly when a hand is unknown, and `Equal` exactly for two equal shapes |
| Hands.PartialCmpIsTheRule | 2022/rust/advent_of_code/src/day2/src/game.rs:23-53 | a shape is greater exactly when it beats the other one and less exactly when it is beaten |
| Hands.PartialCmpSwap | 2022/rust/advent_of_code/src/day2/src/game.rs:23-53 | swapping the hands reverses the ordering and keeps it undefined where it was |
| Hands.OneOfTwoWins | 2022/rust/advent_of_code/src/day2/src/game.rs:23-53 | of two different shapes exactly one is greater than the other |
| Rucksacks.NewRucksack | 2022/rust/advent_of_code/src/day3/src/main.rs:9-15 | the two compartments put back together are the items; the first holds half the items rounded down, the second at most one more |
| Rucksacks.Shared | 2022/rust/advent_of_code/src/day3/src/main.rs:17-24 | a character is listed exactly when it is in both compartments, and none twice (the set) |
| Rucksacks.SharedItems | 2022/rust/advent_of_code/src/day3/src/main.rs:17-24 | the shared items of a rucksack are exactly the characters of both compartments, each once |
| Rucksacks.Priority | 2022/rust/advent_of_code/src/day3/src/main.rs:42-48 | lower-case letters score 1 to 26, upper-case 27 to 52, and the subtraction panics exactly for characters below `A` |
| Rucksacks.ItemOfPriority | 2022/rust/advent_of_code/src/day3/src/main.rs:42-48 | each priority from 1 to 52 belongs to a lower-case letter up to 26 and an upper-case one above |
| Rucksacks.PriorityOfItemOfPriority | 2022/rust/advent_of_code/src/day3/src/main.rs:42-48 | the letter of a priority has that priority |
| Rucksacks.ItemOfPriorityOfItem | 2022/rust/advent_of_code/src/day3/src/main.rs:42-48 | a letter is the letter of its priority, so priorities tell letters apart |
| Rucksacks.PrioritySumConcat | 2022/rust/advent_of_code/src/day3/src/main.rs:36 | the fold of priorities splits over concatenation |
| Rucksacks.PrioritySum | 2022/rust/advent_of_code/src/day3/src/main.rs:36-48 | the fold of priorities fails exactly when some item lies below `A`, where `get_item_priority` underflows |
| Rucksacks.PrioritySumRemove | 2022/rust/advent_of_code/src/day3/src/main.rs:36 | any one item's priority can be taken out of the fold first |
| Rucksacks.PrioritySumPermutation | 2022/rust/advent_of_code/src/day3/src/main.rs:21-36 | the sum does not depend on the order the hash set yields the items in |
| Rucksacks.SharedSumOrderFree | 2022/rust/advent_of_code/src/day3/src/main.rs:17-36 | any duplicate-free listing of the shared characters sums to the same priority as the model's |
| Rucksacks.TotalPriorityConcat | 2022/rust/advent_of_code/src/day3/src/main.rs:33-39 | the total over the rucksacks splits over consecutive groups of lines |
| Rucksacks.RucksackPriority | 2022/rust/advent_of_code/src/day3/src/main.rs:31-36 | a line's priority fails exactly when a character below `A` is in both halves of the line |
| Rucksacks.TotalPriority | 2022/rust/advent_of_code/src/day3/src/main.rs:33-39 | the total fails exactly when some line's priority fails |
| Rucksacks.PartOne | 2022/rust/advent_of_code/src/day3/src/main.rs:31-39 | part one over the trimmed input's lines fails exactly when some line's priority fails |
| Rucksacks.PrioritySumOfLetters | 2022/rust/advent_of_code/src/day3/src/main.rs:36-48 | items that are all letters have a priority sum, at most 52 per item |
| Rucksacks.SharedSingle | 2022/rust/advent_of_code/src/day3/src/main.rs:17-24 | when exactly one character is in both compartments the shared items are that character alone |
| Rucksacks.SampleRucksack | 2022/rust/advent_of_code/src/day3/src/main.rs:55-59 | the sample line splits into "vJrwpWtwJgWr" and "hcsFMMfFFhFp" |
| Rucksacks.SampleShared | 2022/rust/advent_of_code/src/day3/src/main.rs:67-74 | the sample rucksack shares only `p` |
| CampCleanup.LowTwo | 2022/rust/advent_of_code/src/day4/src/main.rs:21 | the stable sort by length puts first the shortest range, the earliest among equals, and second the shortest of the others |
| CampCleanup.Range | 2022/rust/advent_of_code/src/day4/src/main.rs:36 | `lo..hi + 1` holds every number from `lo` to `hi` in order, and nothing when `lo > hi` |
| CampCleanup.InRange | 2022/rust/advent_of_code/src/day4/src/main.rs:36 | a number is in the range exactly when it lies between its ends |
| CampCleanup.ElfSector | 2022/rust/advent_of_code/src/day4/src/main.rs:32-37 | a parsed assignment is never empty |
| CampCleanup.ElfSectorOfEnds | 2022/rust/advent_of_code/src/day4/src/main.rs:32-37 | an assignment of two numbers is the range between the smaller and the larger, whichever is written first |
| CampCleanup.ParseU32sPair | 2022/rust/advent_of_code/src/day4/src/main.rs:33 | two numbers that parse parse as a pair |
| CampCleanup.ElfSectorOfPair | 2022/rust/advent_of_code/src/day4/src/main.rs:32-37 | a written `a-b` reads as the range from the smaller to the larger |
| CampCleanup.ShowNatHasNoDash | 2022/rust/advent_of_code/src/day4/src/main.rs:33 | a written number holds no dash, so `a-b` splits into its two numbers |
| CampCleanup.ElfSectorEndsCommute | 2022/rust/advent_of_code/src/day4/src/main.rs:34 | sorting makes `a-b` and `b-a` the same range |
| CampCleanup.ElfSectorExample | 2022/rust/advent_of_code/src/day4/src/main.rs:43-48 | "2-4" is the sections 2, 3 and 4 |
| CampCleanup.ContainedIff | 2022/rust/advent_of_code/src/day4/src/main.rs:24 | one non-empty range lies in another exactly when its ends lie between the other's ends |
| CampCleanup.Lengths | 2022/rust/advent_of_code/src/day4/src/main.rs:21 | the sort key is each range's length |
| CampCleanup.ElfSectors | 2022/rust/advent_of_code/src/day4/src/main.rs:15-17 | every comma-separated assignment goes through `get_elf_sector`, in order; one panic fails the line |
| CampCleanup.FullyContainsPair | 2022/rust/advent_of_code/src/day4/src/main.rs:19-26 | for two ranges the shorter one is checked against the longer, the first when they are as long |
| CampCleanup.FullyContainsRanges | 2022/rust/advent_of_code/src/day4/src/main.rs:19-26 | a line of two ranges counts exactly when one of them lies within the other |
| CampCleanup.Verdicts | 2022/rust/advent_of_code/src/day4/src/main.rs:14-27 | one verdict per line, in order |
| CampCleanup.CountTrue | 2022/rust/advent_of_code/src/day4/src/main.rs:13-27 | the count of containing lines never exceeds the number of lines |
| CampCleanup.ContainmentCount | 2022/rust/advent_of_code/src/day4/src/main.rs:13-27 | the count of a list of lines never exceeds the number of lines |
| CampCleanup.CountFullContainments | 2022/rust/advent_of_code/src/day4/src/main.rs:13-27 | the loop counts the lines whose shorter range lies within the longer, failing on the first line that panics |
| CampCleanup.CountTrueStep | 2022/rust/advent_of_code/src/day4/src/main.rs:24-26 | a line that does not panic adds one to the count exactly when it counts |
| CampCleanup.CountTrueFails | 2022/rust/advent_of_code/src/day4/src/main.rs:14-27 | a line that panics fails the whole count |
| CampCleanup.PartOne | 2022/rust/advent_of_code/src/day4/src/main.rs:3-30 | part one counts the lines of the trimmed input |
| CrateStacks.ParseInstr | 2022/rust/advent_of_code/src/day5/src/main.rs:11-20 | an instruction is read only from the six words `move a from f to t`, with its three numbers those of the words read as 64-bit `usize` values |
| CrateStacks.ParseInstrText | 2022/rust/advent_of_code/src/day5/src/main.rs:129-141 | writing an instruction whose numbers fit a `usize` and reading it back gives the instruction |
| CrateStacks.MoveCratesCrateMover9000 | 2022/rust/advent_of_code/src/day5/src/main.rs:86-91 | on every input where the popping loop cannot panic (no crate to move, or a non-empty stack moved onto itself, leave the stacks as they are), the stacks become those of the one-crate-at-a-time specification: the moved crates land reversed on the destination |
| CrateStacks.MoveCratesCrateMover9001 | 2022/rust/advent_of_code/src/day5/src/main.rs:93-101 | the stacks become those of the block-move specification: the top crates land in their order |
| CrateStacks.Mover9000KeepsCrates | 2022/rust/advent_of_code/src/day5/src/main.rs:86-91 | on every input the popping loop accepts, the CrateMover 9000 keeps the number of crates |
| CrateStacks.Mover9001KeepsCrates | 2022/rust/advent_of_code/src/day5/src/main.rs:93-101 | the CrateMover 9001 keeps the number of crates |
| CrateStacks.MoversDifferByReversal | 2022/rust/advent_of_code/src/day5/src/main.rs:86-101 | the two cranes leave every other stack and the bottom of the destination equal, and put the moved block reversed one against the other |
| CrateStacks.MoversAgreeOnOneCrate | 2022/rust/advent_of_code/src/day5/src/main.rs:86-101 | moving at most one crate, the two cranes agree |
| CrateStacks.Mover9000Example | 2022/rust/advent_of_code/src/day5/src/main.rs:144-177 | moving 1 crate from stack 2 to stack 1 of the example puts `D` on `Z N` |
| CrateStacks.GetStackTops | 2022/rust/advent_of_code/src/day5/src/main.rs:103-111 | the tops exist exactly when no stack is empty, and are the last crate of every stack, in order |
| CrateStacks.Strip | 2022/rust/advent_of_code/src/day5/src/main.rs:63 | a chunk loses every space, line feed and bracket |
| CrateStacks.Labels | 2022/rust/advent_of_code/src/day5/src/main.rs:59-64 | the drawing cut into chunks of 4 characters |
| CrateStacks.StacksOf | 2022/rust/advent_of_code/src/day5/src/main.rs:72-81 | one stack per label of the number row |
| CrateStacks.Columns | 2022/rust/advent_of_code/src/day5/src/main.rs:74-77 | one column per stack |
| CrateStacks.CrateStacksOf | 2022/rust/advent_of_code/src/day5/src/main.rs:58-84 | the number of stacks is the last label of the drawing, and there are at least one and no more than the labels |
| CrateStacks.StackIsColumn | 2022/rust/advent_of_code/src/day5/src/main.rs:72-81 | stack `j` is, bottom to top, the non-empty labels at positions `j` modulo the number of stacks, read upwards |
| CrateStacks.ObtainCrateStacks | 2022/rust/advent_of_code/src/day5/src/main.rs:58-84 | the loops build exactly the specification's stacks |
| CrateStacks.ReverseEach | 2022/rust/advent_of_code/src/day5/src/main.rs:79-81 | every stack is reversed in place |
| CrateStacks.ColumnsPartitionLabels | 2022/rust/advent_of_code/src/day5/src/main.rs:74-77 | every non-empty label goes to exactly one stack |
| Tuning.CharSetCons | 2022/rust/advent_of_code/src/day6/src/main.rs:65 | the set of a string's characters is its first character plus the set of the rest |
| Tuning.CharSetAtMostLength | 2022/rust/advent_of_code/src/day6/src/main.rs:65 | a string never has more distinct characters than characters |
| Tuning.AllDifferentIffNoRepeats | 2022/rust/advent_of_code/src/day6/src/main.rs:64-66 | the set of characters has the string's length exactly when no two positions hold the same character |
| Tuning.Window | 2022/rust/advent_of_code/src/day6/src/main.rs:25-31 | a window exists exactly when it lies within the data, and then holds the `size` characters from `pos` on; past the end the slice panics |
| Tuning.SearchFindsFirstMarker | 2022/rust/advent_of_code/src/day6/src/main.rs:41-46 | the search stops within its iterations, on a marker when it breaks early, and every window it passed repeats a character |
| Tuning.SearchFailsPastEnd | 2022/rust/advent_of_code/src/day6/src/main.rs:41-46 | the search panics only when a window it reaches runs past the end of the data |
| Tuning.Datastream.constructor | 2022/rust/advent_of_code/src/day6/src/main.rs:15-23 | a new datastream keeps the data, both windows at 0, of sizes 4 and 14 |
| Tuning.Datastream.FindStartOfPacket | 2022/rust/advent_of_code/src/day6/src/main.rs:40-48 | the part-one loop leaves the packet window at the position the search stops at, and the marker is that position plus 4; the message window is untouched |
| Tuning.Datastream.FindStartOfMessage | 2022/rust/advent_of_code/src/day6/src/main.rs:50-61 | the part-two loop starts at the packet position, runs the search with windows of 14, and the marker is where it stops plus 14 |
| Tuning.Markers | 2022/rust/advent_of_code/src/day6/src/main.rs:34-62 | both parts in turn: the packet marker, and the message marker searched from the packet's position; a panic in part one leaves no message marker |
| Tuning.WindowsExample | 2022/rust/advent_of_code/src/day6/src/main.rs:74-95 | the sample's packet window is "nznr", moved by 4 it is "nfrf", and its message window is "nznrnfrfntjfmv" |
| Tuning.AllDifferentExample | 2022/rust/advent_of_code/src/day6/src/main.rs:97-104 | "nznr" repeats a character and "abcd" does not |
| FileTree.TotalSizeAppend | 2022/rust/advent_of_code/src/day7/src/inode.rs:54-56 | appending a child to a directory adds exactly that child's size to the fold |
| FileTree.FilesOf | 2022/rust/advent_of_code/src/day7/src/inode.rs:36-42 | the files of a directory are never more than its children |
| FileTree.DirectoriesOf | 2022/rust/advent_of_code/src/day7/src/inode.rs:44-50 | the subdirectories are never more than the children, and every one is a directory |
| FileTree.FilesAppend | 2022/rust/advent_of_code/src/day7/src/inode.rs:36-42 | filtering files distributes over concatenation, so insertion order is kept |
| FileTree.DirectoriesAppend | 2022/rust/advent_of_code/src/day7/src/inode.rs:44-50 | filtering directories distributes over concatenation, so insertion order is kept |
| FileTree.FiltersPartition | 2022/rust/advent_of_code/src/day7/src/inode.rs:36-50 | every child is either a file or a directory: the two filters together have as many entries as the children |
| FileTree.SizeSplitsByKind | 2022/rust/advent_of_code/src/day7/src/inode.rs:54-56 | a directory's size is the sum of its files' sizes plus the sizes of its subdirectories |
| FileTree.FileSizesConcat | 2022/rust/advent_of_code/src/day7/src/inode.rs:84-87 | the summed sizes of two lists of files add up |
| FileTree.TotalSizeConcat | 2022/rust/advent_of_code/src/day7/src/inode.rs:54-56 | the size fold over two lists of children adds up |
| FileTree.Directory.constructor | 2022/rust/advent_of_code/src/day7/src/inode.rs:26-28 | a new directory has the given name, no children and size 0 |
| FileTree.Directory.AddFile | 2022/rust/advent_of_code/src/day7/src/inode.rs:29-31 | the file becomes the last child, the size grows by the file's size, it is the last of the files and the subdirectories are unchanged |
| FileTree.Directory.AddDirectory | 2022/rust/advent_of_code/src/day7/src/inode.rs:32-34 | the directory, with everything it holds, becomes the last child; the size grows by its size; the files are unchanged |
| FileTree.SizeExample | 2022/rust/advent_of_code/src/day7/src/inode.rs:141-172 | one file of 35 gives 35, a second of 64 gives 99, and a subdirectory holding 33 gives 132 |
| Treetop.ParseForest | 2022/rust/advent_of_code/src/day8/src/main.rs:122-143 | the input splits into lines; it parses exactly when every character is a digit, giving one row per line, one height per character, each the digit's value |
| Treetop.FromLeft | 2022/rust/advent_of_code/src/day8/src/main.rs:104-106 | the trees left of a position, in row order, one per column before it |
| Treetop.FromRight | 2022/rust/advent_of_code/src/day8/src/main.rs:108-110 | the trees right of a position, in row order, one per column after it |
| Treetop.FromAbove | 2022/rust/advent_of_code/src/day8/src/main.rs:112-114 | the trees above a position, top first, one per row before it |
| Treetop.FromBelow | 2022/rust/advent_of_code/src/day8/src/main.rs:116-118 | the trees below a position, top first, one per row after it |
| Treetop.VisibleIffSeesEdge | 2022/rust/advent_of_code/src/day8/src/main.rs:14-32 | a tree is visible exactly when it is on the border or, along some direction, every tree up to the edge is shorter than it |
| Treetop.VisibleInRow | 2022/rust/advent_of_code/src/day8/src/main.rs:36-42 | the count of visible trees among the first columns of a row never exceeds the number of columns |
| Treetop.VisibleAtMostTrees | 2022/rust/advent_of_code/src/day8/src/main.rs:34-44 | the visible trees never outnumber the trees of the forest |
| Treetop.GetNumberOfVisibleTrees | 2022/rust/advent_of_code/src/day8/src/main.rs:34-44 | the nested loop counts exactly the visible trees of the forest |
| Treetop.ThinRowAllVisible | 2022/rust/advent_of_code/src/day8/src/main.rs:15-18 | in a forest at most two trees tall or wide every tree is visible |
| Treetop.ViewingDistance | 2022/rust/advent_of_code/src/day8/src/main.rs:53-56 | the viewing distance never exceeds the number of trees in that direction |
| Treetop.ViewingDistanceStops | 2022/rust/advent_of_code/src/day8/src/main.rs:53-56 | the count runs to the edge when every tree is shorter, and otherwise stops at the first tree at least as tall, counting it |
| Treetop.CountVisible | 2022/rust/advent_of_code/src/day8/src/main.rs:53-57 | the counting loop with its `break` computes the viewing distance |
| Treetop.Distances | 2022/rust/advent_of_code/src/day8/src/main.rs:46-89 | a position has four viewing distances: left and up read nearest first, right and down as they come |
| Treetop.ScoreZeroOnBorder | 2022/rust/advent_of_code/src/day8/src/main.rs:46-89 | the scenic score is 0 exactly on the border of the forest |
| Treetop.GetVisibilityFromTree | 2022/rust/advent_of_code/src/day8/src/main.rs:46-89 | the method's product of the four counts is the scenic score |
| Treetop.ProductOfFour | 2022/rust/advent_of_code/src/day8/src/main.rs:47-86 | starting from 1 and multiplying in four counts gives their product |
| Treetop.MaxInRowIsMaximum | 2022/rust/advent_of_code/src/day8/src/main.rs:94-99 | the running maximum over a row's first cells bounds each of them and is one of them, or 0 |
| Treetop.MaxInRowsIsMaximum | 2022/rust/advent_of_code/src/day8/src/main.rs:91-102 | the maximum over the first rows bounds every cell and is one of them, or 0 |
| Treetop.ScoreGrid | 2022/rust/advent_of_code/src/day8/src/main.rs:93-95 | the grid of scores has the shape of the forest |
| Treetop.ScoreGridCell | 2022/rust/advent_of_code/src/day8/src/main.rs:95 | each cell of the grid of scores is the scenic score of that position |
| Treetop.BestScoreIsMaximum | 2022/rust/advent_of_code/src/day8/src/main.rs:91-102 | the best score is at least every scenic score and is the score of some position |
| Treetop.GetBestPosition | 2022/rust/advent_of_code/src/day8/src/main.rs:91-102 | the nested loop returns the best scenic score |
| Treetop.ScanRow | 2022/rust/advent_of_code/src/day8/src/main.rs:94-99 | one row's inner loop raises the maximum so far to the row's best score, if that is larger |
| RopeBridge.ParseMove | 2022/rust/advent_of_code/src/day9/src/main.rs:16-30 | a move is read exactly when the line has a second word that parses as a u32; `Unknown` only for a letter other than U, R, D, L |
| RopeBridge.ParseMoveText | 2022/rust/advent_of_code/src/day9/src/main.rs:189-201 | a known move with an amount that fits a u32, written as a letter and the amount, reads back as the move |
| RopeBridge.AsI32 | 2022/rust/advent_of_code/src/day9/src/main.rs:45-48 | `as i32` keeps the low 32 bits as a two's-complement `i32`: the result lies in the `i32` range, agrees with the amount modulo 2^32, and is negative exactly for a `u32` amount from 2^31 on |
| RopeBridge.Update | 2022/rust/advent_of_code/src/day9/src/main.rs:43-51 | up and down keep x, left and right keep y, `Unknown` keeps the position; a known move below 2^31 shifts it by exactly its amount in its direction, and a larger `u32` amount wraps and shifts it by 2^32 minus the amount the other way |
| RopeBridge.DiagonalNeighbours | 2022/rust/advent_of_code/src/day9/src/main.rs:53-59 | being on a diagonal is symmetric, and touching knots are on a diagonal exactly when they are one step apart along both axes |
| RopeBridge.ISqrt | 2022/rust/advent_of_code/src/day9/src/main.rs:61-63 | the integer square root: the largest `r` with `r * r <= n` |
| RopeBridge.ISqrtAtMostOne | 2022/rust/advent_of_code/src/day9/src/main.rs:61-63 | the root is at most 1 exactly when the square is below 4 |
| RopeBridge.SquaredDistanceBounds | 2022/rust/advent_of_code/src/day9/src/main.rs:61-63 | touching knots are at squared distance at most 2, others at least 4 |
| RopeBridge.DistanceAtMostOne | 2022/rust/advent_of_code/src/day9/src/main.rs:147 | `distance_to <= 1` exactly when the knots touch: both offsets at most 1 |
| RopeBridge.KnotAfter | 2022/rust/advent_of_code/src/day9/src/main.rs:133-161 | one knot's move keeps the number of knots |
| RopeBridge.StepFrom | 2022/rust/advent_of_code/src/day9/src/main.rs:103-105 | the knots from `i` on, each moved in order, keep the number of knots |
| RopeBridge.Steps | 2022/rust/advent_of_code/src/day9/src/main.rs:102-106 | `count` unit steps keep the number of knots |
| RopeBridge.RopeAfter | 2022/rust/advent_of_code/src/day9/src/main.rs:99-131 | a move of the rope keeps the number of knots |
| RopeBridge.MoveKnotKeepsRecord | 2022/rust/advent_of_code/src/day9/src/main.rs:151-160 | moving a knot keeps every follower on a visited position and only adds to the visited sets |
| RopeBridge.StepFromKeepsRecord | 2022/rust/advent_of_code/src/day9/src/main.rs:103-105 | one unit step of the rope keeps followers on visited positions and only adds to the visited sets |
| RopeBridge.StepsKeepRecord | 2022/rust/advent_of_code/src/day9/src/main.rs:102-106 | any number of unit steps keeps followers on visited positions and only adds to the visited sets |
| RopeBridge.MoveRopeKeepsRecord | 2022/rust/advent_of_code/src/day9/src/main.rs:99-131 | a move of the rope keeps followers on visited positions and only adds to the visited sets |
| RopeBridge.TwoKnotsStayTogether | 2022/rust/advent_of_code/src/day9/src/main.rs:133-161 | in a two-knot rope whose knots touch, a unit step moves the head by the step and leaves the knots touching |
| RopeBridge.Knot.constructor | 2022/rust/advent_of_code/src/day9/src/main.rs:73-79 | a knot starts at the origin, with the origin as last position and the only visited position |
| RopeBridge.Rope.constructor | 2022/rust/advent_of_code/src/day9/src/main.rs:87-97 | `count` new knots, each at the origin having visited only the origin |
| RopeBridge.Rope.MoveKnot | 2022/rust/advent_of_code/src/day9/src/main.rs:133-161 | the knots become the specification's move of knot `i` |
| RopeBridge.Rope.MoveRope | 2022/rust/advent_of_code/src/day9/src/main.rs:99-131 | the knots become the specification's move of the rope |
| RopeBridge.Rope.StepRope | 2022/rust/advent_of_code/src/day9/src/main.rs:103-105 | the knots become one unit step of the specification, knots taken in index order |
| RopeBridge.Rope.GetTail | 2022/rust/advent_of_code/src/day9/src/main.rs:163-165 | the last knot; none for an empty rope |
| CathodeRay.ParseInstr | 2022/rust/advent_of_code/src/day10/src/main.rs:12-22 | `noop` is a one-cycle no-op; `addx` reads as a two-cycle add exactly when a number that fits an i32 follows; any other word is `Unknown` |
| CathodeRay.ParseAddText | 2022/rust/advent_of_code/src/day10/src/main.rs:17 | `addx v` reads as a two-cycle add of `v` for any `v` that fits an i32 |
| CathodeRay.ParsedCpi | 2022/rust/advent_of_code/src/day10/src/main.rs:24-31 | an instruction read from a line takes 0 cycles only when unknown, and never more than 2 |
| CathodeRay.Issue | 2022/rust/advent_of_code/src/day10/src/main.rs:49-58 | a busy CPU refuses; an idle one starts the instruction, busy for its cycle count |
| CathodeRay.Pipeline | 2022/rust/advent_of_code/src/day10/src/main.rs:60-78 | the clock becomes the new clock; an idle CPU changes nothing else; an instruction still running has not touched the register and has fewer ticks left |
| CathodeRay.AddTakesTwoTicks | 2022/rust/advent_of_code/src/day10/src/main.rs:187-198 | after `addx v` the register is still 1 at clock 1 and becomes `1 + v` at clock 2, when the CPU is idle again |
| CathodeRay.BusyRefusesExec | 2022/rust/advent_of_code/src/day10/src/main.rs:200-206 | a second instruction issued before the first one retires is refused |
| CathodeRay.OnlyAddChangesRegister | 2022/rust/advent_of_code/src/day10/src/main.rs:71-75 | without a running add the pipeline never changes the register |
| CathodeRay.Cpu.constructor | 2022/rust/advent_of_code/src/day10/src/main.rs:45-47 | the CPU boots with register 1, idle, at clock 0 |
| CathodeRay.Cpu.Exec | 2022/rust/advent_of_code/src/day10/src/main.rs:49-58 | succeeds exactly when the CPU was idle, and then its state is the issued one; otherwise nothing changes |
| CathodeRay.Cpu.ProcessPipeline | 2022/rust/advent_of_code/src/day10/src/main.rs:60-78 | the state becomes the specification's pipeline at the new clock |
| CathodeRay.Cpu.IsBusy | 2022/rust/advent_of_code/src/day10/src/main.rs:80-82 | busy exactly when an instruction is running |
| CathodeRay.Tick | 2022/rust/advent_of_code/src/day10/src/main.rs:164-175 | a tick fails exactly when the CRT's `update_pixel` panics, when the `u32` countdown is already 0, or when a measurement overflows; otherwise the clock advances by one, the CPU catches up with it and the screen is the one drawn with the register as the sprite |
| CathodeRay.TickOnce | 2022/rust/advent_of_code/src/day10/src/main.rs:164-174 | one pass of the inner loop, on the `Cpu` and `Crt` objects, fails exactly when `Tick` does, and otherwise leaves the CPU, the screen, the clock, the countdown and the signal at the state `Tick` gives |
| CathodeRay.TickShortensRun | 2022/rust/advent_of_code/src/day10/src/main.rs:164-175 | every tick brings the running instruction closer to retiring, so the inner loop ends |
| CathodeRay.Drain | 2022/rust/advent_of_code/src/day10/src/main.rs:164-175 | when the inner loop ends the CPU is idle and in step with the clock |
| CathodeRay.RunFrom | 2022/rust/advent_of_code/src/day10/src/main.rs:162-176 | after the program the CPU is idle |
| CathodeRay.TickKeepsSchedule | 2022/rust/advent_of_code/src/day10/src/main.rs:168-172 | before clock 220 the countdown never underflows, so a tick fails only on a CRT panic or an overflowing measurement; measurements fall exactly on clocks 20, 60, 100, 140, 180 and 220 |
| CathodeRay.CountdownRunsOut | 2022/rust/advent_of_code/src/day10/src/main.rs:168-170 | after clock 220 the countdown is not reset, so the tick that finds it at 0 panics |
| CathodeRay.RegisterZeroPanics | 2022/rust/advent_of_code/src/day10/src/main.rs:165 | `addx -1` then `noop` panics: the CRT draws clock 2 with register 0 on the first row |
| CathodeRay.SignalStrength | 2022/rust/advent_of_code/src/day10/src/main.rs:155-178 | the loop, which draws on a fresh 40 by 6 CRT and measures in `u64`, fails exactly when the specification does and otherwise returns its signal strength |
| CathodeRay.RowFollowsClock | 2022/rust/advent_of_code/src/day10/src/main.rs:119-121 | after `clock + 1` updates the row is `clock / width` |
| CathodeRay.Crt.constructor | 2022/rust/advent_of_code/src/day10/src/main.rs:108-116 | `width * height` dark pixels, at row 0 |
| CathodeRay.Draw | 2022/rust/advent_of_code/src/day10/src/main.rs:118-133 | the row advances on every multiple of the width after 0; no pixel but pixel `clock` changes |
| CathodeRay.DrawOnPanel | 2022/rust/advent_of_code/src/day10/src/main.rs:123-130 | on the panel, drawing fails exactly when the sprite is 0 on the first row, where `m - 1` underflows |
| CathodeRay.DrawColumn | 2022/rust/advent_of_code/src/day10/src/main.rs:123-132 | with the row in step with the clock, the pixel drawn is lit exactly when it was lit or the sprite's distance from 0 is within one of the column |
| CathodeRay.DrawPastPanel | 2022/rust/advent_of_code/src/day10/src/main.rs:128-131 | past the panel, drawing fails exactly when the sprite covers the column, because `get_mut(clock)` finds no pixel |
| CathodeRay.Measure | 2022/rust/advent_of_code/src/day10/src/main.rs:171 | a measurement that succeeds leaves the signal within `u64` |
| CathodeRay.MeasureNonNegative | 2022/rust/advent_of_code/src/day10/src/main.rs:171 | a non-negative product is added unchanged, and the sum fails exactly when it leaves `u64` |
| CathodeRay.MeasureNegative | 2022/rust/advent_of_code/src/day10/src/main.rs:171 | a negative product is cast to `2^64` plus the product; the `u64` sum overflows exactly when the signal so far is at least the product's magnitude |
| CathodeRay.Crt.UpdatePixel | 2022/rust/advent_of_code/src/day10/src/main.rs:118-133 | the row advances on every multiple of the width after 0; the call fails exactly where the specification's drawing panics, and otherwise leaves the screen it draws |
| KeepAway.OperationOf | 2022/rust/advent_of_code/src/day11/src/main.rs:54-66 | `*` with `old` is `Square`, `*` with a number `Mul`, `+` with a number `Sum`, any other operator `Unknown`; an operand that does not parse as a u64 fails |
| KeepAway.OperationOfText | 2022/rust/advent_of_code/src/day11/src/main.rs:54-66 | the operator and operand of a known operation whose operand fits a u64 read back as that operation |
| KeepAway.ParseItems | 2022/rust/advent_of_code/src/day11/src/main.rs:49-52 | starting items are only read from text of the item-list pattern `(\d+,? ?)+`, each a u64 |
| KeepAway.ParseOperation | 2022/rust/advent_of_code/src/day11/src/main.rs:32 | an operation line read with the pattern never gives `Unknown` (the pattern admits only `*` and `+`) |
| KeepAway.NumberAfter | 2022/rust/advent_of_code/src/day11/src/main.rs:43-44 | a number is read exactly when the line starts with the prefix and the rest is a decimal number within the given bound (u64 for the test, u32 for a target), and it is that number |
| KeepAway.NameOf | 2022/rust/advent_of_code/src/day11/src/main.rs:40 | the name is the header line without its colon and starts with `Monkey ` |
| KeepAway.ParseLines | 2022/rust/advent_of_code/src/day11/src/main.rs:37-46 | six lines give a monkey whose name, u64 items, operation, u64 test and u32 routing are read from their own lines, the routing as `[false-target, true-target]` |
| KeepAway.ParseItemsText | 2022/rust/advent_of_code/src/day11/src/main.rs:49-52 | a non-empty item list of u64 values, written with `, ` and parsed, gives the list back |
| KeepAway.ParseOperationLine | 2022/rust/advent_of_code/src/day11/src/main.rs:54-66 | the operation line of a known operation whose operand fits a u64 parses back to it |
| KeepAway.ParseBlock | 2022/rust/advent_of_code/src/day11/src/main.rs:28-69 | writing the six-line block of a monkey whose numbers fit their Rust widths and parsing it gives the monkey back, routing in `[false-target, true-target]` order |
| KeepAway.Inspect | 2022/rust/advent_of_code/src/day11/src/main.rs:135-148 | one inspection keeps one queue and one count per monkey |
| KeepAway.Turn | 2022/rust/advent_of_code/src/day11/src/main.rs:127-128 | a turn keeps one queue and one count per monkey |
| KeepAway.TurnsFrom | 2022/rust/advent_of_code/src/day11/src/main.rs:127-129 | the turns of monkeys `m` onwards keep one queue and one count per monkey |
| KeepAway.Round | 2022/rust/advent_of_code/src/day11/src/main.rs:122-133 | a round keeps one queue and one count per monkey |
| KeepAway.Rounds | 2022/rust/advent_of_code/src/day11/src/main.rs:177-183 | any number of rounds keeps one queue and one count per monkey |
| KeepAway.InspectConserves | 2022/rust/advent_of_code/src/day11/src/main.rs:135-148 | an inspection moves one item: the number of items in play does not change |
| KeepAway.InspectCounts | 2022/rust/advent_of_code/src/day11/src/main.rs:77-89 | an inspection raises the inspecting monkey's count by exactly 1 and no other count |
| KeepAway.TurnEffect | 2022/rust/advent_of_code/src/day11/src/main.rs:127-128 | a turn empties the monkey's queue, adds its length to its count, keeps every other count, only appends to other queues and conserves the items |
| KeepAway.TurnsFromEffect | 2022/rust/advent_of_code/src/day11/src/main.rs:127-131 | the turns of a round never lower a count and conserve the items |
| KeepAway.RoundsEffect | 2022/rust/advent_of_code/src/day11/src/main.rs:177-183 | over any number of rounds counts only grow and the items in play are conserved |
| KeepAway.Tests | 2022/rust/advent_of_code/src/day11/src/main.rs:117 | the tests of the monkeys, in order |
| KeepAway.ModulusKeepsRouting | 2022/rust/advent_of_code/src/day11/src/main.rs:142-144 | with a divider of 1, reducing modulo the product of all tests routes every item as its unreduced value would |
| KeepAway.ReductionChangesRoutingWithDivider | 2022/rust/advent_of_code/src/day11/src/main.rs:173-174 | with a divider of 3 the reduction can change where an item goes: tests 2 and 3, worry 9 |
| KeepAway.IntendedRelieveKeepsRouting | 2022/rust/advent_of_code/src/day11/src/main.rs:173-174 | the intended reduction routes every item as `worry / divider` would, for any divider |
| KeepAway.Monkey.constructor | 2022/rust/advent_of_code/src/day11/src/main.rs:39-46 | a monkey holds its block's name, items, operation, test and routing, with no inspection counted |
| KeepAway.Monkey.AddItem | 2022/rust/advent_of_code/src/day11/src/main.rs:73-75 | the item goes to the back of the queue; earlier items are untouched |
| KeepAway.Monkey.GetItem | 2022/rust/advent_of_code/src/day11/src/main.rs:77-89 | an empty queue gives `None` and changes nothing; otherwise the front item leaves, its new worry value (1 for `Unknown`) is returned and the count rises by 1 |
| KeepAway.Monkey.GetNextMonkey | 2022/rust/advent_of_code/src/day11/src/main.rs:91-93 | the true-target when the test divides the item, otherwise the false-target; it fails, as the source's `%` panics, for a test of 0 |
| KeepAway.KeepAwayGame.constructor | 2022/rust/advent_of_code/src/day11/src/main.rs:113-120 | the game holds the monkeys, the round limit and the divider, at round 0, with the modulus the product of all tests |
| KeepAway.KeepAwayGame.ProcessMonkey | 2022/rust/advent_of_code/src/day11/src/main.rs:135-148 | `false` with nothing changed when the monkey holds no item; otherwise the state is one inspection of the specification |
| KeepAway.KeepAwayGame.Take | 2022/rust/advent_of_code/src/day11/src/main.rs:136-140 | the front item leaves the monkey's queue, its count rises by 1 and the operation's value is returned; `None` and no change on an empty queue |
| KeepAway.KeepAwayGame.Give | 2022/rust/advent_of_code/src/day11/src/main.rs:144-145 | the target's queue gains the value at its back; nothing else changes |
| KeepAway.KeepAwayGame.ProcessTurn | 2022/rust/advent_of_code/src/day11/src/main.rs:128 | the state is the specification's turn of monkey `m` |
| KeepAway.KeepAwayGame.ProcessRound | 2022/rust/advent_of_code/src/day11/src/main.rs:122-133 | `false` with nothing changed once all rounds are played; otherwise one specification round and the round number up by 1 |
| KeepAway.KeepAwayGame.Play | 2022/rust/advent_of_code/src/day11/src/main.rs:177-178 | all remaining rounds are played and the state is that many specification rounds |
| KeepAway.KeepAwayGame.Counts | 2022/rust/advent_of_code/src/day11/src/main.rs:151-154 | the inspection count of every monkey, in order |
| KeepAway.KeepAwayGame.GetMonkeysTotalBusiness | 2022/rust/advent_of_code/src/day11/src/main.rs:150-158 | the largest count times the largest of the others; `None`, the panic on `items_count[1]`, with fewer than two monkeys |
| KeepAway.TopTwo | 2022/rust/advent_of_code/src/day11/src/main.rs:155-157 | two different positions: one holds a largest count, the other a largest among the rest |
| KeepAway.BusinessOfTopPair | 2022/rust/advent_of_code/src/day11/src/main.rs:155-157 | every pair of a largest and a next-largest count gives the same product, so ties in the sort do not matter |
| HeightMaps.Cells | 2022/rust/advent_of_code/src/day12/src/main.rs:21 | a line becomes one single-character cell per character, in order |
| HeightMaps.Grid | 2022/rust/advent_of_code/src/day12/src/main.rs:19-22 | one row of cells per line of the input |
| HeightMaps.FirstInRow | 2022/rust/advent_of_code/src/day12/src/main.rs:81-85 | the first column from `j` on that holds the element, with none before it; `None` when no later column holds it |
| HeightMaps.FirstMatch | 2022/rust/advent_of_code/src/day12/src/main.rs:79-88 | the first cell in row-major order from row `i` that holds the element, with none before it; `None` when none does |
| HeightMaps.FindInMatrix | 2022/rust/advent_of_code/src/day12/src/main.rs:79-88 | the search returns `(column, row)` of the first match in row-major order, or `(0, 0)` when there is none |
| HeightMaps.FindInMatrixExample | 2022/rust/advent_of_code/src/day12/src/main.rs:96-104 | "e" in the 3×3 letter grid is at (1, 1) |
| HeightMaps.BlockedExactlyAtBorder | 2022/rust/advent_of_code/src/day12/src/main.rs:34-63 | a move that does not panic answers `Err` exactly at the border in its direction: the first row up, the last row down, the first column left, the first row's last column right |
| HeightMaps.StepChangesOneCoordinate | 2022/rust/advent_of_code/src/day12/src/main.rs:41-59 | a step changes one coordinate by one |
| HeightMaps.StepBack | 2022/rust/advent_of_code/src/day12/src/main.rs:41-59 | a step in the opposite direction undoes a step |
| HeightMaps.Written | 2022/rust/advent_of_code/src/day12/src/main.rs:65-67 | writing a cell keeps the grid's shape, puts the element in that cell and changes no other cell |
| HeightMaps.MarkedOutcomeOnGrid | 2022/rust/advent_of_code/src/day12/src/main.rs:34-63 | on the grid a marking move has the outcome of `mv`, and `mv`'s own `^` is the mark of going up and of no other direction |
| HeightMaps.HeightMap.constructor | 2022/rust/advent_of_code/src/day12/src/main.rs:17-27 | the grid of the input, the start at the first `S` and the summit at the first `E` |
| HeightMaps.HeightMap.Pos | 2022/rust/advent_of_code/src/day12/src/main.rs:30-32 | a cell exists exactly inside the grid, and is then the stored element |
| HeightMaps.HeightMap.Mv | 2022/rust/advent_of_code/src/day12/src/main.rs:34-63 | the outcome as above; a move steps one cell, going up first writes `^` into the cell left, nothing else changes, and the summit stays |
| HeightMaps.HeightMap.MvMarked | 2022/rust/advent_of_code/src/day12/src/main.rs:34-63 | as `mv`, but every move writes its direction's arrow into the cell it leaves |
| HeightMaps.HeightMap.UpdateCurrentPos | 2022/rust/advent_of_code/src/day12/src/main.rs:65-67 | the element is written into the current cell; the positions stay |
| HeightMaps.HeightMapExample | 2022/rust/advent_of_code/src/day12/src/main.rs:106-112 | the sample starts at (0, 0) with its summit at (5, 2) |
| HeightMaps.MoveDownExample | 2022/rust/advent_of_code/src/day12/src/main.rs:114-123 | as written, going down from the sample's start reaches (0, 1) but leaves `S` in the cell the test expects to hold `v` |
| HeightMaps.MoveDownMarkedExample | 2022/rust/advent_of_code/src/day12/src/main.rs:114-123 | with marking moves the same step leaves `v` behind |
| Trebuchet.Word | 2023/rust/advent_of_code/src/day01/mod.rs:1 | each spelled digit has 3 to 5 letters |
| Trebuchet.FirstHit | 2023/rust/advent_of_code/src/day01/mod.rs:24-29 | the inner loop's answer is `j + 1` for a word found at or after `j`, so from 1 to 9 |
| Trebuchet.FirstHitSpec | 2023/rust/advent_of_code/src/day01/mod.rs:24-29 | the answer names the first word that matches, and no word matches when there is none |
| Trebuchet.PrefixHits | 2023/rust/advent_of_code/src/day01/mod.rs:24-25 | one test per spelled digit |
| Trebuchet.SuffixHits | 2023/rust/advent_of_code/src/day01/mod.rs:45-46 | one test per spelled digit |
| Trebuchet.SpelledPrefix | 2023/rust/advent_of_code/src/day01/mod.rs:24-29 | a spelled digit found at the front is 1 to 9 |
| Trebuchet.SpelledSuffix | 2023/rust/advent_of_code/src/day01/mod.rs:45-50 | a spelled digit found at the end is 1 to 9 |
| Trebuchet.SpelledPrefixSpec | 2023/rust/advent_of_code/src/day01/mod.rs:24-29 | the rest of the line starts with the word of the answer and with no earlier word of the list, and with no word when there is none |
| Trebuchet.SpelledSuffixSpec | 2023/rust/advent_of_code/src/day01/mod.rs:45-50 | the prefix ends with the word of the answer and with no earlier word of the list, and with no word when there is none |
| Trebuchet.DigitAt | 2023/rust/advent_of_code/src/day01/mod.rs:16-29 | the digit read at a position is below 10; without spelled digits there is one exactly when the character is a digit |
| Trebuchet.DigitEndingAt | 2023/rust/advent_of_code/src/day01/mod.rs:37-50 | the digit read ending at a position is below 10; without spelled digits there is one exactly when the character is a digit |
| Trebuchet.FirstDigitIndex | 2023/rust/advent_of_code/src/day01/mod.rs:15-30 | the forward scan stops inside the line, at or after where it starts |
| Trebuchet.FirstDigitIndexSpec | 2023/rust/advent_of_code/src/day01/mod.rs:15-32 | it stops at the first position holding a digit and fails when none does |
| Trebuchet.LastDigitIndex | 2023/rust/advent_of_code/src/day01/mod.rs:36-51 | the backward scan stops before where it starts |
| Trebuchet.LastDigitIndexSpec | 2023/rust/advent_of_code/src/day01/mod.rs:36-53 | it stops at the last position a digit ends at and fails when none does |
| Trebuchet.FirstDigit | 2023/rust/advent_of_code/src/day01/mod.rs:14-33 | the first digit is below 10 |
| Trebuchet.LastDigit | 2023/rust/advent_of_code/src/day01/mod.rs:35-54 | the last digit is below 10 |
| Trebuchet.FirstDigitFails | 2023/rust/advent_of_code/src/day01/mod.rs:32 | `No digit found` exactly when no position holds a digit |
| Trebuchet.LastDigitFails | 2023/rust/advent_of_code/src/day01/mod.rs:53 | `No digit found` exactly when no digit ends anywhere |
| Trebuchet.GetFirstDigit | 2023/rust/advent_of_code/src/day01/mod.rs:14-33 | the loops with their early returns compute the first digit |
| Trebuchet.GetLastDigit | 2023/rust/advent_of_code/src/day01/mod.rs:35-54 | the reversed loops with their early returns compute the last digit |
| Trebuchet.LastDigitMirrorsFirst | 2023/rust/advent_of_code/src/day01/mod.rs:14-54 | without spelled digits the last digit of a line is the first digit of the line reversed |
| Trebuchet.SpelledFindsNoLater | 2023/rust/advent_of_code/src/day01/mod.rs:14-33 | checking spelled digits finds a first digit no later than checking digits alone |
| Trebuchet.CalibrationValue | 2023/rust/advent_of_code/src/day01/mod.rs:56-61 | the value exists exactly when both digits do, and is ten times the first plus the last |
| Trebuchet.GetCalibrationValue | 2023/rust/advent_of_code/src/day01/mod.rs:56-61 | the method's two lookups, concatenation and parse give that value |
| Trebuchet.TwoDigits | 2023/rust/advent_of_code/src/day01/mod.rs:59-60 | two digits written side by side parse as ten times the first plus the second |
| Trebuchet.Values | 2023/rust/advent_of_code/src/day01/mod.rs:6-9 | one calibration value per line, in order |
| Trebuchet.SumValuesBound | 2023/rust/advent_of_code/src/day01/mod.rs:8 | values below 100 sum to at most 99 per line |
| Trebuchet.TotalCalibrationBound | 2023/rust/advent_of_code/src/day01/mod.rs:3-12 | the total is at most 99 per line |
| Trebuchet.Run | 2023/rust/advent_of_code/src/day01/mod.rs:3-12 | `run` returns the decimal text of the summed calibration values, and panics exactly when a line has no digit |
| Trebuchet.FirstDigitExample | 2023/rust/advent_of_code/src/day01/mod.rs:68-73 | the first digit of "pqr3stu8vwx" is 3 |
| Trebuchet.LastDigitExample | 2023/rust/advent_of_code/src/day01/mod.rs:75-80 | its last digit is 8 |
| Trebuchet.FirstSpelledExample | 2023/rust/advent_of_code/src/day01/mod.rs:82-87 | the first spelled digit of "zoneight234" is 1 |
| Trebuchet.LastSpelledExample | 2023/rust/advent_of_code/src/day01/mod.rs:89-94 | the last spelled digit of "abcone2threexyz" is 3 |
| Trebuchet.CalibrationExample | 2023/rust/advent_of_code/src/day01/mod.rs:96-101 | "pqr3stu8vwx" calibrates to 38 even with spelled digits |
| Trebuchet.SpelledCalibrationExample | 2023/rust/advent_of_code/src/day01/mod.rs:103-108 | "zoneight234" calibrates to 14 |
| CubeConundrum.TrimAll | 2023/rust/advent_of_code/src/day02/mod.rs:47 | one trimmed part per part |
| CubeConundrum.Game.Id | 2023/rust/advent_of_code/src/day02/mod.rs:29-39 | the id, when the second word before the first ':' parses, fits in a `u32` |
| CubeConundrum.Game.Sets | 2023/rust/advent_of_code/src/day02/mod.rs:41-49 | a game with a ':' has at least one set |
| CubeConundrum.FirstEnding | 2023/rust/advent_of_code/src/day02/mod.rs:87 | `find` returns a part at or after where it starts |
| CubeConundrum.FirstEndingSpec | 2023/rust/advent_of_code/src/day02/mod.rs:85-88 | the part found is the first whose trimmed text ends with the colour; none is found when no part does |
| CubeConundrum.CubeCount | 2023/rust/advent_of_code/src/day02/mod.rs:80-95 | a set that does not mention the colour shows 0 of it; a count that parses fits in a `u32` |
| CubeConundrum.DrawCounts | 2023/rust/advent_of_code/src/day02/mod.rs:54-58 | one reading per set |
| CubeConundrum.DrawCountsAt | 2023/rust/advent_of_code/src/day02/mod.rs:54-58 | each set reads as its green, red and blue counts |
| CubeConundrum.IsPossible | 2023/rust/advent_of_code/src/day02/mod.rs:51-65 | the loop with its early return gives the verdict of the game |
| CubeConundrum.VerdictTrue | 2023/rust/advent_of_code/src/day02/mod.rs:54-64 | the verdict is `true` exactly when every set reads and none exceeds the rules |
| CubeConundrum.VerdictFalse | 2023/rust/advent_of_code/src/day02/mod.rs:54-64 | the verdict is `false` exactly when some set exceeds the rules and every set before it reads and passes |
| CubeConundrum.PossibleIff | 2023/rust/advent_of_code/src/day02/mod.rs:51-65 | a game is possible exactly when it has sets, each of which reads and stays within the rules |
| CubeConundrum.ImpossibleAddsNothing | 2023/rust/advent_of_code/src/day02/mod.rs:4-9 | an impossible game adds nothing to the total |
| CubeConundrum.LineValueOfPossible | 2023/rust/advent_of_code/src/day02/mod.rs:5-8 | a possible game adds its id, and a game whose check panics makes the line panic |
| CubeConundrum.Run | 2023/rust/advent_of_code/src/day02/mod.rs:1-12 | `run` returns the decimal text of the sum of the ids of the possible games, and panics exactly when the sum does |
| CubeConundrum.GameIdOf | 2023/rust/advent_of_code/src/day02/mod.rs:29-39 | "Game n:" followed by anything has id `n` |
| CubeConundrum.GameSetsOf | 2023/rust/advent_of_code/src/day02/mod.rs:41-49 | a head and `;`-joined sets without ':' or ';' of their own read back as those sets, trimmed |
| EngineSchematic.AbsDiff | 2023/rust/advent_of_code/src/day03/mod.rs:43-49 | the distance between two coordinates, whichever is larger |
| EngineSchematic.AdjacencySymmetric | 2023/rust/advent_of_code/src/day03/mod.rs:51-53 | adjacency is symmetric and every point is adjacent to itself |
| EngineSchematic.AdjacentIff | 2023/rust/advent_of_code/src/day03/mod.rs:51-53 | two points are adjacent exactly when both coordinates differ by at most one |
| EngineSchematic.PointsBetween | 2023/rust/advent_of_code/src/day03/mod.rs:55-65 | on the same row, the points strictly between the two, left to right; on different rows, none |
| EngineSchematic.IsAdjacentToSymbol | 2023/rust/advent_of_code/src/day03/mod.rs:99-111 | the method's early returns compute whether the part touches the symbol |
| EngineSchematic.AdjacentToSymbolIff | 2023/rust/advent_of_code/src/day03/mod.rs:99-111 | a part on one row touches a symbol exactly when some cell of the part, from start to end, is adjacent to it |
| EngineSchematic.PartsFromSpec | 2023/rust/advent_of_code/src/day03/mod.rs:114-139 | every part read from a position is a maximal run of digits with its parsed value, its first and last column, in order and apart |
| EngineSchematic.PartsFromSkip | 2023/rust/advent_of_code/src/day03/mod.rs:124-136 | a character that is not a digit outside a number is skipped |
| EngineSchematic.PartsFromRun | 2023/rust/advent_of_code/src/day03/mod.rs:124-136 | a run of digits ended by another character becomes one part, its value parsed, then the scan goes on; a value that does not parse panics |
| EngineSchematic.ExtractPartsFromRow | 2023/rust/advent_of_code/src/day03/mod.rs:114-139 | the loop over the line with its trailing dot returns the parts of the row: exactly its maximal digit runs, each with its value and first and last column, in order (RowPartsSpec, RowPartsComplete), panicking exactly when a run is not a `u32` (RowPartsFails) |
| EngineSchematic.RowPartsSpec | 2023/rust/advent_of_code/src/day03/mod.rs:114-139 | soundness: each part is a maximal run of digits inside the line with its value, and consecutive parts are separated by at least one other character |
| EngineSchematic.RowPartsComplete | 2023/rust/advent_of_code/src/day03/mod.rs:114-139 | completeness: every maximal run of digits of the line, one reaching the end of the line included, is a part with its `u32` value, its first and its last column |
| EngineSchematic.RowPartsFails | 2023/rust/advent_of_code/src/day03/mod.rs:132 | the row panics exactly when some maximal run of digits of the line does not parse as a `u32` |
| EngineSchematic.PartsFromComplete | 2023/rust/advent_of_code/src/day03/mod.rs:124-136 | when the scan from a position succeeds, every maximal run from there on is among its parts |
| EngineSchematic.PartsFromFails | 2023/rust/advent_of_code/src/day03/mod.rs:124-136 | the scan from a position panics exactly when a maximal run from there on is not a `u32` |
| EngineSchematic.SymbolsOfSound | 2023/rust/advent_of_code/src/day03/mod.rs:141-155 | every symbol listed is a character other than a digit or a dot at its position, and they come left to right |
| EngineSchematic.SymbolsOfComplete | 2023/rust/advent_of_code/src/day03/mod.rs:146-152 | every such character is listed |
| EngineSchematic.ExtractSymbolsFromRow | 2023/rust/advent_of_code/src/day03/mod.rs:141-155 | the loop returns the symbols of the row |
| EngineSchematic.SymbolsOfRow | 2023/rust/advent_of_code/src/day03/mod.rs:141-155 | a character of the line is listed as a symbol at its position exactly when it is neither a digit nor a dot |
| EngineSchematic.AdjacentCount | 2023/rust/advent_of_code/src/day03/mod.rs:16-20 | a part touches at most as many symbols as there are |
| EngineSchematic.LonelyPartAddsNothing | 2023/rust/advent_of_code/src/day03/mod.rs:15-21 | a part next to no symbol adds nothing |
| EngineSchematic.AdjacentSumAppend | 2023/rust/advent_of_code/src/day03/mod.rs:15-21 | each part adds its value once per symbol it touches |
| EngineSchematic.NoAdjacentSymbol | 2023/rust/advent_of_code/src/day03/mod.rs:16-20 | a part next to no symbol touches none |
| EngineSchematic.AllAdjacentSymbols | 2023/rust/advent_of_code/src/day03/mod.rs:16-20 | a part next to every symbol touches them all |
| EngineSchematic.AdjacentSumBound | 2023/rust/advent_of_code/src/day03/mod.rs:15-21 | the sum is at most the number of parts times the largest value times the number of symbols |
| EngineSchematic.AddPart | 2023/rust/advent_of_code/src/day03/mod.rs:16-20 | the inner loop adds the part's value once per symbol it touches |
| EngineSchematic.RunA | 2023/rust/advent_of_code/src/day03/mod.rs:1-24 | `run_a` returns the decimal text of the sum over every part of its value times the symbols it touches, and panics when a row's number does not parse |
| EngineSchematic.AllPartsFails | 2023/rust/advent_of_code/src/day03/mod.rs:7-13 | a row whose number does not parse makes the whole run panic |
| EngineSchematic.AllPartsFailsOnlyThere | 2023/rust/advent_of_code/src/day03/mod.rs:7-13 | conversely, the collection panics only when some row's parts panic |
| EngineSchematic.RunB | 2023/rust/advent_of_code/src/day03/mod.rs:26-30 | part two answers "0" |
| Scratchcards.NonEmptyKeepsAll | 2023/rust/advent_of_code/src/day04/mod.rs:59 | the filter keeps every word that is not empty |
| Scratchcards.ParseU32sShown | 2023/rust/advent_of_code/src/day04/mod.rs:60 | numbers that fit in a `u32`, written out, parse back to themselves |
| Scratchcards.NumStrToVecShowNums | 2023/rust/advent_of_code/src/day04/mod.rs:56-62 | numbers written with spaces between them read back as the same numbers, in order |
| Scratchcards.FromTextOfParts | 2023/rust/advent_of_code/src/day04/mod.rs:24-36 | a card is the numbers before the bar as winning and those after it as scratched, and panics when either list does not read |
| Scratchcards.FromTextWithoutBar | 2023/rust/advent_of_code/src/day04/mod.rs:26-29 | a card without a bar panics on the second `next()` |
| Scratchcards.Matches | 2023/rust/advent_of_code/src/day04/mod.rs:42-50 | no more scratched numbers win than were scratched |
| Scratchcards.Value | 2023/rust/advent_of_code/src/day04/mod.rs:39-53 | the loop is worth 0 without a winning number and 2 to the power of one less than the winning numbers otherwise |
| Scratchcards.MatchesNone | 2023/rust/advent_of_code/src/day04/mod.rs:42-50 | with no winning number scratched, none is counted |
| Scratchcards.MatchesAll | 2023/rust/advent_of_code/src/day04/mod.rs:42-50 | when every scratched number wins, all of them count |
| Scratchcards.ScratchingAWinner | 2023/rust/advent_of_code/src/day04/mod.rs:43-48 | one more winning number makes a worthless card worth 1 and doubles any other |
| Scratchcards.ScratchingALoser | 2023/rust/advent_of_code/src/day04/mod.rs:43 | one more losing number changes nothing |
| Scratchcards.ExampleCardValue | 2023/rust/advent_of_code/src/day04/mod.rs:83-88 | the sample card is worth 8 |
| Scratchcards.RunA | 2023/rust/advent_of_code/src/day04/mod.rs:1-11 | `run_a` returns the decimal text of the summed worth of the cards, and panics exactly when a line does not read |
| Scratchcards.BadLineFails | 2023/rust/advent_of_code/src/day04/mod.rs:4-8 | a line that is no card makes the whole run panic |
| Scratchcards.WorthlessCardAddsNothing | 2023/rust/advent_of_code/src/day04/mod.rs:7 | a card worth nothing adds nothing to the total |
| Scratchcards.RunB | 2023/rust/advent_of_code/src/day04/mod.rs:13-17 | part two answers "0" |
| HistorianHysteria.ListsSpec | 2024/python/src/advent_of_code/day01/day01.py:4-14 | the lists exist exactly when every line reads as two columns, and then hold one entry per line, the left and right columns in order |
| HistorianHysteria.GetListsFromInput | 2024/python/src/advent_of_code/day01/day01.py:4-14 | the loop builds those two lists, failing where `int` or the indexing raises |
| HistorianHysteria.ListsFailAt | 2024/python/src/advent_of_code/day01/day01.py:8-12 | one unreadable line makes the whole reading fail |
| HistorianHysteria.Insert | 2024/python/src/advent_of_code/day01/day01.py:20 | inserting into an ascending list keeps it ascending and adds exactly that element |
| HistorianHysteria.Sort | 2024/python/src/advent_of_code/day01/day01.py:17-20 | `sorted` is ascending and a permutation of its input |
| HistorianHysteria.AscendingUnique | 2024/python/src/advent_of_code/day01/day01.py:17-20 | two ascending permutations of each other are equal, so the sorted list is the only one |
| HistorianHysteria.SortReordered | 2024/python/src/advent_of_code/day01/day01.py:17-20 | reordering the input does not change the sorted list |
| HistorianHysteria.Distances | 2024/python/src/advent_of_code/day01/day01.py:23-26 | `zip` stops at the shorter list |
| HistorianHysteria.DistancesSymmetric | 2024/python/src/advent_of_code/day01/day01.py:23-26 | the distances do not depend on which list is on the left, and none is negative |
| HistorianHysteria.DistancesToItself | 2024/python/src/advent_of_code/day01/day01.py:23-30 | a list's distance to itself is 0 |
| HistorianHysteria.PartOneOfReordered | 2024/python/src/advent_of_code/day01/day01.py:52-59 | the total distance depends only on the contents of the two columns, not on their order, and is never negative |
| HistorianHysteria.PartOneOfEqualColumns | 2024/python/src/advent_of_code/day01/day01.py:52-59 | two equal columns are at distance 0 |
| HistorianHysteria.SortedExample | 2024/python/src/advent_of_code/day01/day01.py:17-20 | an ascending reordering of a list is exactly what `sorted` gives for it |
| HistorianHysteria.TotalDistanceExample | 2024/python/tests/test_day01.py:43-68 | the example lists `[3, 4, 2, 1, 3, 3]` and `[4, 3, 5, 3, 9, 3]`, sorted and paired, are at total distance 11 |
| HistorianHysteria.GetNumberOfOccurrences | 2024/python/src/advent_of_code/day01/day01.py:33-42 | the dictionary has a key exactly for each element of the list, mapped to how often it occurs |
| HistorianHysteria.GetSimilarityScore | 2024/python/src/advent_of_code/day01/day01.py:45-49 | the loop adds every left element times its count, 0 when absent |
| HistorianHysteria.SimilarityOfOccurrences | 2024/python/src/advent_of_code/day01/day01.py:45-49 | with the dictionary of the right list, the score is the sum of every left element times how often it occurs on the right |
| HistorianHysteria.SimilarityExample | 2024/python/tests/test_day01.py:81-89 | the left list `[3, 4, 2, 1, 3, 3]` with the occurrences `{3: 3, 4: 1, 5: 1, 9: 1}` scores 31 |
| HistorianHysteria.PartTwo | 2024/python/src/advent_of_code/day01/day01.py:62-67 | part two fails exactly when the lists do not read and is otherwise the similarity of the left list to the right |
| RedNosedReports.NewReport | 2024/python/src/advent_of_code/day02/day02.py:8-11 | a report has at least two levels, one per word, each the word read with `int`, and goes up exactly when its first level is below its second |
| RedNosedReports.ParseInts | 2024/python/src/advent_of_code/day02/day02.py:9 | one level per word, each the word read with `int`; one failure fails them all |
| RedNosedReports.IsSafe | 2024/python/src/advent_of_code/day02/day02.py:28-49 | the loop's flag is true exactly when every step is in range and in the report's direction |
| RedNosedReports.SafeIff | 2024/python/src/advent_of_code/day02/day02.py:28-49 | a report is safe exactly when its levels strictly increase by 1 to 3 at every step or strictly decrease by 1 to 3 at every step |
| RedNosedReports.StepUp | 2024/python/src/advent_of_code/day02/day02.py:33-45 | in a rising report a step is safe exactly when it rises by 1 to 3 |
| RedNosedReports.StepDown | 2024/python/src/advent_of_code/day02/day02.py:33-45 | in a falling report a step is safe exactly when it falls by 1 to 3 |
| RedNosedReports.ReportOf | 2024/python/src/advent_of_code/day02/day02.py:8-11 | a report of given levels goes up exactly when its first level is below its second |
| RedNosedReports.UnsafeAt | 2024/python/src/advent_of_code/day02/day02.py:33-45 | one unsafe step makes the whole report unsafe |
| RedNosedReports.SafeReportsExamples | 2024/python/tests/test_day02.py:23-35 | the rising and falling reports of the unit tests are safe, and the two with a step of 4 are not |
| RedNosedReports.ExampleSafety | 2024/python/tests/test_day02.py:5-12 | of the six example reports the first and the last are safe and the other four are not |
| RedNosedReports.ReportListSpec | 2024/python/src/advent_of_code/day02/day02.py:52-53 | the reports read are one per line, in order |
| RedNosedReports.ReadAsAppend | 2024/python/src/advent_of_code/day02/day02.py:52-53 | a further line that reads adds its report at the end |
| RedNosedReports.SafeCount | 2024/python/src/advent_of_code/day02/day02.py:56-61 | no more reports are safe than there are reports |
| RedNosedReports.SafeCountExtremes | 2024/python/src/advent_of_code/day02/day02.py:56-61 | all reports safe count them all, and none safe count 0 |
| RedNosedReports.SafeCountAppend | 2024/python/src/advent_of_code/day02/day02.py:56-61 | one more report adds one to the count exactly when it is safe |
| RedNosedReports.SafeCountExample | 2024/python/tests/test_day02.py:51-64 | two of the six example reports are safe |
| RedNosedReports.GetSafeReportsCount | 2024/python/src/advent_of_code/day02/day02.py:56-61 | the loop counts the safe reports |
| RedNosedReports.PartOne | 2024/python/src/advent_of_code/day02/day02.py:64-67 | part one fails exactly when a line cannot be read, and otherwise counts the safe reports, at most one per line |
| MullItOver.MulArgs | 2024/python/src/advent_of_code/day03/day03.py:5 | a match at a position is `mul(`, 1 to 3 digits, a comma, 1 to 3 digits and `)`, written there in the text |
| MullItOver.MulArgsShape | 2024/python/src/advent_of_code/day03/day03.py:5 | text of that shape at a position is a match with those two numbers |
| MullItOver.MulArgsOfText | 2024/python/src/advent_of_code/day03/day03.py:5 | an instruction written out matches at its start with its own two numbers |
| MullItOver.ScanSound | 2024/python/src/advent_of_code/day03/day03.py:6 | every match the left-to-right scan reports starts where the pattern matches |
| MullItOver.ScanApart | 2024/python/src/advent_of_code/day03/day03.py:6 | the matches reported come in order and do not overlap |
| MullItOver.ScanComplete | 2024/python/src/advent_of_code/day03/day03.py:6 | when no match can start inside another, every match is reported |
| MullItOver.NoneStartsInside | 2024/python/src/advent_of_code/day03/day03.py:5 | no match starts inside another one, as only the first character of an instruction is `m` |
| MullItOver.InstructionsApart | 2024/python/src/advent_of_code/day03/day03.py:5-6 | the pattern never matches inside one of its own matches |
| MullItOver.MatchesSound | 2024/python/src/advent_of_code/day03/day03.py:4-8 | `findall` returns matches of the pattern, in order and apart |
| MullItOver.MatchesComplete | 2024/python/src/advent_of_code/day03/day03.py:4-8 | `findall` returns every place the pattern matches |
| MullItOver.MulOccurrences | 2024/python/src/advent_of_code/day03/day03.py:4-8 | one text per match |
| MullItOver.NumberGroups | 2024/python/src/advent_of_code/day03/day03.py:12-16 | every group found by the digit pattern has 1 to 3 digits |
| MullItOver.NumberGroupsOfText | 2024/python/src/advent_of_code/day03/day03.py:12-16 | the groups of an instruction are its two numbers |
| MullItOver.GetMulCoefficients | 2024/python/src/advent_of_code/day03/day03.py:11-19 | the loop gives the pair of the first two groups of each sentence, failing where a sentence has fewer than two |
| MullItOver.CoefficientsFail | 2024/python/src/advent_of_code/day03/day03.py:15-17 | one sentence with fewer than two groups fails the whole list |
| MullItOver.CoefficientsOfMatches | 2024/python/src/advent_of_code/day03/day03.py:11-19 | the sentences of the matches give exactly the numbers of the matches |
| MullItOver.SumOfProductsConcat | 2024/python/src/advent_of_code/day03/day03.py:22-24 | the sum of products splits over concatenation |
| MullItOver.SumOfProductsZero | 2024/python/src/advent_of_code/day03/day03.py:23 | a pair with a 0 adds nothing |
| MullItOver.PartOneOfMatches | 2024/python/src/advent_of_code/day03/day03.py:27-32 | part one never fails and is the sum, over every instruction in the text, of its two numbers multiplied |
| CeresSearch.GetMatrix | 2024/python/src/advent_of_code/day04/day04.py:10-16 | one row per line, holding the line's characters |
| CeresSearch.Stepped | 2024/python/src/advent_of_code/day04/day04.py:29-37 | the letters read from a cell in a direction, at most as many as asked, stopping at the edge |
| CeresSearch.WordAtSpec | 2024/python/src/advent_of_code/day04/day04.py:19-37 | the recursive search from a cell answers 1 exactly when the letters gathered so far followed by those read from that cell spell the word, and 0 otherwise |
| CeresSearch.WordFromCell | 2024/python/src/advent_of_code/day04/day04.py:19-37 | from an empty start, the search answers 1 exactly when a non-empty word is spelled from that cell in that direction |
| CeresSearch.CellSearchSpec | 2024/python/src/advent_of_code/day04/day04.py:44-80 | the eight searches of a cell add up to the number of directions in which the word is spelled from it |
| CeresSearch.CellsUpToSpec | 2024/python/src/advent_of_code/day04/day04.py:42-43 | the cells visited by the first columns' loops are in the grid, and every such cell is visited |
| CeresSearch.OccurrencesOfCells | 2024/python/src/advent_of_code/day04/day04.py:42-80 | over any cells of a rectangular grid, the sum of their searches is the total of words spelled from them |
| CeresSearch.OccurrencesSpec | 2024/python/src/advent_of_code/day04/day04.py:40-82 | on a rectangular grid the count is the number of (cell, direction) pairs from which the word is spelled |
| CeresSearch.GetWordOccurrences | 2024/python/src/advent_of_code/day04/day04.py:40-82 | the nested loops compute that count |
| CeresSearch.AddLine | 2024/python/src/advent_of_code/day04/day04.py:43-80 | the inner loop over one column adds that column's searches to the count, and fails only where the whole count fails |
| CeresSearch.PartOne | 2024/python/src/advent_of_code/day04/day04.py:113-116 | part one counts the spellings of "XMAS" |
| CeresSearch.Hits | 2024/python/src/advent_of_code/day04/day04.py:90-108 | a cell adds to a centre at most once per diagonal |
| CeresSearch.AddCrossingsSpec | 2024/python/src/advent_of_code/day04/day04.py:90-108 | one cell's four updates add a key for each diagonal neighbour, and raise each neighbour's count by the number of "MAS" spelled from the cell towards it |
| CeresSearch.CrossingsSpec | 2024/python/src/advent_of_code/day04/day04.py:88-108 | after the loops, the keys are the neighbours of the cells and each holds the number of "MAS" passing through it diagonally |
| CeresSearch.CrossCountOutside | 2024/python/src/advent_of_code/day04/day04.py:90-108 | a point that neighbours no cell is crossed by no "MAS" |
| CeresSearch.HitsOutside | 2024/python/src/advent_of_code/day04/day04.py:90-108 | a cell adds nothing to a point that is not its diagonal neighbour |
| CeresSearch.XMasSpec | 2024/python/src/advent_of_code/day04/day04.py:85-110 | the answer is the number of points crossed by exactly two diagonal "MAS" |
| CeresSearch.TwiceCounted | 2024/python/src/advent_of_code/day04/day04.py:110 | the keys whose value is 2 are the points crossed exactly twice |
| CeresSearch.AddCellCrossings | 2024/python/src/advent_of_code/day04/day04.py:90-108 | the four dictionary updates of one cell compute its crossings |
| CeresSearch.GetXMasOccurrences | 2024/python/src/advent_of_code/day04/day04.py:85-110 | the nested loops and the final count compute the answer |
| CeresSearch.PartTwo | 2024/python/src/advent_of_code/day04/day04.py:119-122 | part two counts the X-shaped "MAS" pairs |
| PrintQueue.RuleFromStr | 2024/python/src/advent_of_code/day05/day05.py:11-15 | a rule reads exactly when the line splits at the bar into two parts that `int` reads, and is those two numbers |
| PrintQueue.RuleFromStrShown | 2024/python/src/advent_of_code/day05/day05.py:11-15 | two numbers written around a bar read back as that rule |
| PrintQueue.RuleFromStrWithoutBar | 2024/python/src/advent_of_code/day05/day05.py:13 | a line without a bar does not unpack into two parts and raises |
| PrintQueue.UpdateFromStr | 2024/python/src/advent_of_code/day05/day05.py:24-26 | an update has one page per comma-separated part, so at least one |
| PrintQueue.PageIndex | 2024/python/src/advent_of_code/day05/day05.py:42-43 | `index` is the first position holding the page |
| PrintQueue.MiddlePage | 2024/python/src/advent_of_code/day05/day05.py:34-36 | the middle page is at half the length rounded down, with as many pages before it as after it, or one more |
| PrintQueue.EvaluateIff | 2024/python/src/advent_of_code/day05/day05.py:38-45 | when both pages are present, the rule holds exactly when the first occurrence of `before` comes before any occurrence of `after` |
| PrintQueue.SelfRuleFails | 2024/python/src/advent_of_code/day05/day05.py:42-45 | a rule from a present page to itself never holds |
| PrintQueue.AbsentPageHolds | 2024/python/src/advent_of_code/day05/day05.py:39-40 | a rule with a page absent from the update holds |
| PrintQueue.UpdateExamples | 2024/python/tests/test_day05.py:129-184 | the rule checks, rule-set checks and the middle page of the tests' updates |
| PrintQueue.EvaluateSet | 2024/python/src/advent_of_code/day05/day05.py:47-52 | the loop answers whether every rule holds |
| PrintQueue.GetRules | 2024/python/src/advent_of_code/day05/day05.py:55-61 | the loop reads every line as a rule, raising on the first that does not read |
| PrintQueue.GetUpdates | 2024/python/src/advent_of_code/day05/day05.py:64-70 | the loop reads every line as an update, raising on the first that does not read |
| PrintQueue.BlankIndex | 2024/python/src/advent_of_code/day05/day05.py:74 | `index("")` is the first blank line |
| PrintQueue.Sections | 2024/python/src/advent_of_code/day05/day05.py:73-75 | no sections exactly when no line is empty; otherwise the lines are the rules part, the first empty line and the updates part, and the rules part holds no empty line |
| PrintQueue.GetRulesAndUpdates | 2024/python/src/advent_of_code/day05/day05.py:73-75 | without a blank line it raises; otherwise the rules are the lines before the first blank line and the updates those after it |
| PrintQueue.OrderedSpec | 2024/python/src/advent_of_code/day05/day05.py:78-87 | the kept updates are no more than the updates, and an update is kept exactly when every rule holds for it |
| PrintQueue.OrderedConcat | 2024/python/src/advent_of_code/day05/day05.py:78-87 | the filter keeps order: it splits over concatenation |
| PrintQueue.GetCorrectlyOrderedUpdates | 2024/python/src/advent_of_code/day05/day05.py:78-87 | the loop keeps exactly the correctly ordered updates, in order |
| PrintQueue.MiddleSumConcat | 2024/python/src/advent_of_code/day05/day05.py:90-96 | the sum of middle pages splits over concatenation |
| PrintQueue.SumMiddlePages | 2024/python/src/advent_of_code/day05/day05.py:90-96 | the loop adds the middle page of every update |
| PrintQueue.UpdatesHavePages | 2024/python/src/advent_of_code/day05/day05.py:24-26 | every update read has at least one page, so its middle page exists |
| PrintQueue.PartOne | 2024/python/src/advent_of_code/day05/day05.py:99-104 | part one sums the middle pages of the correctly ordered updates, raising where the input does not read |
| GuardGallivant.NextClockwise | 2024/python/src/advent_of_code/day06/day06.py:20-30 | the next heading clockwise is the current one rotated a quarter turn: `(x, y)` becomes `(-y, x)` |
| GuardGallivant.FourTurns | 2024/python/src/advent_of_code/day06/day06.py:20-30 | four right turns give the heading back, and fewer never do |
| GuardGallivant.NextPosition | 2024/python/src/advent_of_code/day06/day06.py:44-45 | the next position is one step along the heading's vector |
| GuardGallivant.Guard.constructor | 2024/python/src/advent_of_code/day06/day06.py:53-59 | a new guard has the given position and heading and has visited nothing |
| GuardGallivant.Guard.Move | 2024/python/src/advent_of_code/day06/day06.py:81-83 | the position left is recorded, then the guard steps along its heading |
| GuardGallivant.Guard.TurnRight | 2024/python/src/advent_of_code/day06/day06.py:85-86 | only the heading changes, to the next one clockwise |
| GuardGallivant.MoveStateSpec | 2024/python/src/advent_of_code/day06/day06.py:81-83 | a move records only the position left, and lands one step away from it |
| GuardGallivant.VisitedExample | 2024/python/tests/test_day06.py:64-82 | the tests' moves and turns record (1, 1), (1, 2), (0, 2) and (-1, 2), the last move not counting twice |
| GuardGallivant.LocateSpec | 2024/python/src/advent_of_code/day06/day06.py:89-95 | the guard is found at the first row holding the symbol, at its first column there, and not found when no row holds it |
| GuardGallivant.GetGuard | 2024/python/src/advent_of_code/day06/day06.py:89-95 | the loops return a new guard facing up at that position, or nothing |
| GuardGallivant.GetObstacles | 2024/python/src/advent_of_code/day06/day06.py:98-105 | the dictionary has a key exactly for each position holding the symbol, each mapped to `True` |
| GuardGallivant.InsideIsOnMap | 2024/python/src/advent_of_code/day06/day06.py:112-115 | on a rectangular map, being inside the boundaries is being on the map |
| GuardGallivant.GetMap | 2024/python/src/advent_of_code/day06/day06.py:118-124 | one row per line, holding the line's characters |
| GuardGallivant.WalkSpec | 2024/python/src/advent_of_code/day06/day06.py:137-143 | a walk that ends leaves the guard outside the boundaries, having recorded only positions inside them and every position recorded before |
| GuardGallivant.WalkFromOutside | 2024/python/src/advent_of_code/day06/day06.py:137 | a guard that starts outside records nothing |
| GuardGallivant.RoundStepsOntoObstacle | 2024/python/src/advent_of_code/day06/day06.py:137-141 | as written, a guard with obstacles ahead and to its right turns once and steps onto an obstacle |
| GuardGallivant.TurnUntilFree | 2024/python/src/advent_of_code/day06/day06.py:138-139 | turning until the way ahead is free leaves the position and the record alone, and the way ahead free |
| GuardGallivant.RoundTurningUntilFree | 2024/python/src/advent_of_code/day06/day06.py:137-141 | a round that turns until free never lands on an obstacle |
| GuardGallivant.RoundsAgree | 2024/python/src/advent_of_code/day06/day06.py:137-141 | where one turn suffices, turning until free is the source's round |
| GuardGallivant.WalkAvoidsObstacles | 2024/python/src/advent_of_code/day06/day06.py:137-143 | a walk that turns until free never stands on or records an obstacle |
| GuardGallivant.CellsSpec | 2024/python/src/advent_of_code/day06/day06.py:98-105 | the obstacle set holds exactly the positions holding the symbol |
| GuardGallivant.PartOne | 2024/python/src/advent_of_code/day06/day06.py:127-143 | part one: no rows raise, no guard gives 0, otherwise the number of positions the walk records, when it ends within the rounds allowed |
| GuardGallivant.Patrol | 2024/python/src/advent_of_code/day06/day06.py:137-141 | the loop does the walk's rounds and ends exactly when the walk does, in the walk's final state |
| BridgeRepair.NextNodeValue | 2024/python/src/advent_of_code/day07/day07.py:23-30 | `+` adds, `*` multiplies and any other operator gives 0 |
| BridgeRepair.Assign | 2024/python/src/advent_of_code/day07/day07.py:47 | after `next[operator] = node` the operator maps to that node, every other operator keeps its branch, and no branch is lost or invented |
| BridgeRepair.AnyHasIff | 2024/python/src/advent_of_code/day07/day07.py:56-61 | the `or` over the children holds exactly when some child has the value |
| BridgeRepair.AssignSpec | 2024/python/src/advent_of_code/day07/day07.py:39-47 | each assignment keeps the children one per operator, each built for its operator, and adds that operator |
| BridgeRepair.PopulateSpec | 2024/python/src/advent_of_code/day07/day07.py:32-47 | populating leaves a leaf only with no operator to apply, and otherwise one child per operator, each built for it |
| BridgeRepair.HasGrow | 2024/python/src/advent_of_code/day07/day07.py:32-61 | the subtree grown from a value has a target exactly when some choice of operators, applied left to right to the remaining operands, reaches it |
| BridgeRepair.PopulatedHas | 2024/python/src/advent_of_code/day07/day07.py:32-61 | a populated node has a target exactly when some operator applied to the next operand leads to a value that reaches it |
| BridgeRepair.ContainsResultIff | 2024/python/src/advent_of_code/day07/day07.py:98-108 | the trie contains a result exactly when there are at least two operands and some operators applied left to right turn them into it |
| BridgeRepair.OnePerOperator | 2024/python/src/advent_of_code/day07/day07.py:39-47 | one branch per operator, in order, each the child built for it |
| BridgeRepair.PopulateDistinct | 2024/python/src/advent_of_code/day07/day07.py:39-47 | with distinct operators the children are exactly one per operator, in the order given |
| BridgeRepair.ChildShape | 2024/python/src/advent_of_code/day07/day07.py:35-43 | a child at the last operand is a leaf; otherwise it has one child per operator |
| BridgeRepair.RootShape | 2024/python/src/advent_of_code/day07/day07.py:15-21 | the root holds the first operand as value and operand, with one child per operator |
| BridgeRepair.ContainsFive | 2024/python/tests/test_day07.py:110-113 | the trie of 1, 2, 3 with `+` and `*` contains 5 |
| BridgeRepair.EquationFromStr | 2024/python/src/advent_of_code/day07/day07.py:134-139 | a line without ':' raises; otherwise the result is the part before the colon and the operands the words after it, each read with `int` |
| BridgeRepair.EquationFromParts | 2024/python/src/advent_of_code/day07/day07.py:134-139 | a line of exactly two parts that read gives that equation |
| BridgeRepair.EquationFromText | 2024/python/src/advent_of_code/day07/day07.py:134-139 | an equation written as "result: operands" reads back as itself |
| BridgeRepair.CalibrationValueSpec | 2024/python/src/advent_of_code/day07/day07.py:163-167 | an equation adds its result exactly when it is solvable with the operators, nothing otherwise, and raises only without operands |
| BridgeRepair.CalibrationFails | 2024/python/src/advent_of_code/day07/day07.py:162-169 | the sum raises exactly when some equation has no operands |
| BridgeRepair.CalibrationStep | 2024/python/src/advent_of_code/day07/day07.py:163-167 | each equation adds its value to the sum so far |
| BridgeRepair.CalibrationConcat | 2024/python/src/advent_of_code/day07/day07.py:162-169 | the sum splits over consecutive groups of equations |
| BridgeRepair.GetEquations | 2024/python/src/advent_of_code/day07/day07.py:158-160 | the loop reads every line as an equation, raising on the first that does not read |
| BridgeRepair.TotalCalibration | 2024/python/src/advent_of_code/day07/day07.py:162-167 | the summing loop's total is `Calibration`: each equation adds its result when its trie holds it, and an equation without operands gives `None` |
| BridgeRepair.PartOne | 2024/python/src/advent_of_code/day07/day07.py:157-169 | part one sums the results of the equations solvable with `+` and `*` |
| SonarSweeper.Gaps | rust/advent_of_code/src/e1_sonar_sweeper/mod.rs:19-30 | the number of measurements larger than the one a fixed distance before never exceeds the number of such pairs |
| SonarSweeper.AllIncreases | rust/advent_of_code/src/e1_sonar_sweeper/mod.rs:19-30 | every measurement after the first is an increase exactly when the measurements strictly increase |
| SonarSweeper.CountIncreases | rust/advent_of_code/src/e1_sonar_sweeper/mod.rs:19-30 | the loop counts the measurements that are larger than the one before them |
| SonarSweeper.CountIncreasesExample | rust/advent_of_code/src/e1_sonar_sweeper/mod.rs:68-72 | the measurements 1, 2, 2, 3, 3, 4 have three increases |
| SonarSweeper.WindowSums | rust/advent_of_code/src/e1_sonar_sweeper/mod.rs:33-42 | one sum per window of three consecutive measurements, each the sum of those three |
| SonarSweeper.GroupMeasurementsByWindows | rust/advent_of_code/src/e1_sonar_sweeper/mod.rs:33-42 | panics (the length minus 2 underflows) exactly when there are fewer than two measurements, and otherwise yields the window sums |
| SonarSweeper.SameWindows | rust/advent_of_code/src/e1_sonar_sweeper/mod.rs:33-42 | any sequence holding the sum of the three measurements at each window start is the sequence of window sums |
| SonarSweeper.WindowSumsExample | rust/advent_of_code/src/e1_sonar_sweeper/mod.rs:62-66 | the measurements 1 to 6 group into the sums 6, 9, 12, 15 |
| SonarSweeper.WindowIncreases | rust/advent_of_code/src/e1_sonar_sweeper/mod.rs:12-16 | an increase between consecutive window sums is an increase between measurements three apart, so part two counts those |
| SonarSweeperCpp.Decrement32 | 1_sonar_sweeper/main.cpp:31 | the final decrement of the unsigned 32-bit counter wraps from 0 to 2^32 - 1 and otherwise subtracts one |
| SonarSweeperCpp.CountFromZero | 1_sonar_sweeper/main.cpp:20-29 | starting the comparison from a previous value of 0 adds one increase exactly when the first measurement is above 0 |
| SonarSweeperCpp.CalculateLargerMeasurements | 1_sonar_sweeper/main.cpp:20-34 | the count is the number of increases over the measurements preceded by 0, minus one in 32-bit arithmetic |
| SonarSweeperCpp.LargerMeasurementsIff | 1_sonar_sweeper/main.cpp:20-34 | on non-empty input the reported count equals the true number of increases exactly when the first measurement is above 0 |
| SonarSweeperCpp.NoMeasurements | 1_sonar_sweeper/main.cpp:20-34 | with no measurements the reported count wraps to 2^32 - 1 |
| SonarSweeperCpp.WindowSum | 1_sonar_sweeper/main.cpp:45-48 | the inner loop sums the three measurements starting at the window's index |
| SonarSweeperCpp.CalculateLargerMeasurementsByWindows | 1_sonar_sweeper/main.cpp:36-61 | the count is the number of increases over the window sums preceded by 0, minus one in 32-bit arithmetic |
| SonarSweeperCpp.WindowCountIff | 1_sonar_sweeper/main.cpp:36-61 | with three or more measurements the reported count equals the number of measurements larger than the one three before exactly when the first window sum is above 0 |
| Dive.ParseStringCommand | rust/advent_of_code/src/e2_dive/mod.rs:17-33 | a line gives at most one command, and a line with fewer than two words panics |
| Dive.ParseCommands | rust/advent_of_code/src/e2_dive/mod.rs:15-36 | the commands of the lines in order, never more than one per line; a line that panics fails them all |
| Dive.ParseStringCommands | rust/advent_of_code/src/e2_dive/mod.rs:15-36 | the loop pushes exactly the commands of the lines, in order, and panics when any line does |
| Dive.ParseCommandsFail | rust/advent_of_code/src/e2_dive/mod.rs:15-36 | a line that panics makes every longer input panic too |
| Dive.CommandWords | rust/advent_of_code/src/e2_dive/mod.rs:17-20 | the text of a command splits into its word and its value |
| Dive.ParseCommandText | rust/advent_of_code/src/e2_dive/mod.rs:17-31 | the text of a command whose value fits in a u32 parses back into that command |
| Dive.UnknownWordDropped | rust/advent_of_code/src/e2_dive/mod.rs:32 | a line whose first word is not a command name gives no command and no panic |
| Dive.ParseCommandTexts | rust/advent_of_code/src/e2_dive/mod.rs:86-94 | the texts of any commands with u32 values parse back into the same commands, in order |
| Dive.ParseCommandsAppend | rust/advent_of_code/src/e2_dive/mod.rs:15-36 | parsing one more line appends its command to the ones already parsed |
| Dive.DriveTotals | rust/advent_of_code/src/e2_dive/mod.rs:57-75 | after driving, the horizontal position has grown by the sum of the forwards and the depth by the downs less the ups |
| Dive.CanDriveIff | rust/advent_of_code/src/e2_dive/mod.rs:71-73 | driving never takes the u32 depth below 0 exactly when, at every prefix, the ups add up to no more than the start depth plus the downs |
| Dive.Submarine.constructor | rust/advent_of_code/src/e2_dive/mod.rs:45-54 | a default submarine is at horizontal 0 and depth 0 |
| Dive.Submarine.ParseCommand | rust/advent_of_code/src/e2_dive/mod.rs:63-75 | forward adds to the horizontal position, down adds to the depth and up subtracts from it |
| Dive.Submarine.Drive | rust/advent_of_code/src/e2_dive/mod.rs:57-61 | the submarine ends where the commands, applied in order, take it |
| Dive.DriveExample | rust/advent_of_code/src/e2_dive/mod.rs:129-134 | the test commands drive from the surface to horizontal 15 and depth 10 |
| Dive.DriveExampleSubmarine | rust/advent_of_code/src/e2_dive/mod.rs:123-134 | the test drive gives an overall position of 150 |
| DiveCpp.Stoul | 2021/cpp/2_dive/main.cpp:53 | the number read after the space never exceeds the largest unsigned long |
| DiveCpp.Truncate32 | 2021/cpp/2_dive/main.cpp:53 | storing the unsigned long in a uint32_t keeps it below 2^32 and leaves values that fit unchanged |
| DiveCpp.MakeInstruction | 2021/cpp/2_dive/main.cpp:54-61 | the instruction has the type its word names, and the invalid instruction carries 0 |
| DiveCpp.GetInstruction | 2021/cpp/2_dive/main.cpp:51-62 | a line without a space throws, and any instruction read has a 32-bit value |
| DiveCpp.Step | 2021/cpp/2_dive/main.cpp:21-31 | forward adds the value to the horizontal position and the aim times the value to the depth; down and up change only the aim, by the value |
| DiveCpp.Processor.constructor | 2021/cpp/2_dive/main.cpp:17 | the position, the depth and the aim all start at 0 |
| DiveCpp.Processor.ProcessLine | 2021/cpp/2_dive/main.cpp:19-35 | the line is processed exactly when it reads as a valid instruction, which is then applied; otherwise it throws and nothing changes |
| DiveCpp.Processor.Product | 2021/cpp/2_dive/main.cpp:37-40 | the reported product of the two `uint32_t` values wraps below 2^32 and is exact when it fits |
| DiveCpp.StoulShown | 2021/cpp/2_dive/main.cpp:53 | a space followed by a written number reads back as that number |
| DiveCpp.GetInstructionOfParts | 2021/cpp/2_dive/main.cpp:51-62 | a word without spaces, a space and a readable 32-bit number give the instruction that word names with that value |
| DiveCpp.SpaceAfterWord | 2021/cpp/2_dive/main.cpp:52-53 | the first space of such a line separates the word from the number |
| DiveCpp.GetInstructionOfCommand | 2021/cpp/2_dive/main.cpp:51-62 | the command lines of the part-one format read here as the same instructions |
| DiveCpp.AimIsDepth | 2021/cpp/2_dive/main.cpp:19-35 | over the same commands the aim moves exactly as the part-one depth does, and the horizontal position is the same |
| BinaryDiagnostic.Pow2Of32 | rust/advent_of_code/src/e3_binary_diagnostic.rs:81-83 | 2^32 is one more than the largest u32, the bound a parsed rate must respect |
| BinaryDiagnostic.IntFromBinaryString | rust/advent_of_code/src/e3_binary_diagnostic.rs:81-83 | a parsed binary string never exceeds the largest u32 |
| BinaryDiagnostic.IntFromToBinary | rust/advent_of_code/src/e3_binary_diagnostic.rs:81-83 | the fixed-width binary string of any u32 value parses back into that value |
| BinaryDiagnostic.IntFromBinaryStringExample | rust/advent_of_code/src/e3_binary_diagnostic.rs:127-130 | "01100" parses as 12 |
| BinaryDiagnostic.InvertBinaryString | rust/advent_of_code/src/e3_binary_diagnostic.rs:85-93 | the inverted string has the same length and holds only binary digits |
| BinaryDiagnostic.InvertInvert | rust/advent_of_code/src/e3_binary_diagnostic.rs:85-93 | inverting a binary string twice gives it back |
| BinaryDiagnostic.InvertExample | rust/advent_of_code/src/e3_binary_diagnostic.rs:139-143 | "01010" inverts to "10101" |
| BinaryDiagnostic.InvertComplement | rust/advent_of_code/src/e3_binary_diagnostic.rs:85-93 | a binary string and its inversion are worth 2^width - 1 together |
| BinaryDiagnostic.BalanceCounts | rust/advent_of_code/src/e3_binary_diagnostic.rs:59-70 | the counter of a position is the number of lines with something other than '0' there less the number with '0' |
| BinaryDiagnostic.Balances | rust/advent_of_code/src/e3_binary_diagnostic.rs:59-70 | one counter per character of the first line, each the balance of its position; no counters without lines |
| BinaryDiagnostic.BalancesFail | rust/advent_of_code/src/e3_binary_diagnostic.rs:59-70 | the counting panics exactly when there are no lines or some line is longer than the first |
| BinaryDiagnostic.CountBits | rust/advent_of_code/src/e3_binary_diagnostic.rs:60-70 | the counting loop computes exactly those counters, or panics when they do not exist |
| BinaryDiagnostic.MostRepeatedBits | rust/advent_of_code/src/e3_binary_diagnostic.rs:59-79 | fails exactly when the counting panics; otherwise one binary digit per position of the first line, '1' where the counter is at least 0 |
| BinaryDiagnostic.MostRepeatedTiesToOne | rust/advent_of_code/src/e3_binary_diagnostic.rs:72-78 | a position's bit is '1' exactly when at least as many lines have something other than '0' there as have '0' |
| BinaryDiagnostic.GetMostRepeatedBit | rust/advent_of_code/src/e3_binary_diagnostic.rs:59-79 | the counting loop and the mapping of the counters give the bits above |
| BinaryDiagnostic.GammaEpsilonComplement | rust/advent_of_code/src/e3_binary_diagnostic.rs:29-35 | the gamma and epsilon rates add up to 2^width - 1, the width being that of the first line |
| BinaryDiagnostic.PowerOfGamma | rust/advent_of_code/src/e3_binary_diagnostic.rs:9-12 | the power consumption is the gamma rate times its complement within that width |
| BinaryDiagnostic.KeepMembers | rust/advent_of_code/src/e3_binary_diagnostic.rs:95-100 | a line is kept exactly when it is a line of the input whose character at the position is the mask's |
| BinaryDiagnostic.KeepConcat | rust/advent_of_code/src/e3_binary_diagnostic.rs:95-100 | retaining lines from two runs of lines is retaining from each and joining the results |
| BinaryDiagnostic.FilterBySameBit | rust/advent_of_code/src/e3_binary_diagnostic.rs:95-100 | the filter panics exactly when some line, or the mask when there is a line, is too short for the position |
| BinaryDiagnostic.MostCommonKeepsOne | rust/advent_of_code/src/e3_binary_diagnostic.rs:102-105 | among binary lines of one width, filtering on the most common bit keeps at least one line |
| BinaryDiagnostic.OnesZerosCover | rust/advent_of_code/src/e3_binary_diagnostic.rs:59-70 | when every line reaches the position, the lines with '0' there and the others are all the lines |
| BinaryDiagnostic.HasOne | rust/advent_of_code/src/e3_binary_diagnostic.rs:102-105 | when some binary line has a '1' at the position, one is found |
| BinaryDiagnostic.HasZero | rust/advent_of_code/src/e3_binary_diagnostic.rs:107-110 | when some line has a '0' at the position, one is found |
| BinaryDiagnostic.RefineKeepsLines | rust/advent_of_code/src/e3_binary_diagnostic.rs:37-57 | every line left by the filtering loop is a line it started with |
| BinaryDiagnostic.RatingIsALine | rust/advent_of_code/src/e3_binary_diagnostic.rs:37-57 | a rating is the value of one of the lines of the report |
| BinaryDiagnostic.LifeSupportOfLines | rust/advent_of_code/src/e3_binary_diagnostic.rs:14-27 | the life support is the product of the values of two lines of the report, the one each filter keeps |
| BinaryDiagnostic.FilterLoop | rust/advent_of_code/src/e3_binary_diagnostic.rs:38-44 | the loop reassigns the lines to the filtered ones, position by position, stopping as soon as one line is left |
| BinaryDiagnostic.GetOxygenGeneratorRating | rust/advent_of_code/src/e3_binary_diagnostic.rs:37-46 | the oxygen rating is the first line left after filtering on the most common bits |
| BinaryDiagnostic.GetCo2ScrubberRating | rust/advent_of_code/src/e3_binary_diagnostic.rs:48-57 | the CO2 rating is the first line left after filtering on the least common bits |
| BinaryDiagnosticPower.MostRepeatedBitsTiesToZero | rust/advent_of_code/src/e3_binary_diagnostic/mod.rs:18-38 | fails exactly when the counting panics; otherwise one binary digit per position of the first line, '1' only where the counter is above 0 |
| BinaryDiagnosticPower.MostRepeatedTiesToZero | rust/advent_of_code/src/e3_binary_diagnostic/mod.rs:18-38 | a position's bit is '1' exactly when more lines have something other than '0' there than have '0' |
| BinaryDiagnosticPower.TiesDiffer | rust/advent_of_code/src/e3_binary_diagnostic/mod.rs:31-37 | this version and the complete one fail on the same reports and pick different bits exactly where the counts tie |
| BinaryDiagnosticPower.GetMostRepeatedBit | rust/advent_of_code/src/e3_binary_diagnostic/mod.rs:18-38 | the counting loop and the mapping of the counters give the bits above |
| BinaryDiagnosticPower.PowerOfGammaTiesToZero | rust/advent_of_code/src/e3_binary_diagnostic/mod.rs:3-16 | the power consumption is the gamma rate times its complement within the width of the first line |
| BinaryDiagnosticPower.PowerConsumptionDefined | rust/advent_of_code/src/e3_binary_diagnostic/mod.rs:8-15 | a report whose counting does not panic and whose first line has 1 to 16 characters always has a power consumption, since both rates are then below 2^16 and their `u32` product cannot overflow |
| BinaryDiagnosticCpp.AddLine | cpp/3_binary_diagnostic/main.cpp:12-22 | one more line leaves as many counters as before |
| BinaryDiagnosticCpp.AddLines | cpp/3_binary_diagnostic/main.cpp:149-151 | the lines, fed in order, leave as many counters as before |
| BinaryDiagnosticCpp.AddLinesBalance | cpp/3_binary_diagnostic/main.cpp:12-22 | over binary lines each counter ends as the Rust version's counter of its position |
| BinaryDiagnosticCpp.GammaBits | cpp/3_binary_diagnostic/main.cpp:39-49 | one binary digit per counter |
| BinaryDiagnosticCpp.Signs | cpp/3_binary_diagnostic/main.cpp:39-44 | every counter is overwritten by its bit, so as many counters remain |
| BinaryDiagnosticCpp.SignsStep | cpp/3_binary_diagnostic/main.cpp:39-47 | each step of the for_each turns one more counter into its bit and appends that bit and its negation to the two strings |
| BinaryDiagnosticCpp.GammaMatchesRust | cpp/3_binary_diagnostic/main.cpp:36-57 | for binary lines of twelve characters the gamma bits are the Rust version's most repeated bits, ties going to 1 in both |
| BinaryDiagnosticCpp.Tally | cpp/3_binary_diagnostic/main.cpp:24-34 | the unbounded count lies between minus and plus the number of values |
| BinaryDiagnosticCpp.Wrap8 | cpp/3_binary_diagnostic/main.cpp:25-31 | the int8_t count stays in -128..127 and is unchanged there |
| BinaryDiagnosticCpp.Count8IsWrappedTally | cpp/3_binary_diagnostic/main.cpp:25-31 | wrapping the count at every step is wrapping the unbounded count once |
| BinaryDiagnosticCpp.WrapAdd | cpp/3_binary_diagnostic/main.cpp:28-30 | adding to a wrapped count and wrapping again is wrapping the sum |
| BinaryDiagnosticCpp.MostCommonBitAgrees | cpp/3_binary_diagnostic/main.cpp:24-34 | with up to 127 values the int8_t count cannot wrap, and the most common bit is the intended one |
| BinaryDiagnosticCpp.MostCommonBitWraps | cpp/3_binary_diagnostic/main.cpp:24-34 | 128 values with a '1' at position 0 make the int8_t count wrap, so the most common bit comes out '0' instead of '1' |
| BinaryDiagnosticCpp.AllOnesTally | cpp/3_binary_diagnostic/main.cpp:24-34 | values without a '0' at the position count one each |
| BinaryDiagnosticCpp.AllZerosTally | cpp/3_binary_diagnostic/main.cpp:24-34 | values with a '0' at the position take one off each |
| BinaryDiagnosticCpp.TallyIsBalance | cpp/3_binary_diagnostic/main.cpp:24-34 | where every value reaches the position, the count is the Rust version's counter and the most common bit its most repeated bit |
| BinaryDiagnosticCpp.CopyIf | cpp/3_binary_diagnostic/main.cpp:83-87 | the copied values are exactly the values whose character at the position is the wanted one, and no more of them |
| BinaryDiagnosticCpp.MaxLength | cpp/3_binary_diagnostic/main.cpp:73-90 | no value is longer than the measure of the recursion |
| BinaryDiagnosticCpp.MaxLengthOfSubset | cpp/3_binary_diagnostic/main.cpp:83-89 | values drawn from others are no longer than the longest of those |
| BinaryDiagnosticCpp.FilterMeasureDecreases | cpp/3_binary_diagnostic/main.cpp:83-89 | the recursion on the copied values and the next bit has less left to check |
| BinaryDiagnosticCpp.FilterByBitCriteria | cpp/3_binary_diagnostic/main.cpp:72-90 | a rating the filter returns is one of the measurements |
| BinaryDiagnosticCpp.CopyIfDistinct | cpp/3_binary_diagnostic/main.cpp:83-87 | copying keeps distinct values distinct |
| BinaryDiagnosticCpp.OxygenFound | cpp/3_binary_diagnostic/main.cpp:59-61 | among distinct binary values of one width the oxygen generator filter always returns |
| BinaryDiagnosticCpp.FilterOfOne | cpp/3_binary_diagnostic/main.cpp:74-76 | a single value is the answer of the filter |
| BinaryDiagnosticCpp.OxygenStep | cpp/3_binary_diagnostic/main.cpp:78-89 | one oxygen step over distinct values of one width keeps a non-empty distinct set that shares one more bit |
| BinaryDiagnosticCpp.BitsLeft | cpp/3_binary_diagnostic/main.cpp:72-90 | distinct values of one width that share a prefix and are more than one leave bits to check |
| BinaryDiagnosticCpp.FilterStep | cpp/3_binary_diagnostic/main.cpp:78-89 | with more than one value the filter recurses on the values copied for the bit it picks |
| BinaryDiagnosticCpp.BarShares | cpp/3_binary_diagnostic/main.cpp:83-89 | the values copied for the bit after a shared prefix share that prefix and that bit |
| BinaryDiagnosticCpp.BarNotEmpty | cpp/3_binary_diagnostic/main.cpp:78-87 | among binary values some value holds the most common bit, so the oxygen copy is never empty |
| BinaryDiagnosticCpp.Co2CanHang | cpp/3_binary_diagnostic/main.cpp:59-61 | the CO2 filter can empty the list and never return: "00" and "01" leave no value with the least common first bit |
| BinaryDiagnosticCpp.Processor.constructor | cpp/3_binary_diagnostic/main.cpp:10 | the counters and both rates start at 0 |
| BinaryDiagnosticCpp.Processor.ProcessLine | cpp/3_binary_diagnostic/main.cpp:12-22 | each '0' takes one off the counter of its position and each '1' adds one; other counters are untouched |
| BinaryDiagnosticCpp.Processor.GetMostCommonBit | cpp/3_binary_diagnostic/main.cpp:24-34 | the loop computes the most common bit with its int8_t count wrapping as written |
| BinaryDiagnosticCpp.Processor.TakeBits | cpp/3_binary_diagnostic/main.cpp:39-50 | every counter becomes its bit, the gamma string takes the bits and the epsilon string their negations |
| BinaryDiagnosticCpp.Processor.CalculateGammaAndEpsilonRates | cpp/3_binary_diagnostic/main.cpp:36-57 | the gamma and epsilon strings come from the counters and the rates are their values; the ratings are untouched |
| BinaryDiagnosticCpp.Processor.CalculateOxygenAndCo2Ratings | cpp/3_binary_diagnostic/main.cpp:59-70 | the two ratings are the filters' results from the first bit and their values; the rates are untouched |
| BinaryDiagnosticCpp.Processor.PowerConsumption | cpp/3_binary_diagnostic/main.cpp:95 | the reported product wraps below 2^32 and is exact when it fits |
| BinaryDiagnosticCpp.Processor.LifeSupport | cpp/3_binary_diagnostic/main.cpp:101 | the reported product wraps below 2^32 and is exact when it fits |
| BinaryDiagnosticCpp.Processor.BinToInt | cpp/3_binary_diagnostic/main.cpp:117-127 | each '1' adds two to the power of the digits after it, giving the base-2 value, below 2^32 |
| BinaryDiagnosticCpp.RatesComplement | cpp/3_binary_diagnostic/main.cpp:45-53 | the gamma and epsilon rates of any counters add up to all ones over their width |
| BinaryDiagnosticCpp.BinToIntStep | cpp/3_binary_diagnostic/main.cpp:120-125 | one more digit of the loop adds the power of the new digit to the shifted value |
| BinaryDiagnosticCpp.BinaryValueFits | cpp/3_binary_diagnostic/main.cpp:117-127 | up to 32 digits a value fits in uint32_t |
| BinaryDiagnosticCpp.Diagnose | cpp/3_binary_diagnostic/main.cpp:130-162 | for binary lines of twelve characters, the gamma bits are the most repeated bits, the two rates add up to 2^12 - 1, and the ratings are the filters' results |
| GiantSquid.NewNumber | rust/advent_of_code/src/e4_giant_squid.rs:33-38 | a number is created exactly when its text parses as a u32, with that value and unmarked |
| GiantSquid.NewNumberShown | rust/advent_of_code/src/e4_giant_squid.rs:164-168 | the written form of any u32 value creates the unmarked number of that value |
| GiantSquid.Mark | rust/advent_of_code/src/e4_giant_squid.rs:40-46 | marking keeps the value and leaves the number marked |
| GiantSquid.Column | rust/advent_of_code/src/e4_giant_squid.rs:94-104 | the column of a grid holds, row by row, the cells at that column index |
| GiantSquid.Hits | rust/advent_of_code/src/e4_giant_squid.rs:94-104 | no more cells match a drawn value than there are cells |
| GiantSquid.Marked | rust/advent_of_code/src/e4_giant_squid.rs:110-118 | no more cells are marked than there are cells |
| GiantSquid.MarkCell | rust/advent_of_code/src/e4_giant_squid.rs:97-101 | a cell holding the drawn value becomes marked with its value kept; any other cell is unchanged |
| GiantSquid.MarkCells | rust/advent_of_code/src/e4_giant_squid.rs:96-102 | marking a row marks each of its cells on its own |
| GiantSquid.MarkAll | rust/advent_of_code/src/e4_giant_squid.rs:94-104 | marking the grid marks every row, and a full grid stays full |
| GiantSquid.RowsAfter | rust/advent_of_code/src/e4_giant_squid.rs:99 | each row's line count grows by the number of its cells that hold the drawn value |
| GiantSquid.ColsAfter | rust/advent_of_code/src/e4_giant_squid.rs:100 | each column's line count grows by the number of its cells that hold the drawn value |
| GiantSquid.Unmarked | rust/advent_of_code/src/e4_giant_squid.rs:110-118 | the unmarked numbers of a row and its marked cells make up all its cells |
| GiantSquid.UnmarkedMembers | rust/advent_of_code/src/e4_giant_squid.rs:110-118 | a number is listed exactly when it is unmarked and sits in the row |
| GiantSquid.NotMarkedRowsMembers | rust/advent_of_code/src/e4_giant_squid.rs:110-118 | over the first rows, a number is listed exactly when it is unmarked and sits in one of them |
| GiantSquid.NotMarkedRowsCount | rust/advent_of_code/src/e4_giant_squid.rs:110-118 | over the first rows, the unmarked numbers and the marked cells make up all the cells |
| GiantSquid.NotMarkedMembers | rust/advent_of_code/src/e4_giant_squid.rs:110-118 | a number is listed exactly when it is unmarked and sits somewhere on the board, and the listed and marked numbers make up all 25 cells |
| GiantSquid.DrawnNotCounted | rust/advent_of_code/src/e4_giant_squid.rs:12-14 | after a number is drawn no unmarked number of the board has its value, so it never enters the score |
| GiantSquid.MarkAllIdempotent | rust/advent_of_code/src/e4_giant_squid.rs:94-104 | marking the same value twice leaves the cells as marking it once, and a cell ends marked exactly when it was marked or holds the value |
| GiantSquid.ColumnOfMarked | rust/advent_of_code/src/e4_giant_squid.rs:94-104 | the columns of the marked grid are the marked columns |
| GiantSquid.MarkedAfterMark | rust/advent_of_code/src/e4_giant_squid.rs:97-100 | marking adds at most the hits to the marked cells of a line, and exactly the hits when none of them was marked |
| GiantSquid.AllMarked | rust/advent_of_code/src/e4_giant_squid.rs:120-134 | a line's marked count is its length exactly when every cell of it is marked |
| GiantSquid.MarkKeepsConsistent | rust/advent_of_code/src/e4_giant_squid.rs:94-104 | when the drawn value is on no marked cell, marking keeps every line count equal to the marked cells of its line |
| GiantSquid.DrawnTwiceOvercounts | rust/advent_of_code/src/e4_giant_squid.rs:94-104 | a value on the board drawn twice is counted twice, so the line counts no longer match the marked cells |
| GiantSquid.HitsPositive | rust/advent_of_code/src/e4_giant_squid.rs:97 | a line with a cell holding the value has a hit |
| GiantSquid.WinsIffBingo | rust/advent_of_code/src/e4_giant_squid.rs:120-134 | while the counts match the marks, a line count of 5 means exactly that a whole row or column is marked |
| GiantSquid.BoardCells | rust/advent_of_code/src/e4_giant_squid.rs:77-92 | the cells of a board text form a 5 by 5 grid |
| GiantSquid.GridOf | rust/advent_of_code/src/e4_giant_squid.rs:84-89 | the cells of the lines form a 5 by 5 grid |
| GiantSquid.BoardCellsFull | rust/advent_of_code/src/e4_giant_squid.rs:77-92 | a new board has nothing marked, and every cell is filled exactly when the text has five lines of five numbers |
| GiantSquid.GridOfFull | rust/advent_of_code/src/e4_giant_squid.rs:84-89 | the same for the lines of the text |
| GiantSquid.RowTextWords | rust/advent_of_code/src/e4_giant_squid.rs:179-186 | the text of a row of values splits into their written forms and holds no line break |
| GiantSquid.BoardTextLines | rust/advent_of_code/src/e4_giant_squid.rs:179-186 | the text of the rows splits into one line per row, each splitting into its values |
| GiantSquid.BoardOfRows | rust/advent_of_code/src/e4_giant_squid.rs:177-187 | the text of five rows of five u32 values builds a board whose cells hold those values, unmarked |
| GiantSquid.BoardOfLines | rust/advent_of_code/src/e4_giant_squid.rs:84-89 | five lines whose words are the written values of five rows build the board of those values |
| GiantSquid.HitsUpToAll | rust/advent_of_code/src/e4_giant_squid.rs:96-102 | the hits counted up to a column are the hits of the cells before it |
| GiantSquid.MarkedAll | rust/advent_of_code/src/e4_giant_squid.rs:94-104 | after the loop over every row, the cells and the line counts are those of marking the whole grid |
| GiantSquid.Board.constructor | rust/advent_of_code/src/e4_giant_squid.rs:77-92 | a new board holds the cells of its text and all line counts at 0 |
| GiantSquid.Board.FillRow | rust/advent_of_code/src/e4_giant_squid.rs:85-88 | filling a row sets its cells from the words of its line and leaves the others as they were |
| GiantSquid.Board.Row | rust/advent_of_code/src/e4_giant_squid.rs:94-104 | a row holds the cells of the board at that row |
| GiantSquid.Board.Cells | rust/advent_of_code/src/e4_giant_squid.rs:56-61 | the grid holds every row of the board |
| GiantSquid.Board.MarkNumber | rust/advent_of_code/src/e4_giant_squid.rs:94-104 | the cells become the marked grid and each line count grows by the hits of its line |
| GiantSquid.Board.AdvanceRow | rust/advent_of_code/src/e4_giant_squid.rs:95-103 | one more row of the loop is marked and counted |
| GiantSquid.Board.MarkRow | rust/advent_of_code/src/e4_giant_squid.rs:96-102 | a row is marked and counted while the other rows are unchanged |
| GiantSquid.Board.MarkAt | rust/advent_of_code/src/e4_giant_squid.rs:97-101 | a cell holding the value is marked and its row and column counts grow by one; otherwise nothing changes |
| GiantSquid.Board.IsWinner | rust/advent_of_code/src/e4_giant_squid.rs:120-134 | the board wins exactly when some row or column count is 5 |
| GiantSquid.Board.GetNumber | rust/advent_of_code/src/e4_giant_squid.rs:106-108 | the number at one-based row and column is the cell at the zero-based place; it fails, as the source panics, for a row or column of 0 or past 5 and for an empty cell |
| GiantSquid.Board.GetNotMarkedNumbers | rust/advent_of_code/src/e4_giant_squid.rs:110-118 | the unmarked numbers of the board, row by row |
| GiantSquid.GetNumberOfText | rust/advent_of_code/src/e4_giant_squid.rs:177-187 | the number at one-based row and column of a new board is the word at that place of its text |
| GiantSquid.GetBingoNumbers | rust/advent_of_code/src/e4_giant_squid.rs:137-142 | the drawn numbers are one per comma-separated piece of the first line, none marked |
| GiantSquid.ParseNumbers | rust/advent_of_code/src/e4_giant_squid.rs:140 | the pieces parse exactly when each is a u32, and none is marked |
| GiantSquid.GetBingoNumbersPanics | rust/advent_of_code/src/e4_giant_squid.rs:137-142 | reading the numbers panics exactly when there is no first line or one of its pieces is not a u32 |
| GiantSquid.Fresh | rust/advent_of_code/src/e4_giant_squid.rs:140 | unmarked numbers of the given values, in order |
| GiantSquid.ParseShown | rust/advent_of_code/src/e4_giant_squid.rs:140 | the written forms of u32 values parse into those values, unmarked |
| GiantSquid.ParseShownNumbers | rust/advent_of_code/src/e4_giant_squid.rs:140 | the comma-joined written forms of u32 values split and parse back into those values |
| GiantSquid.ShownNumbersLine | rust/advent_of_code/src/e4_giant_squid.rs:138-139 | the joined numbers hold no line break, so they form one line |
| GiantSquid.BingoNumbersOfText | rust/advent_of_code/src/e4_giant_squid.rs:241-269 | a first line of comma-joined u32 values gives back those values as the drawn numbers |
| GiantSquid.ScanCount | rust/advent_of_code/src/e4_giant_squid.rs:144-158 | one board text is cut per blank line, the appended empty line included |
| GiantSquid.ScanBlock | rust/advent_of_code/src/e4_giant_squid.rs:149-156 | the non-empty lines before a blank line become one trimmed board text |
| GiantSquid.TrimLineFeed | rust/advent_of_code/src/e4_giant_squid.rs:151 | a leading line feed is trimmed away |
| GiantSquid.TrimmedBlocks | rust/advent_of_code/src/e4_giant_squid.rs:151 | one trimmed text per block of lines |
| GiantSquid.ScanBlocks | rust/advent_of_code/src/e4_giant_squid.rs:144-158 | blocks separated by blank lines become their trimmed texts, in order |
| GiantSquid.BoardTextsOfBlocks | rust/advent_of_code/src/e4_giant_squid.rs:144-158 | after the numbers line and a blank line, each block of board lines becomes one board text |
| GiantSquid.BlockOfRows | rust/advent_of_code/src/e4_giant_squid.rs:151 | the trimmed block of a board's row texts is the board text |
| GiantSquid.BlockIsJoin | rust/advent_of_code/src/e4_giant_squid.rs:154-155 | pushing each line and a line feed joins the lines with line feeds and ends with one |
| GiantSquid.RowTextEnds | rust/advent_of_code/src/e4_giant_squid.rs:151 | a row text starts and ends with a digit, so trimming keeps it whole |
| GiantSquid.JoinEnds | rust/advent_of_code/src/e4_giant_squid.rs:151 | joined non-empty parts start with the first part's first character and end with the last part's last |
| GiantSquid.TrimEndLineFeed | rust/advent_of_code/src/e4_giant_squid.rs:151 | a trailing line feed is trimmed off a text that starts and ends with no whitespace |
| GiantSquid.BingoOfText | rust/advent_of_code/src/e4_giant_squid.rs:271-311 | a bingo text of drawn values and boards gives back one board text per board, each building the board of those values |
| GiantSquid.GetBingoBoards | rust/advent_of_code/src/e4_giant_squid.rs:144-158 | the boards are built exactly when every board text can be built, each from its text, as fresh and separate objects |
| GiantSquid.BuildBoards | rust/advent_of_code/src/e4_giant_squid.rs:148-157 | the loop builds one fresh board per text cut from the lines, or panics when a text cannot be built |
| GiantSquid.AppendBoard | rust/advent_of_code/src/e4_giant_squid.rs:151 | one more board is built from its text and pushed, the boards before untouched |
| GiantSquid.Draw | rust/advent_of_code/src/e4_giant_squid.rs:94-104 | marking a board keeps it a board, and a full board stays full |
| GiantSquid.PlayWinner | rust/advent_of_code/src/e4_giant_squid.rs:10-21 | a win names a board that has a full line, a drawn number, and the score: the sum of the board's unmarked numbers times that number |
| GiantSquid.PlayFullNoPanic | rust/advent_of_code/src/e4_giant_squid.rs:10-21 | with every board full the game never panics |
| GiantSquid.DrawTracked | rust/advent_of_code/src/e4_giant_squid.rs:94-104 | drawing a value not drawn before keeps the cells marked exactly for the values drawn |
| GiantSquid.PlayBingo | rust/advent_of_code/src/e4_giant_squid.rs:10-21 | with distinct drawn values, the winning board has a whole row or column marked |
| GiantSquid.MarkBoard | rust/advent_of_code/src/e4_giant_squid.rs:12 | marking one board changes that board's state by the draw and no other |
| GiantSquid.Play | rust/advent_of_code/src/e4_giant_squid.rs:10-21 | the loops over the numbers and the boards reach the result of the game |
| GiantSquid.PlayRound | rust/advent_of_code/src/e4_giant_squid.rs:11-20 | one number is drawn on every board in turn until one wins |
| GiantSquid.PlayBoard | rust/advent_of_code/src/e4_giant_squid.rs:12-19 | one board is marked and checked for a win |
| GiantSquid.InitialStates | rust/advent_of_code/src/e4_giant_squid.rs:6-7 | one state per board text, each a board |
| GiantSquid.BuiltStates | rust/advent_of_code/src/e4_giant_squid.rs:144-158 | the built boards hold the states of their texts |
| GiantSquid.Execute | rust/advent_of_code/src/e4_giant_squid.rs:3-24 | reading the numbers and the boards and playing gives the result of the game |
| GiantSquid.NoneMarked | rust/advent_of_code/src/e4_giant_squid.rs:77-92 | cells none of which is marked have a marked count of 0 |
| GiantSquid.InitialTracked | rust/advent_of_code/src/e4_giant_squid.rs:77-92 | a new board has nothing marked and no value drawn |
| GiantSquid.GameBingo | rust/advent_of_code/src/e4_giant_squid.rs:3-24 | the game's result is that of playing its numbers on its boards; with distinct numbers the winner has a whole line marked, and with full boards it never panics |
| Text.ParseNat | 2022/rust/advent_of_code/src/day5/src/main.rs:67 | an unsigned number is read exactly when the text is a non-empty run of decimal digits |
| Text.ParseU32 | rust/advent_of_code/src/e1_sonar_sweeper/mod.rs:9 | a u32 is read exactly when the text is a decimal number no larger than 2^32 - 1, and it is that number |
| Text.ParseU64 | 2022/rust/advent_of_code/src/day5/src/main.rs:16-18 | a 64-bit `usize` is read exactly when the text is a decimal number no larger than 2^64 - 1, and it is that number |
| Text.ParseI32 | 2022/rust/advent_of_code/src/day10/src/main.rs:17 | an i32 is read exactly when the text is a signed decimal number from -2^31 to 2^31 - 1, and it is that number |
| Text.ParseShowU32 | 2022/rust/advent_of_code/src/day9/src/main.rs:20 | the decimal form of a number below 2^32 reads back as a u32 of that value |
| Text.ParseShowU64 | 2022/rust/advent_of_code/src/day5/src/main.rs:16-18 | the decimal form of a number below 2^64 reads back as a `usize` of that value |
| Text.PyInt | 2024/python/src/advent_of_code/day05/day05.py:15 | Python's `int` on a string reads a plain run of digits as its decimal value, and anything it reads is the signed number left once whitespace around it and underscores are removed |
| Text.PyIntPadded | 2024/python/src/advent_of_code/day05/day05.py:15 | whitespace before and after a number does not change what `int` reads, so "47 " and " 53" read as 47 and 53 |
| Text.PyIntGrouped | 2024/python/src/advent_of_code/day01/day01.py:11 | digits grouped by one underscore read as the digits without it |
| Text.ParseShowNat | rust/advent_of_code/src/e1_sonar_sweeper/mod.rs:9 | the decimal form of any number reads back as that number |
| Text.ParseU32s | rust/advent_of_code/src/e1_sonar_sweeper/mod.rs:8-10 | the lines read as u32 values one each, in order, and fail exactly when one of them does |
| Text.Split | rust/advent_of_code/src/e4_giant_squid.rs:140 | splitting gives at least one piece, none containing the separator |
| Text.JoinSplit | rust/advent_of_code/src/e4_giant_squid.rs:140 | joining the pieces of a split with the separator gives the text back |
| Text.SplitJoin | rust/advent_of_code/src/e4_giant_squid.rs:140 | splitting pieces joined by a separator they lack gives the pieces back |
| Text.Words | rust/advent_of_code/src/e2_dive/mod.rs:18 | whitespace splitting gives non-empty words without whitespace |
| Text.WordsJoin | rust/advent_of_code/src/e2_dive/mod.rs:18 | words joined by single spaces split back into those words |
| Text.Trim | rust/advent_of_code/src/e4_giant_squid.rs:151 | a trimmed text neither starts nor ends with whitespace |
| Text.TrimCuts | rust/advent_of_code/src/e4_giant_squid.rs:151 | the trimmed text is the slice of the input between a leading and a trailing run of whitespace, so `trim` removes whitespace at the ends and nothing else |
| Text.LinesOfJoin | rust/advent_of_code/src/e1_sonar_sweeper/mod.rs:8 | rows without line breaks, joined by line feeds, come back as the lines of the text |

## Left out

General:
- File reading, console output and the command-line glue (`main`, `execute`, `main.py`, the 2023 `main.rs` files, `lib.rs`) are left out. The model starts from the lines or text those would have read, and it ends with the value that would have been printed.
- Printing is left out: `CRT::print`, `print_map`, `get_summary`'s string building, `Display`, `__str__` and `__repr__`.
- Rust `u32`, `u64` and `i32` arithmetic is modelled with unbounded integers wherever the code does not check it: sums, products, the day 11 `Square`, the business product, the day 4 bingo score and the 2021 day 3 `u32` products of `BinaryDiagnostic.PowerConsumption` and `BinaryDiagnostic.LifeSupport`. There are two exceptions, both checked as a debug build checks them: the 2022 day 10 signal measurement, where `CathodeRay.Measure` checks the `i32` product and the `u64` sum, and the first version of 2021 day 3, where `BinaryDiagnosticPower.PowerConsumptionOf` fails when the `u32` product overflows.
- `RopeBridge.Update`: the `i32` coordinates' `+=` and `-=` are unbounded in the model; a debug build of the source panics when a move pushes a coordinate past 2^31 - 1 or below -2^31. The `as i32` cast of the amount is modelled (`RopeBridge.AsI32`).
- `CathodeRay.Pipeline`: the `i32` register's `+=` is unbounded in the model; a debug build of the source panics when an `addx` pushes it past 2^31 - 1 or below -2^31.
- `Text.Lines` drops a final '\r' that no '\n' follows, which Rust's `str::lines` keeps as part of the last line.
- Rust's integer parses check their width, and so do the models: `Text.ParseU32` fails above 2^32 - 1, `Text.ParseU64` (also used for `usize`, taken as 64 bits wide) above 2^64 - 1, and `Text.ParseI32` outside -2^31 to 2^31 - 1, where the source's `parse().unwrap()` panics.
- C++ `uint32_t` wrap-around is modelled where a result depends on it, namely the sonar sweeper's final `count--`, `Truncate32`, the diagnostic products and `bin_to_int`. Elsewhere, for example in the window sums, values are unbounded.
- Regular expressions (day 5 `Instr::from`, day 11 `Monkey::from`, 2024 day 3) are modelled as hand-written scanners for their one fixed grammar, not as a regular-expression engine.
- `Text.ParseNat`, `Text.ParseU32` and `Text.ParseU64`: Rust's unsigned `str::parse` accepts a leading '+', but the models read digits only, so "+5" fails here where the source reads 5.
- `Text.PyInt` models what Python's `int` accepts on the ASCII inputs the puzzles use: surrounding whitespace as `Text.IsSpace` defines it, a sign, and single underscores between digits. Unicode digits and other Unicode whitespace are not modelled.
- Input is taken to be ASCII, and the models index characters where the Rust code indexes UTF-8 bytes: `split_at(len() / 2)` in 2022 day 3, the `len()` loops and slices of 2023 day 1, the byte windows of 2022 day 6 and `vec![0; input[0].len()]` in the 2021 binary diagnostic. On non-ASCII text the source panics at a char boundary or sizes its vectors by bytes, and the model does not capture that.
- `Text.IsSpace` counts space, tab, line feed and carriage return as whitespace. Unicode whitespace and the vertical tab and form feed are not modelled.
- `Rope::get_head` (2022 day 9) is not modelled, because only tests call it.
- The 2024 sources define `part_two` for days 1 and 4 only, and both are modelled (`HistorianHysteria.PartTwo`, `CeresSearch.PartTwo`). The tests of days 2, 3, 5 and 7 also expect part-two behaviour (dampened reports, `do()`/`don't()`, reordering updates, the `"||"` operator) that is not in those sources, so it is not modelled.
- Test expectations are replayed only where a row above cites the test: the `...Example` lemmas, the 2024 day 1 total distance 11 and similarity 31 over the example columns, and the 2024 day 2 safety of the six example reports with their count 2. The others are not replayed, because evaluating long literal texts is too costly to prove. These include the 2022 day 1 inventory; the 2022 day 8 count of 21 visible trees and scenic scores 4 and 8; the 2022 day 9 count of 13 positions; the 2022 day 11 `monkey_is_created_from_input`; the 2023 day 2 unit tests; the 2024 `part_one` results on the example texts (days 1 to 7: 11, 2, 161, 18, 143, 41, 3749, and 9 for day 4's part two); the 2021 binary diagnostic report; and every other test function that no row cites. General lemmas over symbolic inputs stand in for them.

Per solver:
- `KeepAway.KeepAwayGame.constructor` requires pairwise distinct monkeys and targets in range that differ from the monkey itself. A monkey throwing to itself would loop forever in `process_round`, and an unknown target panics.
- `KeepAway.KeepAwayGame.constructor` also requires every divisibility test and the stress divider to be positive. The source builds a game with a zero test or divider, and panics only when a monkey first inspects an item (`% self.modulus` and `/ self.stress_divider`, main.rs:142). A game in which no monkey ever holds an item would play on there, and the model does not capture that.
- `KeepAway.Target`, the routing the game's proofs use, requires a positive test for the same reason; `KeepAway.Monkey.GetNextMonkey`, the method itself, requires none and gives `None` for a test of 0, where the source's `%` panics.
- `KeepAway.ParseMonkey` and `KeepAway.ParseLines` read a block of exactly six lines, each matched whole. The source's unanchored `Regex::captures` also reads blocks with other text before, after or between the matched parts; the model gives `None` for those.
- `CrateStacks.MoveCratesCrateMover9000` and `CrateStacks.MoveCratesCrateMover9001` (and their specifications `CrateStacks.Mover9000` and `CrateStacks.Mover9001`) require an instruction the source carries out without panicking, so the panics of `pop().unwrap()`, `drain` and the stack indexing are left out. For the 9000 these are an amount of zero, a non-empty stack moved onto itself, or two existing stacks with enough crates; for the 9001, two existing stacks with enough crates.
- `CrateStacks.ParseInstr` reads lines of exactly six words. The source's regular expression also finds the pattern inside longer lines.
- `RopeBridge.DistanceTo` computes the `f32` square root of `distance_to` as an integer square root, rounded down. `RopeBridge.DistanceAtMostOne` proves that the only test made of it, a distance of at most 1, holds exactly when the knots touch. No floating point is modelled.
- `CathodeRay.Cpu.ProcessPipeline` requires a clock that does not go backwards. `CathodeRay.Crt.UpdatePixel` requires a non-zero width.
- `Treetop`'s methods require a rectangular, non-empty forest. The source reads the first row's length as the width of every row.
- `FileTree.Directory.AddDirectory` requires a directory other than the receiver. In Rust the moved directory cannot be the receiver.
- The recursive `PartialEq for Node` of day 7 is not modelled. It never terminates.
- The run-time type tests of `as_any` are modelled as the variants of `FileTree.Inode`.
- The day 7 `Cli` in `main.rs` is not modelled. Its `cd` is a stub over shared ownership.
- `HeightMaps.HeightMap.UpdateCurrentPos` requires a current position on the grid. `mv` itself models every panic as `Panicked`.
- `Tuning.Datastream.FindStartOfPacket` requires the fresh state `main` starts from.
- `RedNosedReports.IsSafe` and `RedNosedReports.GetSafeReportsCount` require reports with at least one level. Every report built from a line has two.
- `PrintQueue.SumMiddlePages` requires updates with at least one page. `middle_page` raises on an empty update, and the parser never builds one.
- `Rucksacks.Priority` follows `char::is_lowercase` only on ASCII letters.
- `CalorieCounting.PartTwo` states only when it fails. The sum of the three largest totals is related to the others by `CalorieCounting.TopThreeDominate`.
- `CampCleanup.ElfSector` states only that the range is not empty. Its content is stated by `CampCleanup.ElfSectorOfEnds`.
- `GuardGallivant.Walk` and `GuardGallivant.Patrol` take a `fuel` bound on the number of rounds and give `None` or `false` when it runs out. A guard that walks in a cycle never ends in the source, and the model does not capture that.
- Day 6's `is_collision`, the always-true direction comparison of `Guard.__eq__` and the `__hash__` plumbing are left out. Points are kept in Dafny sets and maps.
- `BridgeRepair`: `populate_children` mutates `self.next` in place, recursively. The model builds the same children as values (`Node`, `Next`, `Branch`) and does not capture aliasing of nodes.
- `as_dict` of day 7 (2024) is not modelled. It only renders the trie.
- `GiantSquid.Board.MarkNumber` requires every cell to be filled. On a board with an empty cell the source panics after marking some cells; the game function returns `Panicked` there and keeps no partial marks.
- `PartialEq for Board` of 2021 day 4, used only by a test, is not modelled.
- `DiveCpp.Processor.ProcessLine` requires an `up` that keeps the aim at or above 0. It does not model the `uint32_t` wrap-around of `aim_ -= v`, nor that of the position and depth.
- `DiveCpp.Stoul` reads digits after leading whitespace. It does not model the leading '+' or '-' that `std::stoul` also accepts.
- `Dive.Submarine.ParseCommand` and `Dive.Submarine.Drive` require commands that keep the `u32` depth at or above 0. The source panics on underflow in a debug build.
- `BinaryDiagnosticCpp.Processor.ProcessLine` requires lines of at most twelve characters. A longer line writes past `bit_array_`, which is undefined behaviour.
- `BinaryDiagnosticCpp.Processor.GetMostCommonBit` requires every value to reach the bit it counts. Reading past the end of a `std::string` is undefined behaviour.
- `BinaryDiagnosticCpp.Processor.BinToInt` requires at most 32 digits. It replaces `std::pow` on doubles with integer powers.
- `BinaryDiagnosticCpp.FilterByBitCriteria` gives `None` for a call that never returns or reads past a value. It counts with the corrected, non-wrapping most common bit. The `uint8_t` wrap of `bit_to_check` past 255 is not modelled.
- `BinaryDiagnosticCpp.Processor.CalculateOxygenAndCo2Ratings` requires both filters to return, with ratings of at most 32 digits.

## Findings

| source | as written | input that shows it | evidently intended | confidence | as-written member | corrected member |
|---|---|---|---|---|---|---|
| 2022/rust/advent_of_code/src/day11/src/main.rs:142 | each item's worry is reduced to `(w % modulus) / stress_divider`, and the comment at lines 173-174 assumes that this routes items like `w / stress_divider` | two monkeys testing 2 and 3 (modulus 6), divider 3, worry 9: `(9 % 6) / 3` is 1, not divisible by 3, while `9 / 3` is 3, divisible by 3, so the item goes to the other monkey | take the remainder modulo the product only when the divider is 1, where it keeps every test's verdict | not executed | KeepAway.ReductionChangesRoutingWithDivider | KeepAway.IntendedRelieveKeepsRouting |
| 2022/rust/advent_of_code/src/day12/src/main.rs:114-123 | going down, left or right, `mv` moves the current position but writes nothing into the cell it leaves (only going up writes `^`) | the sample map, one move down from `S` | the test expects the left cell to hold `v`, so each move marks its direction's arrow | not executed | HeightMaps.MoveDownExample | HeightMaps.MoveDownMarkedExample |
| 2024/python/src/advent_of_code/day06/day06.py:137-141 | in front of an obstacle the guard turns right once and then moves, without looking again | a guard facing up with obstacles above it and to its right | turn until the way ahead is free, so the guard never stands on an obstacle | not executed | GuardGallivant.RoundStepsOntoObstacle | GuardGallivant.WalkAvoidsObstacles |
| cpp/3_binary_diagnostic/main.cpp:25 | `get_most_common_bit` counts in an `int8_t`, which wraps past 127 | 128 values that all have a '1' at position 0: the count wraps to -128 and the bit comes out '0' | an integer count wide enough for the input, which gives '1' | not executed | BinaryDiagnosticCpp.MostCommonBitWraps | BinaryDiagnosticCpp.MostCommonBitAgrees |
