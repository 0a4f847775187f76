# Advent of Code solutions, modelled in Dafny

This project models the algorithmic core of a collection of Advent of Code
solutions (puzzle years 2018, 2020, 2021, 2022 and 2025) and proves
properties of each model. There is one Dafny module per puzzle, in a file
named after the puzzle's year and day. Each module follows the source
file's own structure. A puzzle whose code transforms values is modelled with
datatypes, functions and lemmas. A puzzle whose code updates state in a loop
or mutates an object is modelled with classes, arrays and methods with loop
invariants. Each such method is proved against a specification function.

Four small shared modules support the others:

- `Wrappers` (`wrappers.dfy`) is an `Option` type.
- `SeqFolds` (`seq_folds.dfy`) holds sums and folds over sequences.
- `Modular` (`modular.dfy`) holds lemmas about remainders and products.
- `Bits` (`bits.dfy`) holds bit-level helpers.

The puzzles covered:

| file | module | puzzle |
|---|---|---|
| y2018_day8.dfy | MemoryManeuver | license tree: nodes with children and metadata read from a flat number stream |
| y2018_day13.dfy | MineCartMadness | carts on a track grid, moved in reading order until they collide |
| y2018_day14.dfy | ChocolateCharts | two elves growing a recipe scoreboard; searching for a digit pattern |
| y2020_day5.dfy | BinaryBoarding | boarding passes as binary seat numbers; the one missing seat |
| y2020_day8.dfy | HandheldHalting | a three-instruction machine run until a line repeats; repairing one instruction |
| y2020_day12.dfy | RainRisk | a ferry steered directly and by a waypoint |
| y2020_day14.dfy | DockingData | bit masks over values and over floating memory addresses |
| y2020_day15.dfy | RambunctiousRecitation | the memory game, with a map and with a vector |
| y2020_day18.dfy | OperationOrder | arithmetic evaluated left to right, and with addition binding tighter |
| y2020_day22.dfy | CrabCombat | the card game, plain and recursive |
| y2020_day23.dfy | CrabCups | the cup circle as a successor array |
| y2020_day25.dfy | ComboBreaker | discrete logarithm by trial and the shared encryption key |
| y2021_day3.dfy | BinaryDiagnostic | gamma, epsilon and the two ratings of a binary report |
| y2021_day4.dfy | GiantSquid | bingo boards marked by drawn numbers |
| y2021_day6.dfy | Lanternfish | fish counted by timer value |
| y2021_day10.dfy | SyntaxScoring | bracket matching with corrupted and completion scores |
| y2021_day11.dfy | DumboOctopus | an energy grid with cascading flashes |
| y2021_day13.dfy | TransparentOrigami | folding a set of dots |
| y2021_day14.dfy | ExtendedPolymerization | pair insertion counted by pairs |
| y2021_day16.dfy, y2021_day16_eval.dfy | PacketDecoder, PacketEvaluator | a hexadecimal bit-stream packet decoder and the evaluation of the packet tree |
| y2021_day18.dfy | Snailfish | binary trees reduced by explode and split |
| y2021_day19.dfy | ScannerRegistration | aligning scanner readings by 24 rotations and translations |
| y2021_day21.dfy | DiracDice | the deterministic and the quantum dice game |
| y2021_day22.dfy | ReactorReboot | cuboids switched on and off, kept as disjoint boxes |
| y2021_day25.dfy | SeaCucumber | two herds moving on a wrapping grid |
| y2022_day5.dfy | SupplyStacks | crate stacks moved one at a time and in blocks |
| y2022_day6.dfy | TuningTrouble | the first window of distinct characters |
| y2022_day7.dfy | NoSpaceLeft | a directory tree rebuilt from a terminal listing, and its sizes |
| y2022_day9.dfy | RopeBridge | a rope whose knots follow the head |
| y2022_day11.dfy | MonkeyInTheMiddle | monkeys passing worry levels, reduced by the product of the divisors |
| y2025_day1.dfy | SecretEntrance | a dial turned left and right, counting passes over zero |
| y2025_day2.dfy | GiftShop | identifiers made of a repeated digit block |
| y2025_day5.dfy | Cafeteria | merging ranges of fresh ingredient identifiers |

Integers are unbounded throughout. Where the source's integer width
matters, the model either handles the case explicitly (an `Option` for a
panic, a precondition for an unsigned subtraction that would underflow) or
lists it below.

## Model

| member | source | states |
|---|---|---|
| MemoryManeuver.SetNbChildren | src/aoc2018/day8.rs:22-27 | records the child count and, only when it is positive, allocates exactly that many fresh children; a zero count leaves the children as they were |
| MemoryManeuver.SetNbMetadata | src/aoc2018/day8.rs:28-33 | records the metadata count and, only when it is positive, allocates exactly that many zero entries |
| MemoryManeuver.ParseNode | src/aoc2018/day8.rs:55-87 | reading a node never goes back or past the end of the stream, and consumes at least one number when there is one |
| MemoryManeuver.Header | src/aoc2018/day8.rs:61-73 | the two counts and the children consume at least the two header numbers and stay within the stream |
| MemoryManeuver.ParseKids | src/aoc2018/day8.rs:67-71 | reading `count` children yields exactly `count` nodes, moving forward within the stream |
| MemoryManeuver.ReadMeta | src/aoc2018/day8.rs:74-84 | the metadata phase keeps the allocated length when entries exist, keeps them absent otherwise, and moves forward within the stream |
| MemoryManeuver.ProcessNode | src/aoc2018/day8.rs:55-87 | the phase-driven reading loop builds exactly the node, and stops at exactly the position, that the structural reading gives |
| MemoryManeuver.ProcessChildren | src/aoc2018/day8.rs:67-71 | processing each fresh child in turn on the shared stream yields exactly the children of the structural reading |
| MemoryManeuver.HeaderEncode | src/aoc2018/day8.rs:61-73 | on an encoded licence the header and children phases rebuild the node's counts and children and stop where its metadata begins |
| MemoryManeuver.ParseEncode | src/aoc2018/day8.rs:55-87 | reading the encoding of a licence whose nodes all have metadata rebuilds exactly that tree and stops right after its encoding, whatever follows |
| MemoryManeuver.ParseEncodeAll | src/aoc2018/day8.rs:67-71 | reading the concatenated encodings of several licence nodes rebuilds them all, in order |
| MemoryManeuver.ZeroMetadataSwallows | src/aoc2018/day8.rs:81-83 | a node without metadata takes and drops the next number, so [1,1,0,0,5] leaves its root with metadata [0] instead of [5] |
| MemoryManeuver.CountMetadata | src/aoc2018/day8.rs:89-100 | the recursive count equals the node's own metadata sum plus the totals of all its children |
| MemoryManeuver.TotalEmbed | src/aoc2018/day8.rs:89-100 | on the node built for a licence, the metadata total is the sum of every metadata entry the licence lists |
| MemoryManeuver.KidsTotalEmbed | src/aoc2018/day8.rs:94-98 | the children's totals add up to the sum of the metadata entries listed under them |
| MemoryManeuver.Part1Answer | src/aoc2018/day8.rs:42-50 | part 1 on any encoded licence is the sum of all its metadata entries |
| MemoryManeuver.CountRefMetadata | src/aoc2018/day8.rs:102-124 | when no visited reference is 0, the cached recursive count equals the node's value: a leaf's metadata sum, otherwise the values of the children its entries refer to |
| MemoryManeuver.RefsEvaluableAt | src/aoc2018/day8.rs:108-112 | every metadata entry of an evaluated node with children is at least 1, and the child it refers to is itself evaluable |
| MemoryManeuver.RefValueEmbed | src/aoc2018/day8.rs:102-124 | on the node built for a licence, the computed value is the licence's value, entries that refer to no child adding nothing |
| MemoryManeuver.RefSumEmbed | src/aoc2018/day8.rs:108-114 | the sum over the first k metadata entries equals the sum of the first k referenced values |
| MemoryManeuver.Part2Answer | src/aoc2018/day8.rs:42-52 | part 2 on any encoded licence is the root's value |
| MineCartMadness.NextCycle | src/aoc2018/day13.rs:154-160 | the next choice always differs from the current one, and the choices come round again after exactly three intersections |
| MineCartMadness.NewCart | src/aoc2018/day13.rs:62-68 | a new cart keeps its square and heading and starts with a left turn, so its next three intersections are left, straight, right |
| MineCartMadness.TurnsCancel | src/aoc2018/day13.rs:88-102 | a left and a right turn cancel, four left turns are a full circle, and three intersections in a row leave the heading unchanged |
| MineCartMadness.TowardsAhead | src/aoc2018/day13.rs:118-127 | the heading picked from a coordinate difference is the one whose step reaches that square, for every heading |
| MineCartMadness.TakeStep | src/aoc2018/day13.rs:69-134 | the cart moves one square in its heading; on a crossing it turns by its choice and advances the choice; on a two-link road it heads for the link it did not come from; off the network it keeps heading and choice |
| MineCartMadness.SortedKeys | src/aoc2018/day13.rs:174-176 | the reading order of a set of positions is sorted by (y, x), holds exactly the positions of the set and has one entry per position |
| MineCartMadness.SortPositions | src/aoc2018/day13.rs:174-176 | the cart positions come out in (y, x) order, each exactly once |
| MineCartMadness.TickAt | src/aoc2018/day13.rs:177-195 | a visited cart is present and moves off its square; it aborts the tick or is removed with the cart it hits, or is stored under its new square |
| MineCartMadness.TickLocated | src/aoc2018/day13.rs:177-196 | every cart stays stored under its own square, and an aborting crash is reported where two carts then stand |
| MineCartMadness.TickRemovesPairs | src/aoc2018/day13.rs:183-191 | under FindLastCart a tick never aborts and removes carts two at a time, keeping the parity of their number |
| MineCartMadness.AbortBeforeFirstCrash | src/aoc2018/day13.rs:183-191 | a tick that does not abort under AbortAtFirstCrash is the FindLastCart tick and loses no cart |
| MineCartMadness.Answer | src/aoc2018/day13.rs:197-206 | after a full tick only FindLastCart answers, exactly when one cart is left, with that cart's position |
| MineCartMadness.Carts.ApplyStep | src/aoc2018/day13.rs:173-207 | the answer and the new carts are those of visiting the positions in (y, x) order, skipping removed ones; the carts stay stored under their squares unless the tick aborted |
| MineCartMadness.Carts.Solve | src/aoc2018/day13.rs:19-26 | the answer is that of repeating the tick until it answers, within the allowance |
| MineCartMadness.EvenNeverAnswers | src/aoc2018/day13.rs:19-26 | with an even number of carts, FindLastCart never answers, however many ticks run |
| MineCartMadness.SolveMonotone | src/aoc2018/day13.rs:19-26 | an answer found within some number of ticks stays the answer with a larger allowance |
| ChocolateCharts.Digits | src/aoc2018/day14.rs:17-21 | the recipes a sum creates are its decimal digits, tens first: one or two digits whose value is the sum, two exactly when the sum is at least 10, never a leading zero |
| ChocolateCharts.Step | src/aoc2018/day14.rs:16-25 | one step keeps every score a digit and both elves on the board, and appends exactly the digits of the two current scores' sum |
| ChocolateCharts.Run | src/aoc2018/day14.rs:30-37 | the board after k steps from 3, 7 is valid and has at least k + 2 scores |
| ChocolateCharts.RunPrefix | src/aoc2018/day14.rs:19-21 | the scoreboard only grows at its end: an earlier board is a prefix of every later one |
| ChocolateCharts.RunOccurs | src/aoc2018/day14.rs:61-66 | a window that fits an earlier board holds the pattern exactly when it does on every later board |
| ChocolateCharts.Recipes.constructor | src/aoc2018/day14.rs:30-34 | the starting board: scores 3 and 7, the first elf on 3, the second on 7 |
| ChocolateCharts.Recipes.Next | src/aoc2018/day14.rs:16-25 | next performs one step of the board in place and reports true exactly when two recipes were added |
| ChocolateCharts.WindowStable | src/aoc2018/day14.rs:35-44 | any board with n + 10 scores gives the same ten scores (and the same text) after the first n, so part 1 does not depend on when its loop stops |
| ChocolateCharts.TenFrom | src/aoc2018/day14.rs:38-44 | the answer of part 1 is ten characters, each a decimal digit |
| ChocolateCharts.Part1 | src/aoc2018/day14.rs:28-45 | part 1 returns ten characters that spell the ten scores after the first n of a board with at least n + 10 scores |
| ChocolateCharts.CheckAsWritten | src/aoc2018/day14.rs:60-69 | the two window checks as written report only positions where the pattern sits, never position 0, and a miss means the last window does not hold the pattern |
| ChocolateCharts.Part2AsWritten | src/aoc2018/day14.rs:47-71 | part 2 as written reports a position where the pattern sits on some board, and that position is never 0 |
| ChocolateCharts.ThreeSevenOneAtZero | src/aoc2018/day14.rs:52-62 | after one step the board is 3, 7, 1, 0, so the pattern 3, 7, 1 first occurs at position 0, which part 2 as written cannot return |
| ChocolateCharts.ScanWindows | src/aoc2018/day14.rs:61-66 | scanning windows from a start position returns the first that holds the pattern, or the position up to which none does, every such window fitting the board |
| ChocolateCharts.NoneBeforeGrows | src/aoc2018/day14.rs:58-70 | windows found not to hold the pattern still do not once the board has grown |
| ChocolateCharts.FirstFound | src/aoc2018/day14.rs:58-70 | a match found by scanning onward from windows already ruled out is the pattern's first occurrence |
| ChocolateCharts.NoneExtend | src/aoc2018/day14.rs:58-70 | the ruled-out windows extend by those a scan has just ruled out |
| ChocolateCharts.Advance | src/aoc2018/day14.rs:58-70 | one round of the intended search takes one step and reports the first occurrence if the step completed it, or extends the ruled-out windows |
| ChocolateCharts.Part2 | src/aoc2018/day14.rs:47-71 | the intended part 2 reports the position where the pattern first occurs, starting board included, and reports nothing only when the pattern is nowhere on the board after the allowed steps |
| ChocolateCharts.FirstUnique | src/aoc2018/day14.rs:47-71 | the first occurrence of a pattern is the same whichever board it is read from, so the intended part 2 has one answer |
| BinaryBoarding.InnerValueBound | src/aoc2020/day5.rs:24-32 | a half read from `n` letters is below 2^n |
| BinaryBoarding.InnerValueBits | src/aoc2020/day5.rs:24-32 | bit `i` of the value read from a half is set exactly when the letter `i` places from the end is the marking letter ('B' or 'R') |
| BinaryBoarding.ReadSpell | src/aoc2020/day5.rs:24-32 | spelling a number below 2^k in k letters and reading it back gives the number |
| BinaryBoarding.SpellRead | src/aoc2020/day5.rs:24-32 | reading a half made of the two letters and spelling the value back gives the same letters |
| BinaryBoarding.SeatValueBounds | src/aoc2020/day5.rs:34-37 | on a ten-letter pass the row is below 128, the column below 8, the seat ID row * 8 + column below 1024, and the row and column are the ID divided by 8 and its remainder |
| BinaryBoarding.SeatValuePass | src/aoc2020/day5.rs:23-38 | every seat ID below 1024 is the value of some pass |
| BinaryBoarding.PassSeatValue | src/aoc2020/day5.rs:23-38 | a pass of 'F'/'B' then 'L'/'R' letters is the pass of its own seat ID, so different passes have different IDs |
| BinaryBoarding.Part1 | src/aoc2020/day5.rs:11-13 | the answer is the seat ID of some line and no line has a higher one; an empty list is excluded, as the source unwraps the maximum |
| BinaryBoarding.TriangleFormula | src/aoc2020/day5.rs:20 | the sum of 1 to n is the `n * (n + 1) / 2` of the formula |
| SeqFolds.SumPermutation | src/aoc2020/day5.rs:19 | two lists holding the same values, in any order, have the same sum: `part2`'s sum of the seat IDs does not depend on the order of the lines |
| BinaryBoarding.SumRange | src/aoc2020/day5.rs:20 | the sum of the IDs lo to hi is the triangle of hi less the triangle of lo - 1 |
| BinaryBoarding.MissingSeat | src/aoc2020/day5.rs:15-21 | when the IDs are every ID from the lowest to the highest, each once, except one, part 2 answers that one |
| BinaryBoarding.NoMissingSeat | src/aoc2020/day5.rs:15-21 | when no ID of the run is missing, part 2 answers 0 |
| HandheldHalting.Next | src/aoc2020/day8.rs:48-60 | running a line records it; only `acc` changes the accumulator, `nop` moves on by 1 and `jmp` by its value |
| HandheldHalting.NextShrinks | src/aoc2020/day8.rs:41-47 | each step of `execute_all` removes one line from those not yet run, so the loop ends |
| HandheldHalting.Run | src/aoc2020/day8.rs:41-47 | the run stops in a configuration that is outside the program or at a line already run |
| HandheldHalting.TraceFresh | src/aoc2020/day8.rs:41-50 | a run visits only lines it had not run before, and records exactly the lines it visits |
| HandheldHalting.TraceDistinct | src/aoc2020/day8.rs:41-50 | a run visits each line at most once |
| HandheldHalting.TraceAcc | src/aoc2020/day8.rs:48-59 | the final accumulator is the start value plus the `acc` values on the visited lines |
| HandheldHalting.SelfJumpLoops | src/aoc2020/day8.rs:41-59 | a `jmp +0` on line 0 stops at once, after running line 0, and is not a natural end |
| HandheldHalting.SampleRun | src/aoc2020/day8.rs:140-145 | the sample program stops at line 1 with accumulator 5 |
| HandheldHalting.Flip | src/aoc2020/day8.rs:96-101 | the repair turns `nop` into `jmp` and anything else into `nop`, keeping the value and every other line |
| HandheldHalting.FlipFlip | src/aoc2020/day8.rs:116-130 | swapping a `nop`/`jmp` line twice restores the program |
| HandheldHalting.FirstRepair | src/aoc2020/day8.rs:87-108 | the result is a repairing line at or after `from`, and no earlier line from `from` repairs the program |
| HandheldHalting.Part2FindsFirstRepair | src/aoc2020/day8.rs:87-108 | when a repair exists, the scan of `part2` answers with the accumulator of the first one |
| HandheldHalting.State.constructor | src/aoc2020/day8.rs:24-40 | a new interpreter is at line 0, accumulator 0, nothing run |
| HandheldHalting.State.ExecuteNext | src/aoc2020/day8.rs:48-60 | records the current line, then updates the accumulator and the line by the instruction's kind |
| HandheldHalting.State.ExecuteAll | src/aoc2020/day8.rs:41-47 | the registers end equal to `Run` from the registers before; the line is outside the program or already run |
| HandheldHalting.State.IsNaturallyTerminated | src/aoc2020/day8.rs:62-64 | true exactly when the line is one past the last |
| HandheldHalting.State.Reset | src/aoc2020/day8.rs:66-70 | back to line 0, accumulator 0, nothing run; the program is kept |
| HandheldHalting.Part1 | src/aoc2020/day8.rs:81-85 | the accumulator when the program first repeats a line: the sum of the `acc` values on the visited lines |
| HandheldHalting.Part2 | src/aoc2020/day8.rs:87-108 | answers with the accumulator of the first repaired program that ends naturally |
| HandheldHalting.Part2NoClone | src/aoc2020/day8.rs:110-134 | answers with the first repair's accumulator, or 0 when no swap works |
| RainRisk.TurnLeft | src/aoc2020/day12.rs:108-115 | a left turn moves the heading one place counter-clockwise in the order N, E, S, W |
| RainRisk.TurnRight | src/aoc2020/day12.rs:116-123 | a right turn moves the heading one place clockwise in the order N, E, S, W |
| RainRisk.TurnsInverse | src/aoc2020/day12.rs:108-123 | a left turn and a right turn undo each other |
| RainRisk.FourTurnsIdentity | src/aoc2020/day12.rs:108-123 | four left turns, or four right turns, give back the heading |
| RainRisk.Times | src/aoc2020/day12.rs:126-127 | for an angle that is a multiple of 90, the number of quarter turns is angle/90, and none for a negative angle (an empty range) |
| RainRisk.TurnedStep | src/aoc2020/day12.rs:125-132 | one more quarter turn of the closed-form rotation is one more call of turn_left or turn_right |
| RainRisk.TurnedInverse | src/aoc2020/day12.rs:125-132 | turning by an angle one way and then the other way restores the heading |
| RainRisk.TurnedPeriod | src/aoc2020/day12.rs:125-132 | four extra quarter turns change nothing |
| RainRisk.TurnDirection | src/aoc2020/day12.rs:125-132 | with the angle a multiple of 90, the heading ends rotated by angle/90 quarter turns |
| RainRisk.Move | src/aoc2020/day12.rs:26-33 | a move changes only the coordinate along its axis and changes the Manhattan distance by at most its magnitude |
| RainRisk.MoveInverse | src/aoc2020/day12.rs:26-33 | a move followed by the same move in the opposite direction is the identity |
| RainRisk.Rotated | src/aoc2020/day12.rs:154-171 | rotating the waypoint by quarter turns keeps its Manhattan distance from the ferry |
| RainRisk.RotatedStep | src/aoc2020/day12.rs:157-170 | each loop round maps (x, y) to (-y, x) for a left turn and to (y, -x) for a right turn |
| RainRisk.RotatedInverse | src/aoc2020/day12.rs:154-171 | rotating the waypoint one way and then the other way by the same angle restores it |
| RainRisk.RotatedUnit | src/aoc2020/day12.rs:125-171 | rotating the waypoint agrees with turning the heading: the unit vector of a heading rotates to the unit vector of the turned heading |
| RainRisk.Step | src/aoc2020/day12.rs:40-61 | part 1 never touches the waypoint, part 2 never touches the heading, and in part 2 only F moves the ferry |
| RainRisk.Part1Bound | src/aoc2020/day12.rs:46-51 | in part 1 the ferry ends no further from its start than the sum of the move values, and the waypoint is unchanged |
| RainRisk.Part2WaypointBound | src/aoc2020/day12.rs:52-59 | in part 2 the waypoint ends no further from the ferry than its start distance plus the move values, and the heading is unchanged |
| RainRisk.WayPoint.constructor | src/aoc2020/day12.rs:141-143 | a waypoint at the given coordinates |
| RainRisk.WayPoint.UpdateWaypoint | src/aoc2020/day12.rs:145-152 | moves the waypoint by the given magnitude towards the given direction |
| RainRisk.WayPoint.TurnWaypoint | src/aoc2020/day12.rs:154-171 | with the angle a multiple of 90, rotates the waypoint by angle/90 quarter turns about the ferry |
| RainRisk.FerryState.constructor | src/aoc2020/day12.rs:17-24 | a ferry at the origin facing east with the waypoint at (10, 1) |
| RainRisk.FerryState.ExecuteBasicMove | src/aoc2020/day12.rs:26-33 | moves the ferry and leaves its heading and waypoint alone |
| RainRisk.FerryState.ExecuteWaypoint | src/aoc2020/day12.rs:35-38 | adds magnitude times the waypoint to the ferry's position |
| RainRisk.FerryState.ExecuteOne | src/aoc2020/day12.rs:42-59 | one line dispatched by letter and part, giving the state Step describes |
| RainRisk.FerryState.ExecuteAllInput | src/aoc2020/day12.rs:40-62 | the final state is every line applied in order |
| RainRisk.FerryState.ManDistance | src/aoc2020/day12.rs:64-66 | the Manhattan distance of the ferry from the origin |
| RainRisk.Solve | src/aoc2020/day12.rs:182-192 | the answer is the Manhattan distance after running every line from the start state; in part 1 it is at most the sum of the move values |
| DockingData.Binary | src/aoc2020/day14.rs:56 | the binary text of a number is non-empty, all 0/1 digits, without leading zeros, and reads back as the number |
| DockingData.BinaryRoundTrip | src/aoc2020/day14.rs:54-56 | reading a binary text without leading zeros and writing it back gives the same text |
| DockingData.BitAtFromBinary | src/aoc2020/day14.rs:93-99 | reading the character at position j from the end of a binary text gives bit j of the number it spells, 0 past its end |
| DockingData.MaskedBits | src/aoc2020/day14.rs:85-103 | the value written under a mask has bit j set under '1', cleared under '0', equal to the given value's bit under 'X', and no bit above the mask |
| DockingData.MaskValue | src/aoc2020/day14.rs:87-103 | the inner loop of apply_mask adds 2^exp for each set bit, lowest first, and ends with the masked value of the given binary text |
| DockingData.AddressesCount | src/aoc2020/day14.rs:109-132 | each 'X' doubles the addresses: a mask with k floating bits gives 2^k addresses |
| DockingData.AddressesSound | src/aoc2020/day14.rs:113-131 | every address built has bit j set under '1', the written address's bit under '0', and fits below 2^(mask length) |
| DockingData.AddressesComplete | src/aoc2020/day14.rs:113-131 | every address that fits the mask in that way is built |
| DockingData.AddressesExactly | src/aoc2020/day14.rs:109-138 | the addresses apply_mask_v2 writes are exactly the addresses that fit the mask |
| DockingData.FloatingAddresses | src/aoc2020/day14.rs:112-132 | the inner loop of apply_mask_v2 builds the floating addresses of the written address |
| DockingData.OverlayLast | src/aoc2020/day14.rs:33-41 | after writes applied in order, an address is present exactly when something wrote it, holds the value of the last write to it, and keeps its old value when nothing wrote it |
| DockingData.InsertAll | src/aoc2020/day14.rs:133-135 | inserting a value at every address of a list gives the old memory overwritten with that value on exactly those addresses |
| DockingData.Mask.constructor | src/aoc2020/day14.rs:77-83 | Mask::new keeps the mask and the pairs and starts with no computed writes |
| DockingData.Mask.ApplyMask | src/aoc2020/day14.rs:85-107 | apply_mask inserts, pair by pair, the masked value at the pair's address on top of what was computed before |
| DockingData.Mask.ApplyMaskV2 | src/aoc2020/day14.rs:109-138 | apply_mask_v2 replaces the computed writes with each pair's value written, pair by pair, to all of its floating addresses |
| DockingData.V1LastWins | src/aoc2020/day14.rs:104-105 | within a part 1 group, an address holds the masked value of the last pair that writes it |
| DockingData.V2Addresses | src/aoc2020/day14.rs:109-138 | within a part 2 group, the addresses written are exactly those that fit the mask for some pair's address |
| DockingData.LaterGroupWins | src/aoc2020/day14.rs:33-39 | in get_sum's memory a later group's write to an address overwrites every earlier one |
| DockingData.SumValuesRemove | src/aoc2020/day14.rs:40-41 | the sum of the values in memory does not depend on the order the addresses are visited |
| DockingData.SumMemory | src/aoc2020/day14.rs:40-41 | summing the values one address at a time gives the sum of all values in memory |
| DockingData.ApplyGroup | src/aoc2020/day14.rs:28-32 | building a group's mask and applying the chosen part's method gives that group's computed writes |
| DockingData.GetSum | src/aoc2020/day14.rs:27-42 | get_sum returns the sum of the values in the memory left after inserting every group's computed writes in order |
| RambunctiousRecitation.LastSeen | src/aoc2020/day15.rs:35-41 | the table entry for a number is the latest earlier turn at which it was said: that turn said it, no later turn before the bound did, and no entry means no earlier turn said it |
| RambunctiousRecitation.LastSeenPrefix | src/aoc2020/day15.rs:34-44 | turns said later do not change what the table records for earlier turns |
| RambunctiousRecitation.Gap | src/aoc2020/day15.rs:42 | the next number is at most the turn index and is 0 exactly when the current number was never said before |
| RambunctiousRecitation.Spoken | src/aoc2020/day15.rs:33-44 | the puzzle's game keeps the starting numbers and adds one number per turn |
| RambunctiousRecitation.Played | src/aoc2020/day15.rs:30-44 | the game as the code plays it keeps the starting numbers and adds one number per turn, the first of them 0 |
| RambunctiousRecitation.PlayedIsSpoken | src/aoc2020/day15.rs:30-44 | with distinct starting numbers the code's game is the puzzle's game |
| RambunctiousRecitation.AnswerIsSpoken | src/aoc2020/day15.rs:28-58 | with distinct starting numbers and n at least their count, the answer is the nth number of the puzzle's game |
| RambunctiousRecitation.SaturatingSub | src/aoc2020/day15.rs:42-55 | saturating_sub never exceeds the turn index |
| RambunctiousRecitation.TableStep | src/aoc2020/day15.rs:36-41 | recording the current turn for the key keeps every table entry equal to the number's last turn |
| RambunctiousRecitation.KeyStep | src/aoc2020/day15.rs:35-43 | the looked-up entry, or its absence as usize::MAX, gives the next number of the game |
| RambunctiousRecitation.FillStep | src/aoc2020/day15.rs:30-32 | entering one more starting number keeps each entry at the number's last turn so far |
| RambunctiousRecitation.FillMap | src/aoc2020/day15.rs:29-32 | after the first loop each starting number maps to the turn of its last occurrence, and nothing else is in the map |
| RambunctiousRecitation.MapTurn | src/aoc2020/day15.rs:34-44 | one turn of the map loop keeps the history, the key and the table in step |
| RambunctiousRecitation.CalculateWithMap | src/aoc2020/day15.rs:28-46 | returns the nth number of the game as played; the last starting number when n does not exceed their count |
| RambunctiousRecitation.TableOfUpdate | src/aoc2020/day15.rs:50-54 | writing a turn into a slot of big_vec writes that entry of the table it stands for |
| RambunctiousRecitation.FillVecStep | src/aoc2020/day15.rs:50 | writing one more starting number's turn into big_vec keeps its table equal to the last turns |
| RambunctiousRecitation.FillVec | src/aoc2020/day15.rs:49-50 | big_vec has n slots and stands for the same table the map version builds; every starting number must be below n |
| RambunctiousRecitation.VecTurn | src/aoc2020/day15.rs:52-56 | one turn of the array loop keeps the history, the key and the table in step, and every number said stays below n |
| RambunctiousRecitation.CalculateWithVec | src/aoc2020/day15.rs:48-58 | returns the same number as the map version, for starting numbers below n |
| RambunctiousRecitation.Part1 | src/aoc2020/day15.rs:20-22 | the 2020th number, which is the puzzle's for distinct starting numbers |
| RambunctiousRecitation.Part2 | src/aoc2020/day15.rs:24-26 | the 30000000th number from the array version, which is the puzzle's for distinct starting numbers |
| OperationOrder.Parse | src/aoc2020/day18.rs:45 | parsing a span of the formula succeeds exactly when the span is a non-empty run of decimal digits |
| OperationOrder.ArithmeticState.constructor | src/aoc2020/day18.rs:17-24 | a new state holds the formula, result 0, the pending operator `+` and no number in progress |
| OperationOrder.ArithmeticState.Apply | src/aoc2020/day18.rs:46-49 | the operand is added to or multiplied into the result by the pending operator; the operator and the parse status are unchanged |
| OperationOrder.ArithmeticState.FoldNumber | src/aoc2020/day18.rs:43-50 | succeeds exactly when the span lies in the formula and parses; then the result is the old one combined with the parsed number |
| OperationOrder.ArithmeticState.Calculate | src/aoc2020/day18.rs:26-108 | the loop returns what the scan function `Calc` gives from index 0 and the state at the call, a group being handled by a fresh scan of the rest of the formula |
| OperationOrder.DigitsRun | src/aoc2020/day18.rs:31-38 | a run of digits only extends the number in progress, from its first digit to the end of the run |
| OperationOrder.ParenRun | src/aoc2020/day18.rs:67-76 | at `(`, the nested scan returns the group's value and stops at its `)`, and the outer scan folds that value in and resumes after it |
| OperationOrder.ExprRun | src/aoc2020/day18.rs:26-108 | scanning an expression's text from a fresh state yields its value with `+` and `*` of equal precedence, grouped from the left, and stops where the text says (at an operator, a `)` or the end) |
| OperationOrder.CalculatePrinted | src/aoc2020/day18.rs:26-108 | `calculate` on the text of any well-formed expression (with or without spaces) returns its left-to-right value and the length of the text |
| OperationOrder.SumLines | src/aoc2020/day18.rs:121-130 | the sum over the lines exists exactly when no line panics |
| OperationOrder.SumLinesValues | src/aoc2020/day18.rs:121-130 | when every line yields a value, the sum is the sum of those values |
| OperationOrder.Part1Homework | src/aoc2020/day18.rs:121-130 | `part1` on the homework's lines is the sum of the left-to-right values of its expressions |
| OperationOrder.RenderReplaceChar | src/aoc2020/day18.rs:148-151 | replacing `(`, `)` or the space changes only the layout of an expression's text (its brackets and operators) and never its numbers |
| OperationOrder.RenderStar | src/aoc2020/day18.rs:150 | replacing ` * ` after the brackets are doubled rewrites exactly the multiplication signs to `) * (` |
| OperationOrder.AddParenthesesRender | src/aoc2020/day18.rs:144-155 | `add_parantheses` on an expression's text gives the text with doubled brackets, `*` written `)*(`, no spaces, the whole in one more group |
| OperationOrder.PrintGrouped | src/aoc2020/day18.rs:144-155 | that rewritten text is the text of the grouped expression, in which each run of operands joined by `+` is a group of its own |
| OperationOrder.PrintExtend | src/aoc2020/day18.rs:144-155 | adding an operand to the last group of a grouped expression puts `+` and the operand before its last `)` |
| OperationOrder.GroupedParts | src/aoc2020/day18.rs:132-155 | the grouped expression is well formed and a product of groups, and read from left to right it has the value with `+` before `*` |
| OperationOrder.GroupedAtomValue | src/aoc2020/day18.rs:132-155 | an operand with its groups grouped stays an operand and has its value with `+` before `*` |
| OperationOrder.CalculateRewritten | src/aoc2020/day18.rs:132-155 | `calculate` on `add_parantheses` of an expression's text returns the value with `+` before `*` and the length of the rewritten text |
| OperationOrder.Part2Homework | src/aoc2020/day18.rs:132-142 | `part2` on the homework's lines is the sum of the values with `+` before `*` |
| CrabCombat.AwardKeepsCards | src/aoc2020/day22.rs:99-103 | the round's winner puts both drawn cards under their own deck, their own first; the two decks keep the same cards and the same total count |
| CrabCombat.CombatKeepsCards | src/aoc2020/day22.rs:68-78 | however many rounds of Combat are played, the two decks together hold the same multiset of cards |
| CrabCombat.SubDecks | src/aoc2020/day22.rs:87-90 | a sub-game is dealt copies of exactly as many cards as the value drawn, from just below the drawn card, drawn from the cards in play; with positive cards it holds at least two cards |
| CrabCombat.GameOutcome | src/aoc2020/day22.rs:80-106 | a game of Recursive Combat keeps every card in play and ends either with one deck empty, won by the other player, or on a repeated position, won by player 1 with both decks holding cards |
| CrabCombat.GameStep | src/aoc2020/day22.rs:81-103 | a round of an unfinished game moves to the decks the round winner's award leaves, with the position recorded as seen, keeping the cards |
| CrabCombat.PlainRound | src/aoc2020/day22.rs:92-98 | a round in which neither player can recurse is a round of plain Combat: the higher card wins |
| CrabCombat.PlainCycle | src/aoc2020/day22.rs:81-84 | rounds following a cycle of distinct positions end the game on the first repeated position, won by player 1 with that position's decks |
| CrabCombat.ScoreDeck | src/aoc2020/day22.rs:141-149 | the bottom-up weighted sum equals the score read from the top (card times its position from the bottom) |
| CrabCombat.GameBoard.constructor | src/aoc2020/day22.rs:60-66 | a board holds the two decks and no seen position |
| CrabCombat.GameBoard.GetWinner | src/aoc2020/day22.rs:124-131 | the winner is the player whose opponent's deck is empty; none (the panics) when both or neither deck is empty |
| CrabCombat.GameBoard.PlayCombat | src/aoc2020/day22.rs:68-78 | the decks become those of Combat played for at most the given rounds, the seen positions are untouched, and it reports whether a deck ran out |
| CrabCombat.GameBoard.AddToSeenRounds | src/aoc2020/day22.rs:119-122 | the position is added to the seen ones, the decks are untouched, and the result says whether it was new |
| CrabCombat.GameAtEnd | src/aoc2020/day22.rs:81-105 | a game read at a position where a deck is empty, or at a position seen before, ends there: won by player 2 when player 1 has no cards, and by player 1 otherwise |
| CrabCombat.PlayRecursiveGame | src/aoc2020/day22.rs:80-106 | the loop of rounds, on the decks and the seen positions as values, ends with the winner and the final decks of the game of Recursive Combat from those decks and positions |
| CrabCombat.GameBoard.PlayRecursiveCombat | src/aoc2020/day22.rs:80-106 | the returned winner and the final decks are those of the game of Recursive Combat from the old decks and seen positions |
| CrabCombat.PlayRecursiveRound | src/aoc2020/day22.rs:85-103 | the round's winner is the sub-game's winner when both players can recurse, else the higher card's owner, and the decks become the award of the round |
| CrabCombat.GameBoard.CalculateScore | src/aoc2020/day22.rs:132-149 | the score of the deck of the player `get_winner` names |
| CrabCombat.Part1 | src/aoc2020/day22.rs:31-34 | the score of the winner of Combat when the game ends within the round bound with one deck empty; none when the bound is reached first or both decks are empty, where `get_winner` panics |
| CrabCombat.Part2AsWritten | src/aoc2020/day22.rs:36-39 | the score of the winner named by the final decks, none (the panic) when the game ended on a repeated position |
| CrabCombat.Part2 | src/aoc2020/day22.rs:36-39 | the score of the deck of the winner the game returns, a deck that is never empty |
| CrabCombat.LoopingGamePanics | src/aoc2020/day22.rs:124-131 | on decks 43 19 against 2 29 14 the game ends on a repeated position with both decks holding cards, so `get_winner` finds no winner |
| CrabCups.RingFacts | src/aoc2020/day23.rs:27-36 | a circle of n cups holds every label 1..n exactly once |
| CrabCups.Destination | src/aoc2020/day23.rs:51-65 | the destination is a label of the circle |
| CrabCups.DestinationValid | src/aoc2020/day23.rs:51-65 | the destination is neither one of the three picked cups nor the current cup |
| CrabCups.FindDestination | src/aoc2020/day23.rs:51-65 | counts down from the current label minus one, wrapping from 1 to the largest label and skipping the three picked cups; the result is never a picked cup, and it is the current cup itself exactly when there are four cups |
| CrabCups.DestinationFour | src/aoc2020/day23.rs:51-65 | with four cups the three picked cups are all the others, so the destination is the current cup |
| CrabCups.DestinationInRest | src/aoc2020/day23.rs:51-65 | the destination is among the cups left after the three picked ones |
| CrabCups.SpliceKeepsRing | src/aoc2020/day23.rs:66-72 | moving the three picked cups to just after the destination keeps every cup in the circle exactly once |
| CrabCups.Round | src/aoc2020/day23.rs:50-74 | after a round the circle still holds every cup once and the cup that followed the three picked ones is current; with four cups that is the current cup itself, so the first picked cup becomes current |
| CrabCups.RoundFour | src/aoc2020/day23.rs:66-73 | with four cups the destination is the current cup, the five writes leave the successor array as it was, and the array walks the circle read from the first picked cup |
| CrabCups.RoundLinked | src/aoc2020/day23.rs:66-73 | the five writes of a round to the successor array link the cups as the new circle orders them |
| CrabCups.RoundKeepsState | src/aoc2020/day23.rs:50-74 | from a linked circle of at least four cups, the three cups read after the current one are distinct labels other than the current one, and writing the round gives a linked circle read from the new current cup |
| CrabCups.Relink | src/aoc2020/day23.rs:66-72 | the array afterwards holds exactly the five links a round writes, the destination's old successor read after the first write |
| CrabCups.ToLinked | src/aoc2020/day23.rs:99-106 | each cup's entry is the next cup in input order and the last cup's entry is the first: one cycle over all the cups |
| CrabCups.Padded | src/aoc2020/day23.rs:38-48 | the input labels followed by the labels after the largest up to the total form a circle starting with the input |
| CrabCups.Game.constructor | src/aoc2020/day23.rs:27-36 | the game starts with the input circle of at least four cups, linked in the array, its first cup current |
| CrabCups.SpliceRound | src/aoc2020/day23.rs:50-74 | the five link writes of a round, on a linked circle read from the current cup, leave the links of the round's result, and the cup now following the current one is that result's first cup |
| CrabCups.Game.PlayRound | src/aoc2020/day23.rs:50-74 | the array stays linked to the circle, which becomes the round's result, and the new current cup is the one that followed the three picked ones, or the first picked one when there are four cups |
| CrabCups.Game.PlayGame | src/aoc2020/day23.rs:76-80 | the circle becomes the given number of rounds applied one after another |
| CrabCups.AfterOneLinked | src/aoc2020/day23.rs:82-90 | following the successors from cup 1 lists the cups after 1 in circle order |
| CrabCups.Game.AfterCupOne | src/aoc2020/day23.rs:82-90 | returns the labels clockwise after cup 1, every cup but 1 once |
| CrabCups.Game.Score | src/aoc2020/day23.rs:92-96 | returns the product of the two cups clockwise after cup 1 |
| ComboBreaker.GetLoopSize | src/aoc2020/day25.rs:18-26 | returns the least loop size whose transformation of 7 gives the public key; it is called only for keys some loop size reaches, since the search never stops otherwise |
| ComboBreaker.GetEncryption | src/aoc2020/day25.rs:28-34 | the loop computes `pubKey^loop mod 20201227` |
| ComboBreaker.TransformPow | src/aoc2020/day25.rs:28-34 | repeated multiply-and-reduce from 1 equals the power reduced once |
| ComboBreaker.Part1 | src/aoc2020/day25.rs:36-41 | the answer is the card's key raised to the door's least loop size, modulo 20201227, and equals the door's key raised to any loop size of the card |
| ComboBreaker.Symmetric | src/aoc2020/day25.rs:54-57 | transforming the card's key by the door's loop size and the door's key by the card's loop size give the same encryption key |
| ComboBreaker.SevenPowers | src/aoc2020/day25.rs:48-53 | 7 transformed 8 and 11 times gives the example keys 5764801 and 17807724, and no smaller loop size gives them |
| ComboBreaker.ExampleLoopSizes | src/aoc2020/day25.rs:48-53 | the example keys have least loop sizes exactly 8 and 11 |
| ComboBreaker.ExampleKey | src/aoc2020/day25.rs:54-57 | both sides of the example derive the encryption key 14897079 |
| BinaryDiagnostic.CountBits | src/aoc2021/day3.rs:21-28 | the fold keeps one counter per bit position, `bit_len` of them |
| BinaryDiagnostic.CountBitsOnes | src/aoc2021/day3.rs:21-28 | each counter of the fold is the number of report entries with that bit set |
| BinaryDiagnostic.MostCommon | src/aoc2021/day3.rs:40 | the flag is 1 exactly when ones are at least as many as zeros (ties go to 1) |
| BinaryDiagnostic.GammaAsWritten | src/aoc2021/day3.rs:21-32 | the as-written gamma rate (threshold `input_len / 2`) fits in `bit_len` bits |
| BinaryDiagnostic.GammaAsWrittenBits | src/aoc2021/day3.rs:21-32 | bit i of the as-written gamma rate is set exactly when i is below `bit_len` and at least `input_len / 2`, rounded down, of the numbers have bit i set |
| BinaryDiagnostic.Gamma | src/aoc2021/day3.rs:19-32 | the intended gamma rate fits in `bit_len` bits |
| BinaryDiagnostic.Epsilon | src/aoc2021/day3.rs:33 | the complement masked to `bit_len` bits stays below `2^bit_len` |
| BinaryDiagnostic.GammaEpsilonBits | src/aoc2021/day3.rs:19-35 | gamma's bit i is the most common bit at i and epsilon's bit i the least common, for every i below `bit_len`; both are 0 above |
| BinaryDiagnostic.OddLengthGamma | src/aoc2021/day3.rs:31 | for the report 01, 01, 10 the as-written threshold sets gamma's bit 1 although only one entry has it, so `part1` gives 0 instead of 2 |
| BinaryDiagnostic.Unremoved | src/aoc2021/day3.rs:60-69 | the kept entries are never more than the original |
| BinaryDiagnostic.UnremovedStep | src/aoc2021/day3.rs:62-68 | one more entry examined either is dropped (its bit equals the flag) or is appended to the kept ones |
| BinaryDiagnostic.UnremovedMembers | src/aoc2021/day3.rs:60-69 | an entry survives exactly when it was present and its bit i differs from the flag |
| BinaryDiagnostic.UnremovedCount | src/aoc2021/day3.rs:60-69 | removing the ones keeps zeros-many entries and removing the zeros keeps ones-many entries |
| BinaryDiagnostic.RemoveUnworthy | src/aoc2021/day3.rs:60-69 | the in-place removal loop leaves exactly the entries whose bit i differs from the flag, in their original order |
| BinaryDiagnostic.RemovedBit | src/aoc2021/day3.rs:40-41 | the oxygen step removes the least common bit (keeping the most common, ties 1); the CO2 step removes the most common (keeping the least common, ties 0) |
| BinaryDiagnostic.CO2EmptiesWhenUnanimous | src/aoc2021/day3.rs:49-52 | the CO2 step empties the list exactly when every entry shares bit i |
| BinaryDiagnostic.OxygenKeepsSome | src/aoc2021/day3.rs:39-42 | the oxygen step never empties a non-empty list |
| BinaryDiagnostic.OxygenStep | src/aoc2021/day3.rs:39-42 | on a non-empty list the oxygen scan yields the first kept entry and continues |
| BinaryDiagnostic.OxygenExists | src/aoc2021/day3.rs:37-45 | for a non-empty report and `bit_len >= 1` the oxygen rating exists, so its `unwrap` cannot fail |
| BinaryDiagnostic.RatingFromMember | src/aoc2021/day3.rs:37-55 | any rating the scan produces is an entry of the report |
| BinaryDiagnostic.FindRating | src/aoc2021/day3.rs:37-45 | the scan loop from the highest bit returns the last entry yielded before the list empties |
| BinaryDiagnostic.Part2 | src/aoc2021/day3.rs:36-58 | the result is the product of the two ratings when both exist (None where an `unwrap` panics); both are report entries; oxygen always exists for a non-empty report |
| GiantSquid.MarkCell | src/aoc2021/day4.rs:89-93 | a cell keeps its number; it is drawn afterwards exactly when it was drawn before or holds the drawn number |
| GiantSquid.Mark | src/aoc2021/day4.rs:86-96 | marking keeps the board's shape, including the square shape the column scan needs |
| GiantSquid.MarkIdempotent | src/aoc2021/day4.rs:86-96 | applying the same drawn number twice changes nothing the second time |
| GiantSquid.MarkCommutes | src/aoc2021/day4.rs:86-96 | the order in which two numbers are applied does not matter |
| GiantSquid.MarkKeepsWin | src/aoc2021/day4.rs:98-104 | a board that wins still wins after any further draw |
| GiantSquid.WinNeedsNumber | src/aoc2021/day4.rs:98-104 | a draw that makes a board win held the drawn number in a cell that was not yet drawn |
| GiantSquid.FreshBoardNoWin | src/aoc2021/day4.rs:98-104 | a board with at least one row and nothing drawn does not win |
| GiantSquid.RowUnmarkedMark | src/aoc2021/day4.rs:118-123 | marking d lowers a row's unmarked sum by d for each undrawn cell holding d |
| GiantSquid.UnmarkedMark | src/aoc2021/day4.rs:114-126 | marking d lowers the board's unmarked sum by d for each undrawn cell holding d |
| GiantSquid.MarkAll | src/aoc2021/day4.rs:131 | every board is marked; the boards stay square |
| GiantSquid.MarkSeqKeepsWin | src/aoc2021/day4.rs:130-131 | a board that wins keeps winning over any later draws |
| GiantSquid.FirstFrom | src/aoc2021/day4.rs:132 | the board found has won and is not excluded, and no earlier board qualifies; None means no board qualifies |
| GiantSquid.FirstWinScoreSound | src/aoc2021/day4.rs:129-137 | a part 1 result is the score of the first winning board, taken at the first draw on which any board wins |
| GiantSquid.FirstWinScoreComplete | src/aoc2021/day4.rs:129-136 | if some board wins once every number is drawn, part 1 returns without reaching its panic |
| GiantSquid.TruesSet | src/aoc2021/day4.rs:148-149 | setting one board done raises the count of done boards by one |
| GiantSquid.SweepSound | src/aoc2021/day4.rs:144-153 | a sweep either returns when every board has won, scoring a board that had not won before, or leaves exactly the winning boards done |
| GiantSquid.SweepLast | src/aoc2021/day4.rs:148-151 | when the count reaches the number of boards, every board has won |
| GiantSquid.LastWinScoreSound | src/aoc2021/day4.rs:139-156 | a part 2 result comes from the draw on which the last boards win, scoring a board that had not won before that draw |
| GiantSquid.LastWinScoreComplete | src/aoc2021/day4.rs:139-155 | if every board wins once every number is drawn, part 2 returns without reaching its panic |
| GiantSquid.Part2Start | src/aoc2021/day4.rs:140-141 | fresh boards begin part 2 with a count of 0 done boards, matching the flags |
| GiantSquid.Board.constructor | src/aoc2021/day4.rs:59-70 | a parsed board starts with every cell undrawn and is not done |
| GiantSquid.Board.ApplyDrawn | src/aoc2021/day4.rs:86-96 | the board's rows become the marked rows and its done flag is kept |
| GiantSquid.Board.SetDone | src/aoc2021/day4.rs:106-108 | the board becomes done and its rows stay as they were |
| GiantSquid.MarkCells | src/aoc2021/day4.rs:88-94 | the cell loop of one row produces the marked row |
| GiantSquid.ApplyAll | src/aoc2021/day4.rs:131 | every board is marked in place and no done flag changes |
| GiantSquid.ApplyAt | src/aoc2021/day4.rs:131 | one iteration marks board i and leaves the other boards as they were |
| GiantSquid.FindWinner | src/aoc2021/day4.rs:132 | the search loop returns the first board that has won and is not excluded |
| GiantSquid.Part1 | src/aoc2021/day4.rs:129-137 | the method equals the part 1 specification on the boards it was given |
| GiantSquid.SetDoneAt | src/aoc2021/day4.rs:148 | board j is set done and nothing else changes |
| GiantSquid.SweepStep | src/aoc2021/day4.rs:145-152 | one loop iteration sets the found board done and counts it; it returns at the last board, otherwise it searches again |
| GiantSquid.SweepBoards | src/aoc2021/day4.rs:144-153 | the while-let loop leaves the boards and the count as the sweep specification does |
| GiantSquid.Part2 | src/aoc2021/day4.rs:139-156 | the method equals the part 2 specification with the boards' own flags and a count starting at 0 |
| Lanternfish.CountAppend | src/aoc2021/day6.rs:21-23 | counting the fish with a given timer distributes over concatenation of the fish list |
| Lanternfish.Buckets | src/aoc2021/day6.rs:19-25 | bucket k of the nine buckets holds exactly the number of fish whose timer is k |
| Lanternfish.Day | src/aoc2021/day6.rs:26-29 | after a day bucket k holds what bucket k+1 held (k not 6), bucket 6 holds the old buckets 7 and 0 together, bucket 8 the old bucket 0 |
| Lanternfish.Total9 | src/aoc2021/day6.rs:36 | the fish count is the sum of the nine buckets |
| Lanternfish.DayTotal | src/aoc2021/day6.rs:26-29 | a day adds exactly as many fish as there were fish at timer 0 |
| Lanternfish.DaysGrow | src/aoc2021/day6.rs:32-36 | the population after any number of days is at least the starting population |
| Lanternfish.TickBuckets | src/aoc2021/day6.rs:19-29 | rotating the buckets agrees with the puzzle's fish-by-fish rule (timer down by one, or 0 back to 6 plus a new fish at 8) counted into buckets |
| Lanternfish.BucketsTotal | src/aoc2021/day6.rs:19-25 | the buckets count every fish exactly once |
| Lanternfish.TickBelowNine | src/aoc2021/day6.rs:26-29 | the fish-by-fish rule keeps every timer within the nine buckets |
| Lanternfish.DaysCountFish | src/aoc2021/day6.rs:32-36 | after n days the buckets are the buckets of the fish-by-fish simulation and their total is its number of fish |
| Lanternfish.LanternFishes.constructor | src/aoc2021/day6.rs:19-25 | builds nine buckets equal to the counts per timer; a timer of 9 or more is excluded because it indexes past the buckets |
| Lanternfish.LanternFishes.ApplyDay | src/aoc2021/day6.rs:26-29 | rotates the buckets left by one in place and adds the new bucket 8 to bucket 6, leaving the array equal to Day of the old buckets |
| Lanternfish.Solve | src/aoc2021/day6.rs:32-37 | the buckets become Days of the old buckets and the returned value is their total |
| SyntaxScoring.ScanLine | src/aoc2021/day10.rs:49-65 | a line read from the left either stops at a closer, the illegal one, or leaves a stack made only of closers |
| SyntaxScoring.LineScoreOf | src/aoc2021/day10.rs:48-80 | a corrupted score is one of 0, 3, 57, 1197, 25137; an incomplete score is positive |
| SyntaxScoring.ScanAppend | src/aoc2021/day10.rs:50-65 | reading a line in two pieces is reading it at once: an illegal closer in the first piece ends the scan, otherwise the second piece continues from the stack left |
| SyntaxScoring.MissingCloses | src/aoc2021/day10.rs:66-79 | typing the owed closers from the top of the stack down empties the stack |
| SyntaxScoring.CompletionScoresMissing | src/aoc2021/day10.rs:69-77 | folding the stack from its top equals the puzzle's score of the owed closers typed in order |
| SyntaxScoring.CompletingLine | src/aoc2021/day10.rs:48-80 | an incomplete line followed by its owed closers closes every bracket, and its score is the score of those closers |
| SyntaxScoring.GetLineScore | src/aoc2021/day10.rs:48-80 | the stack loop returns the line's score as the left-to-right scan defines it |
| SyntaxScoring.FoldFromTop | src/aoc2021/day10.rs:69-77 | the fold from the top of the stack equals the completion score |
| SyntaxScoring.Part1 | src/aoc2021/day10.rs:9-15 | the sum of the scores of the corrupted lines |
| SyntaxScoring.Insert | src/aoc2021/day10.rs:23 | inserting into a sorted sequence keeps it sorted and adds exactly the one element |
| SyntaxScoring.Sort | src/aoc2021/day10.rs:23 | the sorted scores are a sorted permutation of the scores |
| SyntaxScoring.SortedAround | src/aoc2021/day10.rs:23-24 | in a sorted sequence every element before a position is at most the one there and every one after at least |
| SyntaxScoring.Part2 | src/aoc2021/day10.rs:17-25 | the middle of the sorted incomplete scores: one of the scores, with the scores sorted before it at most and those after it at least; none exactly when no line is incomplete, where the source's indexing panics |
| DumboOctopus.OffsetSearch | src/aoc2021/day11.rs:1-10 | finds the first position of an offset in the table of eight, or reports none |
| DumboOctopus.OffsetsAdjacent | src/aoc2021/day11.rs:1-10 | the eight offsets are exactly the steps to a cell touching by side or corner |
| DumboOctopus.OffsetIndex | src/aoc2021/day11.rs:1-10 | an offset is in the table iff it is a nonzero step of at most one in each direction |
| DumboOctopus.OffsetIndexAt | src/aoc2021/day11.rs:1-10 | the table's offsets are pairwise distinct |
| DumboOctopus.Tried | src/aoc2021/day11.rs:29-33 | the cells the first `k` offsets reach all lie in the grid |
| DumboOctopus.TriedIndex | src/aoc2021/day11.rs:29-33 | a cell is reached by the first `k` offsets iff it is an adjacent grid cell whose offset comes before `k` |
| DumboOctopus.TriedFresh | src/aoc2021/day11.rs:29-33 | each offset reaches a cell the earlier ones did not |
| DumboOctopus.TriedAll | src/aoc2021/day11.rs:27-34 | the eight offsets together reach exactly the adjacent grid cells |
| DumboOctopus.Put | src/aoc2021/day11.rs:69 | updating one cell changes that cell and no other |
| DumboOctopus.NeighboursFrom | src/aoc2021/day11.rs:27-34 | the remaining neighbours are distinct, new, and complete the adjacent grid cells |
| DumboOctopus.NeighbourIndexes | src/aoc2021/day11.rs:27-34 | at most eight distinct cells, all inside the square grid, exactly the adjacent ones |
| DumboOctopus.AllCellsCard | src/aoc2021/day11.rs:39 | a grid of side `len` has `len * len` cells |
| DumboOctopus.DistinctCard | src/aoc2021/day11.rs:66-75 | a list without repeats has as many distinct cells as entries |
| DumboOctopus.CountInAdd | src/aoc2021/day11.rs:68-72 | adding a cell to the flashed set counts it once more exactly when it is a listed neighbour |
| DumboOctopus.NbrCountAdd | src/aoc2021/day11.rs:68-72 | a new flash raises the flashed-neighbour count of exactly the cells adjacent to it |
| DumboOctopus.IncrementAll | src/aoc2021/day11.rs:51-54 | every cell goes up by one |
| DumboOctopus.InitialFlashes | src/aoc2021/day11.rs:57-64 | the stack holds exactly the cells at 10, each once |
| DumboOctopus.FlashNeighbours | src/aoc2021/day11.rs:68-73 | each neighbour of the popped cell rises by one, no other cell changes, and exactly the neighbours reaching 10 are pushed |
| DumboOctopus.PopKeeps | src/aoc2021/day11.rs:67 | the popped cell is at 10 or more, has not flashed yet and is not elsewhere on the stack |
| DumboOctopus.FlashKeeps | src/aoc2021/day11.rs:67-75 | after a flash every level is still its increment plus one per flashed neighbour, and exactly the cells at 10 or more are flashed or waiting |
| DumboOctopus.JustifiedAppend | src/aoc2021/day11.rs:67-75 | a popped cell at 10 or more extends the list of justified flashes |
| DumboOctopus.SpreadingInit | src/aoc2021/day11.rs:57-66 | before any flash the loop invariant holds with the cells at 10 on the stack |
| DumboOctopus.FlashOne | src/aoc2021/day11.rs:67-75 | one pop-and-flash keeps the loop invariant and flashes a cell not flashed before |
| DumboOctopus.Shrinks | src/aoc2021/day11.rs:67-75 | every round leaves fewer cells unflashed, so the loop ends |
| DumboOctopus.Propagate | src/aoc2021/day11.rs:66-75 | the count equals the number of distinct flashed cells; exactly the cells at 10 or more flashed; each flash is caused by the increment and the flashes before it |
| DumboOctopus.ResetFlashed | src/aoc2021/day11.rs:77-81 | cells above 9 become 0, the others keep their level |
| DumboOctopus.AllFlash | src/aoc2021/day11.rs:39 | a step in which `len * len` distinct cells flash flashes every cell |
| DumboOctopus.FlashBound | src/aoc2021/day11.rs:66-75 | at most `len * len` cells flash in a step |
| DumboOctopus.Cavern.constructor | src/aoc2021/day11.rs:86-97 | the cavern holds a square grid of digits |
| DumboOctopus.StepUnique | src/aoc2021/day11.rs:50-83 | a step is determined by the grid it starts from: any two steps from one grid flash the same cells, as many of them, and give the same grid |
| DumboOctopus.SteppedUnique | src/aoc2021/day11.rs:46-48 | stepping a grid `n` times has one outcome: the same grids and the same total of flashes |
| DumboOctopus.Cavern.ApplyStep | src/aoc2021/day11.rs:50-83 | the new grid is the step from the old one: levels are digits again; exactly the flashed cells are now 0 and the count is their number; any other cell rose by one plus its flashed neighbours; each flash has a cause |
| DumboOctopus.Cavern.ApplySteps | src/aoc2021/day11.rs:46-48 | the grid is stepped `n` times and the result is the sum of the flash counts of those steps, at most `n * len * len` |
| DumboOctopus.Cavern.ApplyStepsUntilAllFlash | src/aoc2021/day11.rs:36-44 | `Some(i)`: step `i` is the first in which every cell flashes, and it leaves every cell at 0; `None`: no step within the budget has every cell flash |
| DumboOctopus.Part1 | src/aoc2021/day11.rs:99-101 | the result is the sum of the flash counts of the first hundred steps of the grid, at most `100 * len * len` |
| TransparentOrigami.FoldPoint | src/aoc2021/day13.rs:89-102 | a y-fold maps a dot beyond the line to `max.y - y` and leaves the others unchanged, `x` untouched; an x-fold likewise |
| TransparentOrigami.NewMax | src/aoc2021/day13.rs:94-104 | the folded coordinate of the corner becomes `line - 1`, the other stays |
| TransparentOrigami.FoldSet | src/aoc2021/day13.rs:89-106 | every dot's image is in the folded set and every folded dot is the image of some dot |
| TransparentOrigami.FoldAll | src/aoc2021/day13.rs:109-113 | with no folds left the dots and corner are unchanged; otherwise the last fold is applied first, `None` when a fold would underflow |
| TransparentOrigami.FoldMirrors | src/aoc2021/day13.rs:89-94 | folding along the middle line puts a dot at its mirror image, inside the new sheet |
| TransparentOrigami.FoldIdempotent | src/aoc2021/day13.rs:89-94 | folding twice along the middle line moves nothing more |
| TransparentOrigami.FirstIsLeast | src/aoc2021/day13.rs:105-106 | the first dot of a sorted, deduplicated list is smaller than every later one |
| TransparentOrigami.SortedUnique | src/aoc2021/day13.rs:105-106 | two sorted, deduplicated lists with the same dots are equal, so the dot list after a fold is determined |
| TransparentOrigami.InsertUnique | src/aoc2021/day13.rs:105-106 | inserting keeps the list strictly sorted, adds exactly the new dot and grows it by at most one |
| TransparentOrigami.SortDedup | src/aoc2021/day13.rs:105-106 | the result is strictly sorted, holds exactly the input's dots and is no longer than the input |
| TransparentOrigami.DistinctCount | src/aoc2021/day13.rs:105-106 | a sorted, deduplicated list has as many entries as distinct dots |
| TransparentOrigami.Instruction.constructor | src/aoc2021/day13.rs:79-83 | the state holds the given dots, corner and fold stack |
| TransparentOrigami.Instruction.ApplyFold | src/aoc2021/day13.rs:86-107 | the new dots are sorted, distinct and exactly the folded dots; the corner moves; the count never increases; requires no underflow |
| TransparentOrigami.Instruction.ApplyAllFolds | src/aoc2021/day13.rs:109-113 | the stack ends empty and the dots and corner are what applying every fold, last first, gives |
| TransparentOrigami.Instruction.Part1 | src/aoc2021/day13.rs:10-13 | pops one fold (as `apply_first_fold_on_stack` does), applies it and returns the number of distinct dots, never more than before; requires a fold on the stack |
| ExtendedPolymerization.FlatMapRemove | src/aoc2021/day14.rs:60-69 | the pair counts may be folded in any order: any occurrence can be taken first, as the hash-map iteration does |
| ExtendedPolymerization.FlatMapUnion | src/aoc2021/day14.rs:60-69 | folding a union of pair counts is the union of the two folds |
| ExtendedPolymerization.PairCountsSize | src/aoc2021/day14.rs:25-30 | a template of n elements yields n - 1 adjacent pairs |
| ExtendedPolymerization.RulesMap | src/aoc2021/day14.rs:31-43 | every rule line's pair has a rule, and every rule in the map comes from one of the lines |
| ExtendedPolymerization.Polymer.Parse | src/aoc2021/day14.rs:19-50 | the counts are exactly the multiset of adjacent pairs of the template, first and last are its ends, the rules are the collected lines |
| ExtendedPolymerization.NewUnits | src/aoc2021/day14.rs:60-68 | the new counts send every ruled pair's count to the two pairs around its inserted element and drop unruled pairs |
| ExtendedPolymerization.Polymer.React | src/aoc2021/day14.rs:60-69 | the units become the reaction of the old units; rules, first and last are unchanged |
| ExtendedPolymerization.ReactInsert | src/aoc2021/day14.rs:60-69 | on a template whose pairs are all ruled, reacting its pair counts gives the pair counts of the template after one insertion step |
| ExtendedPolymerization.Insert | src/aoc2021/day14.rs:60-69 | the insertion step keeps the first and the last element of the polymer |
| ExtendedPolymerization.InsertWithin | src/aoc2021/day14.rs:60-69 | when the rules cover every pair over an alphabet, every pair of the template is ruled and the inserted template stays within the alphabet |
| ExtendedPolymerization.Tally | src/aoc2021/day14.rs:72-76 | the count map counts both elements of every pair as often as the pair occurs |
| ExtendedPolymerization.LettersTwice | src/aoc2021/day14.rs:77-79 | counting both elements of every pair and adding the first and the last element counts every element of the template exactly twice |
| ExtendedPolymerization.MaxCount | src/aoc2021/day14.rs:81 | the result is the largest count, and some element has it |
| ExtendedPolymerization.MinCount | src/aoc2021/day14.rs:82 | the result is the smallest count among the counted elements, and some element has it |
| ExtendedPolymerization.Doubled | src/aoc2021/day14.rs:80-83 | doubling every count doubles the largest and the smallest count |
| ExtendedPolymerization.Polymer.GiveAnswer | src/aoc2021/day14.rs:71-84 | the answer is half the difference between the largest and smallest count of pair elements plus first and last |
| ExtendedPolymerization.AnswerSpread | src/aoc2021/day14.rs:71-84 | on the pair counts of a template the answer equals the most common minus the least common element count of that template |
| ExtendedPolymerization.PartCore | src/aoc2021/day14.rs:12-17 | for any rules, the pair counts become the given number of reactions of the old counts, the rules and ends stay, and the answer is `give_answer` on the new counts; when the counts stand for a template whose alphabet the rules cover, the polymer stands for the template after that many insertion steps and the answer is its spread |
| ExtendedPolymerization.ReactedNAdd | src/aoc2021/day14.rs:3-10 | n reactions after m reactions are m + n reactions, so continuing part 1's counts for 30 reactions gives the 40-reaction counts |
| ExtendedPolymerization.InsertNAdd | src/aoc2021/day14.rs:3-10 | n insertion steps after m steps are m + n steps, so continuing part 1's polymer for 30 steps gives the 40-step answer |
| ExtendedPolymerization.Run | src/aoc2021/day14.rs:3-10 | for any rules, part 1 is `give_answer` on the template's pair counts after 10 reactions and part 2 after 40; when the rules cover the template's alphabet these are the spreads of the template after 10 and 40 insertion steps |
| PacketDecoder.ReadBitsBound | src/aoc2021/day16.rs:168-177 | a number read from `n` bits is below 2^n |
| PacketDecoder.ToBitsValue | src/aoc2021/day16.rs:168-177 | reading back the `n` most-significant-first bits of a value below 2^n gives the value |
| PacketDecoder.ReadNumber | src/aoc2021/day16.rs:168-177 | returns the most-significant-first value of bits i..i+n, below 2^n, and advances the cursor by exactly n |
| PacketDecoder.HexToBits | src/aoc2021/day16.rs:154-163 | succeeds exactly when every character is a hexadecimal digit, giving four bits per character |
| PacketDecoder.HexToBitsBlocks | src/aoc2021/day16.rs:156-163 | the four bits of each character hold its digit value, most significant first |
| PacketDecoder.NewLiteral | src/aoc2021/day16.rs:69-84 | reads five-bit groups while the lead bit is set and returns the value of the concatenated four-bit payloads and the cursor after the last group; none where a read would run past the end |
| PacketDecoder.ParsePackage | src/aoc2021/day16.rs:179-190 | reads the 3-bit version and 3-bit type and then a literal (type 4) or an operator, exactly as the decoding of the bits from the cursor; none where the source panics |
| PacketDecoder.ReadByLength | src/aoc2021/day16.rs:104-109 | reads subpackages until they cover exactly the announced number of bits |
| PacketDecoder.ReadByCount | src/aoc2021/day16.rs:110-114 | reads exactly the announced number of subpackages |
| PacketDecoder.NewOperator | src/aoc2021/day16.rs:95-122 | the length type bit selects a 15-bit length or an 11-bit count, and the subpackages follow as the decoding defines |
| PacketDecoder.DecodeByCount | src/aoc2021/day16.rs:110-114 | a successful count-typed read yields exactly the announced number of subpackages |
| PacketDecoder.DecodeByLength | src/aoc2021/day16.rs:104-109 | a successful length-typed read ends exactly the announced number of bits after its start |
| PacketDecoder.Parse | src/aoc2021/day16.rs:154-166 | succeeds exactly when the text is hexadecimal and its bits decode to a package from position 0, and returns that package |
| PacketDecoder.NumGroupsBound | src/aoc2021/day16.rs:69-84 | the encoding of a literal uses enough four-bit groups to hold its value |
| PacketDecoder.DecodeEncode | src/aoc2021/day16.rs:179-190 | every well-formed package written out as bits is decoded back to itself, ending just after its encoding |
| PacketDecoder.DecodeByLengthEncoded | src/aoc2021/day16.rs:104-109 | length-typed subpackages written out one after the other are decoded back to the same list |
| PacketDecoder.DecodeByCountEncoded | src/aoc2021/day16.rs:110-114 | count-typed subpackages written out one after the other are decoded back to the same list |
| PacketEvaluator.SumVersions | src/aoc2021/day16.rs:12-18 | the version sum is at least the package's own version |
| PacketEvaluator.SumVersionsIsSumOfAll | src/aoc2021/day16.rs:12-18 | the version sum is the sum of the versions of every package in the tree |
| PacketEvaluator.Compare | src/aoc2021/day16.rs:30-41 | types 5, 6 and 7 give 1 exactly when the first operand is greater, less or equal, and 0 otherwise |
| PacketEvaluator.Evaluate | src/aoc2021/day16.rs:20-45 | a literal evaluates to its value and a comparison to 0 or 1 |
| PacketEvaluator.EvaluateDefined | src/aoc2021/day16.rs:20-45 | evaluation succeeds exactly on the packages where no `unwrap` or `unreachable!` fires |
| PacketEvaluator.MinimumOperator | src/aoc2021/day16.rs:28 | a minimum operator's value is one operand's value and no operand is smaller |
| PacketEvaluator.MaximumOperator | src/aoc2021/day16.rs:29 | a maximum operator's value is one operand's value and no operand is larger |
| Snailfish.AddLeftLeaves | src/aoc2021/day18.rs:24-35 | with None the tree is unchanged; with Some(v) only the leftmost regular number grows by v and the shape stays |
| Snailfish.AddRightLeaves | src/aoc2021/day18.rs:36-46 | with None the tree is unchanged; with Some(v) only the rightmost regular number grows by v and the shape stays |
| Snailfish.ExplodeShape | src/aoc2021/day18.rs:48-72 | an explosion happens exactly when a pair is nested four deep; otherwise nothing changes and nothing is handed back; an explosion removes one regular number |
| Snailfish.ExplodeSum | src/aoc2021/day18.rs:48-72 | the exploded tree plus the two values handed outwards sum to the numbers of the old tree |
| Snailfish.SplitFlag | src/aoc2021/day18.rs:74-95 | split reports true exactly when some regular number is 10 or more, and otherwise leaves the tree unchanged |
| Snailfish.SplitLeaves | src/aoc2021/day18.rs:74-95 | split replaces the leftmost number of 10 or more, n, by the pair [n/2, n/2 + n%2] and nothing else |
| Snailfish.SplitKeeps | src/aoc2021/day18.rs:74-95 | a split keeps the sum of the regular numbers and the nesting bound |
| Snailfish.ReduceSpecReduced | src/aoc2021/day18.rs:97-108 | a reduced number has no pair nested four deep and no regular number of 10 or more, and its numbers sum to no more than before |
| Snailfish.Reduce | src/aoc2021/day18.rs:97-108 | the loop explodes before it splits, as the reduction rule says, and what it returns can neither explode nor split |
| Snailfish.AddSpec | src/aoc2021/day18.rs:165-171 | the sum of two snailfish numbers is reduced |
| Snailfish.MagnitudeBounds | src/aoc2021/day18.rs:110-115 | the magnitude is at least the sum of the regular numbers and is zero exactly when they all are |
| Snailfish.Part1 | src/aoc2021/day18.rs:165-171 | the answer is the magnitude of the left-to-right sum of all the numbers, none for an empty list |
| Snailfish.Part2 | src/aoc2021/day18.rs:173-181 | the answer is the largest magnitude over the sums of two different numbers in either order, and is attained by one of them; none with fewer than two numbers, or only when the reduction of some ordered pair does not stop within the step budget |
| Snailfish.ParseElement | src/aoc2021/day18.rs:144-163 | every successful parse consumes at least one character |
| Snailfish.ParseShow | src/aoc2021/day18.rs:144-163 | parsing the written form of a number, whatever follows it, gives the number back and leaves the rest unread |
| ScannerRegistration.Rotate | src/aoc2021/day19.rs:28-56 | each of the 24 orientations keeps the Manhattan length of a point |
| ScannerRegistration.RotateInverse | src/aoc2021/day19.rs:28-56 | every orientation has an inverse orientation among the 24 that undoes it |
| ScannerRegistration.RotateSub | src/aoc2021/day19.rs:28-56 | an orientation is linear: rotating a difference is the difference of the rotated points |
| ScannerRegistration.RotatePreservesDistance | src/aoc2021/day19.rs:28-56 | an orientation keeps the Manhattan distance between any two points |
| ScannerRegistration.RotationIsProper | src/aoc2021/day19.rs:28-56 | every orientation is a proper rotation: its sign flips and its axis permutation have even parity together |
| ScannerRegistration.RotationsDistinct | src/aoc2021/day19.rs:28-56 | the 24 orientations are pairwise different |
| ScannerRegistration.MakeReading | src/aoc2021/day19.rs:73-83 | a reading's distance set holds exactly the Manhattan distances between pairs of its beacons |
| ScannerRegistration.DistanceSetRotationInvariant | src/aoc2021/day19.rs:128-136 | the distance set of a reading does not depend on the orientation it is seen in, which justifies the pre-filter |
| ScannerRegistration.DistanceSetTranslationInvariant | src/aoc2021/day19.rs:128-136 | the distance set of a reading does not depend on where the scanner sits |
| ScannerRegistration.CountContained | src/aoc2021/day19.rs:149-153 | counts the translated beacons already among the known beacon locations |
| ScannerRegistration.PassesPreFilter | src/aoc2021/day19.rs:130-136 | true exactly when some stored distance set shares at least 66 distances with the reading |
| ScannerRegistration.SearchTranslation | src/aoc2021/day19.rs:143-159 | finds an offset, from a known beacon to a rotated one, that puts at least 12 rotated beacons onto known ones, and none only when no such offset exists |
| ScannerRegistration.FindAlignment | src/aoc2021/day19.rs:137-161 | tries the orientations in order and returns the first that aligns, with its offset; none only when no orientation aligns |
| ScannerRegistration.MergeReading | src/aoc2021/day19.rs:123-162 | on none nothing changes and the reading cannot be merged; on an offset the rotated and translated beacons are added to the locations and exactly the reading's distance set is appended |
| ScannerRegistration.SwapRemoveMultiset | src/aoc2021/day19.rs:116 | `swap_remove` keeps every other reading |
| ScannerRegistration.MergeStep | src/aoc2021/day19.rs:110-117 | a reading that merges is swap-removed, its distance set appended, and the known beacons become the old ones plus its beacons turned by the orientation found and moved by the offset returned, which puts at least 12 of them on old ones; otherwise nothing changes and the reading cannot be merged |
| ScannerRegistration.MergePass | src/aoc2021/day19.rs:109-118 | one backwards pass removes exactly the readings it merges and appends their distance sets; the known beacons grow by exactly the merged readings' beacons, each placed by its orientation and the offset recorded for it, and each merged reading aligns (at least 12 shared beacons) with the beacons known when it was merged; a pass merging nothing leaves every reading unmergeable |
| ScannerRegistration.MergeAll | src/aoc2021/day19.rs:106-120 | readings are only moved from pending to merged; the offsets are [0,0,0] followed by one per merged reading; the final beacons are the initial ones plus every merged reading's beacons placed by its orientation and offset, each reading aligning with the beacons known before it; it stops with readings still pending only when none of them can be merged into the final locations, where the source would loop forever |
| ScannerRegistration.MaxPairDistanceIsMax | src/aoc2021/day19.rs:18-26 | the largest pairwise Manhattan distance is attained and bounds all pairs, and is absent only with fewer than two offsets |
| ScannerRegistration.Plane3D.constructor | src/aoc2021/day19.rs:58-96 | the first scanner's beacons are the known locations and its distance set the only stored set; the other scanners become pending readings |
| ScannerRegistration.Plane3D.MergeAllReadings | src/aoc2021/day19.rs:106-121 | the pending readings shrink by the merged ones and the stored distance sets grow by theirs; the beacon locations become the old ones plus each merged reading's beacons placed by its orientation and offset, each aligning with those known before it; on success the total distances gain exactly [0,0,0] followed by those offsets |
| ScannerRegistration.Run | src/aoc2021/day19.rs:4-16 | part 1 is the number of distinct beacons in scanner 0's reading together with every merged reading placed by its orientation and offset, each merge putting at least 12 beacons on already known ones; when every reading merges, the merged readings are exactly the queued ones and part 2 is the largest distance between the origins [0,0,0] and the offsets |
| ScannerRegistration.Plane3D.Part2 | src/aoc2021/day19.rs:18-26 | the answer is the largest Manhattan distance between two scanner offsets, absent when there are fewer than two |
| DiracDice.Move | src/aoc2021/day21.rs:76 | the pawn lands on a space 1..10 congruent modulo 10 to its old space plus the rolled sum |
| DiracDice.PracticeInnerPlay | src/aoc2021/day21.rs:70-79 | one turn takes the next three values of the 1..100 die, moves and scores the pawn and counts three rolls; the turn either ends the practice game with this player winning or hands the rest of the game to the opponent |
| DiracDice.PracticeEnds | src/aoc2021/day21.rs:58-67 | the practice game ends with one player at 1000 or more, the other still below 1000, and at least one turn played |
| DiracDice.PracticePlay | src/aoc2021/day21.rs:51-68 | the answer is the loser's final score times the number of rolls of the practice game |
| DiracDice.CountOf | src/aoc2021/day21.rs:88-91 | a value is counted a positive number of times exactly when it occurs |
| DiracDice.CountAppend | src/aoc2021/day21.rs:88-91 | counting over two lists joined is the sum of the two counts |
| DiracDice.DiceWeights | src/aoc2021/day21.rs:84-87 | the 27 rolls of three three-sided dice give the sums 3..9 in 1, 3, 6, 7, 6, 3, 1 ways and nothing else |
| DiracDice.CountOutcomes | src/aoc2021/day21.rs:88-91 | the tally has a key for exactly the values occurring and maps each to its number of occurrences |
| DiracDice.TallyIsWeights | src/aoc2021/day21.rs:84-93 | the tally of the 27 sums is the map from 3..9 to 1, 3, 6, 7, 6, 3, 1 |
| DiracDice.QuantumInnerPlay | src/aoc2021/day21.rs:106-144 | returns the universes won by the player to move and by the other player as the plain recursion counts them (the other having already won gives (0, 1)), and leaves every cache entry equal to that recursion |
| DiracDice.OneStepFromWinning | src/aoc2021/day21.rs:122-143 | a player on 20 points to move wins in every universe of its turn and the other in none |
| DiracDice.ImmediateWin | src/aoc2021/day21.rs:122-143 | with the tallied dice, a player on 20 points to move wins in all 27 universes |
| DiracDice.QuantumPlay | src/aoc2021/day21.rs:82-104 | the answer is the larger of the two players' universe counts from both starting positions and scores 0 |
| ReactorReboot.OverlapsIffCommonCube | src/aoc2021/day22.rs:50-53 | two cuboids overlap on all three axes exactly when they share a cube, and their intersection holds exactly the shared cubes |
| ReactorReboot.Volume | src/aoc2021/day22.rs:129-135 | the product of the three side lengths of a valid cuboid is at least 1 |
| ReactorReboot.SumVolumesAppend | src/aoc2021/day22.rs:168-170 | the summed volume grows by the volume of an appended cuboid |
| ReactorReboot.IntersectSplit | src/aoc2021/day22.rs:48-127 | non-overlapping boxes give [self] and leave self alone; otherwise at most six pieces lie inside self, are pairwise disjoint, hold exactly the cubes of self outside other, and their volume is that of self minus the overlap, self shrinking to the overlap |
| ReactorReboot.PartitionDone | src/aoc2021/day22.rs:55-122 | once the slabs are cut off, the pieces hold exactly the cubes of self outside other |
| ReactorReboot.ApplyStep | src/aoc2021/day22.rs:140-150 | every listed cuboid loses the cubes of the new one and an "on" step then appends it; the list stays pairwise disjoint and holds exactly the cubes lit after the step |
| ReactorReboot.Reboot | src/aoc2021/day22.rs:138-152 | the fold keeps the list pairwise disjoint and its cubes are exactly those that the last step covering them turned on |
| ReactorReboot.Part1 | src/aoc2021/day22.rs:154-166 | the answer never exceeds the total volume and equals it when every cuboid lies in the -50..50 region |
| SeaCucumber.SuccMod | src/aoc2021/day25.rs:55 | the wrap-round successor cell used by the model is the source's `(x + 1) % x_max` |
| SeaCucumber.ShiftUpToAll | src/aoc2021/day25.rs:52-62 | the cell-by-cell writes into the copy, done for a whole row, give the simultaneous move of every cucumber whose next cell was empty before the step |
| SeaCucumber.ShiftChanges | src/aoc2021/day25.rs:54-59 | a line changes under a half-step exactly when some cucumber of the herd has an empty cell ahead |
| SeaCucumber.ShiftCount | src/aoc2021/day25.rs:57-58 | a half-step keeps the number of cells of every kind on a line: a mover's old cell is emptied as its new one is filled |
| SeaCucumber.EastStepCount | src/aoc2021/day25.rs:48-65 | the east half-step keeps the number of east-facing, south-facing and empty cells of the floor |
| SeaCucumber.SouthStepCount | src/aoc2021/day25.rs:67-84 | the south half-step keeps the number of cells of every kind of the floor |
| SeaCucumber.EastMovesChanges | src/aoc2021/day25.rs:48-65 | the east half-step reports a move exactly when it changes the floor |
| SeaCucumber.SouthMovesChanges | src/aoc2021/day25.rs:67-84 | the south half-step reports a move exactly when it changes the floor |
| SeaCucumber.StepChanges | src/aoc2021/day25.rs:38-43 | a step in which either herd moves changes the floor, and one in which neither moves leaves it as it was |
| SeaCucumber.FirstCalmFirst | src/aoc2021/day25.rs:35-46 | the count is the number of the first step in which nothing moves, counting that step, and no step before it is calm |
| SeaCucumber.CalmUnchanged | src/aoc2021/day25.rs:41-43 | the step at which the search stops is the first that leaves the floor unchanged, a fixed point of the step |
| SeaCucumber.SeaBed.StepEast | src/aoc2021/day25.rs:48-65 | the floor becomes the east half-step of the old floor, and the result is true exactly when some east-facing cucumber had an empty cell to its right, wrapping round, which is exactly when the floor changed |
| SeaCucumber.SeaBed.StepSouth | src/aoc2021/day25.rs:67-84 | the floor becomes the south half-step of the old floor, and the result is true exactly when some south-facing cucumber had an empty cell below it, wrapping round, which is exactly when the floor changed |
| SeaCucumber.SeaBed.Advance | src/aoc2021/day25.rs:38-41 | one round of the loop: the floor takes one full step, and the round is calm exactly when neither herd could move |
| SeaCucumber.SeaBed.ApplySteps | src/aoc2021/day25.rs:35-46 | the answer is the number of the first calm step, counting it, and the floor is left as it is after that many steps |
| SupplyStacks.MaxIndex | src/aoc2022/day5.rs:43 | the greatest column index: no parsed crate lies beyond it and one lies on it |
| SupplyStacks.CreateStacks | src/aoc2022/day5.rs:42-51 | one stack per column up to the greatest index, each holding exactly the capital letters of its column, bottom first, in input order |
| SupplyStacks.Move9000Reverses | src/aoc2022/day5.rs:54-58 | between two different stacks the one-at-a-time crane fails exactly when the source holds too few crates, and otherwise moves the top block reversed |
| SupplyStacks.MoveToSameStack | src/aoc2022/day5.rs:54-74 | a move from a stack onto itself leaves all stacks as they were, or panics when the source lacks crates |
| SupplyStacks.TotalUpdate | src/aoc2022/day5.rs:56-57 | replacing one stack changes the crate count by the change in that stack's size |
| SupplyStacks.MovesKeepCrates | src/aoc2022/day5.rs:54-74 | with enough crates both cranes succeed, change no stack other than the two named, and keep the total crate count |
| SupplyStacks.Tops | src/aoc2022/day5.rs:60-63 | the answer holds the top crate of every stack, in stack order, and fails exactly when some stack is empty |
| SupplyStacks.Part1 | src/aoc2022/day5.rs:53-64 | the tops after every move of the one-at-a-time crane, or a panic at the first impossible move |
| SupplyStacks.MaxQuantity | src/aoc2022/day5.rs:67 | no move carries more crates than the buffer length |
| SupplyStacks.CopyTop | src/aoc2022/day5.rs:71 | the front of the buffer receives the top block of the source stack in order; the rest of the buffer is untouched |
| SupplyStacks.Part2 | src/aoc2022/day5.rs:66-79 | the tops after every block move, a panic at the first impossible move, and a panic for an empty move list |
| TuningTrouble.Ascii | src/aoc2022/day6.rs:11 | the bytes of an ASCII input are as many as its characters |
| TuningTrouble.Elements | src/aoc2022/day6.rs:15-17 | the set of a window's bytes has exactly the window's members and no more elements than the window has bytes |
| TuningTrouble.NoRepeatsPairwise | src/aoc2022/day6.rs:15-17 | the check "no byte is found again after itself" holds exactly when no two positions of the window hold the same byte |
| TuningTrouble.NoRepeatsCardinality | src/aoc2022/day6.rs:15-17 | the same check holds exactly when the window has as many distinct bytes as it is long |
| TuningTrouble.MarkerAgrees | src/aoc2022/day6.rs:12-18 | the window of `d` bytes at `q` passes the check exactly when the `d` bytes ending at `q + d` are pairwise different |
| TuningTrouble.FindFrom | src/aoc2022/day6.rs:12-19 | the search finds a window at or after its start that passes the check, with no passing window before it; it fails only when no window from there on passes |
| TuningTrouble.CoreMarker | src/aoc2022/day6.rs:9-30 | `core` (and `part1`, `part2` with 4 and 14) returns the least end position whose `d` preceding bytes are all different; it has no result (the `unwrap` panics) exactly when no such position exists |
| NoSpaceLeft.InsertLookup | src/aoc2022/day7.rs:50 | after `insert`, the inserted name finds the new node and every other name finds what it found before (the map semantics of `HashMap::insert`) |
| NoSpaceLeft.InsertSum | src/aoc2022/day7.rs:49-50 | the sizes stored after an insert add up to the old sum plus the new node's size minus the size of the node it replaced |
| NoSpaceLeft.Tree | src/aoc2022/day7.rs:32-73 | reading a directory stops at the end of the input or at a `cd ..` line, never before the line it started on, and yields a directory |
| NoSpaceLeft.Walk | src/aoc2022/day7.rs:35-72 | the loop of `traverse` from a given line and partial content: same stopping guarantees, and a clean result only from a clean start |
| NoSpaceLeft.WalkStop | src/aoc2022/day7.rs:42-44 | at the end of the input or at `cd ..` the directory read so far is returned together with the line it stopped on |
| NoSpaceLeft.WalkCd | src/aoc2022/day7.rs:45-51 | a `cd` into a subdirectory reads it recursively, adds its size to the total, stores it under its name and goes on after the line where it stopped |
| NoSpaceLeft.WalkPass | src/aoc2022/day7.rs:52-58 | `ls` and `dir` lines change nothing |
| NoSpaceLeft.WalkFile | src/aoc2022/day7.rs:59-66 | a file line stores the file under its name and adds its size to the total |
| NoSpaceLeft.Traverse | src/aoc2022/day7.rs:32-73 | the imperative reading loop returns exactly the directory and stopping line that the recursive definition of the session gives |
| NoSpaceLeft.Descend | src/aoc2022/day7.rs:45-51 | one `cd` step of the loop moves past the line it started on and keeps the loop's result unchanged |
| NoSpaceLeft.KeyedDistinct | src/aoc2022/day7.rs:33 | a directory built as a map never stores two entries with the same name |
| NoSpaceLeft.InsertKeyed | src/aoc2022/day7.rs:50 | inserting keeps each name stored once |
| NoSpaceLeft.InsertWellSized | src/aoc2022/day7.rs:49-50 | inserting a well-sized node keeps every stored node well-sized |
| NoSpaceLeft.TreeKeyed | src/aoc2022/day7.rs:32-73 | for every session, every directory of the tree stores each name once |
| NoSpaceLeft.TreeWellSized | src/aoc2022/day7.rs:34-65 | when no name was listed twice in a directory, every directory's total equals the sum of the sizes of its entries |
| NoSpaceLeft.SubdirSizesCount | src/aoc2022/day7.rs:84-95 | `all_subdir_sizes` yields one total per directory of the tree, the root's first |
| NoSpaceLeft.SubdirSizesComplete | src/aoc2022/day7.rs:84-95 | every directory anywhere in the tree has its total in the list |
| NoSpaceLeft.SubdirSizesSound | src/aoc2022/day7.rs:84-95 | every total in the list is the total of some directory of the tree |
| NoSpaceLeft.ContainedSmaller | src/aoc2022/day7.rs:75-82 | in a well-sized tree no node is bigger than a node that contains it |
| NoSpaceLeft.SubdirSizesBounded | src/aoc2022/day7.rs:84-95 | in a well-sized tree no total in the list exceeds the root's size |
| NoSpaceLeft.Below | src/aoc2022/day7.rs:15 | the filter keeps exactly the totals below the limit |
| NoSpaceLeft.Part1Unordered | src/aoc2022/day7.rs:13-16 | part 1 depends only on the multiset of totals, not on the order in which the map's values are visited |
| NoSpaceLeft.Candidates | src/aoc2022/day7.rs:22-23 | the filter keeps exactly the totals whose deletion leaves the root below the bound |
| NoSpaceLeft.Part2 | src/aoc2022/day7.rs:18-26 | part 2 is the smallest total whose deletion leaves less than 40000000; it fails exactly when the root is a file or some total exceeds the root's (unsigned underflow) |
| NoSpaceLeft.Part2Defined | src/aoc2022/day7.rs:18-26 | on a well-sized directory tree part 2 always has an answer (the root itself qualifies) |
| NoSpaceLeft.Part2Enough | src/aoc2022/day7.rs:23 | corrected part 2: the smallest directory whose deletion leaves at least 30000000 of 70000000 free, minimal among all such |
| NoSpaceLeft.ExactFitMissed | src/aoc2022/day7.rs:23 | on a tree where deleting a directory leaves exactly 30000000 free, the strict bound answers 20000000 while the corrected one answers 10000000 |
| RopeBridge.MoveHead | src/aoc2022/day9.rs:78-87 | the head moves exactly one unit, along the axis and in the sense of the direction (right and up positive) |
| RopeBridge.MoveHeadInverse | src/aoc2022/day9.rs:78-87 | a step in the opposite direction undoes a step |
| RopeBridge.Follow | src/aoc2022/day9.rs:88-95 | the knot stays put exactly when it touches its leader; it moves at most one unit per axis and never away from the leader |
| RopeBridge.FollowCatchesUp | src/aoc2022/day9.rs:88-95 | a knot at most two apart from its leader on each axis touches it after following |
| RopeBridge.KnotNear | src/aoc2022/day9.rs:40-41 | within one step of the rope every knot moves at most one unit per axis |
| RopeBridge.KnotsTouch | src/aoc2022/day9.rs:40-41 | after a step each knot touches the one before it, if it did before the step |
| RopeBridge.StepKeepsTaut | src/aoc2022/day9.rs:39-43 | a step of the whole rope keeps every pair of neighbouring knots touching |
| RopeBridge.WalkKeepsTaut | src/aoc2022/day9.rs:36-43 | the rope stays taut over any sequence of steps |
| RopeBridge.TautSpan | src/aoc2022/day9.rs:35-42 | in a taut rope knot i is at most i units from the head on each axis |
| RopeBridge.HeadAfterWalk | src/aoc2022/day9.rs:38-40 | after the steps the head sits at the start plus rights minus lefts and ups minus downs |
| RopeBridge.ExpandLength | src/aoc2022/day9.rs:38 | the expanded step list has as many steps as the motions' amounts add up to |
| RopeBridge.TailSetBounds | src/aoc2022/day9.rs:42-45 | at most one new tail position per step, and the tail's final position is among them |
| RopeBridge.StepRope | src/aoc2022/day9.rs:40-41 | the in-place update of the knot array equals one step of the rope |
| RopeBridge.FollowNext | src/aoc2022/day9.rs:41 | one iteration moves knot i + 1 to follow the already-moved knot i and leaves the later knots alone |
| RopeBridge.StepAndRecord | src/aoc2022/day9.rs:39-43 | a unit step updates the rope and records the tail's new position |
| RopeBridge.Repeat | src/aoc2022/day9.rs:38-43 | `amount` steps in one direction, each recorded |
| RopeBridge.Solve | src/aoc2022/day9.rs:34-46 | the result is the number of distinct positions of the last knot over all unit steps, at most the number of steps and at least one if there is a step |
| RopeBridge.Part1 | src/aoc2022/day9.rs:24-27 | solve with two knots |
| RopeBridge.Part2 | src/aoc2022/day9.rs:29-32 | solve with ten knots |
| MonkeyInTheMiddle.ApplyCongruent | src/aoc2022/day11.rs:122-128 | each operation (add, multiply, square) maps levels congruent modulo d to levels congruent modulo d |
| MonkeyInTheMiddle.TestCongruent | src/aoc2022/day11.rs:165-171 | the monkey a test picks depends only on the level modulo any multiple of its divisor |
| MonkeyInTheMiddle.InspectReduced | src/aoc2022/day11.rs:24-27 | without relief the level inspected after the reduction is congruent, modulo the product, to the level inspected without it |
| MonkeyInTheMiddle.ReductionBeforeRelief | src/aoc2022/day11.rs:24-27 | with relief, `play_turn`'s reduction before the division by 3 changes the level (36 becomes 0 instead of the puzzle's 12) and the monkey that receives it |
| MonkeyInTheMiddle.ThrowContents | src/aoc2022/day11.rs:23-30 | one pass pops the thrower's last item and counts it, pushes the new level onto exactly the monkey the test names, and changes nobody else |
| MonkeyInTheMiddle.ThrowItem | src/aoc2022/day11.rs:23-30 | the array after one pass of the loop is the throw applied to the array before, with the level reduced modulo the product before the operation and the division by 3, as `play_turn` does in both parts |
| MonkeyInTheMiddle.MonkeyTurn | src/aoc2022/day11.rs:23-31 | the array after the while loop is the monkey's whole turn (throws with `play_turn`'s reduction) applied to the array before |
| MonkeyInTheMiddle.TurnContents | src/aoc2022/day11.rs:23-31 | after its turn a monkey holds nothing and has counted every item it held; every other monkey gets the items thrown to it appended in pop order and keeps its count |
| MonkeyInTheMiddle.PlayTurn | src/aoc2022/day11.rs:21-33 | the array after the call is one round (each monkey's turn in position order, levels reduced before relief as written) of the array before |
| MonkeyInTheMiddle.RoundsTotal | src/aoc2022/day11.rs:21-33 | after any number of rounds the monkeys hold as many items in total as before |
| MonkeyInTheMiddle.BigDivider | src/aoc2022/day11.rs:12 | the product of the divisors is positive and a multiple of every divisor |
| MonkeyInTheMiddle.RoundsCongruent | src/aoc2022/day11.rs:11-15 | with levels reduced modulo the product, every round leaves the same counts and levels congruent to those of the unreduced rounds |
| MonkeyInTheMiddle.TopTwo | src/aoc2022/day11.rs:16-18 | two different positions holding a largest count and a largest count among the rest |
| MonkeyInTheMiddle.Business | src/aoc2022/day11.rs:16-18 | the product of a largest and a second largest count; the one count for one monkey and 1 for none |
| MonkeyInTheMiddle.PlayMonkeyBusiness | src/aoc2022/day11.rs:11-19 | the monkeys end after the given number of rounds played as written (reduced in both parts), the result is the business of their counts, and without relief it equals the business of the unreduced rounds |
| MonkeyInTheMiddle.PlayMonkeyBusinessCorrected | src/aoc2022/day11.rs:11-19 | the corrected program, reducing only without relief, answers the business of the unreduced puzzle rounds in both parts |
| SecretEntrance.Apply | src/aoc2025/day1.rs:15-20 | the new dial position lies in 0..=99 and is congruent modulo 100 to the old position minus (left) or plus (right) the magnitude |
| SecretEntrance.ApplyWithPassCount | src/aoc2025/day1.rs:22-35 | the position it returns is the one apply returns |
| SecretEntrance.QuotientStep | src/aoc2025/day1.rs:28-29 | the floor quotient by 100 drops by one between a and a-1 exactly when a is a multiple of 100 |
| SecretEntrance.RightPasses | src/aoc2025/day1.rs:29 | from a dial position, floor((n+m)/100) is the number of clicks 1..m to the right that land on 0 |
| SecretEntrance.LeftPasses | src/aoc2025/day1.rs:28 | floor((n-1)/100) - floor((n-m-1)/100) is the number of clicks 1..m to the left that land on 0 |
| SecretEntrance.PassCountIsZeroHits | src/aoc2025/day1.rs:22-35 | for a non-negative magnitude from a dial position, the pass count is the number of clicks landing on 0 |
| SecretEntrance.ApplyRotations | src/aoc2025/day1.rs:68-76 | counts the rotations after which the dial reads 0, so never more than the number of rotations |
| SecretEntrance.WithCountIsClicks | src/aoc2025/day1.rs:78-84 | the summed pass counts along the scan equal the number of single clicks, over all rotations, that land on 0 |
| SecretEntrance.StopsAreCounted | src/aoc2025/day1.rs:68-84 | with positive magnitudes every stop at 0 is also a pass, so the part 1 count never exceeds the part 2 count |
| SecretEntrance.Part1 | src/aoc2025/day1.rs:87-90 | the part 1 answer from position 50 is at most the number of rotations |
| SecretEntrance.Part2 | src/aoc2025/day1.rs:92-96 | the part 2 answer from position 50 is at least the part 1 answer when every magnitude is positive |
| GiftShop.ToString | src/aoc2025/day2.rs:39 | `n.to_string()` yields at least one decimal digit and no leading zero |
| GiftShop.Repeat | src/aoc2025/day2.rs:57 | `str::repeat` gives `|block| * times` characters |
| GiftShop.ValueToString | src/aoc2025/day2.rs:39 | reading back the decimal digits written for `n` gives `n` |
| GiftShop.ToStringValue | src/aoc2025/day2.rs:39 | the decimal text of the value of a digit string without leading zero is that string |
| GiftShop.Part1Doubled | src/aoc2025/day2.rs:38-46 | `p1_invalid(n)` holds exactly when the digits of `n` are some block written twice |
| GiftShop.Part1Numeric | src/aoc2025/day2.rs:38-46 | `p1_invalid(n)` holds exactly when `n == h * (10^L + 1)` for a positive `h` of `L` digits |
| GiftShop.P2Invalid | src/aoc2025/day2.rs:48-62 | the loop over block lengths `1..=half` answers true exactly when some such length divides the length and its block repeats into the whole string |
| GiftShop.RepeatedBlockIff | src/aoc2025/day2.rs:48-62 | `p2_invalid(n)` holds exactly when the digits of `n` are a non-empty block written at least twice |
| GiftShop.Part1ImpliesPart2 | src/aoc2025/day2.rs:38-62 | every ID invalid for part 1 is invalid for part 2 |
| GiftShop.Part1AtMostPart2 | src/aoc2025/day2.rs:9-25 | for any ranges, the part 1 sum never exceeds the part 2 sum |
| Cafeteria.Insert | src/aoc2025/day5.rs:28-29 | inserting into a sorted list keeps it sorted and adds exactly the one element |
| Cafeteria.Sort | src/aoc2025/day5.rs:28-29 | sort_unstable leaves the elements sorted by the given total order and a permutation of the input |
| Cafeteria.CoveredMember | src/aoc2025/day5.rs:32-39 | an ID is covered exactly when some inclusive range from-to contains it |
| Cafeteria.CoveredPermutation | src/aoc2025/day5.rs:28 | sorting the ranges does not change which IDs they cover |
| Cafeteria.UnionBelow | src/aoc2025/day5.rs:30-41 | every ID in sorted disjoint ranges lies below the end of the last range |
| Cafeteria.LastApart | src/aoc2025/day5.rs:30-41 | in sorted disjoint ranges the last range shares no ID with the ranges before it |
| Cafeteria.MergeRanges | src/aoc2025/day5.rs:30-41 | the merged half-open ranges cover exactly the IDs the sorted inclusive ranges cover; at least one range comes out; neighbours keep a gap, so touching or overlapping ranges were joined; with from <= to everywhere every range but a leading 0..0 is non-empty |
| Cafeteria.ParseInput | src/aoc2025/day5.rs:26-42 | the merged ranges cover exactly the IDs of the input ranges, in any input order, and the IDs come out sorted and a permutation of the input |
| Cafeteria.Position | src/aoc2025/day5.rs:12 | the position lies within 0..=len |
| Cafeteria.PositionIsInsertionPoint | src/aoc2025/day5.rs:12 | on sorted IDs the position is the insertion point: every ID before it is smaller than x and none after it is |
| Cafeteria.PositionDifference | src/aoc2025/day5.rs:17 | the position of a range's end minus the position of its start is the number of IDs inside the range |
| Cafeteria.CountSplit | src/aoc2025/day5.rs:13-19 | on a range apart from the others, the IDs in the union split into those in the others and those in the range |
| Cafeteria.Part1CountsFresh | src/aoc2025/day5.rs:10-20 | on sorted disjoint ranges, part 1 is the number of available IDs that lie in some range |
| Cafeteria.IntervalCard | src/aoc2025/day5.rs:23 | a half-open range start..end holds end - start IDs |
| Cafeteria.Part2CountsFresh | src/aoc2025/day5.rs:22-24 | on sorted disjoint ranges, the sum of range lengths is the number of distinct IDs they cover |
| Cafeteria.CountFreshPermutation | src/aoc2025/day5.rs:29 | sorting the available IDs does not change how many of them are fresh |
| Cafeteria.Solve | src/aoc2025/day5.rs:1-8 | with from <= to on every range, part 1 is the number of available IDs that lie in some input range and part 2 is the number of distinct IDs the input ranges cover |

## Left out

In every puzzle:

- The `run()` entry points, reading the puzzle input and printing: these are console and file I/O only.
- Text parsing by `split`, `parse::<…>().unwrap()` and regular expressions. The models take the parsed values. Where the parsing itself is a named operation, it is modelled: 2021 day 16 `parse`, 2021 day 18 `parse_element`, 2021 day 22 `parse`, 2025 day 5 `parse_input`.
- Fixed-width integer overflow (`u8`, `u16`, `i32`, `usize`, `u64`). It only matters far beyond the puzzle sizes and is not modelled unless a line below says otherwise.
- Unit tests that read a puzzle input file: the file is not part of this model. Tests whose input is written inline are restated as lemmas only where named below; the others need too many unfoldings to evaluate in the verifier.
- Hash map and hash set iteration order. Sets and maps are modelled over exact values. Where the order reaches the result, the line below says how.

Per puzzle:

- 2018 day 8: a node with no metadata entries reads one number too many; it is modelled as written. The round trip from a tree to its stream holds for nodes with at least one metadata entry, as puzzle inputs have. `process_node` is modelled on a fresh node only.
- 2018 day 13: the character grid parsing. A cart is mutated in place inside a hash map; the model keeps carts as values in a map field. `sort_by_key` is modelled by choosing the least location. The unbounded `solve` loop is given a step budget (fuel). The track is required to be well formed, which is slightly stronger than what makes the source panic.
- Part2AsWritten and Part2 (2018 day 14) take a budget `fuel` of board steps. The source loops until the pattern appears, which is unbounded. After `fuel` steps the model gives up and answers None. Part2's None then only means the pattern does not occur on the board after `fuel` steps. Part2AsWritten promises nothing on None.
- 2018 day 14: the test answers (for example 9 recipes giving 5158916779) need about twenty board steps each to unfold and are not restated.
- 2020 day 5: a non-ASCII boarding pass makes `split_at(7)` panic; passes longer than 64 letters overflow `usize::pow`; release-build wrap-around.
- 2020 day 8: `part2` clones the program for each repair; the model passes the program as a value, so that copy is not distinguished from the original.
- 2020 day 12: the regular-expression parsing of instructions; turns by an angle that is not a multiple of 90 are excluded, as the source's debug assertion excludes them.
- 2020 day 14: the mask and assignment parsing; the groups are given as a mask with its (address, value) writes.
- 2020 day 15: the test answers 436 and 175594 need 2020 turns and are not restated.
- 2020 day 18: the test values 71 and 231 are not restated.
- 2020 day 22: the plain game need not end, so `PlayCombat` is bounded by a number of rounds.
- RoundWinner, Game, PlayRecursiveCombat, PlayRecursiveGame, PlayRecursiveRound, Part2AsWritten and Part2 (2020 day 22) require every card to be positive and the two decks not both empty. A game started with two empty decks ends at once in `get_winner`'s `unreachable!`. A round in which both players draw 0 starts exactly such a sub-game. A single 0 only gives the player who drew it an empty sub-deck, so that player loses the sub-game; the model leaves zero cards out altogether rather than separate these cases.
- Game.constructor (2020 day 23) requires at least four cups: with three or fewer the three picked-up cups cover every label, so the destination search in `play_round` never ends.
- 2020 day 23: the digit parsing of the input; part 2's ten million rounds on a million cups and the test circles (`"92658374"`, `"67384529"`) are not evaluated.
- 2020 day 25: `value * pub_key` cannot overflow `usize` for keys below the modulus, so nothing is lost.
- 2021 day 3: the binary-text parsing.
- 2021 day 4: the test answers 4512 and 1924 need an input file.
- 2021 day 4: boards are required to be square (`Square`), a stronger requirement than the source needs. `check_win` reads column cells only for rows below the row count, so a non-square board that wins by an earlier row would not panic in the source.
- 2021 day 6: the counts stay below `usize::MAX` only for moderate day counts; the model is unbounded.
- LanternFishes.constructor (2021 day 6) requires every timer to be below 9. A larger timer indexes past the nine buckets, and the source panics there.
- 2021 day 10: the literal line examples are not restated.
- ApplyStepsUntilAllFlash (2021 day 11): `until_all_flash` is unbounded and is given a step budget `maxSteps`. None means no step within the budget has every cell flash.
- 2021 day 11: the test answers 204 and 195 need the input grid.
- 2021 day 13: the `Display` rendering of the folded paper for part 2.
- 2021 day 14: the template and rule parsing.
- PartCore and Run (2021 day 14) tie the answer to the spread of an actual polymer only when the rules cover every pair over the template's alphabet; for other rules, unruled pairs are dropped by `react`, the counts no longer describe a polymer, and the contracts state the answer on the reacted pair counts alone.
- 2021 day 16: the example transmissions (`"D2FE28"`, `"C200B40A82"` and the others) are not restated. The round trip from a package to its bits and back covers what those examples check. A `read_number` wider than 64 bits would overflow `usize`; the model reads an unbounded number.
- Explode, ReduceSpec, Reduce, AddSpec, SumAllSpec, Part1, PairMagnitude and Part2 (2021 day 18) require the numbers to be well nested. A pair nested inside four pairs must hold two regular numbers. On a deeper pair, `explode` reaches `unreachable!`. Sums of well-nested numbers stay well nested, so only malformed input is excluded.
- 2021 day 18: `reduce` loops until no rule applies; the model stops after a step budget and returns None when it runs out. The example sums (magnitude 4140 and best pair 3993) are not evaluated.
- 2021 day 19: `merge_all_readings` loops forever when a reading can never be merged; the model stops after a pass that merges nothing and reports it. The order in which the set of known beacons is scanned decides which offset is found first; the model accepts any order, so the offset is any one that works. The example (79 beacons, 3621) needs the input file.
- 2021 day 21: `quantum_play` takes the outcome tally in the hash map's iteration order; the model lists the outcomes in increasing order of their sum, and independence from that order is not proved. The test answers 739785 and 444356092776315 are not evaluated.
- 2021 day 22: `part2` is the plain sum of the volumes and has no member of its own; `SumVolumes` is it. The four-step example giving 39 is not evaluated.
- 2021 day 25: ragged floors are excluded: a rectangular floor is required. `apply_steps` may run forever; it is given a step budget.
- CreateStacks (2022 day 5) requires at least one crate. With none, `max().unwrap()` panics in the source.
- 2022 day 5: the drawing of the stacks is parsed from text; the literal crane examples are not restated.
- 2022 day 6: input that is not ASCII; the test strings are not restated.
- 2022 day 7: a directory listed twice is counted twice, as the source does; the sizes are proved only for listings without repeats. The terminal lines are given already classified.
- 2022 day 9: the tests need input files.
- 2022 day 11: the monkey description parsing; the sort of the counts is modelled by choosing the two largest.
- Valid and Sound (2022 day 11, required by every turn and round member) exclude a zero divisor, which makes the source's `%` panic, a target index beyond the monkeys, which makes the source's indexing panic, and a monkey throwing to itself, which makes the source's `while let` loop run for ever.
- 2025 day 1: a rotation letter other than L or R makes the parsing panic; the model takes parsed rotations.
- 2025 day 2: the range parsing.
- 2025 day 5: `binary_search` on a value listed twice may return any of its positions; the model counts the values smaller than the one sought, which agrees for distinct values. The `dbg!` output.

## Findings

| source | as written | input that shows it | evidently intended | confidence | as-written member | corrected member |
|---|---|---|---|---|---|---|
| src/aoc2020/day22.rs:124-131 | `part2` scores the winner through `get_winner`, which looks only at which deck is empty and panics when both hold cards; the outermost recursive game that ends on a repeated position leaves both decks non-empty | decks 43, 19 against 2, 29, 14 | player 1 wins a game ended by repetition, and part 2 scores player 1's deck | high (not executed) | CrabCombat.Part2AsWritten, CrabCombat.LoopingGamePanics | CrabCombat.Part2 |
| src/aoc2018/day14.rs:56-68 | both window checks need strictly more recipes than the pattern's length, and the starting board is never checked, so position 0 is never reported | pattern 3, 7, 1: the board after one step is 3, 7, 1, 0 | report the first position where the pattern occurs, position 0 included | high (not executed) | ChocolateCharts.Part2AsWritten, ChocolateCharts.ThreeSevenOneAtZero | ChocolateCharts.Part2 |
| src/aoc2021/day3.rs:31 | gamma's bit is set when the count of ones is at least `input_len / 2`, rounded down, which is not a majority for an odd number of entries | report 01, 01, 10 with 2 bits: bit 1 is set by one entry of three, and part 1 gives 0 instead of 2 | set the bit when ones are the majority | high (not executed) | BinaryDiagnostic.GammaAsWritten, BinaryDiagnostic.GammaAsWrittenBits, BinaryDiagnostic.OddLengthGamma | BinaryDiagnostic.Gamma |
| src/aoc2022/day11.rs:24-27 | the level is reduced modulo the product of the divisors before the division by 3, which does not commute with that division | level 36, operation `old * 1`, product 35, test divisible by 5: reduced first it becomes 0 and goes to monkey 1; the puzzle rule gives 12 and monkey 2 | no reduction when relief applies (only part 2, without relief, needs it) | medium (not executed; puzzle inputs may keep levels below the product) | MonkeyInTheMiddle.PlayMonkeyBusiness, MonkeyInTheMiddle.ReductionBeforeRelief | MonkeyInTheMiddle.PlayMonkeyBusinessCorrected |
| src/aoc2022/day7.rs:23 | a directory qualifies only when the space used after deleting it is strictly below 40000000 | a 50000000 root holding a 10000000 directory, a 20000000 directory and a 20000000 file: deleting the 10000000 one leaves exactly 30000000 free but is rejected, so 20000000 is answered | at most 40000000 used, i.e. at least 30000000 free | high (not executed) | NoSpaceLeft.Part2, NoSpaceLeft.ExactFitMissed | NoSpaceLeft.Part2Enough |
