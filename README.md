# Advent of Code 2022 solutions, modelled in Dafny

This project models the puzzle logic of a Kotlin Advent of Code 2022 repository, one Dafny
module per puzzle file, and proves properties of that logic:

- the **rope** of day 9 (`Rope`): knots following the head on a grid of `Vector2` points (`Vectors`);
- the **hill climb** of day 12: the height map and its graph of climbable steps (`HillGraph`);
  the Dijkstra-style search of `calculateShortestPath`, with Kotlin's 32-bit `Int` sums written
  out (`HillPath`); its correctness with plain sums (`HillPathCorrectness`); and an input on
  which the 32-bit sums go wrong (`HillPathWrap`);
- the **monkeys** of day 11 (`Monkeys`): the `Monkey` and `Game` classes that pass worry levels
  around, with `BigInteger`'s truncating remainder;
- the **clock-circuit CPU** of day 10 (`Cpu`): the `CPU` class and what its two callbacks observe;
- the **no-space-left file system** of day 7: parsing the terminal log (`Console`), and the
  directory tree that `cd` / `ls` build, its sizes and its post-order visitor (`FileSystems`);
- the **supply stacks** of day 5 (`Crates`): the drawing of the starting stacks, the move steps,
  and the `Ship` with its two cranes;
- the **tree house** grid of day 8 (`Trees`), the **tuning-trouble** marker of day 6 (`Marker`),
  **rock-paper-scissors** of day 2 (`Rps`), the **rucksacks** of day 3 (`Rucksacks`), the
  **camp cleanup** sectors of day 4 (`Sectors`) and the **calorie counting** of day 1 (`Calories`);
- the parts of Kotlin's standard library that these files rely on (`Seqs`, `Text`: `split`,
  `toInt`, `chunked`, `reversed`, `startsWith`, `isBlank`), and `Option` for every call that
  throws in the source (`Results`).

Where the source mutates objects, the model is imperative: `Monkey`, `Game`, `CPU`, `Ship`,
`FileSystem` and `DirectorySizeVisitor` are classes with `modifies` clauses, and the loops of
`simulateRope`, `buildGraph`, `calculateShortestPath`, `findChar`, `findStart`,
`parseConsoleLog`, `extractStartingStacks`, `takeUntilInclusive` and the day 1 grouping are
methods with loop invariants. Each of them is proved equal to a function, and the properties
are proved about that function.

## Model

| member | source | states |
|---|---|---|
| Vectors.PlusCommutes | src/main/kotlin/com/mcjeffr/aoc/common/Vector2.kt:6 | adding vectors is commutative |
| Vectors.PlusAssociates | src/main/kotlin/com/mcjeffr/aoc/common/Vector2.kt:6 | adding vectors is associative |
| Vectors.OriginIsIdentity | src/main/kotlin/com/mcjeffr/aoc/common/Vector2.kt:6 | `(0,0)` is the identity of `plus` on both sides |
| Vectors.PlusMinusRoundTrip | src/main/kotlin/com/mcjeffr/aoc/common/Vector2.kt:6-7 | `minus` undoes `plus` and `plus` undoes `minus` |
| Vectors.StructuralEquality | src/main/kotlin/com/mcjeffr/aoc/common/Vector2.kt:3 | two data-class vectors are equal exactly when both coordinates are |
| Rope.FromCode | src/main/kotlin/com/mcjeffr/aoc/days/Day9.kt:89-92 | a direction is found exactly for `U`, `D`, `L`, `R` (otherwise the source throws), and the one found has that code |
| Rope.FromCodeRoundTrip | src/main/kotlin/com/mcjeffr/aoc/days/Day9.kt:83-92 | every direction is found again from its own code |
| Rope.FindDirection | src/main/kotlin/com/mcjeffr/aoc/days/Day9.kt:70-73 | a direction found is a candidate after which the tail touches the head; none is found only when no candidate has that property |
| Rope.FindInEnumOrder | src/main/kotlin/com/mcjeffr/aoc/days/Day9.kt:70-73 | the candidates are tried in declaration order: up, down, left, right |
| Rope.StaysWhenTouching | src/main/kotlin/com/mcjeffr/aoc/days/Day9.kt:53-56 | a tail that still touches the moved head stays where it is |
| Rope.MirrorsDiagonalMove | src/main/kotlin/com/mcjeffr/aoc/days/Day9.kt:58-64 | when the gap is off both axes and the head moved diagonally, the tail makes the head's move |
| Rope.TakesLeadersPlace | src/main/kotlin/com/mcjeffr/aoc/days/Day9.kt:58-66 | when the gap is off both axes and the head moved straight, the tail takes the head's old place |
| Rope.AxisGap | src/main/kotlin/com/mcjeffr/aoc/days/Day9.kt:69-74 | when the gap lies on an axis, the tail moves one unit toward the head if the gap is two, and otherwise the source throws "Unexpected state" |
| Rope.AxisDirection | src/main/kotlin/com/mcjeffr/aoc/days/Day9.kt:70-74 | on an axis, the direction found for each gap of two, and none for any other gap |
| Rope.FollowKeepsTouching | src/main/kotlin/com/mcjeffr/aoc/days/Day9.kt:50-75 | if the head moves to a cell touching its old place and the tail touched that old place, `moveKnot` never throws and the new tail touches both the new head and the old tail |
| Rope.FollowChain | src/main/kotlin/com/mcjeffr/aoc/days/Day9.kt:38-44 | moving each knot after the one before it keeps the rope taut and moves every knot to a cell touching its old one |
| Rope.RopeAfter | src/main/kotlin/com/mcjeffr/aoc/days/Day9.kt:26-46 | after any number of steps the rope still has all its knots and every knot touches the one before it |
| Rope.StepKnots | src/main/kotlin/com/mcjeffr/aoc/days/Day9.kt:29-44 | in each step the head moves by the step's offset, and every other knot moves as `moveKnot` of its leader's old and new places and its own old place |
| Rope.HeadFollowsSteps | src/main/kotlin/com/mcjeffr/aoc/days/Day9.kt:31-35 | the head ends at the sum of the offsets of all steps |
| Rope.KnotsMoveByOne | src/main/kotlin/com/mcjeffr/aoc/days/Day9.kt:26-46 | no knot moves further than a neighbouring cell in one step |
| Rope.SimulateRope | src/main/kotlin/com/mcjeffr/aoc/days/Day9.kt:26-48 | with at least one knot, the tail's positions, starting at the origin, one more per step, each the tail of the rope after the steps so far; with fewer knots the source throws |
| Rope.SimulatedHistory | src/main/kotlin/com/mcjeffr/aoc/days/Day9.kt:26-48 | the history `simulateRope` returns is the tail's place after each prefix of the steps, so its `toSet().size` is the count below |
| Rope.VisitedBounds | src/main/kotlin/com/mcjeffr/aoc/days/Day9.kt:18 | `toSet()` of a history has at most as many positions as the history, and at least one when it is not empty |
| Rope.PositionsVisited | src/main/kotlin/com/mcjeffr/aoc/days/Day9.kt:16-24 | the answer of parts one and two lies between 1 and the number of steps plus one |
| Rope.VisitedMeans | src/main/kotlin/com/mcjeffr/aoc/days/Day9.kt:16-24 | a place is counted exactly when the tail stands there after some prefix of the steps, and the origin always is |
| Rope.MoveKnots | src/main/kotlin/com/mcjeffr/aoc/days/Day9.kt:29-45 | one pass over the knots appends to each knot's history its next position |
| Rope.ParseRenderedMove | src/main/kotlin/com/mcjeffr/aoc/days/Day9.kt:78-80 | the line `D n` parses to `n` copies of direction `D` |
| Rope.ParseStepsRoundTrip | src/main/kotlin/com/mcjeffr/aoc/days/Day9.kt:77-81 | parsing the rendered lines of a list of moves gives every move's direction, repeated, in order |
| HillGraph.HeightScale | src/main/kotlin/com/mcjeffr/aoc/days/Day12.kt:128-136 | `S` is as low as `a` (1), `E` as high as `z` (26), and letters climb strictly from `a` to `z` |
| HillGraph.HeightMap | src/main/kotlin/com/mcjeffr/aoc/days/Day12.kt:128-136 | the height map has the input's shape and each cell's height |
| HillGraph.FindChar | src/main/kotlin/com/mcjeffr/aoc/days/Day12.kt:142-151 | the first cell, row by row, holding the character; none exactly when no cell holds it (the source throws) |
| HillGraph.GetNodeInBounds | src/main/kotlin/com/mcjeffr/aoc/days/Day12.kt:54-62 | `maxX` / `maxY` are the last column and row, and `getNode` is null exactly outside them and otherwise the node at that coordinate |
| HillGraph.CrossNodesInBounds | src/main/kotlin/com/mcjeffr/aoc/days/Day12.kt:64-73 | the neighbouring cross nodes are exactly the grid's nodes above, below, left and right of the cell |
| HillGraph.PathGrid.AllNodes | src/main/kotlin/com/mcjeffr/aoc/days/Day12.kt:75-81 | `forEachNode` visits exactly the nodes of the grid |
| HillGraph.Unconnected | src/main/kotlin/com/mcjeffr/aoc/days/Day12.kt:30-38 | the first phase makes one node per cell, at its coordinate, with its height and no connections |
| HillGraph.NewNodes | src/main/kotlin/com/mcjeffr/aoc/days/Day12.kt:30-38 | the row-by-row loop builds exactly those nodes |
| HillGraph.BuildGraph | src/main/kotlin/com/mcjeffr/aoc/days/Day12.kt:29-51 | fails exactly on an empty map or a row shorter than the first (where the source throws), and otherwise returns the connected graph |
| HillGraph.ConnectRow | src/main/kotlin/com/mcjeffr/aoc/days/Day12.kt:41-48 | connecting one row gives that row of the connected graph |
| HillGraph.Connect | src/main/kotlin/com/mcjeffr/aoc/days/Day12.kt:42-47 | connecting one node gives that node of the connected graph |
| HillGraph.ConnectClimbable | src/main/kotlin/com/mcjeffr/aoc/days/Day12.kt:43-47 | the node gains a connection to each neighbour at most one higher, in order, and nothing else changes |
| HillGraph.GraphValid | src/main/kotlin/com/mcjeffr/aoc/days/Day12.kt:29-55 | the built grid is well formed, and its `maxX` / `maxY` are the map's last column and row |
| HillGraph.ConnectionIff | src/main/kotlin/com/mcjeffr/aoc/days/Day12.kt:41-47 | a node is connected to a cell exactly when the cell is next to it on the map and at most one higher |
| HillGraph.ShortRowIsQueried | src/main/kotlin/com/mcjeffr/aoc/days/Day12.kt:41-61 | a row shorter than the first lies below a wider row whose node asks `getNode` for an in-bounds cell past the end of the short row |
| HillPath.Wrap32 | src/main/kotlin/com/mcjeffr/aoc/days/Day12.kt:108-109 | a 32-bit sum lies in `Int`'s range and equals the true sum whenever that is in range |
| HillPath.MaxPlusOneWraps | src/main/kotlin/com/mcjeffr/aoc/days/Day12.kt:108-109 | `Int.MAX_VALUE + 1` is `Int.MIN_VALUE` |
| HillPath.Unreached | src/main/kotlin/com/mcjeffr/aoc/days/Day12.kt:87-90 | every node's coordinate starts at `Int.MAX_VALUE`, and no other coordinate is in the table |
| HillPath.InitialTable | src/main/kotlin/com/mcjeffr/aoc/days/Day12.kt:85-91 | the same, with the start at 0 |
| HillPath.SetUp | src/main/kotlin/com/mcjeffr/aoc/days/Day12.kt:85-90 | the unvisited list is every node in `forEachNode` order, all at `Int.MAX_VALUE` |
| HillPath.SetUpRow | src/main/kotlin/com/mcjeffr/aoc/days/Day12.kt:87-90 | one row appends its nodes in order, each at `Int.MAX_VALUE` |
| HillPath.ClosestIsFirstMinimum | src/main/kotlin/com/mcjeffr/aoc/days/Day12.kt:96-101 | the node selected has the least distance of the unvisited nodes, and no earlier node has that distance |
| HillPath.SelectClosest | src/main/kotlin/com/mcjeffr/aoc/days/Day12.kt:96-101 | the selection loop picks that node |
| HillPath.RemoveFirst | src/main/kotlin/com/mcjeffr/aoc/days/Day12.kt:102 | `remove` takes out one occurrence of the node and nothing else |
| HillPath.ForcedZero | src/main/kotlin/com/mcjeffr/aoc/days/Day12.kt:106-107 | when starting at any `a`, a connected node of height 1 is set to distance 0 |
| HillPath.RelaxElsewhere | src/main/kotlin/com/mcjeffr/aoc/days/Day12.kt:105-111 | relaxing a node's connections changes no other coordinate |
| HillPathCorrectness.RelaxAt | src/main/kotlin/com/mcjeffr/aoc/days/Day12.kt:105-111 | relaxing never raises a distance, and lowers one only to the selected node's distance plus one at a connected node |
| HillPath.RelaxConnections | src/main/kotlin/com/mcjeffr/aoc/days/Day12.kt:105-111 | the relaxing loop, with 32-bit sums |
| HillPath.CalculateShortestPath | src/main/kotlin/com/mcjeffr/aoc/days/Day12.kt:83-115 | the loop computes the search with 32-bit sums, and answers -1 for an end that is neither a node nor the start |
| HillPathCorrectness.SelectedSettled | src/main/kotlin/com/mcjeffr/aoc/days/Day12.kt:96-102 | with plain sums, the node selected already has its final distance: the fewest steps from the start |
| HillPathCorrectness.ExploreInv | src/main/kotlin/com/mcjeffr/aoc/days/Day12.kt:94-112 | with plain sums, the search keeps its invariant until no node is left |
| HillPathCorrectness.ShortestPathCorrect | src/main/kotlin/com/mcjeffr/aoc/days/Day12.kt:83-115 | with plain sums, the answer is -1 for an end off the grid, the fewest steps from the start when the end can be reached, and `Int.MAX_VALUE` when it cannot |
| HillPathCorrectness.StartToItself | src/main/kotlin/com/mcjeffr/aoc/days/Day12.kt:91-114 | the start is 0 steps from itself |
| HillPathCorrectness.RelaxAgrees | src/main/kotlin/com/mcjeffr/aoc/days/Day12.kt:108-109 | relaxing from a reached node gives the same table with 32-bit and with plain sums |
| HillPathCorrectness.AsWrittenAgreesWhenAllReachable | src/main/kotlin/com/mcjeffr/aoc/days/Day12.kt:83-115 | when every node can be reached from the start, the 32-bit answer is the correct one |
| HillPathWrap.WrapCounterexample | src/main/kotlin/com/mcjeffr/aoc/days/Day12.kt:83-115 | on the heights `[[1,1],[3,1]]` from `(0,0)` to `(1,1)` the 32-bit search answers `Int.MIN_VALUE`, where the fewest steps are 2 |
| Monkeys.Rem | src/main/kotlin/com/mcjeffr/aoc/days/Day11.kt:71 | `BigInteger` `%`: the remainder has the dividend's sign and a magnitude below the divisor's |
| Monkeys.RemQuotient | src/main/kotlin/com/mcjeffr/aoc/days/Day11.kt:71 | the dividend is a multiple of the divisor plus the remainder |
| Monkeys.ReducedDivisibility | src/main/kotlin/com/mcjeffr/aoc/days/Day11.kt:71-85 | reducing modulo a multiple of a divider does not change divisibility by it |
| Monkeys.Inspect | src/main/kotlin/com/mcjeffr/aoc/days/Day11.kt:67-77 | a non-negative worry level is reduced below the common multiplier |
| Monkeys.Target | src/main/kotlin/com/mcjeffr/aoc/days/Day11.kt:84-85 | the item goes to `testTrue` exactly when the divider divides it, and to `testFalse` otherwise |
| Monkeys.Monkey.Test | src/main/kotlin/com/mcjeffr/aoc/days/Day11.kt:84-85 | a monkey's `test` is that rule with its own divider and recipients |
| Monkeys.CommonMultiplier | src/main/kotlin/com/mcjeffr/aoc/days/Day11.kt:32-34 | none exactly when there are no monkeys (`reduce` throws), and otherwise a multiple of every non-zero divider |
| Monkeys.ReductionKeepsTarget | src/main/kotlin/com/mcjeffr/aoc/days/Day11.kt:32-85 | reducing a worry level modulo the product of all dividers sends the item to the same monkey |
| Monkeys.StepAt | src/main/kotlin/com/mcjeffr/aoc/days/Day11.kt:43-47 | one item: the new state of every monkey, including a monkey that throws to itself |
| Monkeys.StepEffect | src/main/kotlin/com/mcjeffr/aoc/days/Day11.kt:43-47 | one item: no item is lost, only the inspecting monkey's count grows, by one, and everyone else's items only gain at the back |
| Monkeys.TurnEffect | src/main/kotlin/com/mcjeffr/aoc/days/Day11.kt:43-47 | `k` items of one turn: no item is lost, the monkey's count grows by `k` and its remaining items move to the front |
| Monkeys.TurnEmpties | src/main/kotlin/com/mcjeffr/aoc/days/Day11.kt:43-47 | a monkey that never throws to itself ends its turn with no items |
| Monkeys.RoundEffect | src/main/kotlin/com/mcjeffr/aoc/days/Day11.kt:38-48 | in a round no item is lost, no count shrinks, and each monkey's count grows by the items it holds when its turn starts |
| Monkeys.RoundsEffect | src/main/kotlin/com/mcjeffr/aoc/days/Day11.kt:37-49 | over any number of rounds no item is lost and no count shrinks |
| Monkeys.Monkey.InspectItem | src/main/kotlin/com/mcjeffr/aoc/days/Day11.kt:67-77 | counts the inspection and replaces the first item by its new worry level |
| Monkeys.Monkey.PassItem | src/main/kotlin/com/mcjeffr/aoc/days/Day11.kt:79-82 | moves the first item to the back of the recipient's list, which may be the monkey itself |
| Monkeys.Game.constructor | src/main/kotlin/com/mcjeffr/aoc/days/Day11.kt:31-34 | the common multiplier is the product of the dividers |
| Monkeys.Game.Play | src/main/kotlin/com/mcjeffr/aoc/days/Day11.kt:36-52 | after `play` the monkeys are in the state of `rounds` rounds, none for a negative count |
| Monkeys.Game.PlayRound | src/main/kotlin/com/mcjeffr/aoc/days/Day11.kt:38-48 | one round is every monkey's turn in order |
| Monkeys.Game.TakeTurnOfRound | src/main/kotlin/com/mcjeffr/aoc/days/Day11.kt:38-48 | the turn of monkey `i` extends the round's first `i` turns to `i + 1` |
| Monkeys.Game.TakeTurn | src/main/kotlin/com/mcjeffr/aoc/days/Day11.kt:39-47 | one turn handles as many items as the monkey held when it started |
| Monkeys.Game.TakeOne | src/main/kotlin/com/mcjeffr/aoc/days/Day11.kt:44-46 | inspect, test and pass one item |
| Cpu.ParseRendered | src/main/kotlin/com/mcjeffr/aoc/days/Day10.kt:45-53 | `noop` and `addx v` parse back to the instruction |
| Cpu.ParseWithoutSpace | src/main/kotlin/com/mcjeffr/aoc/days/Day10.kt:48-49 | any line without a space is a `noop` |
| Cpu.ParseInstructions | src/main/kotlin/com/mcjeffr/aoc/days/Day10.kt:45-53 | fails exactly when some line's operand is not an `Int`, and otherwise parses each line |
| Cpu.Boot | src/main/kotlin/com/mcjeffr/aoc/days/Day10.kt:66-69 | fails exactly on an empty program (`removeFirst` throws); otherwise the first instruction is active, the CPU is busy if it is an `addx`, and `x` is 1 |
| Cpu.CPU.constructor | src/main/kotlin/com/mcjeffr/aoc/days/Day10.kt:60-69 | the new CPU is in that state |
| Cpu.BusyCycle | src/main/kotlin/com/mcjeffr/aoc/days/Day10.kt:76-79 | a busy cycle only clears the busy flag |
| Cpu.XChangesOnRetire | src/main/kotlin/com/mcjeffr/aoc/days/Day10.kt:81-91 | `x` changes only when an `addx` retires, by its operand, and the CPU is then busy; a retiring cycle loads the next instruction |
| Cpu.HaltedCycle | src/main/kotlin/com/mcjeffr/aoc/days/Day10.kt:83 | a cycle with nothing left to load reports its start and ends the run |
| Cpu.StepTrace | src/main/kotlin/com/mcjeffr/aoc/days/Day10.kt:72-94 | every cycle reports its start, and its end only when an instruction retires |
| Cpu.RunFrom | src/main/kotlin/com/mcjeffr/aoc/days/Day10.kt:72-94 | the run reports a start for every remaining cycle up to 240 unless it stops, and never more |
| Cpu.RunCycles | src/main/kotlin/com/mcjeffr/aoc/days/Day10.kt:72-94 | the start reports are for consecutive cycles from the one the run starts at |
| Cpu.FullRun | src/main/kotlin/com/mcjeffr/aoc/days/Day10.kt:72 | `run` reports cycles 1, 2, … in order, all 240 unless it stops early |
| Cpu.LastNeverApplied | src/main/kotlin/com/mcjeffr/aoc/days/Day10.kt:83 | when the run stops early, the last instruction is never executed: `x` has every operand but the last one added |
| Cpu.CPU.Execute | src/main/kotlin/com/mcjeffr/aoc/days/Day10.kt:75-91 | one cycle of the loop changes the state as the cycle function says |
| Cpu.CPU.Run | src/main/kotlin/com/mcjeffr/aoc/days/Day10.kt:71-95 | `run` makes exactly the start and end reports of the run and leaves the CPU in its final state |
| Cpu.CPU.RunCycle | src/main/kotlin/com/mcjeffr/aoc/days/Day10.kt:72-94 | one pass of the loop: either the run stops with every report made, or the reports made so far and the rest of the run still add up to the whole run |
| Cpu.SampleCount | src/main/kotlin/com/mcjeffr/aoc/days/Day10.kt:15-19 | over cycles 1 to `n`, part one collects `(n + 20) / 40` strengths |
| Cpu.Part1Samples | src/main/kotlin/com/mcjeffr/aoc/days/Day10.kt:13-25 | part one sums at most six strengths, and exactly six when the program lasts 240 cycles |
| Cpu.ScreenLength | src/main/kotlin/com/mcjeffr/aoc/days/Day10.kt:29-39 | part two prints one pixel per cycle and a line break after every 40th |
| Console.ParseConsoleLog | src/main/kotlin/com/mcjeffr/aoc/days/Day7.kt:38-52 | the line loop computes the line-by-line reading, failing where the source throws |
| Console.FeedAppend | src/main/kotlin/com/mcjeffr/aoc/days/Day7.kt:40-50 | reading two blocks of lines one after the other is reading them together |
| Console.ParseRenderedData | src/main/kotlin/com/mcjeffr/aoc/days/Day7.kt:66-75 | a `dir name` or `size name` line never starts with `$` and parses back to its entry |
| Console.FeedListing | src/main/kotlin/com/mcjeffr/aoc/days/Day7.kt:43-49 | listing lines after an `ls` are added, in order, to its output |
| Console.FeedCommand | src/main/kotlin/com/mcjeffr/aoc/days/Day7.kt:54-64 | a `$ cd X` or `$ ls` line, with its listing, adds exactly that command |
| Console.ParseRenderedLog | src/main/kotlin/com/mcjeffr/aoc/days/Day7.kt:38-52 | reading the log of a list of commands gives the commands back |
| FileSystems.VisitOrder | src/main/kotlin/com/mcjeffr/aoc/days/Day7.kt:112-115 | `visit` is post-order: the directory itself comes last, after directories below it only |
| FileSystems.VisitReaches | src/main/kotlin/com/mcjeffr/aoc/days/Day7.kt:112-115 | `visit` reaches exactly the directories below the one it starts from |
| FileSystems.VisitOnce | src/main/kotlin/com/mcjeffr/aoc/days/Day7.kt:112-115 | `visit` applies the visitor to each directory once |
| FileSystems.SizeIsSubtreeTotal | src/main/kotlin/com/mcjeffr/aoc/days/Day7.kt:110 | a directory's `size` is the total of the files in it and in every directory below it |
| FileSystems.VisitFromRoot | src/main/kotlin/com/mcjeffr/aoc/days/Day7.kt:110-115 | from the root, `visit` reaches every directory once, ends with the root, and the root's size is the total of all files |
| FileSystems.ListingSplits | src/main/kotlin/com/mcjeffr/aoc/days/Day7.kt:103-108 | `addData` splits a listing into its directories and its files, losing none |
| FileSystems.WithDataValid | src/main/kotlin/com/mcjeffr/aoc/days/Day7.kt:95-108 | `addData` keeps the tree well formed, adds one new child per listed directory, and changes no other directory |
| FileSystems.FileSystem.AddData | src/main/kotlin/com/mcjeffr/aoc/days/Day7.kt:103-108 | the tree after `addData` |
| FileSystems.ChildNamed | src/main/kotlin/com/mcjeffr/aoc/days/Day7.kt:139-140 | `find` returns the first child with the name, and fails exactly when there is none |
| FileSystems.Move | src/main/kotlin/com/mcjeffr/aoc/days/Day7.kt:129-142 | `cd /` goes to the root, `cd ..` to the parent (failing at the root), `cd X` to a child named `X` (failing if there is none) |
| FileSystems.Replay | src/main/kotlin/com/mcjeffr/aoc/days/Day7.kt:126-149 | replaying commands keeps the tree well formed and only adds directories |
| FileSystems.ReplayAppend | src/main/kotlin/com/mcjeffr/aoc/days/Day7.kt:126-149 | once a command throws, the rest of the log cannot make the build succeed |
| FileSystems.ReplayKeepsRoot | src/main/kotlin/com/mcjeffr/aoc/days/Day7.kt:124-150 | the root stays `/` and no directory is renamed |
| FileSystems.BuildFileSystem | src/main/kotlin/com/mcjeffr/aoc/days/Day7.kt:123-151 | the loop builds exactly the replayed tree, and fails exactly where the replay does |
| FileSystems.DirectorySizeVisitor.Apply | src/main/kotlin/com/mcjeffr/aoc/days/Day7.kt:159-161 | appends the directory's name and size |
| FileSystems.Visit | src/main/kotlin/com/mcjeffr/aoc/days/Day7.kt:112-115 | the visitor collects every directory's name and size in visit order |
| FileSystems.VisitChild | src/main/kotlin/com/mcjeffr/aoc/days/Day7.kt:113 | visiting one child collects that child's subtree, so the entries still to come shrink by exactly it |
| FileSystems.SmallTotal | src/main/kotlin/com/mcjeffr/aoc/days/Day7.kt:18 | each counted directory adds less than 100000, so the total is below 100000 per entry |
| FileSystems.SmallTotalAppend | src/main/kotlin/com/mcjeffr/aoc/days/Day7.kt:18 | the filtered sum of two lists is the sum of their filtered sums |
| FileSystems.Part1 | src/main/kotlin/com/mcjeffr/aoc/days/Day7.kt:15-21 | part one sums the sizes below 100000 of the directories the visitor collects |
| FileSystems.PartOneCountsEachDirectory | src/main/kotlin/com/mcjeffr/aoc/days/Day7.kt:15-18 | that sum counts every directory exactly once |
| FileSystems.SmallestAbove | src/main/kotlin/com/mcjeffr/aoc/days/Day7.kt:30 | none exactly when no directory is larger than needed; otherwise the first of the smallest of those that are |
| FileSystems.Part2 | src/main/kotlin/com/mcjeffr/aoc/days/Day7.kt:23-30 | part two picks that directory for the space the update needs |
| FileSystems.PartTwoFindsDirectory | src/main/kotlin/com/mcjeffr/aoc/days/Day7.kt:24-30 | the root always frees enough, so part two always finds a directory |
| Crates.MoveOneSucceeds | src/main/kotlin/com/mcjeffr/aoc/days/Day5.kt:74-79 | a CrateMover 9000 move of a positive amount fails exactly when a stack number is out of range or the source stack runs out; a move of nothing never fails |
| Crates.MoveOneReverses | src/main/kotlin/com/mcjeffr/aoc/days/Day5.kt:74-79 | it moves the top `n` crates onto the target in reverse order and leaves the other stacks alone |
| Crates.MoveOneSameStack | src/main/kotlin/com/mcjeffr/aoc/days/Day5.kt:74-79 | moving from a non-empty stack onto itself changes nothing |
| Crates.MoveOneRunsOut | src/main/kotlin/com/mcjeffr/aoc/days/Day5.kt:75-76 | asking for more crates than the stack holds fails |
| Crates.MoveOneKeepsCrates | src/main/kotlin/com/mcjeffr/aoc/days/Day5.kt:74-79 | a successful move keeps the number of stacks and of crates |
| Crates.RemoveLast | src/main/kotlin/com/mcjeffr/aoc/days/Day5.kt:90-96 | removes the last `n` items and returns them in their original order |
| Crates.MoveMultipleSucceeds | src/main/kotlin/com/mcjeffr/aoc/days/Day5.kt:81-84 | a CrateMover 9001 move fails exactly when a stack number is out of range or the source stack holds fewer crates than asked |
| Crates.MoveMultipleKeepsOrder | src/main/kotlin/com/mcjeffr/aoc/days/Day5.kt:81-84 | it moves the top `n` crates in their order, and nothing changes when source and target are the same |
| Crates.MoveMultipleKeepsCrates | src/main/kotlin/com/mcjeffr/aoc/days/Day5.kt:81-84 | a successful move keeps the number of stacks and of crates |
| Crates.CranesDiffer | src/main/kotlin/com/mcjeffr/aoc/days/Day5.kt:74-84 | the two cranes differ only in the order of the moved crates on the target |
| Crates.Ship.MoveOne | src/main/kotlin/com/mcjeffr/aoc/days/Day5.kt:74-79 | the ship's stacks after `moveOne` |
| Crates.Ship.MoveMultiple | src/main/kotlin/com/mcjeffr/aoc/days/Day5.kt:81-84 | the ship's stacks after `moveMultiple` |
| Crates.TopCrates | src/main/kotlin/com/mcjeffr/aoc/days/Day5.kt:86 | the top crate of every stack, failing exactly when a stack is empty |
| Crates.Header | src/main/kotlin/com/mcjeffr/aoc/days/Day5.kt:31-37 | the drawing is the lines before the first blank one |
| Crates.HeaderEnds | src/main/kotlin/com/mcjeffr/aoc/days/Day5.kt:31-37 | it ends at that blank line |
| Crates.Item | src/main/kotlin/com/mcjeffr/aoc/days/Day5.kt:48-50 | a chunk keeps exactly its characters that are neither whitespace nor brackets |
| Crates.AddLineEffect | src/main/kotlin/com/mcjeffr/aoc/days/Day5.kt:45-54 | a line puts each non-blank item at the bottom of its stack, and fails when an item lies past the last stack |
| Crates.PushLine | src/main/kotlin/com/mcjeffr/aoc/days/Day5.kt:45-54 | the loop over one line does that |
| Crates.BuildSucceeds | src/main/kotlin/com/mcjeffr/aoc/days/Day5.kt:44-55 | building fails exactly when some line has an item past the last stack |
| Crates.StacksAreColumns | src/main/kotlin/com/mcjeffr/aoc/days/Day5.kt:44-55 | each stack is its column of the drawing, read from the bottom up |
| Crates.FirstLineOnTop | src/main/kotlin/com/mcjeffr/aoc/days/Day5.kt:45-53 | the first line of the drawing holds the top crates |
| Crates.ExtractStartingStacks | src/main/kotlin/com/mcjeffr/aoc/days/Day5.kt:29-57 | the loops build the starting stacks of the drawing |
| Crates.ReadHeader | src/main/kotlin/com/mcjeffr/aoc/days/Day5.kt:31-37 | the first loop keeps the lines before the first blank one |
| Crates.BuildFromDrawing | src/main/kotlin/com/mcjeffr/aoc/days/Day5.kt:44-55 | the second loop builds the stacks of the drawing, and fails when an item lies past the last stack |
| Crates.BuildStopsAt | src/main/kotlin/com/mcjeffr/aoc/days/Day5.kt:50-53 | once a line has an item past the last stack, the whole drawing fails, whatever follows |
| Crates.MoveLines | src/main/kotlin/com/mcjeffr/aoc/days/Day5.kt:61 | the steps come from exactly the lines that start with `move` |
| Crates.ExtractSteps | src/main/kotlin/com/mcjeffr/aoc/days/Day5.kt:59-68 | each such line parses to one step, and the parse fails only if one of them does |
| Crates.ParseRenderedStep | src/main/kotlin/com/mcjeffr/aoc/days/Day5.kt:62-67 | `move n from a to b` parses back to its step |
| Trees.Grid.Filter | src/main/kotlin/com/mcjeffr/aoc/days/Day8.kt:80-90 | the trees of the grid that satisfy the test, row by row |
| Trees.Grid.Map | src/main/kotlin/com/mcjeffr/aoc/days/Day8.kt:92-100 | the function applied to every tree, row by row |
| Trees.CellsAreTheGrid | src/main/kotlin/com/mcjeffr/aoc/days/Day8.kt:80-100 | the trees visited are exactly the grid's cells, in row-major order |
| Trees.TakeUntilInclusive | src/main/kotlin/com/mcjeffr/aoc/days/Day8.kt:111-120 | the longest prefix without a stopping item, plus the first stopping item if any |
| Trees.CollectUntil | src/main/kotlin/com/mcjeffr/aoc/days/Day8.kt:111-120 | the loop collects that prefix |
| Trees.TakeFirstStop | src/main/kotlin/com/mcjeffr/aoc/days/Day8.kt:111-120 | it ends at the first stopping item |
| Trees.Grid.LineMembers | src/main/kotlin/com/mcjeffr/aoc/days/Day8.kt:57-70 | the line in one direction holds exactly the grid's trees on that side of the tree, in its row or column |
| Trees.Grid.LineOrder | src/main/kotlin/com/mcjeffr/aoc/days/Day8.kt:70-77 | each line is sorted from the nearest tree outward |
| Trees.Grid.EdgeIsBorder | src/main/kotlin/com/mcjeffr/aoc/days/Day8.kt:36-38 | in a rectangular grid, a tree has fewer than four lines exactly when it is on the border |
| Trees.Grid.EmptyLeft | src/main/kotlin/com/mcjeffr/aoc/days/Day8.kt:36-38 | no trees to the left exactly in the first column |
| Trees.Grid.EmptyRight | src/main/kotlin/com/mcjeffr/aoc/days/Day8.kt:36-38 | no trees to the right exactly in the last column |
| Trees.Grid.EmptyUp | src/main/kotlin/com/mcjeffr/aoc/days/Day8.kt:36-38 | in a rectangular grid, no trees above exactly in the first row |
| Trees.Grid.EmptyDown | src/main/kotlin/com/mcjeffr/aoc/days/Day8.kt:36-38 | in a rectangular grid, no trees below exactly in the last row |
| Trees.Grid.ClearLine | src/main/kotlin/com/mcjeffr/aoc/days/Day8.kt:40-42 | every tree in a line is shorter exactly when the view is clear that way |
| Trees.Grid.VisibleMeans | src/main/kotlin/com/mcjeffr/aoc/days/Day8.kt:35-43 | an edge tree is visible, and an inner tree is visible exactly when some direction is all shorter trees |
| Trees.Grid.ViewingDistanceMeans | src/main/kotlin/com/mcjeffr/aoc/days/Day8.kt:51-53 | the viewing distance counts the shorter trees up to and including the first that blocks the view |
| Trees.Grid.ScenicScoreMeans | src/main/kotlin/com/mcjeffr/aoc/days/Day8.kt:45-55 | an edge tree scores 0, an inner tree at least 1 |
| Trees.MaxOf | src/main/kotlin/com/mcjeffr/aoc/days/Day8.kt:23 | the largest value, failing exactly on an empty list |
| Trees.Part1 | src/main/kotlin/com/mcjeffr/aoc/days/Day8.kt:13-16 | the number of visible trees is at most the number of trees |
| Trees.Part2 | src/main/kotlin/com/mcjeffr/aoc/days/Day8.kt:20-23 | the highest scenic score of any tree, failing exactly on an empty grid |
| Trees.ParseRow | src/main/kotlin/com/mcjeffr/aoc/days/Day8.kt:29 | a line of digits gives their values, failing exactly on a non-digit |
| Trees.ParseGrid | src/main/kotlin/com/mcjeffr/aoc/days/Day8.kt:27-31 | every line becomes a row of digit values |
| Marker.TakeAndRemove | src/main/kotlin/com/mcjeffr/aoc/days/Day6.kt:25-29 | the first `n` characters, failing exactly when `removeRange(0..n)` throws |
| Marker.CardIffDistinct | src/main/kotlin/com/mcjeffr/aoc/days/Day6.kt:15 | the set of a window is as large as the window exactly when its characters are distinct |
| Marker.RotationElements | src/main/kotlin/com/mcjeffr/aoc/days/Day6.kt:14-19 | for the first `n` characters the deque only rotates the first window, keeping its characters |
| Marker.WindowStep | src/main/kotlin/com/mcjeffr/aoc/days/Day6.kt:18-19 | afterwards each step slides the window one character along |
| Marker.FindStart | src/main/kotlin/com/mcjeffr/aoc/days/Day6.kt:12-23 | the loop computes the search as written |
| Marker.StartFromFinds | src/main/kotlin/com/mcjeffr/aoc/days/Day6.kt:14-22 | the search stops at the first index whose deque is all distinct, and reports -1 when there is none |
| Marker.CheckedMeans | src/main/kotlin/com/mcjeffr/aoc/days/Day6.kt:14-19 | the deque at index `k` is the window ending at `k`, or the first window while `k` is at most `n` |
| Marker.FindStartMeaning | src/main/kotlin/com/mcjeffr/aoc/days/Day6.kt:12-23 | `findStart` answers 0 when the first window is a marker, otherwise the first marker end below the input's length, or -1 |
| Marker.MarkerEnd | src/main/kotlin/com/mcjeffr/aoc/days/Day6.kt:12-23 | the intended answer: the first index at which the `n` characters before it are distinct |
| Marker.AgreesPastFirstWindow | src/main/kotlin/com/mcjeffr/aoc/days/Day6.kt:12-23 | whenever `findStart` answers more than 0, it answers what was intended |
| Marker.FirstWindowReportsZero | src/main/kotlin/com/mcjeffr/aoc/days/Day6.kt:14-16 | on `abcde` with 4, `findStart` answers 0 where the marker ends at 4 |
| Marker.LastWindowNeverChecked | src/main/kotlin/com/mcjeffr/aoc/days/Day6.kt:14-22 | on `aabc` with 3, `findStart` answers -1 where the marker ends at 4 |
| Rps.CodesDecode | src/main/kotlin/com/mcjeffr/aoc/days/Day2.kt:47-73 | each symbol and result is found from its own code, and the lookups fail exactly on other codes |
| Rps.Associate | src/main/kotlin/com/mcjeffr/aoc/days/Day2.kt:95 | `associate` has exactly the pairs' keys |
| Rps.AssociateAt | src/main/kotlin/com/mcjeffr/aoc/days/Day2.kt:95 | with distinct keys, each key maps to its own value |
| Rps.StatesFollowRules | src/main/kotlin/com/mcjeffr/aoc/days/Day2.kt:76-86 | the table holds every pair: a draw for equal symbols, a win exactly when the player's symbol beats the opponent's |
| Rps.OneResponsePerResult | src/main/kotlin/com/mcjeffr/aoc/days/Day2.kt:76-86 | for each opponent symbol and result, exactly one player symbol gives it |
| Rps.InvertedAt | src/main/kotlin/com/mcjeffr/aoc/days/Day2.kt:88-95 | the inverted table is defined everywhere and gives that symbol |
| Rps.GetScore | src/main/kotlin/com/mcjeffr/aoc/days/Day2.kt:97-101 | the score is the result's score plus the symbol's, between 1 and 9, and never throws |
| Rps.SymbolToAchieve | src/main/kotlin/com/mcjeffr/aoc/days/Day2.kt:103-105 | the symbol found gives the expected result, and never throws |
| Rps.ExtractRounds | src/main/kotlin/com/mcjeffr/aoc/days/Day2.kt:14-20 | each line splits into its two codes, failing exactly when a line has no space |
| Rps.ExtractRoundOfCodes | src/main/kotlin/com/mcjeffr/aoc/days/Day2.kt:14-20 | `a b` splits into `a` and `b` |
| Rps.Part2RoundScore | src/main/kotlin/com/mcjeffr/aoc/days/Day2.kt:34-45 | a part two round scores the result's score plus that of the symbol that gives it |
| Rps.Part2RoundDecoded | src/main/kotlin/com/mcjeffr/aoc/days/Day2.kt:34-45 | a round whose codes decode scores the result plus the shape that reaches it |
| Rps.PartsBounds | src/main/kotlin/com/mcjeffr/aoc/days/Day2.kt:22-45 | each total lies between the number of rounds and nine times it |
| Rucksacks.ItemTypeScore | src/main/kotlin/com/mcjeffr/aoc/days/Day3.kt:33-38 | `a`–`z` score 1–26 and `A`–`Z` score 27–52 |
| Rucksacks.ScoresIdentifyLetters | src/main/kotlin/com/mcjeffr/aoc/days/Day3.kt:33-38 | distinct letters score differently, and every score from 1 to 52 belongs to a letter |
| Rucksacks.FirstShared | src/main/kotlin/com/mcjeffr/aoc/days/Day3.kt:44-46 | the first item of one side also in the other, failing exactly when there is none (`first` throws) |
| Rucksacks.Compartments | src/main/kotlin/com/mcjeffr/aoc/days/Day3.kt:42-47 | the compartments are the first half and the next half of the items |
| Rucksacks.Common | src/main/kotlin/com/mcjeffr/aoc/days/Day3.kt:27 | `intersect` keeps exactly the items in both |
| Rucksacks.GroupBadge | src/main/kotlin/com/mcjeffr/aoc/days/Day3.kt:24-27 | the badge is in all three rucksacks, and there is none only when no item is in all three |
| Rucksacks.Part2Groups | src/main/kotlin/com/mcjeffr/aoc/days/Day3.kt:21-31 | when part two succeeds, the rucksacks form whole groups of three, each with a badge |
| Rucksacks.SumBadgesAll | src/main/kotlin/com/mcjeffr/aoc/days/Day3.kt:23-29 | the sum exists only if every group has a badge |
| Sectors.ContainsReflexive | src/main/kotlin/com/mcjeffr/aoc/days/Day4.kt:41 | every sector contains itself |
| Sectors.ContainsMeansCovers | src/main/kotlin/com/mcjeffr/aoc/days/Day4.kt:41 | `contains` holds exactly when every section of the other sector is in this one |
| Sectors.OverlapsSymmetric | src/main/kotlin/com/mcjeffr/aoc/days/Day4.kt:43 | `overlaps` is symmetric |
| Sectors.OverlapsMeansShares | src/main/kotlin/com/mcjeffr/aoc/days/Day4.kt:43 | `overlaps` holds exactly when the sectors share a section |
| Sectors.ContainsImpliesOverlaps | src/main/kotlin/com/mcjeffr/aoc/days/Day4.kt:41-43 | containing a non-empty sector means overlapping it |
| Sectors.ParseSectors | src/main/kotlin/com/mcjeffr/aoc/days/Day4.kt:31-35 | one sector per elf |
| Sectors.ExtractSectors | src/main/kotlin/com/mcjeffr/aoc/days/Day4.kt:29-37 | each line parses to a pair, and the parse fails exactly where a line's does |
| Sectors.ParseRenderedSector | src/main/kotlin/com/mcjeffr/aoc/days/Day4.kt:33-34 | `a-b` parses back to its sector |
| Sectors.ParseRenderedLine | src/main/kotlin/com/mcjeffr/aoc/days/Day4.kt:29-37 | `a-b,c-d` parses back to its pair |
| Sectors.ContainedAmongOverlapping | src/main/kotlin/com/mcjeffr/aoc/days/Day4.kt:13-27 | part one's count is at most part two's, which is at most the number of pairs |
| Calories.ElfKeys | src/main/kotlin/com/mcjeffr/aoc/days/Day1.kt:8-16 | the loop gives each line its elf number, or -1 for a blank line |
| Calories.SameElf | src/main/kotlin/com/mcjeffr/aoc/days/Day1.kt:10-16 | two non-blank lines belong to the same elf exactly when no blank line lies between them |
| Calories.BlankSeparates | src/main/kotlin/com/mcjeffr/aoc/days/Day1.kt:11-14 | a blank line is keyed -1 and the elves on either side of it are numbered in increasing order |
| Calories.GroupByContents | src/main/kotlin/com/mcjeffr/aoc/days/Day1.kt:10-16 | `groupBy` makes one group per distinct key, holding that key's values in order |
| Calories.GroupTotalsSum | src/main/kotlin/com/mcjeffr/aoc/days/Day1.kt:17-18 | the totals of the kept groups add up to the values of the lines not keyed -1 |
| Calories.Values | src/main/kotlin/com/mcjeffr/aoc/days/Day1.kt:18 | each non-blank line's value is its `toInt` |
| Calories.TotalsAddUp | src/main/kotlin/com/mcjeffr/aoc/days/Day1.kt:17-19 | the elves' totals add up to all the calories in the input |
| Calories.ElfTotalIsItsLines | src/main/kotlin/com/mcjeffr/aoc/days/Day1.kt:10-18 | each group holds exactly the values of its elf's lines |
| Calories.SortDescending | src/main/kotlin/com/mcjeffr/aoc/days/Day1.kt:20 | the totals sorted from largest down, as a permutation |
| Calories.AnswersAreLargest | src/main/kotlin/com/mcjeffr/aoc/days/Day1.kt:20-23 | the top elf's total is one of the totals and at least every other, and each of the three totals summed for part two is at least every total left out |
| Text.Split | src/main/kotlin/com/mcjeffr/aoc/days/Day9.kt:79 | `split` gives at least one part, none holding the separator, and joining them gives the line back |
| Text.SplitJoin | src/main/kotlin/com/mcjeffr/aoc/days/Day9.kt:79 | splitting parts joined by the separator gives the parts back |
| Text.ParseInt | src/main/kotlin/com/mcjeffr/aoc/days/Day9.kt:80 | `toInt` gives a 32-bit value and fails on an empty string |
| Text.ParseIntToString | src/main/kotlin/com/mcjeffr/aoc/days/Day9.kt:80 | every 32-bit value parses back from its decimal text |
| Seqs.Chunked | src/main/kotlin/com/mcjeffr/aoc/days/Day5.kt:47 | `chunked` gives non-empty chunks, all but the last of full size |
| Seqs.ChunkedFlatten | src/main/kotlin/com/mcjeffr/aoc/days/Day5.kt:47 | the chunks put back together are the input |
| Seqs.ChunkAt | src/main/kotlin/com/mcjeffr/aoc/days/Day3.kt:43 | chunk `i` is the slice starting at `i` times the size |

## Left out

- Day 13 (packet comparison) and the `main` functions: reading the puzzle input, and printing with `println` / `print`, are I/O. Part two of day 10 is modelled as the text it prints (`Cpu.Screen`).
- The rope drawings of day 9 (`drawRope`, `drawVisited`) only print.
- The literal monkey tables of day 11 (the example and the puzzle input) are data. A monkey's operation, a Kotlin lambda, is the `Op` datatype: add, multiply, or square.
- Kotlin's 32-bit `Int` overflow is written out only where it changes a result the model reasons about: the distance sums of day 12. Elsewhere sums and products are unbounded integers. This covers the signal strengths `cycle * x` of day 10, the directory sizes and sums of day 7, the calorie totals of day 1, and the scores of days 2 and 3.
- `toInt` is `Text.ParseInt`: an optional sign and decimal digits within the 32-bit range. Its other accepted forms and its exception messages are not modelled.
- Rucksacks.ItemTypeScore: `isUpperCase` is modelled on the ASCII letters only (`Rucksacks.IsUpperCase`). Kotlin also counts other Unicode upper-case letters, so for a character such as `É` (U+00C9) the source scores `0xC9 - 64 + 26 = 163` where the model gives `0xC9 - 96 = 105`. Dafny has no Unicode character database to state the full class; puzzle input is ASCII letters.
- Trees.DigitToInt: accepts `0`..`9` only. Kotlin's `digitToInt` also accepts every other Unicode decimal digit (for example `٣`, U+0663, is 3), where the model fails. The same holds for `Text.ParseInt`, since `toInt` uses Java's `Character.digit`; Dafny has no Unicode character database for that class either.
- Day 5 counts stacks with `Regex("[0-9]+")`; the model counts maximal runs of digits (`Crates.DigitRuns`), which is what that regex finds.
- Every exception of the source is a `None` result, and an out-of-range list index is one too. The exception types and messages are not modelled.
- Monkeys.Game.constructor: requires a non-empty list of monkeys, where `reduce` throws. `Monkeys.CommonMultiplier` models that case as `None`.
- Monkeys.Game.Play: requires `Valid()`. That means distinct monkey objects, non-zero dividers, and recipients that are list indices. Otherwise the source throws an `ArithmeticException` or `IndexOutOfBoundsException` part-way through a round, which the model does not follow. The model also does not follow the same monkey listed twice.
- Cpu.CPU.constructor: requires a non-empty program, where `removeFirst` throws. `Cpu.Boot` models that case as `None`.
- The callbacks `atStartTick` / `atEndTick` of `CPU` are not stored. `Cpu.CPU.Run` returns the `(cycle, x)` reports each callback would receive, in order, and parts one and two are functions of those reports.
- The parent pointers and child lists of day 7's `Node` are indices into one list of directories (`FileSystems.Node`), with every child after its parent. Files are kept with their directory.
- A day 12 `PathNode` holds the coordinate and height of each connected node (`NodeRef`), not the node object itself. That is all `calculateShortestPath` reads of it.
- HillPath.CalculateShortestPath: requires every connection to lead to a node of the grid. `buildGraph` guarantees this (`HillGraph.ConnectionIff`). Otherwise `distTable[...]!!` throws.
- HillPathCorrectness.ShortestPathCorrect: proved for part one (`startAtAnyA` false) and plain sums. With 32-bit sums it holds when every node can be reached (`HillPathCorrectness.AsWrittenAgreesWhenAllReachable`). For part two only the forced zero of height-1 neighbours (`HillPath.ForcedZero`) is proved.
- Trees.Part1: states only the bound on the count. Which trees are counted is stated by `Trees.Grid.Filter` and `Trees.Grid.VisibleMeans`.

## Findings

| source | as written | input that shows it | evidently intended | confidence | as-written member | corrected member |
|---|---|---|---|---|---|---|
| src/main/kotlin/com/mcjeffr/aoc/days/Day12.kt:108-109 | `distTable[node]!! + 1` is a 32-bit sum. A selected node that was never reached has distance `Int.MAX_VALUE`, so the sum wraps to `Int.MIN_VALUE` and overwrites a neighbour's distance | heights `[[1,1],[3,1]]`, start `(0,0)`, end `(1,1)`: the answer is `Int.MIN_VALUE` | the fewest steps, 2 | not executed | HillPathWrap.WrapCounterexample | HillPathCorrectness.ShortestPathCorrect |
| src/main/kotlin/com/mcjeffr/aoc/days/Day6.kt:14-16 | the first window is checked before any character is read, and `index` 0 is returned when it is a marker | `findStart("abcde", 4)` answers 0 | 4, the number of characters read when the marker ends | not executed | Marker.FirstWindowReportsZero | Marker.MarkerEnd |
| src/main/kotlin/com/mcjeffr/aoc/days/Day6.kt:14-22 | the window is checked before the current character is added, so the window that ends with the last character is never checked | `findStart("aabc", 3)` answers -1 | 4 | not executed | Marker.LastWindowNeverChecked | Marker.MarkerEnd |
