# 8-puzzle best-first solver, modelled in Dafny

The program solves the 8-puzzle. The board is nine integers, row by row, with 0 as the
blank. A `Problem` keeps these fields:

- the current `State`;
- the goal board;
- the set of visited boards;
- a binary heap of candidate states;
- a count of expanded nodes and a count of generated nodes;
- the name of the heuristic.

A `State` carries its board, `cost` (f = g + h), `g`, `h`, a link to its parent and the
label of the move that produced it.

`expand` finds the blank. It then tries the four moves in the order Up, Down, Left,
Right. For each legal move whose board was not visited, it builds a child with g + 1 and
an estimate h.

`solve` repeats four steps:

1. expand, and push the children on the heap;
2. pop the greatest state, that is, a cheapest one (the ordering is reversed on cost);
3. mark its board visited and make it current;
4. stop when its h is 0.

`trace_soln` then reports the move labels from the root to the current state's parent.

The repository holds two copies of the program, and both are modelled:

- `src/main.rs`, with comments. Its Manhattan estimate measures the current (parent)
  board. Its Hamming estimate measures the candidate.
- `src/main_no_comments.rs`. Both estimates measure the parent board. Its Hamming
  estimate counts the goal values found at the wrong position.

Shared modules:

- `Wrappers`: `Option`.
- `Board`: boards, `Vec::swap`, the blank's index, `find`, the four moves, and replaying
  labels.
- `Heuristics`: the estimates as functions, and the loops that compute them as methods.
- `SearchState`: the `State` value, the `Ord`/`PartialOrd`/`PartialEq` implementations,
  the heap pop, the parent chain and `trace_soln`.
- `Expansion`: what `expand` returns, as a function of the state, the goal, the visited
  set and the way h is measured.

`Solver` (src/main.rs) and `SolverPlain` (src/main_no_comments.rs) each hold a class
`Problem`. Its fields are the Rust struct's fields, and its methods are `new`, `expand`,
`solve` and the loop steps. The two modules behave differently only in which measure each
heuristic name selects (`Rule`). Their `Consider` methods compute h by different loops, and
the stop lemmas that follow from the measures differ.

The solver's contracts name the list `expand` returns `Generated`, which equals `Successors`
(`GeneratedIsSuccessors`). The loop's ghost record lists every child pushed and every state
adopted, in order.

The heap is a `multiset<State>`. Parent links (`Rc<State>`) are the `Option<State>`
field of a datatype. Integers are unbounded.

## Model

| member | source | states |
|---|---|---|
| `SearchState.CompareInt` | src/main.rs:141-142 | integer `cmp` is Less, Equal or Greater exactly as a < b, a == b or a > b |
| `SearchState.ThenWith` | src/main.rs:142 | `then_with` is Equal exactly when both comparisons are; otherwise the first comparison decides unless it is Equal, and then the second does |
| `SearchState.Cmp` | src/main.rs:139-144 | a state is Greater than another exactly when it is strictly cheaper, Less exactly when it is dearer, and Equal on equal cost |
| `SearchState.PartialCmp` | src/main.rs:146-150 | `partial_cmp` is always defined: Greater exactly when the first state is strictly cheaper, Less exactly when it is dearer, Equal exactly on equal cost |
| `SearchState.Eq` | src/main.rs:151-156 | two states are equal exactly when `cmp` says Equal, that is, on equal cost, whatever their boards |
| `SearchState.CmpIsTotalPreorder` | src/main.rs:139-144 | the ordering is antisymmetric in Less/Greater, symmetric in Equal, and transitive, as `Ord` requires |
| `SearchState.GreatestIsCheapest` | src/main.rs:126-129 | under the reversed ordering, a state no heap entry exceeds is exactly a state no heap entry undercuts in cost |
| `SearchState.CheapestExists` | src/main.rs:298 | every non-empty heap holds a cheapest state, so a pop always has something to return |
| `SearchState.Pop` | src/main.rs:298 | `BinaryHeap::pop` gives None exactly on an empty heap; otherwise a greatest entry and the heap without that one entry |
| `SearchState.Root` | src/main.rs:135 | following parent links ends at a state without a parent |
| `SearchState.Labels` | src/main.rs:315-322 | the labels of a chain are empty exactly for no state, and the last label is that of the state the chain ends at |
| `SearchState.Reversed` | src/main.rs:324 | `Vec::reverse` keeps the length and puts element k at position len-1-k |
| `SearchState.TraceSolution` | src/main.rs:313-326 | the loop over parent links, then the reverse and `[1..]`, yields the labels from the root to the parent, without the root's own label |
| `SearchState.LabelsReplay` | src/main.rs:233-240 | along a well-formed chain there are g + 1 labels, the first is "None", and replaying the rest from the root's board rebuilds the state's board |
| `SearchState.SolutionFacts` | src/main.rs:313-326 | the reported solution has g - 1 moves and rebuilds the board of the state's parent, not of the state |
| `SearchState.LinkedPermutation` | src/main.rs:250-251 | every state in a chain rooted at a permutation of 0..8 holds a permutation |
| `SearchState.AllHangUnion` | src/main.rs:295-296 | appending children that hang off the root to a heap whose entries do keeps that invariant |
| `SearchState.AllHangRemove` | src/main.rs:298 | the state popped from such a heap hangs off the root, and so does everything left |
| `SearchState.BoardsSnoc` | src/main.rs:299 | adopting one more state adds exactly its board to the visited boards |
| `SearchState.HeapAccount` | src/main.rs:292-300 | the heap plus the states made current always equals the initial heap plus every child pushed; one loop pass keeps this |
| `SearchState.EmptyPush` | src/main.rs:298 | a heap still empty after the push was empty before, and expand produced no child: the dead end |
| `Board.Swap` | src/main.rs:251 | `Vec::swap` keeps the length and exchanges cells i and j |
| `Board.SwapElsewhere` | src/main.rs:251 | `Vec::swap` leaves every other cell unchanged |
| `Board.SwapKeepsPermutation` | src/main.rs:251 | swapping two cells of a permutation of 0..8 yields a permutation |
| `Board.BlankIndex` | src/main.rs:204-206 | `position(|&x| x == 0)` returns an index holding the blank |
| `Board.BlankIndexIsFirst` | src/main.rs:204-206 | no cell before that index is blank, so it is the first blank |
| `Board.BlankIndexAt` | src/main.rs:204-206 | the first blank cell is the index `position` returns |
| `Board.LastIndexOf` | src/main.rs:404-408 | the index found is in range and holds r, or is -1 |
| `Board.LastIndexOfIsLast` | src/main.rs:404-408 | no later cell holds r, so the index is the last occurrence |
| `Board.LastIndexOfMember` | src/main.rs:401 | `row.contains(&r)` holds exactly when r has a last index |
| `Board.Position` | src/main.rs:397-411 | a value not on the board is reported at (0, 0) |
| `Board.PositionOfSingle` | src/main.rs:397-411 | a value that occurs only at cell k is found at row k / 3, column k % 3 |
| `Board.Find` | src/main.rs:397-411 | the loop over rows returns the row of the last row containing r and the column of r's last occurrence, (0, 0) when absent |
| `Board.ScanRow` | src/main.rs:404-408 | the inner loop leaves y at the column of r's last occurrence in the row, or unchanged when r is absent |
| `Board.RowStep` | src/main.rs:400-403 | r's last index in the first i + 1 rows is in row i if row i contains r, and otherwise in the earlier rows |
| `Board.Label` | src/main.rs:252 | each move's label parses back to that move |
| `Board.Target` | src/main.rs:247-281 | a move has a neighbour cell exactly when it stays on the grid: Up not from the top row, Down not from the bottom row, Left not from the left column, Right not from the right column; that cell is loc -3, +3, -1 or +1 |
| `Board.Step` | src/main.rs:247-281 | a move produces a board exactly when it is legal from the blank's cell, and that board is ready |
| `Board.StepMoves` | src/main.rs:250-251 | a legal move puts the blank on the neighbour, that neighbour's tile on the blank's old cell, and changes no other cell |
| `Board.StepKeepsPermutation` | src/main.rs:250-251 | a legal move keeps a permutation of 0..8 a permutation, and never returns the same board |
| `Board.ApplyMove` | src/main.rs:247-281 | applying a legal move's label to a board whose first blank is at loc gives the board with the blank and the target cell exchanged and every other cell kept |
| `Heuristics.Select` | src/main.rs:217 | Manhattan is chosen exactly for the name "Manhattan"; any other name gives Hamming |
| `Heuristics.Abs` | src/main.rs:224-225 | `isize::abs` is x or -x, whichever is not smaller |
| `Heuristics.Distance` | src/main.rs:221-226 | one value's Manhattan term is zero exactly when `find` reports the same cell for it on both boards |
| `Heuristics.ManhattanDistance` | src/main.rs:216-226 | the Manhattan estimate is never negative, and is zero exactly when every goal value is found at the same cell on both boards |
| `Heuristics.Misplaced` | src/main_no_comments.rs:82-90 | one value's Hamming term is 0 or 1, and 0 exactly when `find` reports the same cell for it on both boards |
| `Heuristics.MisplacedValues` | src/main_no_comments.rs:78-90 | the Hamming count of src/main_no_comments.rs lies between 0 and the number of goal values, and is zero exactly when every goal value is found at the same cell on both boards |
| `Heuristics.ManhattanOver` | src/main.rs:221-226 | a sum of Manhattan terms is never negative |
| `Heuristics.MisplacedOver` | src/main_no_comments.rs:82-90 | the Hamming count over a list of values lies between 0 and the list's length |
| `Heuristics.Mismatches` | src/main.rs:228-230 | the zipped comparison counts between 0 and 9 differing cells |
| `Heuristics.MismatchesZeroIff` | src/main.rs:228-230 | the zipped count is zero exactly when the two boards are equal |
| `Heuristics.MismatchesCountsIndices` | src/main.rs:228-230 | the zipped count is the number of indices at which the boards differ |
| `Heuristics.PositionInPermutation` | src/main.rs:222-223 | on a permutation, `find` of the value at cell k returns (k / 3, k % 3) |
| `Heuristics.PositionAgrees` | src/main.rs:222-223 | on two permutations, the goal value of cell k is found at the same place on both exactly when the board has it at k |
| `Heuristics.ManhattanOverZero` | src/main.rs:221-226 | the Manhattan sum is zero exactly when every value's term is |
| `Heuristics.MisplacedOverZero` | src/main_no_comments.rs:82-90 | the Hamming count of src/main_no_comments.rs is zero exactly when every value is found at its goal position |
| `Heuristics.ManhattanZeroIff` | src/main.rs:216-226 | on permutations, the Manhattan estimate is zero exactly on the goal board |
| `Heuristics.MisplacedIsMismatches` | src/main_no_comments.rs:82-90 | on permutations, the value-based Hamming count equals the cell-based count of src/main.rs |
| `Heuristics.MisplacedZeroIff` | src/main_no_comments.rs:78-90 | on permutations, the Hamming estimate of src/main_no_comments.rs is zero exactly on the goal board |
| `Heuristics.ManhattanCost` | src/main.rs:216-226 | the loop over the goal values, with `find` on both boards, returns the Manhattan estimate |
| `Heuristics.HammingCost` | src/main.rs:227-231 | the zip loop returns the number of cells at which goal and candidate differ |
| `Heuristics.PlainCost` | src/main_no_comments.rs:78-90 | the shared loop returns the Manhattan estimate under Manhattan and the misplaced-value count under Hamming |
| `Heuristics.Estimate` | src/main.rs:216-231 | every estimate is a natural number |
| `Heuristics.EstimateZeroIff` | src/main.rs:216-231 | every estimate is zero exactly when the board it measures equals the goal |
| `Expansion.OfferByTarget` | src/main.rs:247-281 | a `match loc` block adds nothing when the move leaves the grid; otherwise it considers the swapped board |
| `Expansion.Child` | src/main.rs:233-240 | the child holds the new board, has the current state as parent and the move's label, g + 1, a natural h, and cost g + h |
| `Expansion.Offer` | src/main.rs:215-281 | a block adds at most one child, and exactly one when the move is legal and its board unvisited; that child has the move's board, g + 1, the estimate of the measured board as h, cost g + h, the current state as parent, and the move as label |
| `Expansion.Successors` | src/main.rs:202-284 | expand returns at most four children |
| `Expansion.Blocks` | src/main.rs:247-283 | expand's vector is the Up, Down, Left and Right blocks, in that order, each empty or one child of its move |
| `Expansion.BlocksRanked` | src/main.rs:247-283 | four blocks of at most one child each, labelled in rank order, give at most four children in strictly increasing move order |
| `Expansion.SuccessorsSound` | src/main.rs:202-284 | expand returns at most four children in the order Up, Down, Left, Right, and each is a child of one legal, unvisited move |
| `Expansion.SuccessorsComplete` | src/main.rs:202-284 | a move yields a child exactly when it is legal and its board was not visited |
| `Expansion.SuccessorsLinked` | src/main.rs:233-240 | each child is ready, extends the well-formed chain, shares the current state's root and has the current state as parent |
| `Expansion.ParentMeasureSharesH` | src/main.rs:216-226 | an estimate of the parent board gives every child of one expansion the same h |
| `Expansion.SuccessorsHang` | src/main.rs:241 | the children, taken as a heap, all hang off the parent's root |
| `Expansion.ScoredPop` | src/main.rs:295-298 | if every heap entry and every child carries the h its measure gives, so does the popped state and what remains |
| `Expansion.SuccessorsScored` | src/main.rs:233-240 | every child's h is the estimate of its measure, and its parent is the expanded state |
| `Expansion.GeneratedIsSuccessors` | src/main.rs:202-284 | the children the solver's contracts name are exactly the list expand returns |
| `Expansion.GeneratedScored` | src/main.rs:233-240 | every child expand generates carries its measure's h |
| `Expansion.PushedScored` | src/main.rs:293-296 | every child pushed over any number of passes carries its measure's h |
| `Expansion.PoppedScored` | src/main.rs:298-300 | starting from an empty heap, every state a pass pops was pushed, so it carries its measure's h |
| `Expansion.PushedSnoc` | src/main.rs:292-296 | the children pushed over one more pass are those pushed before, followed by the children of the state that pass expands |
| `Expansion.HeapPopped` | src/main.rs:295-298 | once a pass pushes its children, the heap is the initial heap plus every child pushed so far, less the states adopted |
| `Expansion.LastHeapBefore` | src/main.rs:295-298 | the heap the newest pass pops from is what the earlier passes left plus that pass's children |
| `Expansion.HeapBeforeSnoc` | src/main.rs:298 | one more pass leaves unchanged the heaps the earlier passes popped from |
| `Expansion.CheapestPopsSnoc` | src/main.rs:292-300 | if every earlier pop took a greatest (cheapest) entry of its heap, and the new pass pops a greatest entry of its heap plus its children, then every pop so far took a cheapest entry |
| `Solver.Rule` | src/main.rs:217-231 | in src/main.rs Manhattan measures the parent board and Hamming the candidate board |
| `Solver.ManhattanStopReachesGoal` | src/main.rs:301 | under Manhattan, a state with h = 0 is a child of the goal board, so the path reported replays from the root to the goal |
| `Solver.HammingStopFallsShort` | src/main.rs:227-231 | under Hamming, a state with h = 0 is the goal itself; the reported path replays to its parent, which is not the goal |
| `Solver.HammingOneMoveExample` | src/main.rs:292-325 | for any goal with the blank last, the board with the blank one cell to its left has three children; only the Right child has cost 1, and it is the goal with h = 0, so it is the cheapest state on the heap; the path trace_soln reports for it is empty, and the initial board is not the goal |
| `Solver.RightDownRightFromCorner` | src/main.rs:75-86 | on any board whose only blank is the first cell, Right, Down, Right replays to the board with the blank in cell 5, and one more Down moves it to cell 8 |
| `Solver.DocumentedCase3FallsShort` | src/main.rs:75-97 | the documented solution of the third case does not reach its goal: it replays to a board one Down move away from it |
| `Solver.Problem.constructor` | src/main.rs:182-199 | the root is the initial board with cost 0, g 0, h 999, no parent and label "None"; nothing visited, an empty heap, zero counters and Manhattan |
| `Solver.Problem.Consider` | src/main.rs:213-245 | an unvisited board adds its scored child and counts it as generated; a visited board adds nothing |
| `Solver.Problem.TryMove` | src/main.rs:247-281 | one `match loc` block adds the child of direction d, if any, and counts what it adds |
| `Solver.Problem.Expand` | src/main.rs:202-284 | the returned vector is exactly the children of the current state; no_expanded grows by one and no_generated by the number of children |
| `Solver.Problem.ExpandScored` | src/main.rs:202-284 | the children are exactly the list expand returns; each has the current state as parent, carries its measure's h, and hangs off the root; no_expanded grows by one and no_generated by the number of children |
| `Solver.Problem.Push` | src/main.rs:293-296 | the children pushed are exactly the list expand returns for the current state and the visited boards; the heap grows by exactly them; each carries its measure's h and has the current state as parent; the counters grow as in expand |
| `Solver.Problem.Adopt` | src/main.rs:299-300 | the popped state's board joins the visited set and the state becomes current; the invariant is restored |
| `Solver.Problem.PopNext` | src/main.rs:298-300 | an empty heap gives None and changes nothing; otherwise a greatest (cheapest) entry is removed once, its board becomes visited, it becomes current and joins the adopted states; the counters are unchanged |
| `Solver.Problem.Advance` | src/main.rs:295-300 | after the push, an empty heap means expand produced no child and nothing else changes; otherwise the state popped is a greatest entry of the old heap plus the children, it becomes current and joins the trail; the children are appended to the record of pushed states, and heap plus adopted states stays the initial heap plus every child pushed |
| `Solver.Problem.Pass` | src/main.rs:292-300 | one pass pushes exactly the list expand returns for the state it started from and counts them; it either finds the heap empty (no child, nothing else changes) or adopts a greatest entry of the old heap plus those children; the heap accounting and the invariant are kept |
| `Solver.Problem.Round` | src/main.rs:292-300 | one pass keeps the loop's record of the whole run: the state it expands is the last adopted one, the pushed children are the concatenation of every pass's expand list, and every adopted state was a greatest entry of the heap it was popped from |
| `Solver.Problem.Search` | src/main.rs:292-308 | the loop stops at the first adopted state with h = 0 and reports trace_soln of it with both counters; pass i expands the state adopted before it, the children pushed are the concatenation of their expand lists, and every adopted state was a cheapest entry of its heap; visited is the set of adopted boards; no_expanded counts the passes; heap plus adopted states equals the old heap plus all children; an empty heap gives the dead end, with no child left to push; from an empty heap, the final state carries its measure's h |
| `Solver.Problem.Solve` | src/main.rs:287-310 | the heuristic is selected by name, then Search's guarantees hold |
| `SolverPlain.Rule` | src/main_no_comments.rs:78-90 | in src/main_no_comments.rs both heuristics measure the parent board |
| `SolverPlain.StopReachesGoal` | src/main_no_comments.rs:142 | under either heuristic, a state with h = 0 is a child of the goal board, so the reported path replays from the root to the goal |
| `SolverPlain.Problem.constructor` | src/main_no_comments.rs:46-63 | the root is the initial board with cost 0, g 0, h 999, no parent and label "None"; nothing visited, an empty heap, zero counters and Manhattan |
| `SolverPlain.Problem.Consider` | src/main_no_comments.rs:72-104 | an unvisited board adds the child scored by the shared loop and counts it; a visited board adds nothing |
| `SolverPlain.Problem.TryMove` | src/main_no_comments.rs:106-124 | one `match loc` block adds the child of direction d, if any, and counts what it adds |
| `SolverPlain.Problem.Expand` | src/main_no_comments.rs:64-127 | the returned vector is exactly the children of the current state; no_expanded grows by one and no_generated by the number of children |
| `SolverPlain.Problem.ExpandScored` | src/main_no_comments.rs:64-127 | the children are exactly the list expand returns; each has the current state as parent, carries its measure's h, and hangs off the root; no_expanded grows by one and no_generated by the number of children |
| `SolverPlain.Problem.Push` | src/main_no_comments.rs:135-138 | the children pushed are exactly the list expand returns for the current state and the visited boards; the heap grows by exactly them; each carries its measure's h and has the current state as parent; the counters grow as in expand |
| `SolverPlain.Problem.Adopt` | src/main_no_comments.rs:140-141 | the popped state's board joins the visited set and the state becomes current; the invariant is restored |
| `SolverPlain.Problem.PopNext` | src/main_no_comments.rs:139-141 | an empty heap gives None and changes nothing; otherwise a greatest (cheapest) entry is removed once, its board becomes visited, it becomes current and joins the adopted states; the counters are unchanged |
| `SolverPlain.Problem.Advance` | src/main_no_comments.rs:137-141 | after the push, an empty heap means expand produced no child and nothing else changes; otherwise the state popped is a greatest entry of the old heap plus the children, it becomes current and joins the trail; the children are appended to the record of pushed states, and heap plus adopted states stays the initial heap plus every child pushed |
| `SolverPlain.Problem.Pass` | src/main_no_comments.rs:134-141 | one pass pushes exactly the list expand returns for the state it started from and counts them; it either finds the heap empty (no child, nothing else changes) or adopts a greatest entry of the old heap plus those children; the heap accounting and the invariant are kept |
| `SolverPlain.Problem.Round` | src/main_no_comments.rs:134-141 | one pass keeps the loop's record of the whole run: the state it expands is the last adopted one, the pushed children are the concatenation of every pass's expand list, and every adopted state was a greatest entry of the heap it was popped from |
| `SolverPlain.Problem.Search` | src/main_no_comments.rs:134-149 | the loop stops at the first adopted state with h = 0 and reports trace_soln of it with both counters; pass i expands the state adopted before it, the children pushed are the concatenation of their expand lists, and every adopted state was a cheapest entry of its heap; visited is the set of adopted boards; no_expanded counts the passes; heap plus adopted states equals the old heap plus all children; an empty heap gives the dead end, with no child left to push; from an empty heap, the final state carries its measure's h |
| `SolverPlain.Problem.Solve` | src/main_no_comments.rs:129-151 | the heuristic is selected by name, then Search's guarantees hold |

## Left out

- `main`, the `fmt::Debug` implementations and every `println!`: these are output only. Solve returns the moves and the two counters in an `Outcome` instead of printing them.
- `Solver.Problem.Search`: `loop` has no bound, so the search runs at most `fuel` passes and reports `OutOfFuel` after that. Termination and solvability (the parity of the initial board) are not modelled.
- `SolverPlain.Problem.Search`: the same fuel bound applies.
- `Solver.Problem.Search`: the `expect("Reached a dead end.")` panic becomes the `DeadEnd` outcome. The `expect` on a missing blank becomes the precondition that the board holds a 0 (`Ready`), which `Valid` keeps.
- `Board.Find`: it takes the nine-cell board and reads its three row slices as cells 0-2, 3-5 and 6-8, instead of a `Vec` of slices. It still returns what the Rust loop returns, including (0, 0) for an absent value.
- `isize` overflow is not modelled: the integers are unbounded. Nine cells and g + 1 per move stay far from the bounds.
- `Rc` sharing and reference counts are not modelled: a parent link is a value, so aliasing is not captured.
- `SearchState.Pop`: it states that a greatest (cheapest) entry is removed, not which of several equal-cost entries `BinaryHeap` removes. The heap's internal layout is not modelled.
- The kind strings are modelled as the labels "Up", "Down", "Left", "Right" and "None". `Apply` returns None for any other label, so a replay that meets one fails as a whole.
- `Solver.Problem.Search`: its contract ties the final state to the goal only through the stop lemmas (`Solver.ManhattanStopReachesGoal`, `Solver.HammingStopFallsShort`, `SolverPlain.StopReachesGoal`). Search states that that state carries its measure's h only when the search starts from an empty heap, as `solve` does after `new`.
- `Valid` is a ghost invariant. It holds the root and the sequence of adopted states, which the Rust program does not store.

## Findings

| source | as written | input that shows it | evidently intended | confidence | as-written member | corrected member |
|---|---|---|---|---|---|---|
| src/main.rs:227-231 | under Hamming, h is computed on the candidate board, so solve (line 301) stops on the goal itself; trace_soln (lines 313-325) starts from that state's parent, so the reported moves end one move short of the goal | init [1, 2, 3, 4, 5, 6, 7, 0, 8], goal [1, 2, 3, 4, 5, 6, 7, 8, 0]: the Right child is the goal with h 0 and the only cost-1 state; solve stops on it and reports the empty solution | measure the parent board, as src/main_no_comments.rs does (lines 79-90), so the reported moves lead from the initial board to the goal | not executed | `Solver.HammingStopFallsShort`, `Solver.HammingOneMoveExample` | `SolverPlain.StopReachesGoal` |
| src/main.rs:75-97 | the third documented example gives the solution ["Right", "Down", "Right"] under both heuristics (lines 86 and 97) | init [0, 1, 3, 4, 2, 5, 7, 8, 6], goal [1, 2, 3, 4, 5, 6, 7, 8, 0]: the three moves end on [1, 2, 3, 4, 5, 0, 7, 8, 6], one Down short of the goal | a reported solution replays from the initial board to the goal, as the Manhattan measure of the code does | not executed | `Solver.DocumentedCase3FallsShort` | `Solver.ManhattanStopReachesGoal` |
