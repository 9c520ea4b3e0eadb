/**
 * The solver of src/main.rs. Its Manhattan branch measures the current (parent) board,
 * its Hamming branch the candidate board.
 */
module Solver {
  import opened Wrappers
  import opened Board
  import opened Heuristics
  import opened SearchState
  import opened Expansion

  /** Which estimate each heuristic name gives in this variant, and on which board. */
  function Rule(h: Heuristic): (m: Measure)
    ensures h == Manhattan <==> m == ParentManhattan
    ensures h == Hamming <==> m == CandidateMismatches
  {
    match h
    case Manhattan => ParentManhattan
    case Hamming => CandidateMismatches
  }

  /**
   * Under Manhattan the search stops on a child of the goal board, so the path trace_soln
   * reports (root to the parent) replays to the goal.
   */
  lemma ManhattanStopReachesGoal(c: State, goal: seq<int>)
    requires Linked(c) && c.parent.Some? && |c.board| == 9
    requires IsPermutation(Root(c).board) && IsPermutation(goal)
    requires Scored(c, goal, Rule(Manhattan)) && c.h == 0
    ensures Replay(Root(c).board, Labels(c.parent)[1..]) == Some(goal)
  {
    var p := c.parent.value;
    LinkedPermutation(c);
    LinkedPermutation(p);
    EstimateZeroIff(Rule(Manhattan), p.board, c.board, goal);
    SolutionFacts(c);
  }

  /**
   * Under Hamming the search stops on the goal board itself, but trace_soln reports the path
   * to its parent, which is not the goal: the reported solution is one move short.
   */
  lemma HammingStopFallsShort(c: State, goal: seq<int>)
    requires Linked(c) && c.parent.Some? && |c.board| == 9
    requires IsPermutation(Root(c).board) && IsPermutation(goal)
    requires Scored(c, goal, Rule(Hamming)) && c.h == 0
    ensures c.board == goal
    ensures Replay(Root(c).board, Labels(c.parent)[1..]) == Some(c.parent.value.board)
    ensures c.parent.value.board != goal
  {
    var p := c.parent.value;
    LinkedPermutation(c);
    LinkedPermutation(p);
    EstimateZeroIff(Rule(Hamming), p.board, c.board, goal);
    StepKeepsPermutation(p.board, ParseLabel(c.kind).value);
    SolutionFacts(c);
  }

  /**
   * The smallest case: the blank one cell left of where a goal with the blank last has it
   * (for instance init [1, 2, 3, 4, 5, 6, 7, 0, 8], goal [1, 2, 3, 4, 5, 6, 7, 8, 0]). Of the
   * root's three children only the Right move has h = 0 and it is the only one of cost 1, so
   * solve adopts it and stops; the path reported is the empty path to the root, not the goal.
   */
  lemma HammingOneMoveExample(goal: seq<int>)
    requires IsPermutation(goal) && goal[8] == 0
    ensures var init := Swap(goal, 7, 8);
            var root := State(init, 0, 0, 999, None, "None");
            var kids := Successors(root, goal, {}, Rule(Hamming));
            && |kids| == 3 && kids[0].cost > 1 && kids[1].cost > 1
            && kids[2].board == goal && kids[2].h == 0 && kids[2].cost == 1 && kids[2].parent == Some(root)
            && Labels(kids[2].parent)[1..] == [] && init != goal
  {
    var init := Swap(goal, 7, 8);
    var root := State(init, 0, 0, 999, None, "None");
    var m := Rule(Hamming);
    SwapElsewhere(goal, 7, 8);
    forall j | 0 <= j < 7
      ensures init[j] != 0
    {
      assert goal[j] != goal[8];
    }
    BlankIndexAt(init, 7);
    var up, left := Swap(init, 7, 4), Swap(init, 7, 6);
    SwapElsewhere(init, 7, 4);
    SwapElsewhere(init, 7, 6);
    SwapElsewhere(init, 7, 8);
    assert Swap(init, 7, 8) == goal;
    assert up[4] != goal[4] by { assert goal[4] != goal[8]; }
    assert left[6] != goal[6] by { assert goal[6] != goal[8]; }
    assert init[7] != goal[7];
    MismatchesZeroIff(goal, up);
    MismatchesZeroIff(goal, left);
    MismatchesZeroIff(goal, goal);
    assert Offer(root, Up, goal, {}, m) == [Child(root, up, Up, goal, m)];
    assert Offer(root, Down, goal, {}, m) == [];
    assert Offer(root, Left, goal, {}, m) == [Child(root, left, Left, goal, m)];
    assert Offer(root, Right, goal, {}, m) == [Child(root, goal, Right, goal, m)];
  }

  /**
   * The moves of the third documented case on any board whose only blank is its first cell:
   * Right, Down, Right carry the blank to cell 5, and one more Down carries it to cell 8.
   */
  lemma RightDownRightFromCorner(b: seq<int>)
    requires |b| == 9 && b[0] == 0 && forall k :: 1 <= k < 9 ==> b[k] != 0
    ensures Replay(b, ["Right", "Down", "Right"]) == Some([b[1], b[4], b[2], b[3], b[5], 0, b[6], b[7], b[8]])
    ensures Replay(b, ["Right", "Down", "Right", "Down"]) == Some([b[1], b[4], b[2], b[3], b[5], b[8], b[6], b[7], 0])
  {
    var b1 := [b[1], 0, b[2], b[3], b[4], b[5], b[6], b[7], b[8]];
    var b2 := [b[1], b[4], b[2], b[3], 0, b[5], b[6], b[7], b[8]];
    var b3 := [b[1], b[4], b[2], b[3], b[5], 0, b[6], b[7], b[8]];
    var b4 := [b[1], b[4], b[2], b[3], b[5], b[8], b[6], b[7], 0];
    ApplyMove(b, Right, 0, 1, b1);
    ApplyMove(b1, Down, 1, 4, b2);
    ApplyMove(b2, Right, 4, 5, b3);
    ApplyMove(b3, Down, 5, 8, b4);
    ReplayFour(b, "Right", "Down", "Right", "Down", b1, b2, b3, b4);
  }

  /**
   * The third documented case: from init [0, 1, 3, 4, 2, 5, 7, 8, 6] the documented solution
   * Right, Down, Right ends on [1, 2, 3, 4, 5, 0, 7, 8, 6], not on the goal
   * [1, 2, 3, 4, 5, 6, 7, 8, 0]; one more Down would reach it.
   */
  lemma DocumentedCase3FallsShort(init: seq<int>, goal: seq<int>)
    requires init == [0, 1, 3, 4, 2, 5, 7, 8, 6] && goal == [1, 2, 3, 4, 5, 6, 7, 8, 0]
    ensures Replay(init, ["Right", "Down", "Right"]) == Some([1, 2, 3, 4, 5, 0, 7, 8, 6])
    ensures Replay(init, ["Right", "Down", "Right"]) != Some(goal)
    ensures Replay(init, ["Right", "Down", "Right", "Down"]) == Some(goal)
  {
    RightDownRightFromCorner(init);
    assert [1, 2, 3, 4, 5, 0, 7, 8, 6][5] != goal[5];
  }

  /** `Problem`: the current state, the goal, the visited boards, the heap and the two counters. */
  class Problem {
    var state: State
    var goal: seq<int>
    var visited: set<seq<int>>
    var frontier: multiset<State>
    var noGenerated: int
    var noExpanded: int
    var heuristic: Heuristic
    /** The root built by the constructor; every state the search holds descends from it. */
    ghost var root: State
    /** The states adopted as current by solve, in order. */
    ghost var adopted: seq<State>

    /**
     * The current state and every heap entry hang off the root by a well-formed chain, and
     * the visited boards are exactly the boards of the adopted states; the root itself is
     * never adopted, so its board is visited only if some adopted state repeats it.
     */
    ghost predicate Valid()
      reads this`goal, this`state, this`root, this`frontier, this`visited, this`adopted
    {
      && |goal| == 9
      && Ready(state.board) && Linked(state) && Root(state) == root
      && AllHang(frontier, root)
      && visited == Boards(adopted)
    }

    /** `Problem::new`: the root has g = 0, cost 0 and the placeholder h = 999; Manhattan is the default. */
    constructor (init: seq<int>, goal: seq<int>)
      requires Ready(init) && |goal| == 9
      ensures Valid()
      ensures state == State(init, 0, 0, 999, None, "None") && this.goal == goal
      ensures visited == {} && frontier == multiset{} && noGenerated == 0 && noExpanded == 0
      ensures heuristic == Manhattan && root == state && adopted == []
    {
      state := State(init, 0, 0, 999, None, "None");
      this.goal := goal;
      visited := {};
      frontier := multiset{};
      noGenerated := 0;
      noExpanded := 0;
      heuristic := Manhattan;
      root := state;
      adopted := [];
    }

    /** `do_the_needful!`: score an unvisited candidate board, append its state and count it. */
    method Consider(next: seq<int>, d: Direction, acc: seq<State>) returns (grown: seq<State>)
      requires Ready(state.board) && |goal| == 9 && Step(state.board, d) == Some(next)
      modifies this`noGenerated
      ensures grown == acc + Offer(state, d, goal, visited, Rule(heuristic))
      ensures noGenerated == old(noGenerated) + |grown| - |acc|
    {
      if next !in visited {
        var cost;
        if heuristic == Manhattan {
          cost := ManhattanCost(state.board, goal);
        } else {
          cost := HammingCost(goal, next);
        }
        var child := State(next, state.g + 1 + cost, state.g + 1, cost, Some(state), Label(d));
        assert child == Child(state, next, d, goal, Rule(heuristic));
        grown := acc + [child];
        noGenerated := noGenerated + 1;
      } else {
        grown := acc;
      }
    }

    /** `Problem::expand`: the children of the current state; one more expansion, one more generated per child. */
    method Expand() returns (children: seq<State>)
      requires Ready(state.board) && |goal| == 9
      modifies this`noExpanded, this`noGenerated
      ensures children == Successors(state, goal, visited, Rule(heuristic))
      ensures noExpanded == old(noExpanded) + 1
      ensures noGenerated == old(noGenerated) + |children|
    {
      var loc := BlankIndex(state.board);
      children := [];
      noExpanded := noExpanded + 1;
      ghost var m := Rule(heuristic);
      ghost var up, down, left, right := Offer(state, Up, goal, visited, m), Offer(state, Down, goal, visited, m),
        Offer(state, Left, goal, visited, m), Offer(state, Right, goal, visited, m);
      assert Successors(state, goal, visited, m) == up + down + left + right;
      children := TryMove(loc, Up, children);
      assert children == up;
      children := TryMove(loc, Down, children);
      assert children == up + down;
      children := TryMove(loc, Left, children);
      assert children == up + down + left;
      children := TryMove(loc, Right, children);
      assert children == up + down + left + right;
    }

    /** One `match loc` block of expand: if the blank may move in direction d, consider the swapped board. */
    method TryMove(loc: int, d: Direction, acc: seq<State>) returns (grown: seq<State>)
      requires Ready(state.board) && |goal| == 9 && loc == BlankIndex(state.board)
      modifies this`noGenerated
      ensures grown == acc + Offer(state, d, goal, visited, Rule(heuristic))
      ensures noGenerated == old(noGenerated) + |grown| - |acc|
    {
      OfferByTarget(state, d, goal, visited, Rule(heuristic));
      var target := Target(loc, d);
      if target.Some? {
        grown := Consider(Swap(state.board, loc, target.value), d, acc);
      } else {
        grown := acc;
      }
    }

    /**
     * The rest of solve's loop body before the h test: pop a cheapest state (None if the heap
     * is empty), mark its board visited and make it current.
     */
    method PopNext() returns (next: Option<State>)
      requires Valid()
      modifies this`frontier, this`visited, this`state, this`adopted
      ensures Valid()
      ensures noGenerated == old(noGenerated) && noExpanded == old(noExpanded)
      ensures next.None? ==>
                && old(frontier) == multiset{} && frontier == multiset{}
                && visited == old(visited) && state == old(state) && adopted == old(adopted)
      ensures next.Some? ==>
                && next.value in old(frontier) && Greatest(next.value, old(frontier))
                && frontier == old(frontier) - multiset{next.value}
                && state == next.value && state.parent.Some? && adopted == old(adopted) + [next.value]
                && visited == old(visited) + {next.value.board}
    {
      var rest;
      next, rest := Pop(frontier);
      if next.Some? {
        AllHangRemove(frontier, next.value, root);
        Adopt(next.value, rest);
      }
    }

    /** The head of solve's loop body: expand the current state and append its children to the heap. */
    method Push() returns (ghost children: seq<State>)
      requires Valid()
      modifies this`noExpanded, this`noGenerated, this`frontier
      ensures Valid()
      ensures children == Generated(state, goal, visited, Rule(heuristic))
      ensures frontier == old(frontier) + multiset(children)
      ensures forall c :: c in children ==> Scored(c, goal, Rule(heuristic)) && c.parent == Some(state)
      ensures noExpanded == old(noExpanded) + 1
      ensures noGenerated == old(noGenerated) + |children|
    {
      var grown := ExpandScored();
      children := grown;
      AllHangUnion(frontier, multiset(grown), root);
      frontier := frontier + multiset(grown);
    }

    /**
     * Expand, with what solve relies on of the children: each is scored by this variant's
     * measure and hangs off the current state, and so off the root.
     */
    method ExpandScored() returns (children: seq<State>)
      requires Ready(state.board) && |goal| == 9 && Linked(state)
      modifies this`noExpanded, this`noGenerated
      ensures children == Generated(state, goal, visited, Rule(heuristic))
      ensures AllHang(multiset(children), Root(state))
      ensures forall c :: c in children ==> Scored(c, goal, Rule(heuristic)) && c.parent == Some(state)
      ensures noExpanded == old(noExpanded) + 1
      ensures noGenerated == old(noGenerated) + |children|
    {
      children := Expand();
      GeneratedIsSuccessors(state, goal, visited, Rule(heuristic));
      SuccessorsScored(state, goal, visited, Rule(heuristic));
      SuccessorsHang(state, goal, visited, Rule(heuristic));
    }

    /** The tail of solve's loop body: the popped state's board is visited and it becomes current. */
    method Adopt(top: State, rest: multiset<State>)
      requires |goal| == 9 && Hangs(top, root) && AllHang(rest, root) && visited == Boards(adopted)
      modifies this`frontier, this`visited, this`state, this`adopted
      ensures Valid()
      ensures frontier == rest && state == top && adopted == old(adopted) + [top]
      ensures visited == old(visited) + {top.board}
    {
      BoardsSnoc(adopted, top);
      frontier := rest;
      visited := visited + {top.board};
      state := top;
      adopted := adopted + [top];
    }

    /**
     * The tail of one pass of solve's loop, after the children were pushed onto heap: pop a
     * cheapest state and adopt it, if any, keeping the account of what was pushed and popped.
     */
    method Advance(ghost heap: multiset<State>, ghost children: seq<State>, ghost base: multiset<State>,
                   ghost start: seq<State>, ghost produced: seq<State>, ghost trail: seq<State>)
      returns (next: Option<State>, ghost produced': seq<State>, ghost trail': seq<State>)
      requires Valid() && adopted == start + trail && frontier == heap + multiset(children)
      requires heap + multiset(trail) == base + multiset(produced)
      modifies this`frontier, this`visited, this`state, this`adopted
      ensures Valid()
      ensures noGenerated == old(noGenerated) && noExpanded == old(noExpanded)
      ensures produced' == produced + children
      ensures next.None? ==>
                && children == [] && frontier == multiset{}
                && trail' == trail && adopted == start + trail && state == old(state) && visited == old(visited)
      ensures next.Some? ==>
                && next.value in heap + multiset(children) && Greatest(next.value, heap + multiset(children))
                && trail' == trail + [next.value] && state == next.value && state.parent.Some?
      ensures adopted == start + trail'
      ensures frontier + multiset(trail') == base + multiset(produced')
    {
      next := PopNext();
      if next.None? {
        EmptyPush(heap, children);
        return next, produced + children, trail;
      }
      HeapAccount(heap, children, next.value, trail, base, produced);
      SnocAssoc(start, trail, next.value);
      produced', trail' := produced + children, trail + [next.value];
    }

    /** One pass of solve's loop: expand and push the children, then pop a cheapest state and adopt it, if any. */
    method Pass(ghost base: multiset<State>, ghost start: seq<State>, ghost produced: seq<State>, ghost trail: seq<State>)
      returns (next: Option<State>, ghost produced': seq<State>, ghost trail': seq<State>)
      requires Valid() && adopted == start + trail
      requires frontier + multiset(trail) == base + multiset(produced)
      modifies this`noExpanded, this`noGenerated, this`frontier, this`visited, this`state, this`adopted
      ensures Valid()
      ensures produced' == produced + Generated(old(state), goal, old(visited), Rule(heuristic))
      ensures noGenerated == old(noGenerated) + |produced'| - |produced|
      ensures noExpanded == old(noExpanded) + 1
      ensures next.None? ==>
                && Generated(old(state), goal, old(visited), Rule(heuristic)) == [] && frontier == multiset{}
                && trail' == trail && adopted == start + trail && state == old(state) && visited == old(visited)
      ensures next.Some? ==>
                && var pool := old(frontier) + multiset(Generated(old(state), goal, old(visited), Rule(heuristic)));
                && next.value in pool && Greatest(next.value, pool)
                && trail' == trail + [next.value] && state == next.value && state.parent.Some?
      ensures adopted == start + trail'
      ensures frontier + multiset(trail') == base + multiset(produced')
    {
      ghost var heap := frontier;
      ghost var children := Push();
      next, produced', trail' := Advance(heap, children, base, start, produced, trail);
    }

    /**
     * `Problem::solve`: record the heuristic by name, then search. What the reported path
     * reaches is stated by ManhattanStopReachesGoal and HammingStopFallsShort about the
     * final state.
     */
    method Solve(name: string, fuel: nat) returns (outcome: Outcome, ghost produced: seq<State>, ghost trail: seq<State>)
      requires Valid()
      modifies this`heuristic, this`noExpanded, this`noGenerated, this`frontier, this`visited, this`state, this`adopted
      ensures heuristic == Select(name)
      ensures Valid()
      ensures adopted == old(adopted) + trail
      ensures noGenerated == old(noGenerated) + |produced|
      ensures noExpanded == old(noExpanded) + |trail| + (if outcome.DeadEnd? then 1 else 0)
      ensures frontier + multiset(trail) == old(frontier) + multiset(produced)
      ensures forall i :: 0 <= i < |trail| && !(outcome.Solved? && i == |trail| - 1) ==> trail[i].h != 0
      ensures state == Expanded(old(state), trail, |trail|)
      ensures produced == Pushed(old(state), old(adopted), trail, goal, Rule(heuristic))
      ensures CheapestPops(old(frontier), old(state), old(adopted), trail, goal, Rule(heuristic))
      ensures |trail| <= fuel
      ensures outcome.OutOfFuel? ==> |trail| == fuel
      ensures outcome.DeadEnd? ==>
                && frontier == multiset{} && |trail| < fuel
                && Generated(state, goal, visited, Rule(heuristic)) == []
      ensures outcome.Solved? ==>
                && |trail| > 0 && state == trail[|trail| - 1]
                && state.h == 0 && state.parent.Some?
                && outcome.moves == Labels(state.parent)[1..]
                && outcome.expanded == noExpanded && outcome.generated == noGenerated
      ensures outcome.Solved? && old(frontier) == multiset{} ==> Scored(state, goal, Rule(heuristic))
    {
      heuristic := Select(name);
      outcome, produced, trail := Search(fuel);
    }

    /**
     * One pass of solve's loop, told against the whole run so far: the trail of states made
     * current since cur, the children pushed since then, and the heap base the run started from.
     * The facts the loop keeps about them hold again after the pass.
     */
    method Round(ghost base: multiset<State>, ghost cur: State, ghost start: seq<State>,
                 ghost produced: seq<State>, ghost trail: seq<State>)
      returns (next: Option<State>, ghost produced': seq<State>, ghost trail': seq<State>)
      requires Valid() && adopted == start + trail
      requires frontier + multiset(trail) == base + multiset(produced)
      requires state == Expanded(cur, trail, |trail|)
      requires produced == Pushed(cur, start, trail, goal, Rule(heuristic))
      requires CheapestPops(base, cur, start, trail, goal, Rule(heuristic))
      modifies this`noExpanded, this`noGenerated, this`frontier, this`visited, this`state, this`adopted
      ensures Valid()
      ensures noGenerated == old(noGenerated) + |produced'| - |produced|
      ensures noExpanded == old(noExpanded) + 1
      ensures adopted == start + trail'
      ensures frontier + multiset(trail') == base + multiset(produced')
      ensures next.None? ==>
                && frontier == multiset{} && trail' == trail && state == old(state) && visited == old(visited)
                && Generated(state, goal, visited, Rule(heuristic)) == []
      ensures next.Some? ==> trail' == trail + [next.value] && state == next.value && state.parent.Some?
      ensures state == Expanded(cur, trail', |trail'|)
      ensures produced' == Pushed(cur, start, trail', goal, Rule(heuristic))
      ensures CheapestPops(base, cur, start, trail', goal, Rule(heuristic))
    {
      ghost var heap, before, seen := frontier, state, visited;
      next, produced', trail' := Pass(base, start, produced, trail);
      if next.Some? {
        ghost var children := Generated(before, goal, seen, Rule(heuristic));
        PushedSnoc(cur, start, trail, next.value, goal, Rule(heuristic));
        CheapestPopsSnoc(base, cur, start, trail, produced, heap, children, next.value, goal, Rule(heuristic));
      }
    }

    /**
     * The loop of `Problem::solve`, run at most fuel times: expand, push the children, pop a
     * cheapest state, mark its board visited and make it current, stop when its h is 0 and
     * report trace_soln of it. An empty heap is the dead end. produced lists every child
     * pushed, trail every state made current, in order.
     */
    method Search(fuel: nat) returns (outcome: Outcome, ghost produced: seq<State>, ghost trail: seq<State>)
      requires Valid()
      modifies this`noExpanded, this`noGenerated, this`frontier, this`visited, this`state, this`adopted
      ensures Valid()
      ensures adopted == old(adopted) + trail
      ensures noGenerated == old(noGenerated) + |produced|
      ensures noExpanded == old(noExpanded) + |trail| + (if outcome.DeadEnd? then 1 else 0)
      ensures frontier + multiset(trail) == old(frontier) + multiset(produced)
      ensures forall i :: 0 <= i < |trail| && !(outcome.Solved? && i == |trail| - 1) ==> trail[i].h != 0
      ensures state == Expanded(old(state), trail, |trail|)
      ensures produced == Pushed(old(state), old(adopted), trail, goal, Rule(heuristic))
      ensures CheapestPops(old(frontier), old(state), old(adopted), trail, goal, Rule(heuristic))
      ensures |trail| <= fuel
      ensures outcome.OutOfFuel? ==> |trail| == fuel
      ensures outcome.DeadEnd? ==>
                && frontier == multiset{} && |trail| < fuel
                && Generated(state, goal, visited, Rule(heuristic)) == []
      ensures outcome.Solved? ==>
                && |trail| > 0 && state == trail[|trail| - 1]
                && state.h == 0 && state.parent.Some?
                && outcome.moves == Labels(state.parent)[1..]
                && outcome.expanded == noExpanded && outcome.generated == noGenerated
      ensures outcome.Solved? && old(frontier) == multiset{} ==> Scored(state, goal, Rule(heuristic))
    {
      produced, trail := [], [];
      var steps := 0;
      while steps < fuel
        invariant Valid()
        invariant steps == |trail| <= fuel && adopted == old(adopted) + trail
        invariant noExpanded == old(noExpanded) + |trail|
        invariant noGenerated == old(noGenerated) + |produced|
        invariant frontier + multiset(trail) == old(frontier) + multiset(produced)
        invariant forall i :: 0 <= i < |trail| ==> trail[i].h != 0
        invariant state == Expanded(old(state), trail, |trail|)
        invariant produced == Pushed(old(state), old(adopted), trail, goal, Rule(heuristic))
        invariant CheapestPops(old(frontier), old(state), old(adopted), trail, goal, Rule(heuristic))
      {
        var next;
        next, produced, trail := Round(old(frontier), old(state), old(adopted), produced, trail);
        if next.None? {
          return DeadEnd, produced, trail;
        }
        steps := steps + 1;
        if state.h == 0 {
          if old(frontier) == multiset{} {
            PoppedScored(old(state), old(adopted), trail, goal, Rule(heuristic), |trail| - 1);
          }
          var moves := TraceSolution(state);
          return Solved(moves, noExpanded, noGenerated), produced, trail;
        }
      }
      return OutOfFuel, produced, trail;
    }
  }
}
