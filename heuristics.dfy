/**
 * The two heuristic estimates and the accumulator loops that compute them.
 * Both sum over every goal value, the blank 0 included.
 */
module Heuristics {
  import opened Board

  /** The heuristic selector. */
  datatype Heuristic = Manhattan | Hamming

  /** `self.heuristic == "Manhattan"`: every other name selects Hamming. */
  function Select(name: string): (h: Heuristic)
    ensures h == Manhattan <==> name == "Manhattan"
    ensures h == Hamming <==> name != "Manhattan"
  {
    if name == "Manhattan" then Manhattan else Hamming
  }

  /** `isize::abs`. */
  function Abs(x: int): (r: nat)
    ensures r == x || r == -x
    ensures r >= x && r >= -x
  {
    if x < 0 then -x else x
  }

  /** One goal value's Manhattan term: how far v sits on b from where it sits on goal. */
  function Distance(b: seq<int>, goal: seq<int>, v: int): (r: nat)
    ensures r == 0 <==> Position(b, v) == Position(goal, v)
  {
    var (goalX, goalY) := Position(goal, v);
    var (newX, newY) := Position(b, v);
    Abs(goalX - newX) + Abs(goalY - newY)
  }

  /** The Manhattan terms of the values vals, in order. */
  function ManhattanOver(b: seq<int>, goal: seq<int>, vals: seq<int>): (r: int)
    ensures r >= 0
  {
    if vals == [] then 0
    else ManhattanOver(b, goal, vals[..|vals| - 1]) + Distance(b, goal, vals[|vals| - 1])
  }

  /** The Manhattan estimate of board b: the Manhattan term of every value of the goal. */
  function ManhattanDistance(b: seq<int>, goal: seq<int>): (r: int)
    ensures r >= 0
    ensures r == 0 <==> forall i :: 0 <= i < |goal| ==> Position(b, goal[i]) == Position(goal, goal[i])
  {
    ManhattanOverZero(b, goal, goal);
    ManhattanOver(b, goal, goal)
  }

  /** One goal value's Hamming term in src/main_no_comments.rs: 1 unless v sits where the goal has it. */
  function Misplaced(b: seq<int>, goal: seq<int>, v: int): (r: nat)
    ensures r <= 1
    ensures r == 0 <==> Position(b, v) == Position(goal, v)
  {
    if Position(goal, v) == Position(b, v) then 0 else 1
  }

  function MisplacedOver(b: seq<int>, goal: seq<int>, vals: seq<int>): (r: int)
    ensures 0 <= r <= |vals|
  {
    if vals == [] then 0
    else MisplacedOver(b, goal, vals[..|vals| - 1]) + Misplaced(b, goal, vals[|vals| - 1])
  }

  /** The number of goal values whose position on b differs from their position on the goal. */
  function MisplacedValues(b: seq<int>, goal: seq<int>): (r: int)
    ensures 0 <= r <= |goal|
    ensures r == 0 <==> forall i :: 0 <= i < |goal| ==> Position(b, goal[i]) == Position(goal, goal[i])
  {
    MisplacedOverZero(b, goal, goal);
    MisplacedOver(b, goal, goal)
  }

  /** The Hamming estimate of src/main.rs: the cells at which the two zipped boards differ. */
  function Mismatches(xs: seq<int>, ys: seq<int>): (r: int)
    requires |xs| == |ys|
    ensures 0 <= r <= |xs|
  {
    if xs == [] then 0
    else
      var n := |xs| - 1;
      Mismatches(xs[..n], ys[..n]) + (if xs[n] == ys[n] then 0 else 1)
  }

  /** The zipped boards have no differing cell exactly when they are equal. */
  lemma {:induction false} MismatchesZeroIff(xs: seq<int>, ys: seq<int>)
    requires |xs| == |ys|
    ensures Mismatches(xs, ys) == 0 <==> xs == ys
  {
    if xs != [] {
      var n := |xs| - 1;
      MismatchesZeroIff(xs[..n], ys[..n]);
      assert xs == xs[..n] + [xs[n]] && ys == ys[..n] + [ys[n]];
    }
  }

  /** Mismatches counts exactly the indices at which xs and ys differ. */
  lemma {:induction false} MismatchesCountsIndices(xs: seq<int>, ys: seq<int>)
    requires |xs| == |ys|
    ensures Mismatches(xs, ys) == |set k | 0 <= k < |xs| && xs[k] != ys[k]|
  {
    if xs != [] {
      var n := |xs| - 1;
      MismatchesCountsIndices(xs[..n], ys[..n]);
      var before := set k | 0 <= k < n && xs[..n][k] != ys[..n][k];
      var all := set k | 0 <= k < |xs| && xs[k] != ys[k];
      if xs[n] == ys[n] {
        assert all == before;
      } else {
        assert all == before + {n};
        assert n !in before;
      }
    }
  }

  /** On a permutation every value has a single cell, so find reports that cell. */
  lemma PositionInPermutation(b: seq<int>, k: int)
    requires IsPermutation(b) && 0 <= k < 9
    ensures Position(b, b[k]) == (k / 3, k % 3)
  {
    forall j | 0 <= j < 9 && j != k
      ensures b[j] != b[k]
    {
      if j < k { assert b[j] != b[k]; } else if k < j { assert b[k] != b[j]; }
    }
    PositionOfSingle(b, b[k], k);
  }

  /** On two permutations, the goal value of cell k is found at the same place on both iff b has it at k. */
  lemma PositionAgrees(b: seq<int>, goal: seq<int>, k: int)
    requires IsPermutation(b) && IsPermutation(goal) && 0 <= k < 9
    ensures Position(b, goal[k]) == Position(goal, goal[k]) <==> b[k] == goal[k]
  {
    var v := goal[k];
    PositionInPermutation(goal, k);
    assert v in b;
    var j :| 0 <= j < 9 && b[j] == v;
    PositionInPermutation(b, j);
    assert j == 3 * (j / 3) + j % 3 && k == 3 * (k / 3) + k % 3;
    assert b[k] == v ==> j == k by {
      if j < k { assert b[j] != b[k]; } else if k < j { assert b[k] != b[j]; }
    }
  }

  /** A sum of Manhattan terms is zero exactly when every term is. */
  lemma {:induction false} ManhattanOverZero(b: seq<int>, goal: seq<int>, vals: seq<int>)
    ensures ManhattanOver(b, goal, vals) == 0 <==>
              forall i :: 0 <= i < |vals| ==> Distance(b, goal, vals[i]) == 0
  {
    if vals != [] {
      var n := |vals| - 1;
      var init := vals[..n];
      ManhattanOverZero(b, goal, init);
      assert ManhattanOver(b, goal, vals) == ManhattanOver(b, goal, init) + Distance(b, goal, vals[n]);
      assert forall i :: 0 <= i < n ==> init[i] == vals[i];
      if ManhattanOver(b, goal, vals) == 0 {
        forall i | 0 <= i < |vals|
          ensures Distance(b, goal, vals[i]) == 0
        {
          if i < n { assert Distance(b, goal, init[i]) == 0; }
        }
      }
    }
  }

  /** A sum of misplaced terms is zero exactly when every term is. */
  lemma {:induction false} MisplacedOverZero(b: seq<int>, goal: seq<int>, vals: seq<int>)
    ensures MisplacedOver(b, goal, vals) == 0 <==>
              forall i :: 0 <= i < |vals| ==> Position(b, vals[i]) == Position(goal, vals[i])
  {
    if vals != [] {
      var n := |vals| - 1;
      MisplacedOverZero(b, goal, vals[..n]);
      assert forall i :: 0 <= i < n ==> vals[..n][i] == vals[i];
    }
  }

  /** Manhattan is zero exactly on the goal board (for permutations). */
  lemma ManhattanZeroIff(b: seq<int>, goal: seq<int>)
    requires IsPermutation(b) && IsPermutation(goal)
    ensures ManhattanDistance(b, goal) == 0 <==> b == goal
  {
    ManhattanOverZero(b, goal, goal);
    if ManhattanDistance(b, goal) == 0 {
      forall k | 0 <= k < 9
        ensures b[k] == goal[k]
      {
        assert Distance(b, goal, goal[k]) == 0;
        PositionAgrees(b, goal, k);
      }
    }
  }

  /**
   * On permutations the value-based Hamming count of src/main_no_comments.rs equals the
   * cell-based count of src/main.rs, measured on the same board.
   */
  lemma MisplacedIsMismatches(b: seq<int>, goal: seq<int>)
    requires IsPermutation(b) && IsPermutation(goal)
    ensures MisplacedValues(b, goal) == Mismatches(goal, b)
  {
    MisplacedPrefix(b, goal, 9);
    assert goal[..9] == goal && b[..9] == b;
  }

  lemma {:induction false} MisplacedPrefix(b: seq<int>, goal: seq<int>, n: int)
    requires IsPermutation(b) && IsPermutation(goal) && 0 <= n <= 9
    ensures MisplacedOver(b, goal, goal[..n]) == Mismatches(goal[..n], b[..n])
  {
    if n > 0 {
      MisplacedPrefix(b, goal, n - 1);
      MisplacedStep(b, goal, n);
      MismatchesStep(goal, b, n);
      PositionAgrees(b, goal, n - 1);
    }
  }

  /** The Manhattan sum over the first n goal values is the sum over n - 1 plus value n - 1's term. */
  lemma ManhattanStep(b: seq<int>, goal: seq<int>, n: int)
    requires 0 < n <= |goal|
    ensures ManhattanOver(b, goal, goal[..n]) == ManhattanOver(b, goal, goal[..n - 1]) + Distance(b, goal, goal[n - 1])
  {
    assert goal[..n][..n - 1] == goal[..n - 1];
  }

  /** The misplaced count over the first n goal values is the count over n - 1 plus value n - 1's term. */
  lemma MisplacedStep(b: seq<int>, goal: seq<int>, n: int)
    requires 0 < n <= |goal|
    ensures MisplacedOver(b, goal, goal[..n]) == MisplacedOver(b, goal, goal[..n - 1]) + Misplaced(b, goal, goal[n - 1])
  {
    assert goal[..n][..n - 1] == goal[..n - 1];
  }

  /** The mismatch count over the first n cells is the count over n - 1 plus cell n - 1's term. */
  lemma MismatchesStep(xs: seq<int>, ys: seq<int>, n: int)
    requires 0 < n <= |xs| == |ys|
    ensures Mismatches(xs[..n], ys[..n]) == Mismatches(xs[..n - 1], ys[..n - 1]) + (if xs[n - 1] == ys[n - 1] then 0 else 1)
  {
    assert xs[..n][..n - 1] == xs[..n - 1] && ys[..n][..n - 1] == ys[..n - 1];
  }

  /** The Hamming count of src/main_no_comments.rs is zero exactly on the goal board (for permutations). */
  lemma MisplacedZeroIff(b: seq<int>, goal: seq<int>)
    requires IsPermutation(b) && IsPermutation(goal)
    ensures MisplacedValues(b, goal) == 0 <==> b == goal
  {
    MisplacedIsMismatches(b, goal);
    MismatchesZeroIff(goal, b);
  }

  /** With v found at (goalX, goalY) on the goal and at (newX, newY) on b, the two terms of v. */
  lemma TermsAt(b: seq<int>, goal: seq<int>, v: int, goalX: int, goalY: int, newX: int, newY: int)
    requires (goalX, goalY) == Position(goal, v) && (newX, newY) == Position(b, v)
    ensures Distance(b, goal, v) == Abs(goalX - newX) + Abs(goalY - newY)
    ensures Misplaced(b, goal, v) == if goalX == newX && goalY == newY then 0 else 1
  {
  }

  /** The Manhattan loop of src/main.rs: find each goal value on both boards and add |dx| and |dy|. */
  method ManhattanCost(board: seq<int>, goal: seq<int>) returns (cost: int)
    requires |board| == 9 && |goal| == 9
    ensures cost == ManhattanDistance(board, goal)
  {
    cost := 0;
    for k := 0 to |goal|
      invariant cost == ManhattanOver(board, goal, goal[..k])
    {
      var g := goal[k];
      var goalX, goalY := Find(goal, g);
      var newX, newY := Find(board, g);
      TermsAt(board, goal, g, goalX, goalY, newX, newY);
      cost := cost + Abs(goalX - newX);
      cost := cost + Abs(goalY - newY);
      ManhattanStep(board, goal, k + 1);
    }
    assert goal[..|goal|] == goal;
  }

  /** The Hamming loop of src/main.rs: zip the goal with the candidate and count the differing cells. */
  method HammingCost(goal: seq<int>, candidate: seq<int>) returns (cost: int)
    requires |goal| == |candidate|
    ensures cost == Mismatches(goal, candidate)
  {
    cost := 0;
    for k := 0 to |goal|
      invariant cost == Mismatches(goal[..k], candidate[..k])
    {
      cost := cost + if goal[k] == candidate[k] then 0 else 1;
      assert goal[..k + 1][..k] == goal[..k] && candidate[..k + 1][..k] == candidate[..k];
    }
    assert goal[..|goal|] == goal && candidate[..|goal|] == candidate;
  }

  /**
   * The single loop of src/main_no_comments.rs: per goal value, add its Manhattan term or its
   * misplaced term, both measured on board.
   */
  method PlainCost(heuristic: Heuristic, board: seq<int>, goal: seq<int>) returns (cost: int)
    requires |board| == 9 && |goal| == 9
    ensures heuristic == Manhattan ==> cost == ManhattanDistance(board, goal)
    ensures heuristic == Hamming ==> cost == MisplacedValues(board, goal)
  {
    cost := 0;
    for k := 0 to |goal|
      invariant heuristic == Manhattan ==> cost == ManhattanOver(board, goal, goal[..k])
      invariant heuristic == Hamming ==> cost == MisplacedOver(board, goal, goal[..k])
    {
      var g := goal[k];
      var goalX, goalY := Find(goal, g);
      var newX, newY := Find(board, g);
      TermsAt(board, goal, g, goalX, goalY, newX, newY);
      cost := cost + if heuristic == Manhattan then
                       Abs(goalX - newX) + Abs(goalY - newY)
                     else
                       if goalX == newX && goalY == newY then 0 else 1;
      ManhattanStep(board, goal, k + 1);
      MisplacedStep(board, goal, k + 1);
    }
    assert goal[..|goal|] == goal;
  }

  /**
   * How a child's h is computed: which estimate, and on which board. The parent-board
   * measures ignore the candidate.
   */
  datatype Measure = ParentManhattan | ParentMisplaced | CandidateMismatches

  /** The board a measure looks at. */
  function Measured(m: Measure, parent: seq<int>, candidate: seq<int>): seq<int>
  {
    if m == CandidateMismatches then candidate else parent
  }

  function Estimate(m: Measure, parent: seq<int>, candidate: seq<int>, goal: seq<int>): (h: int)
    requires |candidate| == |goal|
    ensures h >= 0
  {
    match m
    case ParentManhattan => ManhattanDistance(parent, goal)
    case ParentMisplaced => MisplacedValues(parent, goal)
    case CandidateMismatches => Mismatches(goal, candidate)
  }

  /** Every estimate is zero exactly when the board it measures is the goal (for permutations). */
  lemma EstimateZeroIff(m: Measure, parent: seq<int>, candidate: seq<int>, goal: seq<int>)
    requires IsPermutation(parent) && IsPermutation(candidate) && IsPermutation(goal)
    ensures Estimate(m, parent, candidate, goal) == 0 <==> Measured(m, parent, candidate) == goal
  {
    match m
    case ParentManhattan => ManhattanZeroIff(parent, goal);
    case ParentMisplaced => MisplacedZeroIff(parent, goal);
    case CandidateMismatches => MismatchesZeroIff(goal, candidate);
  }
}
