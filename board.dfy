/**
 * Boards of the 3x3 sliding puzzle: nine integers in row-major order, 0 the blank.
 * Cell k sits at row k / 3 and column k % 3.
 */
module Board {
  import opened Wrappers

  /** A board the solver can work on: nine cells (the 3x3 slicing needs them) and a blank. */
  predicate Ready(b: seq<int>)
  {
    |b| == 9 && 0 in b
  }

  /** A permutation of 0..8: each value in range, no value twice, every value present. */
  predicate IsPermutation(b: seq<int>)
  {
    && |b| == 9
    && (forall i :: 0 <= i < 9 ==> 0 <= b[i] < 9)
    && (forall i, j :: 0 <= i < j < 9 ==> b[i] != b[j])
    && (forall v :: 0 <= v < 9 ==> v in b)
  }

  /** Rust's `Vec::swap`. */
  function Swap(b: seq<int>, i: int, j: int): (r: seq<int>)
    requires 0 <= i < |b| && 0 <= j < |b|
    ensures |r| == |b| && r[i] == b[j] && r[j] == b[i]
  {
    b[i := b[j]][j := b[i]]
  }

  /** A board that agrees with b except that cells i and j are exchanged is Swap(b, i, j). */
  lemma SwapIs(b: seq<int>, i: int, j: int, r: seq<int>)
    requires 0 <= i < |b| && 0 <= j < |b| && |r| == |b|
    requires r[i] == b[j] && r[j] == b[i]
    requires forall k :: 0 <= k < |b| && k != i && k != j ==> r[k] == b[k]
    ensures Swap(b, i, j) == r
  {
    SwapElsewhere(b, i, j);
    assert forall k :: 0 <= k < |b| ==> Swap(b, i, j)[k] == r[k];
  }

  /** Swap leaves every other cell as it was. */
  lemma SwapElsewhere(b: seq<int>, i: int, j: int)
    requires 0 <= i < |b| && 0 <= j < |b|
    ensures forall k :: 0 <= k < |b| && k != i && k != j ==> Swap(b, i, j)[k] == b[k]
  {
  }

  lemma SwapKeepsPermutation(b: seq<int>, i: int, j: int)
    requires IsPermutation(b) && 0 <= i < 9 && 0 <= j < 9
    ensures IsPermutation(Swap(b, i, j))
  {
    var r := Swap(b, i, j);
    SwapElsewhere(b, i, j);
    forall v | 0 <= v < 9
      ensures v in r
    {
      assert v in b;
      var k :| 0 <= k < 9 && b[k] == v;
      var k' := if k == i then j else if k == j then i else k;
      assert r[k'] == v;
    }
    forall p, q | 0 <= p < q < 9
      ensures r[p] != r[q]
    {
      var p' := if p == i then j else if p == j then i else p;
      var q' := if q == i then j else if q == j then i else q;
      assert r[p] == b[p'] && r[q] == b[q'];
      assert p' != q';
      if p' < q' {
        assert b[p'] != b[q'];
      } else {
        assert b[q'] != b[p'];
      }
    }
  }

  /** The first index holding the blank: Rust's `position(|&x| x == 0)`. */
  function BlankIndex(b: seq<int>): (k: int)
    requires 0 in b
    ensures 0 <= k < |b| && b[k] == 0
  {
    if b[0] == 0 then 0 else 1 + BlankIndex(b[1..])
  }

  /** The blank index is the first blank cell. */
  lemma {:induction false} BlankIndexAt(b: seq<int>, k: int)
    requires 0 <= k < |b| && b[k] == 0
    requires forall j :: 0 <= j < k ==> b[j] != 0
    ensures BlankIndex(b) == k
  {
    if k > 0 {
      BlankIndexAt(b[1..], k - 1);
    }
  }

  /** No cell before the blank index is blank. */
  lemma {:induction false} BlankIndexIsFirst(b: seq<int>)
    requires 0 in b
    ensures forall j :: 0 <= j < BlankIndex(b) ==> b[j] != 0
  {
    if b[0] != 0 {
      BlankIndexIsFirst(b[1..]);
      assert forall j :: 1 <= j < |b| ==> b[1..][j - 1] == b[j];
    }
  }

  /** The last index at which r occurs in s, or -1 when it does not occur. */
  function LastIndexOf(s: seq<int>, r: int): (k: int)
    ensures -1 <= k < |s|
    ensures k >= 0 ==> s[k] == r
  {
    if s == [] then -1
    else if s[|s| - 1] == r then |s| - 1
    else LastIndexOf(s[..|s| - 1], r)
  }

  /** No cell after the last index of r holds r. */
  lemma {:induction false} LastIndexOfIsLast(s: seq<int>, r: int)
    ensures forall j :: LastIndexOf(s, r) < j < |s| ==> s[j] != r
  {
    if s != [] && s[|s| - 1] != r {
      var n := |s| - 1;
      LastIndexOfIsLast(s[..n], r);
      assert forall j :: 0 <= j < n ==> s[..n][j] == s[j];
    }
  }

  /** r occurs in s exactly when it has a last index. */
  lemma LastIndexOfMember(s: seq<int>, r: int)
    ensures LastIndexOf(s, r) >= 0 <==> r in s
  {
    if r in s {
      var j :| 0 <= j < |s| && s[j] == r;
      LastIndexOfIsLast(s, r);
      assert LastIndexOf(s, r) >= j;
    }
  }

  /** The last index of r in a + row is in row if r occurs there, and in a otherwise. */
  lemma {:induction false} LastIndexOfConcat(a: seq<int>, row: seq<int>, r: int)
    ensures LastIndexOf(a + row, r) ==
              if LastIndexOf(row, r) >= 0 then |a| + LastIndexOf(row, r) else LastIndexOf(a, r)
  {
    if row == [] {
      assert a + row == a;
    } else {
      var n := |row| - 1;
      assert (a + row)[..|a + row| - 1] == a + row[..n];
      LastIndexOfConcat(a, row[..n], r);
    }
  }

  /**
   * What `find` returns for value r on the row view of b: the row and the
   * column of the last occurrence of r, and (0, 0) when r does not occur.
   */
  function Position(b: seq<int>, r: int): (p: (int, int))
    ensures r !in b ==> p == (0, 0)
  {
    var k := LastIndexOf(b, r);
    if k < 0 then (0, 0) else (k / 3, k % 3)
  }

  /** A value that occurs once, at k, is found at row k / 3 and column k % 3. */
  lemma PositionOfSingle(b: seq<int>, r: int, k: int)
    requires 0 <= k < |b| && b[k] == r
    requires forall j :: 0 <= j < |b| && j != k ==> b[j] != r
    ensures Position(b, r) == (k / 3, k % 3)
  {
    var last := LastIndexOf(b, r);
    LastIndexOfIsLast(b, r);
    assert last >= k;
  }

  /** Extending a prefix by one cell moves the last index of r there exactly when that cell holds r. */
  lemma LastIndexOfExtend(s: seq<int>, n: int, r: int)
    requires 0 <= n < |s|
    ensures LastIndexOf(s[..n + 1], r) == if s[n] == r then n else LastIndexOf(s[..n], r)
  {
    assert s[..n + 1][..n] == s[..n];
  }

  /**
   * `find` on the three row slices of b: x ends as the last row containing r,
   * y as the column of the last cell equal to r.
   */
  method Find(b: seq<int>, r: int) returns (x: int, y: int)
    requires |b| == 9
    ensures (x, y) == Position(b, r)
  {
    x, y := 0, 0;
    for i := 0 to 3
      invariant LastIndexOf(b[..3 * i], r) < 0 ==> x == 0 && y == 0
      invariant LastIndexOf(b[..3 * i], r) >= 0 ==>
                  x == LastIndexOf(b[..3 * i], r) / 3 && y == LastIndexOf(b[..3 * i], r) % 3
    {
      var row := b[3 * i..3 * i + 3];
      LastIndexOfMember(row, r);
      if r in row {
        x := i;
      }
      y := ScanRow(row, r, y);
      RowStep(b, r, i);
    }
    assert b[..9] == b;
  }

  /** The last index of r in the first i + 1 rows, in terms of the first i rows and row i. */
  lemma RowStep(b: seq<int>, r: int, i: int)
    requires |b| == 9 && 0 <= i < 3
    ensures var q := LastIndexOf(b[3 * i..3 * i + 3], r);
            LastIndexOf(b[..3 * i + 3], r) == if q >= 0 then 3 * i + q else LastIndexOf(b[..3 * i], r)
    ensures var q := LastIndexOf(b[3 * i..3 * i + 3], r);
            q >= 0 ==> (3 * i + q) / 3 == i && (3 * i + q) % 3 == q
  {
    var row := b[3 * i..3 * i + 3];
    assert b[..3 * i + 3] == b[..3 * i] + row;
    LastIndexOfConcat(b[..3 * i], row, r);
    if LastIndexOf(row, r) >= 0 {
      RowColumn(i, LastIndexOf(row, r));
    }
  }

  /** Cell 3 * i + j of the flat board is row i, column j. */
  lemma RowColumn(i: int, j: int)
    requires 0 <= i && 0 <= j < 3
    ensures (3 * i + j) / 3 == i && (3 * i + j) % 3 == j
  {
  }

  /** The inner loop of `find` over one row: y becomes the column of the last cell equal to r, if any. */
  method ScanRow(row: seq<int>, r: int, y0: int) returns (y: int)
    ensures y == if LastIndexOf(row, r) >= 0 then LastIndexOf(row, r) else y0
  {
    y := y0;
    for j := 0 to |row|
      invariant y == if LastIndexOf(row[..j], r) >= 0 then LastIndexOf(row[..j], r) else y0
    {
      LastIndexOfExtend(row, j, r);
      if row[j] == r {
        y := j;
      }
    }
    assert row[..|row|] == row;
  }

  datatype Direction = Up | Down | Left | Right

  /** The label a child state carries for the move that produced it. */
  function Label(d: Direction): (l: string)
    ensures ParseLabel(l) == Some(d)
  {
    match d
    case Up => "Up"
    case Down => "Down"
    case Left => "Left"
    case Right => "Right"
  }

  /** The direction a label names; the root's "None" names none. */
  function ParseLabel(l: string): Option<Direction>
  {
    if l == "Up" then Some(Up)
    else if l == "Down" then Some(Down)
    else if l == "Left" then Some(Left)
    else if l == "Right" then Some(Right)
    else None
  }

  /** The rank of a move label in the order expand tries directions. */
  function LabelRank(l: string): int
  {
    if l == "Up" then 0 else if l == "Down" then 1 else if l == "Left" then 2 else if l == "Right" then 3 else 4
  }

  /** A move of the blank from cell loc is legal unless it would leave the grid. */
  predicate Legal(loc: int, d: Direction)
  {
    match d
    case Up => loc / 3 != 0
    case Down => loc / 3 != 2
    case Left => loc % 3 != 0
    case Right => loc % 3 != 2
  }

  function Offset(d: Direction): int
  {
    match d
    case Up => -3
    case Down => 3
    case Left => -1
    case Right => 1
  }

  /** The four `match loc` blocks of expand: the cell the blank swaps with, if the move is allowed. */
  function Target(loc: int, d: Direction): (t: Option<int>)
    requires 0 <= loc < 9
    ensures t.Some? <==> Legal(loc, d)
    ensures t.Some? ==> t.value == loc + Offset(d) && 0 <= t.value < 9
  {
    match d
    case Up => if 0 <= loc <= 2 then None else Some(loc - 3)
    case Down => if 6 <= loc <= 8 then None else Some(loc + 3)
    case Left => if loc == 0 || loc == 3 || loc == 6 then None else Some(loc - 1)
    case Right => if loc == 2 || loc == 5 || loc == 8 then None else Some(loc + 1)
  }

  /**
   * The board after moving the blank of b in direction d, or None if the move is illegal:
   * the blank and its neighbour change places and nothing else changes.
   */
  function Step(b: seq<int>, d: Direction): (r: Option<seq<int>>)
    requires Ready(b)
    ensures r.Some? <==> Legal(BlankIndex(b), d)
    ensures r.Some? ==> Ready(r.value)
  {
    var loc := BlankIndex(b);
    match Target(loc, d)
    case None => None
    case Some(t) =>
      assert Swap(b, loc, t)[t] == 0;
      Some(Swap(b, loc, t))
  }

  /** A legal move swaps the blank with the neighbour in direction d and changes no other cell. */
  lemma StepMoves(b: seq<int>, d: Direction)
    requires Ready(b) && Step(b, d).Some?
    ensures var r, loc, t := Step(b, d).value, BlankIndex(b), BlankIndex(b) + Offset(d);
            && 0 <= t < 9 && r[t] == 0 && r[loc] == b[t]
            && forall k :: 0 <= k < 9 && k != loc && k != t ==> r[k] == b[k]
  {
    SwapElsewhere(b, BlankIndex(b), BlankIndex(b) + Offset(d));
  }

  /** A legal move keeps a permutation a permutation and always changes the board. */
  lemma StepKeepsPermutation(b: seq<int>, d: Direction)
    requires IsPermutation(b) && Ready(b) && Step(b, d).Some?
    ensures IsPermutation(Step(b, d).value)
    ensures Step(b, d).value != b
  {
    var loc := BlankIndex(b);
    var t := loc + Offset(d);
    StepMoves(b, d);
    SwapKeepsPermutation(b, loc, t);
    if t < loc { assert b[t] != b[loc]; } else { assert b[loc] != b[t]; }
    assert Step(b, d).value[t] != b[t];
  }

  /** Moving the blank by a label; None when the label is not a move or the board is not ready. */
  function Apply(b: seq<int>, move: string): Option<seq<int>>
  {
    if !Ready(b) then None
    else match ParseLabel(move)
      case None => None
      case Some(d) => Step(b, d)
  }

  /** Performing a sequence of labelled moves, from the first to the last. */
  function Replay(b: seq<int>, moves: seq<string>): Option<seq<int>>
  {
    if moves == [] then Some(b)
    else match Replay(b, moves[..|moves| - 1])
      case None => None
      case Some(b') => Apply(b', moves[|moves| - 1])
  }

  /**
   * Applying a legal move's label to a board whose first blank is at loc gives the board r
   * that exchanges the blank with the move's target cell t and keeps every other cell.
   */
  lemma ApplyMove(b: seq<int>, d: Direction, loc: int, t: int, r: seq<int>)
    requires |b| == 9 && 0 <= loc < 9 && b[loc] == 0
    requires forall j :: 0 <= j < loc ==> b[j] != 0
    requires Target(loc, d) == Some(t)
    requires |r| == 9 && r[loc] == b[t] && r[t] == b[loc]
    requires forall k :: 0 <= k < 9 && k != loc && k != t ==> r[k] == b[k]
    ensures Apply(b, Label(d)) == Some(r)
  {
    BlankIndexAt(b, loc);
    SwapIs(b, loc, t, r);
  }

  /** Replaying one more move applies it to the board the earlier moves reached. */
  lemma ReplaySnoc(b: seq<int>, moves: seq<string>, move: string, reached: seq<int>)
    requires Replay(b, moves) == Some(reached)
    ensures Replay(b, moves + [move]) == Apply(reached, move)
  {
    assert (moves + [move])[..|moves|] == moves;
  }

  /** Four moves, each applying to the board the one before reached, replay in sequence. */
  lemma ReplayFour(b: seq<int>, m1: string, m2: string, m3: string, m4: string,
                   b1: seq<int>, b2: seq<int>, b3: seq<int>, b4: seq<int>)
    requires Apply(b, m1) == Some(b1) && Apply(b1, m2) == Some(b2)
    requires Apply(b2, m3) == Some(b3) && Apply(b3, m4) == Some(b4)
    ensures Replay(b, [m1, m2, m3]) == Some(b3)
    ensures Replay(b, [m1, m2, m3, m4]) == Some(b4)
  {
    ReplaySnoc(b, [], m1, b);
    assert [] + [m1] == [m1];
    ReplaySnoc(b, [m1], m2, b1);
    assert [m1] + [m2] == [m1, m2];
    ReplaySnoc(b, [m1, m2], m3, b2);
    assert [m1, m2] + [m3] == [m1, m2, m3];
    ReplaySnoc(b, [m1, m2, m3], m4, b3);
    assert [m1, m2, m3] + [m4] == [m1, m2, m3, m4];
  }
}
