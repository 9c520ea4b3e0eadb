/**
 * The children `expand` produces, as a function of the current state, the goal, the
 * visited set and the way h is measured; the two solver variants differ only in the measure.
 */
module Expansion {
  import opened Wrappers
  import opened Board
  import opened Heuristics
  import opened SearchState

  /** The state `do_the_needful!` builds for a candidate board reached by direction d. */
  function Child(s: State, next: seq<int>, d: Direction, goal: seq<int>, m: Measure): (c: State)
    requires |next| == |goal|
    ensures c.board == next && c.parent == Some(s) && c.kind == Label(d)
    ensures c.g == s.g + 1 && c.h >= 0 && c.cost == c.g + c.h
  {
    var h := Estimate(m, s.board, next, goal);
    State(next, s.g + 1 + h, s.g + 1, h, Some(s), Label(d))
  }

  /**
   * One `match loc` block: no child if the move is illegal or its board was visited,
   * otherwise the one child of that move.
   */
  function Offer(s: State, d: Direction, goal: seq<int>, visited: set<seq<int>>, m: Measure): (o: seq<State>)
    requires Ready(s.board) && |goal| == 9
    ensures |o| <= 1
    ensures |o| == 1 <==> Step(s.board, d).Some? && Step(s.board, d).value !in visited
    ensures |o| == 1 ==> ChildOf(o[0], s, d, goal, visited, m)
  {
    match Step(s.board, d)
    case None => []
    case Some(next) => if next in visited then [] else [Child(s, next, d, goal, m)]
  }

  /** The `match loc` arms: no child when the target is off the grid, otherwise the swapped board is the move. */
  lemma OfferByTarget(s: State, d: Direction, goal: seq<int>, visited: set<seq<int>>, m: Measure)
    requires Ready(s.board) && |goal| == 9
    ensures var loc := BlankIndex(s.board);
            && (Target(loc, d).None? ==> Offer(s, d, goal, visited, m) == [])
            && (Target(loc, d).Some? ==> Step(s.board, d) == Some(Swap(s.board, loc, Target(loc, d).value)))
  {
  }

  /** The vector `expand` returns: the Up, Down, Left and Right blocks in that order. */
  function Successors(s: State, goal: seq<int>, visited: set<seq<int>>, m: Measure): (r: seq<State>)
    requires Ready(s.board) && |goal| == 9
    ensures |r| <= 4
  {
    Offer(s, Up, goal, visited, m) + Offer(s, Down, goal, visited, m)
      + Offer(s, Left, goal, visited, m) + Offer(s, Right, goal, visited, m)
  }

  /** What holds of every child of s produced by the move d. */
  predicate ChildOf(c: State, s: State, d: Direction, goal: seq<int>, visited: set<seq<int>>, m: Measure)
    requires Ready(s.board) && |goal| == 9
  {
    && Step(s.board, d) == Some(c.board)
    && c.board !in visited
    && c.kind == Label(d)
    && c.parent == Some(s)
    && c.g == s.g + 1
    && c.h == Estimate(m, s.board, c.board, goal)
    && c.cost == c.g + c.h
  }

  predicate StrictlyRanked(cs: seq<State>)
  {
    forall i, j :: 0 <= i < j < |cs| ==> LabelRank(cs[i].kind) < LabelRank(cs[j].kind)
  }

  lemma ConcatRanked(a: seq<State>, b: seq<State>)
    requires StrictlyRanked(a) && StrictlyRanked(b)
    requires forall i, j :: 0 <= i < |a| && 0 <= j < |b| ==> LabelRank(a[i].kind) < LabelRank(b[j].kind)
    ensures StrictlyRanked(a + b)
  {
  }

  /** The four blocks, each empty or one child, in the order Up, Down, Left, Right. */
  lemma Blocks(s: State, goal: seq<int>, visited: set<seq<int>>, m: Measure)
    returns (up: seq<State>, down: seq<State>, left: seq<State>, right: seq<State>)
    requires Ready(s.board) && |goal| == 9
    ensures Successors(s, goal, visited, m) == up + down + left + right
    ensures |up| <= 1 && |down| <= 1 && |left| <= 1 && |right| <= 1
    ensures forall c :: c in up ==> ChildOf(c, s, Up, goal, visited, m)
    ensures forall c :: c in down ==> ChildOf(c, s, Down, goal, visited, m)
    ensures forall c :: c in left ==> ChildOf(c, s, Left, goal, visited, m)
    ensures forall c :: c in right ==> ChildOf(c, s, Right, goal, visited, m)
  {
    up, down := Offer(s, Up, goal, visited, m), Offer(s, Down, goal, visited, m);
    left, right := Offer(s, Left, goal, visited, m), Offer(s, Right, goal, visited, m);
  }

  /**
   * Soundness of expand: at most four children, listed in the order Up, Down, Left, Right;
   * each is a legal move of the blank to an unvisited board, with g one more than the parent's,
   * h the measured estimate, f = g + h, the parent as its parent and the direction as its label.
   */
  lemma SuccessorsSound(s: State, goal: seq<int>, visited: set<seq<int>>, m: Measure)
    requires Ready(s.board) && |goal| == 9
    ensures var cs := Successors(s, goal, visited, m);
            && |cs| <= 4
            && StrictlyRanked(cs)
            && forall c :: c in cs ==> exists d :: ChildOf(c, s, d, goal, visited, m)
  {
    var up, down, left, right := Blocks(s, goal, visited, m);
    assert LabelRank(Label(Up)) == 0 && LabelRank(Label(Down)) == 1;
    assert LabelRank(Label(Left)) == 2 && LabelRank(Label(Right)) == 3;
    BlocksRanked(up, down, left, right);
    forall c | c in up + down + left + right
      ensures exists d :: ChildOf(c, s, d, goal, visited, m)
    {
      if c in up { assert ChildOf(c, s, Up, goal, visited, m); }
      else if c in down { assert ChildOf(c, s, Down, goal, visited, m); }
      else if c in left { assert ChildOf(c, s, Left, goal, visited, m); }
      else { assert ChildOf(c, s, Right, goal, visited, m); }
    }
  }

  lemma BlocksRanked(up: seq<State>, down: seq<State>, left: seq<State>, right: seq<State>)
    requires |up| <= 1 && |down| <= 1 && |left| <= 1 && |right| <= 1
    requires forall c :: c in up ==> LabelRank(c.kind) == 0
    requires forall c :: c in down ==> LabelRank(c.kind) == 1
    requires forall c :: c in left ==> LabelRank(c.kind) == 2
    requires forall c :: c in right ==> LabelRank(c.kind) == 3
    ensures |up + down + left + right| <= 4 && StrictlyRanked(up + down + left + right)
  {
    ConcatRanked(up, down);
    assert forall c :: c in up + down ==> LabelRank(c.kind) <= 1;
    ConcatRanked(up + down, left);
    assert forall c :: c in up + down + left ==> LabelRank(c.kind) <= 2;
    ConcatRanked(up + down + left, right);
  }

  /** Completeness of expand: a direction yields a child iff its move is legal and leads to an unvisited board. */
  lemma SuccessorsComplete(s: State, goal: seq<int>, visited: set<seq<int>>, m: Measure, d: Direction)
    requires Ready(s.board) && |goal| == 9
    ensures (exists c :: c in Successors(s, goal, visited, m) && c.kind == Label(d)) <==>
              Legal(BlankIndex(s.board), d) && Step(s.board, d).value !in visited
  {
    var cs := Successors(s, goal, visited, m);
    if Legal(BlankIndex(s.board), d) && Step(s.board, d).value !in visited {
      var o := Offer(s, d, goal, visited, m);
      var up, down, left, right := Blocks(s, goal, visited, m);
      assert o[0] in cs;
    }
    if c :| c in cs && c.kind == Label(d) {
      SuccessorsSound(s, goal, visited, m);
      var d' :| ChildOf(c, s, d', goal, visited, m);
      assert ParseLabel(Label(d')) == Some(d') && ParseLabel(Label(d)) == Some(d);
    }
  }

  /** Children of a well-formed chain extend it: each is well-formed, shares the root and has a parent. */
  lemma SuccessorsLinked(s: State, goal: seq<int>, visited: set<seq<int>>, m: Measure)
    requires Ready(s.board) && |goal| == 9 && Linked(s)
    ensures forall c :: c in Successors(s, goal, visited, m) ==>
              Ready(c.board) && Linked(c) && Root(c) == Root(s) && c.parent == Some(s)
  {
    SuccessorsSound(s, goal, visited, m);
    forall c | c in Successors(s, goal, visited, m)
      ensures Ready(c.board) && Linked(c) && Root(c) == Root(s)
    {
      var d :| ChildOf(c, s, d, goal, visited, m);
      assert Apply(s.board, c.kind) == Some(c.board);
    }
  }

  /** A measure on the parent board gives every child of one expansion the same h. */
  lemma ParentMeasureSharesH(s: State, goal: seq<int>, visited: set<seq<int>>, m: Measure)
    requires Ready(s.board) && |goal| == 9 && m != CandidateMismatches
    ensures forall c1, c2 :: c1 in Successors(s, goal, visited, m) && c2 in Successors(s, goal, visited, m)
              ==> c1.h == c2.h
  {
    SuccessorsSound(s, goal, visited, m);
    forall c | c in Successors(s, goal, visited, m)
      ensures c.h == Estimate(m, s.board, s.board, goal)
    {
      var d :| ChildOf(c, s, d, goal, visited, m);
    }
  }

  /** The children of an expansion, taken as a heap, all hang off the parent's root. */
  lemma SuccessorsHang(s: State, goal: seq<int>, visited: set<seq<int>>, m: Measure)
    requires Ready(s.board) && |goal| == 9 && Linked(s)
    ensures AllHang(multiset(Successors(s, goal, visited, m)), Root(s))
  {
    SuccessorsLinked(s, goal, visited, m);
  }

  /** A child's h is the estimate measure m computes for it from its parent. */
  predicate Scored(t: State, goal: seq<int>, m: Measure)
  {
    t.parent.Some? && |t.board| == |goal| && t.h == Estimate(m, t.parent.value.board, t.board, goal)
  }

  /** Every state of heap is scored by m. */
  predicate AllScored(heap: multiset<State>, goal: seq<int>, m: Measure)
  {
    forall t {:trigger Scored(t, goal, m)} :: t in heap ==> Scored(t, goal, m)
  }

  /** Pushing scored children onto a scored heap and popping x from it: x is scored and so is what remains. */
  lemma ScoredPop(heap: multiset<State>, children: seq<State>, x: State, goal: seq<int>, m: Measure)
    requires AllScored(heap, goal, m) && forall c :: c in children ==> Scored(c, goal, m)
    requires x in heap + multiset(children)
    ensures Scored(x, goal, m) && AllScored(heap + multiset(children) - multiset{x}, goal, m)
  {
    forall t | t in heap + multiset(children)
      ensures Scored(t, goal, m)
    {
      if t !in heap { assert t in children; }
    }
  }

  /** Every child of one expansion is scored by the expansion's measure and hangs off the expanded state. */
  lemma SuccessorsScored(s: State, goal: seq<int>, visited: set<seq<int>>, m: Measure)
    requires Ready(s.board) && |goal| == 9
    ensures forall c :: c in Successors(s, goal, visited, m) ==> Scored(c, goal, m) && c.parent == Some(s)
  {
    SuccessorsSound(s, goal, visited, m);
    forall c | c in Successors(s, goal, visited, m)
      ensures Scored(c, goal, m) && c.parent == Some(s)
    {
      var d :| ChildOf(c, s, d, goal, visited, m);
    }
  }

  /**
   * The children expand generates for s, as the solver's contracts name them. This is the list
   * Successors defines (GeneratedIsSuccessors), reached through a countdown over the cells of the
   * goal, so that the verifier opens the four blocks only in the proofs that call that lemma.
   */
  ghost function Generated(s: State, goal: seq<int>, visited: set<seq<int>>, m: Measure): seq<State>
  {
    if Ready(s.board) && |goal| == 9 then GeneratedAfter(s, goal, visited, m, |goal|) else []
  }

  /** The countdown behind Generated: k more steps, then Successors. */
  ghost function GeneratedAfter(s: State, goal: seq<int>, visited: set<seq<int>>, m: Measure, k: nat): seq<State>
    requires Ready(s.board) && |goal| == 9
    decreases k
  {
    if k == 0 then Successors(s, goal, visited, m) else GeneratedAfter(s, goal, visited, m, k - 1)
  }

  /** Generated and Successors are the same list. */
  lemma GeneratedIsSuccessors(s: State, goal: seq<int>, visited: set<seq<int>>, m: Measure)
    requires Ready(s.board) && |goal| == 9
    ensures Generated(s, goal, visited, m) == Successors(s, goal, visited, m)
  {
    CountdownEnds(s, goal, visited, m, |goal|);
  }

  lemma {:induction false} CountdownEnds(s: State, goal: seq<int>, visited: set<seq<int>>, m: Measure, k: nat)
    requires Ready(s.board) && |goal| == 9
    ensures GeneratedAfter(s, goal, visited, m, k) == Successors(s, goal, visited, m)
    decreases k
  {
    if k > 0 {
      CountdownEnds(s, goal, visited, m, k - 1);
    }
  }

  /** The state pass i of solve expands: the state solve started from, then each adopted state in turn. */
  function Expanded(cur: State, trail: seq<State>, i: int): State
    requires 0 <= i <= |trail|
  {
    if i == 0 then cur else trail[i - 1]
  }

  /**
   * The children the first |trail| passes of solve push, starting from state cur with the
   * boards of start visited: pass i expands Expanded(cur, trail, i) against the boards of
   * start and trail[..i], and then adopts trail[i].
   */
  ghost function Pushed(cur: State, start: seq<State>, trail: seq<State>, goal: seq<int>, m: Measure): seq<State>
    decreases |trail|
  {
    if trail == [] then []
    else
      var n := |trail| - 1;
      Pushed(cur, start, trail[..n], goal, m) + Generated(Expanded(cur, trail, n), goal, Boards(start + trail[..n]), m)
  }

  /** The heap pass i pops trail[i] from: the initial heap and the children of passes 0..i, less the states adopted before. */
  ghost function HeapBefore(base: multiset<State>, cur: State, start: seq<State>, trail: seq<State>, i: int,
                            goal: seq<int>, m: Measure): multiset<State>
    requires 0 <= i < |trail|
  {
    base + multiset(Pushed(cur, start, trail[..i + 1], goal, m)) - multiset(trail[..i])
  }

  /** Every adopted state was a greatest (cheapest) entry of the heap it was popped from. */
  ghost predicate CheapestPops(base: multiset<State>, cur: State, start: seq<State>, trail: seq<State>,
                               goal: seq<int>, m: Measure)
  {
    forall i {:trigger HeapBefore(base, cur, start, trail, i, goal, m)} :: 0 <= i < |trail| ==>
      trail[i] in HeapBefore(base, cur, start, trail, i, goal, m) &&
      Greatest(trail[i], HeapBefore(base, cur, start, trail, i, goal, m))
  }

  /** Every child expand generates is scored by the measure. */
  lemma GeneratedScored(s: State, goal: seq<int>, visited: set<seq<int>>, m: Measure)
    ensures forall c :: c in Generated(s, goal, visited, m) ==> Scored(c, goal, m)
  {
    if Ready(s.board) && |goal| == 9 {
      GeneratedIsSuccessors(s, goal, visited, m);
      SuccessorsScored(s, goal, visited, m);
    }
  }

  /** Every child the passes push is scored by the measure. */
  lemma {:induction false} PushedScored(cur: State, start: seq<State>, trail: seq<State>, goal: seq<int>, m: Measure)
    ensures forall c :: c in Pushed(cur, start, trail, goal, m) ==> Scored(c, goal, m)
    decreases |trail|
  {
    if trail != [] {
      var n := |trail| - 1;
      PushedScored(cur, start, trail[..n], goal, m);
      GeneratedScored(Expanded(cur, trail, n), goal, Boards(start + trail[..n]), m);
    }
  }

  /** Starting from an empty heap, every state a pass pops is a pushed child, so it is scored. */
  lemma PoppedScored(cur: State, start: seq<State>, trail: seq<State>, goal: seq<int>, m: Measure, i: int)
    requires CheapestPops(multiset{}, cur, start, trail, goal, m)
    requires 0 <= i < |trail|
    ensures Scored(trail[i], goal, m)
  {
    var pushed := Pushed(cur, start, trail[..i + 1], goal, m);
    assert trail[i] in HeapBefore(multiset{}, cur, start, trail, i, goal, m);
    assert trail[i] in multiset(pushed);
    PushedScored(cur, start, trail[..i + 1], goal, m);
  }

  /** Pushed of a trail one longer: the children of the pass that expands the last adopted state are appended. */
  lemma PushedSnoc(cur: State, start: seq<State>, trail: seq<State>, x: State, goal: seq<int>, m: Measure)
    ensures Pushed(cur, start, trail + [x], goal, m)
            == Pushed(cur, start, trail, goal, m) + Generated(Expanded(cur, trail, |trail|), goal, Boards(start + trail), m)
  {
    var longer := trail + [x];
    assert longer[..|trail|] == trail;
    assert Expanded(cur, longer, |trail|) == Expanded(cur, trail, |trail|);
  }

  /**
   * One more pass of solve: it pushes children and pops x, a greatest entry of the heap plus
   * those children, where the heap is what the earlier passes left. Then x joins the cheapest pops.
   */
  lemma CheapestPopsSnoc(base: multiset<State>, cur: State, start: seq<State>, trail: seq<State>,
                         produced: seq<State>, heap: multiset<State>, children: seq<State>, x: State,
                         goal: seq<int>, m: Measure)
    requires Pushed(cur, start, trail + [x], goal, m) == produced + children
    requires heap + multiset(trail) == base + multiset(produced)
    requires CheapestPops(base, cur, start, trail, goal, m)
    requires x in heap + multiset(children) && Greatest(x, heap + multiset(children))
    ensures CheapestPops(base, cur, start, trail + [x], goal, m)
  {
    var longer := trail + [x];
    var n := |trail|;
    forall i | 0 <= i < n
      ensures HeapBefore(base, cur, start, longer, i, goal, m) == HeapBefore(base, cur, start, trail, i, goal, m)
    {
      HeapBeforeSnoc(base, cur, start, trail, x, i, goal, m);
    }
    LastHeapBefore(base, cur, start, trail, produced, heap, children, x, goal, m);
    forall i | 0 <= i < |longer|
      ensures longer[i] in HeapBefore(base, cur, start, longer, i, goal, m)
      ensures Greatest(longer[i], HeapBefore(base, cur, start, longer, i, goal, m))
    {
      if i < n { assert longer[i] == trail[i]; }
    }
  }

  /** The heap the newest pass pops from is what the earlier passes left plus its children. */
  lemma LastHeapBefore(base: multiset<State>, cur: State, start: seq<State>, trail: seq<State>,
                       produced: seq<State>, heap: multiset<State>, children: seq<State>, x: State,
                       goal: seq<int>, m: Measure)
    requires Pushed(cur, start, trail + [x], goal, m) == produced + children
    requires heap + multiset(trail) == base + multiset(produced)
    ensures HeapBefore(base, cur, start, trail + [x], |trail|, goal, m) == heap + multiset(children)
  {
    var longer := trail + [x];
    var n := |trail|;
    HeapPopped(heap, trail, base, produced, children);
    PrefixSnoc(trail, x, n);
    assert longer[..n + 1] == longer;
    calc {
      HeapBefore(base, cur, start, longer, n, goal, m);
      base + multiset(Pushed(cur, start, longer, goal, m)) - multiset(trail);
      { assert multiset(Pushed(cur, start, longer, goal, m)) == multiset(produced + children); }
      base + multiset(produced + children) - multiset(trail);
      heap + multiset(children);
    }
  }

  /** Appending a state leaves the heaps of the earlier passes as they were. */
  lemma HeapBeforeSnoc(base: multiset<State>, cur: State, start: seq<State>, trail: seq<State>, x: State, i: int,
                       goal: seq<int>, m: Measure)
    requires 0 <= i < |trail|
    ensures HeapBefore(base, cur, start, trail + [x], i, goal, m) == HeapBefore(base, cur, start, trail, i, goal, m)
  {
    PrefixSnoc(trail, x, i);
    PrefixSnoc(trail, x, i + 1);
  }

  lemma PrefixSnoc(trail: seq<State>, x: State, i: int)
    requires 0 <= i <= |trail|
    ensures (trail + [x])[..i] == trail[..i]
  {
  }

  /** Before the pop, the heap is the initial heap plus every child pushed, less the states adopted. */
  lemma HeapPopped(heap: multiset<State>, trail: seq<State>, base: multiset<State>,
                   produced: seq<State>, children: seq<State>)
    requires heap + multiset(trail) == base + multiset(produced)
    ensures heap + multiset(children) == base + multiset(produced + children) - multiset(trail)
  {
    var lhs := heap + multiset(children);
    var rhs := base + multiset(produced + children) - multiset(trail);
    assert multiset(produced + children) == multiset(produced) + multiset(children);
    forall o: State
      ensures lhs[o] == rhs[o]
    {
      assert (heap + multiset(trail))[o] == (base + multiset(produced))[o];
    }
    assert lhs == rhs;
  }
}
