/**
 * Search nodes: the immutable `State` with its parent chain, the cost-only reverse
 * ordering that makes Rust's max-heap pop the cheapest node, and path reconstruction.
 */
module SearchState {
  import opened Wrappers
  import opened Board

  /** A search node: board, f = g + h, g, h, the node it was expanded from and the move label. */
  datatype State = State(board: seq<int>, cost: int, g: int, h: int, parent: Option<State>, kind: string)

  datatype Ordering = Less | Equal | Greater

  /** Rust's `cmp` on integers. */
  function CompareInt(a: int, b: int): (o: Ordering)
    ensures o == Less <==> a < b
    ensures o == Equal <==> a == b
    ensures o == Greater <==> a > b
  {
    if a < b then Less else if a == b then Equal else Greater
  }

  /** Rust's `Ordering::then_with`: the first comparison decides unless it is Equal. */
  function ThenWith(o: Ordering, next: Ordering): (r: Ordering)
    ensures r == Equal <==> o == Equal && next == Equal
    ensures o != Equal ==> r == o
    ensures o == Equal ==> r == next
  {
    if o == Equal then next else o
  }

  /** `Ord for State`: `other.cost.cmp(&self.cost).then_with(|| self.cost.cmp(&other.cost))`. */
  function Cmp(a: State, b: State): (o: Ordering)
    ensures o == Greater <==> a.cost < b.cost
    ensures o == Less <==> a.cost > b.cost
    ensures o == Equal <==> a.cost == b.cost
  {
    ThenWith(CompareInt(b.cost, a.cost), CompareInt(a.cost, b.cost))
  }

  /** `PartialOrd for State`: always defined and equal to `cmp`. */
  function PartialCmp(a: State, b: State): (o: Option<Ordering>)
    ensures o.Some?
    ensures o.value == Greater <==> a.cost < b.cost
    ensures o.value == Less <==> a.cost > b.cost
    ensures o.value == Equal <==> a.cost == b.cost
  {
    Some(Cmp(a, b))
  }

  /** `PartialEq for State`: equal costs, whatever the boards; consistent with `cmp`. */
  function Eq(a: State, b: State): (r: bool)
    ensures r <==> Cmp(a, b) == Equal
  {
    a.cost == b.cost
  }

  /** The ordering is a total preorder: reversal swaps Less and Greater, and Less is transitive. */
  lemma CmpIsTotalPreorder(a: State, b: State, c: State)
    ensures Cmp(a, b) == Less <==> Cmp(b, a) == Greater
    ensures Cmp(a, b) == Equal <==> Cmp(b, a) == Equal
    ensures Cmp(a, b) != Greater && Cmp(b, c) != Greater ==> Cmp(a, c) != Greater
  {
  }

  /** x costs no more than any state of heap. */
  predicate LowerBound(x: State, heap: multiset<State>)
  {
    forall t :: t in heap ==> x.cost <= t.cost
  }

  /** x is a greatest state of heap under `cmp`: no state of heap is greater. */
  predicate Greatest(x: State, heap: multiset<State>)
  {
    forall t {:trigger Cmp(x, t)} :: t in heap ==> Cmp(x, t) != Less
  }

  /** Under the reversed ordering the greatest states are exactly the cheapest ones. */
  lemma GreatestIsCheapest(x: State, heap: multiset<State>)
    ensures Greatest(x, heap) <==> LowerBound(x, heap)
  {
    if LowerBound(x, heap) {
      forall t | t in heap
        ensures Cmp(x, t) != Less
      {
      }
    }
    if Greatest(x, heap) {
      forall t | t in heap
        ensures x.cost <= t.cost
      {
        assert Cmp(x, t) != Less;
      }
    }
  }

  /** Every non-empty heap holds a cheapest state. */
  lemma {:induction false} CheapestExists(heap: multiset<State>)
    requires heap != multiset{}
    ensures exists s :: s in heap && LowerBound(s, heap)
    decreases |heap|
  {
    var x :| x in heap;
    var rest := heap - multiset{x};
    if rest == multiset{} {
      forall t | t in heap
        ensures x.cost <= t.cost
      {
        assert t in rest || t == x;
      }
      assert LowerBound(x, heap);
    } else {
      CheapestExists(rest);
      var y :| y in rest && LowerBound(y, rest);
      var s := if x.cost <= y.cost then x else y;
      forall t | t in heap
        ensures s.cost <= t.cost
      {
        if t != x { assert rest[t] == heap[t]; }
      }
      assert s in heap && LowerBound(s, heap);
    }
  }

  /**
   * `BinaryHeap::pop`: None on an empty heap, otherwise some greatest element under `cmp`
   * (which of several equal-cost ones is left open) and the heap without it.
   */
  method Pop(heap: multiset<State>) returns (top: Option<State>, rest: multiset<State>)
    ensures top.None? <==> heap == multiset{}
    ensures top.None? ==> rest == heap
    ensures top.Some? ==> top.value in heap && rest == heap - multiset{top.value}
    ensures top.Some? ==> Greatest(top.value, heap)
  {
    if heap == multiset{} {
      return None, heap;
    }
    CheapestExists(heap);
    var s :| s in heap && LowerBound(s, heap);
    GreatestIsCheapest(s, heap);
    top, rest := Some(s), heap - multiset{s};
  }

  /**
   * A well-formed parent chain: the root has g = 0 and label "None"; every other node has
   * g one more than its parent, f = g + h, and a board that its label's move produces from
   * the parent's board.
   */
  predicate Linked(s: State)
    decreases s
  {
    match s.parent
    case None => s.g == 0 && s.kind == "None"
    case Some(p) =>
      && s.g == p.g + 1
      && s.cost == s.g + s.h
      && Apply(p.board, s.kind) == Some(s.board)
      && Linked(p)
  }

  /** The node a chain starts from. */
  function Root(s: State): (r: State)
    ensures r.parent.None?
    decreases s
  {
    match s.parent
    case None => s
    case Some(p) => Root(p)
  }

  /** The labels on the chain ending at o, root first, as trace_soln collects and reverses them. */
  function Labels(o: Option<State>): (r: seq<string>)
    ensures o.None? <==> r == []
    ensures o.Some? ==> r[|r| - 1] == o.value.kind
    decreases o
  {
    match o
    case None => []
    case Some(p) => Labels(p.parent) + [p.kind]
  }

  /** Rust's `Vec::reverse`. */
  function Reversed(s: seq<string>): (r: seq<string>)
    ensures |r| == |s| && forall k :: 0 <= k < |s| ==> r[k] == s[|s| - 1 - k]
  {
    if s == [] then [] else Reversed(s[1..]) + [s[0]]
  }

  /**
   * `trace_soln`: walk the parent links from s.parent to the root collecting labels,
   * reverse them, and drop the first one (the root's). The Rust slice `&soln[1..]`
   * panics when s is itself the root, hence the precondition.
   */
  method TraceSolution(s: State) returns (moves: seq<string>)
    requires s.parent.Some?
    ensures moves == Labels(s.parent)[1..]
  {
    var soln: seq<string> := [];
    var parent := s.parent;
    while parent.Some?
      invariant Labels(s.parent) == Labels(parent) + Reversed(soln)
      decreases parent
    {
      var p := parent.value;
      ghost var before := soln;
      soln := soln + [p.kind];
      ReversedSnoc(before, p.kind);
      parent := p.parent;
    }
    soln := Reversed(soln);
    moves := soln[1..];
  }

  lemma {:induction false} ReversedSnoc(s: seq<string>, x: string)
    ensures Reversed(s + [x]) == [x] + Reversed(s)
  {
    if s != [] {
      assert (s + [x])[1..] == s[1..] + [x];
      ReversedSnoc(s[1..], x);
    }
  }

  /**
   * Along a well-formed chain the labels after the root's "None" are g moves long, and
   * replaying them from the root's board rebuilds the node's board.
   */
  lemma {:induction false} LabelsReplay(s: State)
    requires Linked(s)
    ensures |Labels(Some(s))| == s.g + 1
    ensures Labels(Some(s))[0] == "None"
    ensures Replay(Root(s).board, Labels(Some(s))[1..]) == Some(s.board)
  {
    match s.parent
    case None =>
    case Some(p) =>
      LabelsReplay(p);
      var ls := Labels(Some(p));
      assert Labels(Some(s)) == ls + [s.kind];
      assert Labels(Some(s))[1..] == ls[1..] + [s.kind];
      assert (ls[1..] + [s.kind])[..|ls| - 1] == ls[1..];
  }

  /** What trace_soln reports for s: |moves| == g - 1, and the moves rebuild the parent's board. */
  lemma SolutionFacts(s: State)
    requires Linked(s) && s.parent.Some?
    ensures |Labels(s.parent)[1..]| == s.g - 1
    ensures Replay(Root(s).board, Labels(s.parent)[1..]) == Some(s.parent.value.board)
  {
    LabelsReplay(s.parent.value);
  }

  /** Every node of a chain rooted at a permutation holds a permutation. */
  lemma {:induction false} LinkedPermutation(s: State)
    requires Linked(s) && IsPermutation(Root(s).board)
    ensures IsPermutation(s.board)
    decreases s
  {
    match s.parent
    case None =>
    case Some(p) =>
      LinkedPermutation(p);
      var d := ParseLabel(s.kind).value;
      StepKeepsPermutation(p.board, d);
  }

  /** What a solve returns: the moves and the two counters, or one of the two failures. */
  datatype Outcome = Solved(moves: seq<string>, expanded: int, generated: int) | DeadEnd | OutOfFuel

  /** A heap entry: a child with a full board, hanging off root by a well-formed chain. */
  predicate Hangs(t: State, root: State)
  {
    Ready(t.board) && Linked(t) && Root(t) == root && t.parent.Some?
  }

  /** Every entry of a heap hangs off root. */
  predicate AllHang(heap: multiset<State>, root: State)
  {
    forall t {:trigger Hangs(t, root)} :: t in heap ==> Hangs(t, root)
  }

  lemma AllHangUnion(a: multiset<State>, b: multiset<State>, root: State)
    requires AllHang(a, root) && AllHang(b, root)
    ensures AllHang(a + b, root)
  {
  }

  lemma AllHangRemove(heap: multiset<State>, x: State, root: State)
    requires AllHang(heap, root) && x in heap
    ensures Hangs(x, root) && AllHang(heap - multiset{x}, root)
  {
  }

  /** The set of boards of a sequence of adopted states. */
  ghost function Boards(ps: seq<State>): set<seq<int>>
  {
    if ps == [] then {} else Boards(ps[..|ps| - 1]) + {ps[|ps| - 1].board}
  }

  lemma BoardsSnoc(ps: seq<State>, x: State)
    ensures Boards(ps + [x]) == Boards(ps) + {x.board}
  {
    assert (ps + [x])[..|ps|] == ps;
  }

  /**
   * Heap accounting for one pass of solve: if heap plus adopted states equal base plus the
   * states pushed so far, then after pushing the children, popping top and adopting it they
   * still do.
   */
  lemma HeapAccount(heap: multiset<State>, children: seq<State>, top: State,
                    trail: seq<State>, base: multiset<State>, produced: seq<State>)
    requires heap + multiset(trail) == base + multiset(produced)
    requires top in heap + multiset(children)
    ensures (heap + multiset(children) - multiset{top}) + multiset(trail + [top])
            == base + multiset(produced + children)
  {
    var grown := heap + multiset(children);
    var lhs := (grown - multiset{top}) + multiset(trail + [top]);
    var rhs := base + multiset(produced + children);
    assert multiset(trail + [top]) == multiset(trail) + multiset{top};
    assert multiset(produced + children) == multiset(produced) + multiset(children);
    forall o: State
      ensures lhs[o] == rhs[o]
    {
      assert (heap + multiset(trail))[o] == (base + multiset(produced))[o];
    }
    assert lhs == rhs;
  }

  /** A heap that is empty after pushing the children was empty before, and there were none. */
  lemma EmptyPush(heap: multiset<State>, children: seq<State>)
    requires heap + multiset(children) == multiset{}
    ensures heap == multiset{} && children == []
  {
    assert |heap + multiset(children)| == |heap| + |multiset(children)|;
    assert |multiset(children)| == |children|;
    assert |heap| == 0 && |children| == 0;
  }

  lemma SnocAssoc(a: seq<State>, b: seq<State>, x: State)
    ensures (a + b) + [x] == a + (b + [x])
  {
  }
}
