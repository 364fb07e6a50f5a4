/** The tables that mapping pages takes, as a set: each missing table counts once, whatever pages share it. */
module TableNodes {
  import opened PageTables
  import opened TableWalks
  import opened MapRanges

  /** A place for a table: its level, and the number of the block of pages that it covers. */
  datatype Node = Node(level: nat, block: nat)

  function NodeOf(l: nat, w: nat): Node {
    Node(l, w / Span(l + 1))
  }

  function LackedNode(m: Mem, root: nat, w: nat, l: nat): set<Node> {
    if HasTable(m, root, w, l) then {} else {NodeOf(l, w)}
  }

  /** The tables that the walk of page `w` lacks. */
  function PageNodes(m: Mem, root: nat, w: nat): set<Node> {
    LackedNode(m, root, w, 1) + LackedNode(m, root, w, 2) + LackedNode(m, root, w, 3)
  }

  /** The tables that the walks of the `n` pages from `p` lack. */
  function RangeNodes(m: Mem, root: nat, p: nat, n: nat): set<Node> {
    if n == 0 then {} else RangeNodes(m, root, p, n - 1) + PageNodes(m, root, p + n - 1)
  }

  lemma PageNodesSize(m: Mem, root: nat, w: nat)
    ensures |PageNodes(m, root, w)| == Missing(m, 4, root, w)
  {
    MissingTables(m, root, w, 1);
    hide Missing, HasTable;
    var a, b, c := LackedNode(m, root, w, 1), LackedNode(m, root, w, 2), LackedNode(m, root, w, 3);
    assert a !! b && a + b !! c;
    assert |a + b + c| == |a| + |b| + |c|;
  }

  ghost predicate GainedAt(m0: Mem, m: Mem, root: nat, nodes: set<Node>, w: nat, l: nat) {
    HasTable(m, root, w, l) <==> HasTable(m0, root, w, l) || NodeOf(l, w) in nodes
  }

  /** From `m0` to `m` the tree gained exactly the tables at `nodes`. */
  ghost predicate Gained(m0: Mem, m: Mem, root: nat, lim: nat, nodes: set<Node>) {
    forall w: nat, l: nat :: w < Limit(lim) && 1 <= l <= 3 ==> GainedAt(m0, m, root, nodes, w, l)
  }

  lemma GainedNone(m: Mem, root: nat, lim: nat)
    ensures Gained(m, m, root, lim, {})
  {
  }

  lemma GainedTrans(m0: Mem, m1: Mem, m2: Mem, root: nat, lim: nat, a: set<Node>, b: set<Node>)
    requires Gained(m0, m1, root, lim, a) && Gained(m1, m2, root, lim, b)
    ensures Gained(m0, m2, root, lim, a + b)
  {
    hide HasTable, Limit;
    forall w: nat, l: nat | w < Limit(lim) && 1 <= l <= 3 ensures GainedAt(m0, m2, root, a + b, w, l) {
      assert GainedAt(m0, m1, root, a, w, l) && GainedAt(m1, m2, root, b, w, l);
    }
  }

  /** The tables a page lacks afterwards are those it lacked and did not gain. */
  lemma NodesLeft(m0: Mem, m: Mem, root: nat, lim: nat, nodes: set<Node>, w: nat)
    requires Gained(m0, m, root, lim, nodes) && w < Limit(lim)
    ensures PageNodes(m, root, w) == PageNodes(m0, root, w) - nodes
  {
    hide HasTable, Limit, NodeOf;
    assert GainedAt(m0, m, root, nodes, w, 1) && GainedAt(m0, m, root, nodes, w, 2);
    assert GainedAt(m0, m, root, nodes, w, 3);
  }

  lemma UnionSize(a: set<Node>, b: set<Node>)
    ensures a + b == a + (b - a) && |a + b| == |a| + |b - a|
  {
    assert a + b == a + (b - a);
  }

  lemma {:induction false} RangeLeft(m0: Mem, m: Mem, root: nat, lim: nat, nodes: set<Node>, p: nat, n: nat)
    requires Gained(m0, m, root, lim, nodes) && p + n <= Limit(lim)
    ensures RangeNodes(m, root, p, n) == RangeNodes(m0, root, p, n) - nodes
    ensures |nodes + RangeNodes(m0, root, p, n)| == |nodes| + |RangeNodes(m, root, p, n)|
    decreases n
  {
    hide Gained, Limit, PageNodes;
    if n > 0 {
      RangeLeft(m0, m, root, lim, nodes, p, n - 1);
      NodesLeft(m0, m, root, lim, nodes, p + n - 1);
    }
    UnionSize(nodes, RangeNodes(m0, root, p, n));
  }

  lemma SharedTable(m: Mem, root: nat, v: nat, w: nat, l: nat)
    requires 1 <= l <= 3
    ensures SamePath(4, l, v, w) && HasTable(m, root, v, l) ==> HasTable(m, root, w, l)
  {
    if SamePath(4, l, v, w) && HasTable(m, root, v, l) {
      PathTables(m, 4, root, 0, v, l, TableOn(m, 4, root, v, l).value, w, l);
    }
  }

  /** Mapping page `v` adds the tables it lacks. */
  lemma PageGained(m: Mem, m': Mem, root: nat, lim: nat, v: nat)
    requires TablesGrew(m, m', root, lim, v, 1) && v < Limit(lim)
    ensures Gained(m, m', root, lim, PageNodes(m, root, v))
  {
    LimitBound(lim);
    hide HasTable, Limit, SamePath, Span;
    forall w: nat, l: nat | w < Limit(lim) && 1 <= l <= 3
      ensures GainedAt(m, m', root, PageNodes(m, root, v), w, l)
    {
      assert GrewAt(m, m', root, v, 1, w, l);
      PathBlock(l, v, w);
      SharedTable(m, root, v, w, l);
    }
  }

  lemma NodesNext(m: Mem, root: nat, p: nat, i: nat)
    ensures RangeNodes(m, root, p, i + 1) == RangeNodes(m, root, p, i) + PageNodes(m, root, p + i)
  {
    hide PageNodes;
  }

  /** After mapping `i` pages of a range, one more. */
  lemma RangeGained(m0: Mem, m: Mem, m': Mem, root: nat, lim: nat, p: nat, i: nat)
    requires Gained(m0, m, root, lim, RangeNodes(m0, root, p, i)) && TablesGrew(m, m', root, lim, p + i, 1)
    requires p + i < Limit(lim)
    ensures Gained(m0, m', root, lim, RangeNodes(m0, root, p, i + 1))
    ensures |RangeNodes(m0, root, p, i + 1)| == |RangeNodes(m0, root, p, i)| + Missing(m, 4, root, p + i)
  {
    hide Gained, Limit, Missing, TablesGrew, PageNodes, RangeNodes;
    var nodes := RangeNodes(m0, root, p, i);
    NodesLeft(m0, m, root, lim, nodes, p + i);
    PageGained(m, m', root, lim, p + i);
    GainedTrans(m0, m, m', root, lim, nodes, PageNodes(m, root, p + i));
    NodesNext(m0, root, p, i);
    UnionSize(nodes, PageNodes(m0, root, p + i));
    PageNodesSize(m, root, p + i);
  }

  lemma {:induction false} RangeNodesMonotone(m: Mem, root: nat, p: nat, i: nat, n: nat)
    requires i <= n
    ensures RangeNodes(m, root, p, i) <= RangeNodes(m, root, p, n)
    ensures |RangeNodes(m, root, p, i)| <= |RangeNodes(m, root, p, n)|
    decreases n - i
  {
    hide PageNodes;
    if i < n {
      RangeNodesMonotone(m, root, p, i, n - 1);
      UnionSize(RangeNodes(m, root, p, n - 1), PageNodes(m, root, p + n - 1));
    }
  }

  /** The next page of a range, if it cannot be mapped, takes the range beyond the frames there were. */
  lemma RangeLacks(m0: Mem, m: Mem, root: nat, lim: nat, p: nat, i: nat, n: nat)
    requires Gained(m0, m, root, lim, RangeNodes(m0, root, p, i)) && i < n && p + i < Limit(lim)
    ensures |RangeNodes(m0, root, p, i)| + Missing(m, 4, root, p + i) <= |RangeNodes(m0, root, p, n)|
  {
    hide Gained, Limit, Missing, PageNodes, RangeNodes;
    var nodes := RangeNodes(m0, root, p, i);
    NodesLeft(m0, m, root, lim, nodes, p + i);
    UnionSize(nodes, PageNodes(m0, root, p + i));
    PageNodesSize(m, root, p + i);
    NodesNext(m0, root, p, i);
    RangeNodesMonotone(m0, root, p, i + 1, n);
  }

  /** Tables exist or not whatever bytes pages hold. */
  lemma SameNodes(m: Mem, m': Mem, root: nat, lim: nat)
    requires TreeOk(m, 4, root, lim) && Agree(m, m', Frames(m, 4, root, lim))
    ensures Gained(m, m', root, lim, {})
  {
    hide TreeOk, Frames, Limit;
    forall w: nat, l: nat | w < Limit(lim) && 1 <= l <= 3 ensures GainedAt(m, m', root, {}, w, l) {
      InLimit(w, lim);
      SameTableOn(m, m', 4, root, lim, w, l);
    }
  }
}
