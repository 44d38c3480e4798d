/** The dependency graph: a five-colour depth-first search that reports
    dependency loops, and a second search that splits the graph into packs. */
module Graphs {

  /** Node identities; they are only ever compared. */
  type Node = int

  /** For every node, its sons in the order the edges were added. */
  type Sons = map<Node, seq<Node>>

  datatype Status = Unchecked | Temporary | Okay | NearLoop | LoopInside | Checked

  type Colours = map<Node, Status>

  predicate Edge(g: Sons, a: Node, b: Node) {
    a in g && b in g[a]
  }

  /** Every son is itself a node: what add_edge guarantees. */
  ghost predicate Closed(g: Sons) {
    forall a, b :: Edge(g, a, b) ==> b in g
  }

  ghost predicate Walk(g: Sons, p: seq<Node>) {
    forall i :: 0 <= i < |p| - 1 ==> Edge(g, p[i], p[i + 1])
  }

  ghost predicate WalkFromTo(g: Sons, p: seq<Node>, a: Node, b: Node) {
    && |p| >= 2 && p[0] == a && p[|p| - 1] == b
    && Walk(g, p)
  }

  /** There is a path of at least one edge from a to b. */
  ghost predicate Reaches(g: Sons, a: Node, b: Node) {
    exists p :: WalkFromTo(g, p, a, b)
  }

  ghost predicate ReachesOrIs(g: Sons, a: Node, b: Node) {
    a == b || Reaches(g, a, b)
  }

  ghost predicate OnCycle(g: Sons, a: Node) {
    Reaches(g, a, a)
  }

  ghost predicate LeadsToCycle(g: Sons, a: Node) {
    exists c :: ReachesOrIs(g, a, c) && OnCycle(g, c)
  }

  ghost predicate Acyclic(g: Sons) {
    forall a :: !OnCycle(g, a)
  }

  // ---------------------------------------------------------------- paths

  lemma EdgeReaches(g: Sons, a: Node, b: Node)
    requires Edge(g, a, b)
    ensures Reaches(g, a, b)
  {
    assert WalkFromTo(g, [a, b], a, b);
  }

  lemma ReachesTrans(g: Sons, a: Node, b: Node, c: Node)
    requires Reaches(g, a, b) && Reaches(g, b, c)
    ensures Reaches(g, a, c)
  {
    var p :| WalkFromTo(g, p, a, b);
    var q :| WalkFromTo(g, q, b, c);
    var r := p + q[1..];
    forall i | 0 <= i < |r| - 1
      ensures Edge(g, r[i], r[i + 1])
    {
      if i < |p| - 1 {
        assert r[i] == p[i] && r[i + 1] == p[i + 1];
      } else {
        assert r[i] == q[i - (|p| - 1)] && r[i + 1] == q[i - (|p| - 1) + 1];
      }
    }
    assert WalkFromTo(g, r, a, c);
  }

  /** The first step of a path. */
  lemma FirstStep(g: Sons, a: Node, b: Node) returns (s: Node)
    requires Reaches(g, a, b)
    ensures Edge(g, a, s) && ReachesOrIs(g, s, b)
  {
    var p :| WalkFromTo(g, p, a, b);
    assert Edge(g, p[0], p[1]);
    s := p[1];
    if |p| > 2 {
      var q := p[1..];
      forall i | 0 <= i < |q| - 1
        ensures Edge(g, q[i], q[i + 1])
      {
        assert Edge(g, p[i + 1], p[i + 1 + 1]);
      }
      assert WalkFromTo(g, q, s, b);
    }
  }

  /** The last step of a path. */
  lemma LastStep(g: Sons, a: Node, b: Node) returns (s: Node)
    requires Reaches(g, a, b)
    ensures ReachesOrIs(g, a, s) && Edge(g, s, b)
  {
    var p :| WalkFromTo(g, p, a, b);
    s := p[|p| - 2];
    assert Edge(g, p[|p| - 2], p[|p| - 2 + 1]);
    if |p| > 2 {
      var q := p[..|p| - 1];
      forall i | 0 <= i < |q| - 1
        ensures Edge(g, q[i], q[i + 1])
      {
        assert Edge(g, p[i], p[i + 1]);
      }
      assert WalkFromTo(g, q, a, s);
    }
  }

  lemma ReachesOrIsThenEdge(g: Sons, a: Node, b: Node, c: Node)
    requires ReachesOrIs(g, a, b) && Edge(g, b, c)
    ensures Reaches(g, a, c)
  {
    EdgeReaches(g, b, c);
    if a != b {
      ReachesTrans(g, a, b, c);
    }
  }

  lemma EdgeThenReachesOrIs(g: Sons, a: Node, b: Node, c: Node)
    requires Edge(g, a, b) && ReachesOrIs(g, b, c)
    ensures Reaches(g, a, c)
  {
    EdgeReaches(g, a, b);
    if b != c {
      ReachesTrans(g, a, b, c);
    }
  }

  lemma LeadsToCycleBack(g: Sons, a: Node, s: Node)
    requires Edge(g, a, s) && LeadsToCycle(g, s)
    ensures LeadsToCycle(g, a)
  {
    var c :| ReachesOrIs(g, s, c) && OnCycle(g, c);
    EdgeThenReachesOrIs(g, a, s, c);
  }

  /** A node leads to a cycle only through one of its sons. */
  lemma LeadsToCycleForward(g: Sons, a: Node) returns (s: Node)
    requires LeadsToCycle(g, a)
    ensures Edge(g, a, s) && LeadsToCycle(g, s)
  {
    var c :| ReachesOrIs(g, a, c) && OnCycle(g, c);
    s := FirstStep(g, a, c);
  }

  lemma OnCycleLeadsToCycle(g: Sons, a: Node)
    requires OnCycle(g, a)
    ensures LeadsToCycle(g, a)
  {
    assert ReachesOrIs(g, a, a);
  }

  /** A set that holds a and the sons of its members holds all a reaches. */
  lemma {:induction false} ClosedSetHoldsReached(g: Sons, s: set<Node>, a: Node, b: Node)
    requires a in s && Reaches(g, a, b)
    requires forall x, y :: x in s && Edge(g, x, y) ==> y in s
    ensures b in s
  {
    var p :| WalkFromTo(g, p, a, b);
    var i := 0;
    while i < |p| - 1
      invariant 0 <= i < |p| && p[i] in s
    {
      assert Edge(g, p[i], p[i + 1]);
      i := i + 1;
    }
  }

  // ---------------------------------------------------------------- building

  /** The graph after add_edge: both ends are nodes and the son is appended. */
  function WithEdge(g: Sons, from: Node, to: Node): Sons {
    var g1 := if to in g then g else g[to := []];
    g1[from := (if from in g1 then g1[from] else []) + [to]]
  }

  lemma WithEdgeEdges(g: Sons, from: Node, to: Node, a: Node, b: Node)
    ensures Edge(WithEdge(g, from, to), a, b) <==> Edge(g, a, b) || (a == from && b == to)
  {
  }

  lemma WithEdgeClosed(g: Sons, from: Node, to: Node)
    requires Closed(g)
    ensures Closed(WithEdge(g, from, to))
    ensures WithEdge(g, from, to).Keys == g.Keys + {from, to}
  {
    forall a, b | Edge(WithEdge(g, from, to), a, b)
      ensures b in WithEdge(g, from, to)
    {
      WithEdgeEdges(g, from, to, a, b);
    }
  }

  /** The edge is appended, missing ends are added, and no other node is touched. */
  lemma WithEdgeAppends(g: Sons, from: Node, to: Node, n: Node)
    ensures var g' := WithEdge(g, from, to);
            && g'.Keys == g.Keys + {from, to}
            && g'[from] == (if from in g then g[from] else []) + [to]
            && (n in g && n != from ==> g'[n] == g[n])
            && (to !in g && to != from ==> g'[to] == [])
  {
  }
}
