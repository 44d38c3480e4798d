/** What the accessibility packs are, in terms of paths. */
module Packs {
  import opened Graphs
  import opened LoopSearch

  /** Every edge can be walked back, by whatever path. */
  ghost predicate EdgesReturn(g: Sons) {
    forall a, b :: Edge(g, a, b) ==> ReachesOrIs(g, b, a)
  }

  ghost predicate Symmetric(g: Sons) {
    forall a, b :: Edge(g, a, b) ==> Edge(g, b, a)
  }

  /** n is reached from order[i] and from no earlier node. */
  ghost predicate Fresh(g: Sons, order: seq<Node>, i: nat, n: Node)
    requires i < |order|
  {
    ReachesOrIs(g, order[i], n) && !VisitedFrom(g, order, i, n)
  }

  /** x is n or a son of n. */
  ghost predicate AtOrBelow(g: Sons, n: Node, x: Node) {
    x == n || Edge(g, n, x)
  }

  /** The pack collected from order[i]: the nodes new to the search, and their sons. */
  ghost function Pack(g: Sons, order: seq<Node>, i: nat): set<Node>
    requires i < |order|
  {
    set x | x in g && exists n :: Fresh(g, order, i, n) && AtOrBelow(g, n, x)
  }

  ghost function PackList(g: Sons, order: seq<Node>, i: nat): seq<set<Node>>
    requires i <= |order|
  {
    if i == 0 then []
    else if VisitedFrom(g, order, i - 1, order[i - 1]) then PackList(g, order, i - 1)
    else PackList(g, order, i - 1) + [Pack(g, order, i - 1)]
  }

  // ------------------------------------------------- one search

  /** Newly coloured between c and c'. */
  ghost predicate New(c: Colours, c': Colours, n: Node) {
    n in c && n in c' && c[n] == Unchecked && c'[n] == Checked
  }

  ghost predicate TwoColoured(g: Sons, c: Colours) {
    && Closed(g) && Coloured(g, c)
    && forall n :: n in c ==> c[n] == Unchecked || c[n] == Checked
  }

  /** The search from root went from c to c' and gathered ret. */
  ghost predicate Gathered(g: Sons, c: Colours, c': Colours, root: Node, ret: set<Node>) {
    && TwoColoured(g, c) && TwoColoured(g, c')
    && (forall n :: n in c && c[n] == Checked ==> c'[n] == Checked)
    && (forall n :: New(c, c', n) ==> ReachesOrIs(g, root, n))
    && (forall x :: x in ret <==> exists n :: New(c, c', n) && AtOrBelow(g, n, x))
  }

  /** Apart from the nodes of except, newly coloured nodes have coloured sons. */
  ghost predicate SonsDone(g: Sons, c: Colours, c': Colours, except: set<Node>)
    requires TwoColoured(g, c')
  {
    forall n, s :: New(c, c', n) && n !in except && Edge(g, n, s) ==> c'[s] == Checked
  }

  lemma GatherRoot(g: Sons, c: Colours, root: Node)
    requires TwoColoured(g, c) && root in g && c[root] == Unchecked
    ensures Gathered(g, c, c[root := Checked], root, {root} + set s | s in g[root])
    ensures SonsDone(g, c, c[root := Checked], {root})
  {
    var c' := c[root := Checked];
    var ret := {root} + set s | s in g[root];
    assert New(c, c', root);
    forall x | x in ret
      ensures exists n :: New(c, c', n) && AtOrBelow(g, n, x)
    {
      assert AtOrBelow(g, root, x);
    }
  }

  lemma GatherChild(g: Sons, c: Colours, c1: Colours, c2: Colours, root: Node, child: Node,
                    ret1: set<Node>, ret2: set<Node>)
    requires Edge(g, root, child)
    requires Gathered(g, c, c1, root, ret1) && SonsDone(g, c, c1, {root})
    requires Gathered(g, c1, c2, child, ret2) && SonsDone(g, c1, c2, {})
    ensures Gathered(g, c, c2, root, ret1 + ret2) && SonsDone(g, c, c2, {root})
  {
    assert forall n :: New(c, c2, n) <==> New(c, c1, n) || New(c1, c2, n);
    forall n | New(c, c2, n)
      ensures ReachesOrIs(g, root, n)
    {
      if New(c1, c2, n) {
        EdgeThenReachesOrIs(g, root, child, n);
      }
    }
    forall x
      ensures x in ret1 + ret2 <==> exists n :: New(c, c2, n) && AtOrBelow(g, n, x)
    {
      if n :| New(c, c2, n) && AtOrBelow(g, n, x) {
        assert New(c, c1, n) || New(c1, c2, n);
      }
    }
  }

  ghost predicate SonsChecked(g: Sons, c: Colours, root: Node, i: nat)
    requires Coloured(g, c) && root in g && i <= |g[root]|
  {
    forall j :: 0 <= j < i ==> g[root][j] in c && c[g[root][j]] == Checked
  }

  lemma SonsCheckedStays(g: Sons, c: Colours, c': Colours, root: Node, child: Node, ret: set<Node>, i: nat)
    requires Gathered(g, c, c', child, ret) && root in g && i <= |g[root]|
    requires SonsChecked(g, c, root, i)
    ensures SonsChecked(g, c', root, i)
  {
    forall j | 0 <= j < i
      ensures g[root][j] in c' && c'[g[root][j]] == Checked
    {
      var n := g[root][j];
      assert n in c && c[n] == Checked;
    }
  }

  lemma CheckedShrinks(g: Sons, c: Colours, c': Colours, root: Node)
    requires Coloured(g, c) && Coloured(g, c') && New(c, c', root)
    requires forall n :: n in c && c[n] == Checked ==> c'[n] == Checked
    requires TwoColoured(g, c)
    ensures UncheckedNodes(c') < UncheckedNodes(c)
  {
    forall n | n in UncheckedNodes(c')
      ensures n in UncheckedNodes(c)
    {
      assert n in c;
    }
    assert root in UncheckedNodes(c) && root !in UncheckedNodes(c');
  }

  /** A node met before adds nothing to what has been visited. */
  lemma AlreadyVisited(g: Sons, order: seq<Node>, i: nat, c: Colours)
    requires i < |order| && order[i] in g && Coloured(g, c)
    requires VisitedExactly(g, order, i, c) && c[order[i]] != Unchecked
    ensures VisitedExactly(g, order, i + 1, c) && VisitedFrom(g, order, i, order[i])
  {
    assert VisitedFrom(g, order, i, order[i]);
    var k :| 0 <= k < i && ReachesOrIs(g, order[k], order[i]);
    forall n | n in g
      ensures c[n] != Unchecked <==> VisitedFrom(g, order, i + 1, n)
    {
      if ReachesOrIs(g, order[i], n) {
        ReachesOrIsTrans(g, order[k], order[i], n);
        assert VisitedFrom(g, order, i, n);
      }
    }
  }

  /** A complete search from order[i] gathers Pack(g, order, i). */
  lemma GatheredIsPack(g: Sons, order: seq<Node>, i: nat, c: Colours, c': Colours, ret: set<Node>)
    requires i < |order| && order[i] in g
    requires Gathered(g, c, c', order[i], ret) && SonsDone(g, c, c', {})
    requires VisitedExactly(g, order, i, c) && New(c, c', order[i])
    ensures ret == Pack(g, order, i)
    ensures VisitedExactly(g, order, i + 1, c')
  {
    var seen := set n | n in g && c'[n] == Checked;
    forall x, y | x in seen && Edge(g, x, y)
      ensures y in seen
    {
      if c[x] == Checked {
        var k :| 0 <= k < i && ReachesOrIs(g, order[k], x);
        ReachesOrIsThenEdge(g, order[k], x, y);
        assert VisitedFrom(g, order, i, y);
      } else {
        assert New(c, c', x);
      }
    }
    forall n
      ensures New(c, c', n) <==> Fresh(g, order, i, n)
    {
      if Fresh(g, order, i, n) {
        if n != order[i] {
          ClosedSetHoldsReached(g, seen, order[i], n);
        }
        assert n in seen && c[n] == Unchecked;
      }
    }
    forall n | n in g
      ensures c'[n] != Unchecked <==> VisitedFrom(g, order, i + 1, n)
    {
      if c[n] == Checked {
        assert VisitedFrom(g, order, i, n);
      } else {
        assert c'[n] == Checked <==> New(c, c', n);
        assert !VisitedFrom(g, order, i, n);
      }
    }
    forall x
      ensures x in ret <==> x in Pack(g, order, i)
    {
      if x in ret {
        var n :| New(c, c', n) && AtOrBelow(g, n, x);
        assert Fresh(g, order, i, n) && AtOrBelow(g, n, x);
        assert x in g;
      }
      if x in Pack(g, order, i) {
        var n :| Fresh(g, order, i, n) && AtOrBelow(g, n, x);
        assert New(c, c', n) && AtOrBelow(g, n, x);
      }
    }
  }

  // ------------------------------------------------- graphs whose edges return

  lemma ReachesOrIsTrans(g: Sons, a: Node, b: Node, c: Node)
    requires ReachesOrIs(g, a, b) && ReachesOrIs(g, b, c)
    ensures ReachesOrIs(g, a, c)
  {
    if a != b && b != c {
      ReachesTrans(g, a, b, c);
    }
  }

  lemma SymmetricEdgesReturn(g: Sons)
    requires Symmetric(g)
    ensures EdgesReturn(g)
  {
    forall a, b | Edge(g, a, b) ensures ReachesOrIs(g, b, a) {
      EdgeReaches(g, b, a);
    }
  }

  /** A path can be walked back edge by edge. */
  lemma {:induction false} WalkReturns(g: Sons, p: seq<Node>)
    requires EdgesReturn(g) && Walk(g, p) && p != []
    ensures ReachesOrIs(g, p[|p| - 1], p[0])
  {
    if |p| > 1 {
      var front := p[..|p| - 1];
      assert Walk(g, front) by {
        forall i | 0 <= i < |front| - 1 ensures Edge(g, front[i], front[i + 1]) {
          assert Edge(g, p[i], p[i + 1]);
        }
      }
      WalkReturns(g, front);
      assert Edge(g, p[|p| - 2], p[|p| - 2 + 1]);
      ReachesOrIsTrans(g, p[|p| - 1], p[|p| - 2], p[0]);
    }
  }

  lemma ReachReturns(g: Sons, a: Node, b: Node)
    requires EdgesReturn(g) && ReachesOrIs(g, a, b)
    ensures ReachesOrIs(g, b, a)
  {
    if a != b {
      var p :| WalkFromTo(g, p, a, b);
      WalkReturns(g, p);
    }
  }

  ghost predicate Connected(g: Sons, a: Node, b: Node) {
    ReachesOrIs(g, a, b) && ReachesOrIs(g, b, a)
  }

  /** When edges return, a pack is the whole component of its first node. */
  lemma ReturningPack(g: Sons, order: seq<Node>, i: nat)
    requires Closed(g) && EdgesReturn(g) && i < |order| && order[i] in g
    requires !VisitedFrom(g, order, i, order[i])
    ensures forall x :: x in Pack(g, order, i) <==> Connected(g, order[i], x)
  {
    var r := order[i];
    forall x
      ensures x in Pack(g, order, i) <==> Connected(g, r, x)
    {
      if x in Pack(g, order, i) {
        var n :| Fresh(g, order, i, n) && AtOrBelow(g, n, x);
        if x != n {
          ReachesOrIsThenEdge(g, r, n, x);
        }
        ReachReturns(g, r, x);
      }
      if Connected(g, r, x) {
        if x != r {
          var s := LastStep(g, r, x);
        }
        if VisitedFrom(g, order, i, x) {
          var k :| 0 <= k < i && ReachesOrIs(g, order[k], x);
          ReachesOrIsTrans(g, order[k], x, r);
        }
        assert Fresh(g, order, i, x) && AtOrBelow(g, x, x);
      }
    }
  }

  /** The packs of a list partition the visited nodes into components. */
  ghost predicate IsComponent(g: Sons, s: set<Node>) {
    s != {} && forall a :: a in s ==> forall x :: x in s <==> Connected(g, a, x)
  }

  ghost predicate Covered(packs: seq<set<Node>>, n: Node) {
    exists k :: 0 <= k < |packs| && n in packs[k]
  }

  ghost predicate Partition(g: Sons, packs: seq<set<Node>>) {
    && (forall k :: 0 <= k < |packs| ==> IsComponent(g, packs[k]))
    && (forall j, k :: 0 <= j < k < |packs| ==> packs[j] !! packs[k])
    && (forall n :: n in g ==> Covered(packs, n))
  }

  lemma ConnectedTrans(g: Sons, a: Node, b: Node, c: Node)
    requires Connected(g, a, b) && Connected(g, b, c)
    ensures Connected(g, a, c)
  {
    ReachesOrIsTrans(g, a, b, c);
    ReachesOrIsTrans(g, c, b, a);
  }

  lemma ReturningPackIsComponent(g: Sons, order: seq<Node>, i: nat)
    requires Closed(g) && EdgesReturn(g) && i < |order| && order[i] in g
    requires !VisitedFrom(g, order, i, order[i])
    ensures IsComponent(g, Pack(g, order, i))
  {
    ReturningPack(g, order, i);
    var s := Pack(g, order, i);
    assert Connected(g, order[i], order[i]);
    forall a | a in s
      ensures forall x :: x in s <==> Connected(g, a, x)
    {
      forall x
        ensures x in s <==> Connected(g, a, x)
      {
        if Connected(g, a, x) { ConnectedTrans(g, order[i], a, x); }
        if x in s { ConnectedTrans(g, a, order[i], x); }
      }
    }
  }

  /** packs are components, disjoint, made of visited nodes, and hold order[..i]. */
  ghost predicate PackedUpTo(g: Sons, order: seq<Node>, i: nat, packs: seq<set<Node>>)
    requires i <= |order|
  {
    && (forall k :: 0 <= k < |packs| ==> IsComponent(g, packs[k]))
    && (forall j, k :: 0 <= j < k < |packs| ==> packs[j] !! packs[k])
    && (forall k :: 0 <= k < |packs| ==> AllVisited(g, order, i, packs[k]))
    && (forall k {:trigger Covered(packs, order[k])} :: 0 <= k < i ==> Covered(packs, order[k]))
  }

  ghost predicate AllVisited(g: Sons, order: seq<Node>, i: nat, s: set<Node>)
    requires i <= |order|
  {
    forall n :: n in s ==> VisitedFrom(g, order, i, n)
  }

  lemma AllVisitedGrows(g: Sons, order: seq<Node>, i: nat, s: set<Node>)
    requires i < |order| && AllVisited(g, order, i, s)
    ensures AllVisited(g, order, i + 1, s)
  {
    forall n | n in s
      ensures VisitedFrom(g, order, i + 1, n)
    {
      assert VisitedFrom(g, order, i, n);
      var m :| 0 <= m < i && ReachesOrIs(g, order[m], n);
    }
  }

  /** A component that holds a node holding order[i] in reach holds order[i]. */
  lemma SeenNodeIsCovered(g: Sons, order: seq<Node>, i: nat, packs: seq<set<Node>>)
    requires EdgesReturn(g) && i < |order| && VisitedFrom(g, order, i, order[i])
    requires PackedUpTo(g, order, i, packs)
    ensures Covered(packs, order[i])
  {
    var k :| 0 <= k < i && ReachesOrIs(g, order[k], order[i]);
    ReachReturns(g, order[k], order[i]);
    assert Covered(packs, order[k]);
    var j :| 0 <= j < |packs| && order[k] in packs[j];
    assert IsComponent(g, packs[j]) && Connected(g, order[k], order[i]);
  }

  /** A component of visited nodes does not meet the component of a new node. */
  lemma NewPackIsDisjoint(g: Sons, order: seq<Node>, i: nat, s: set<Node>)
    requires Closed(g) && EdgesReturn(g) && i < |order| && order[i] in g
    requires !VisitedFrom(g, order, i, order[i])
    requires IsComponent(g, s) && AllVisited(g, order, i, s)
    ensures s !! Pack(g, order, i)
  {
    ReturningPack(g, order, i);
    forall n | n in s
      ensures n !in Pack(g, order, i)
    {
      assert VisitedFrom(g, order, i, n);
    }
  }

  lemma {:induction false} PackListPartitions(g: Sons, order: seq<Node>, i: nat)
    requires Closed(g) && EdgesReturn(g) && i <= |order|
    requires forall k :: 0 <= k < |order| ==> order[k] in g
    ensures PackedUpTo(g, order, i, PackList(g, order, i))
  {
    if i > 0 {
      var ps := PackList(g, order, i - 1);
      PackListPartitions(g, order, i - 1);
      forall k | 0 <= k < |ps|
        ensures AllVisited(g, order, i, ps[k])
      {
        AllVisitedGrows(g, order, i - 1, ps[k]);
      }
      if VisitedFrom(g, order, i - 1, order[i - 1]) {
        SeenNodeIsCovered(g, order, i - 1, ps);
        PackedSeen(g, order, i - 1, ps);
      } else {
        PackedNew(g, order, i - 1, ps);
      }
    }
  }

  lemma PackedSeen(g: Sons, order: seq<Node>, i: nat, packs: seq<set<Node>>)
    requires i < |order| && PackedUpTo(g, order, i, packs) && Covered(packs, order[i])
    requires forall k :: 0 <= k < |packs| ==> AllVisited(g, order, i + 1, packs[k])
    ensures PackedUpTo(g, order, i + 1, packs)
  {
    forall k | 0 <= k < i + 1
      ensures Covered(packs, order[k])
    {
      assert k == i || Covered(packs, order[k]);
    }
  }

  lemma PackedNew(g: Sons, order: seq<Node>, i: nat, packs: seq<set<Node>>)
    requires Closed(g) && EdgesReturn(g) && i < |order| && order[i] in g
    requires !VisitedFrom(g, order, i, order[i]) && PackedUpTo(g, order, i, packs)
    requires forall k :: 0 <= k < |packs| ==> AllVisited(g, order, i + 1, packs[k])
    ensures PackedUpTo(g, order, i + 1, packs + [Pack(g, order, i)])
  {
    var p := Pack(g, order, i);
    var qs := packs + [p];
    ReturningPack(g, order, i);
    ReturningPackIsComponent(g, order, i);
    assert Connected(g, order[i], order[i]) && order[i] in p;
    assert AllVisited(g, order, i + 1, p);
    forall j | 0 <= j < |packs|
      ensures packs[j] !! p
    {
      NewPackIsDisjoint(g, order, i, packs[j]);
    }
    forall k | 0 <= k < i + 1
      ensures Covered(qs, order[k])
    {
      if k == i {
        assert order[k] in qs[|packs|];
      } else {
        assert Covered(packs, order[k]);
        var j :| 0 <= j < |packs| && order[k] in packs[j];
        assert order[k] in qs[j];
      }
    }
  }

  /** When every edge can be walked back, the packs are the components of mutual
      reachability. */
  lemma PacksArePartition(g: Sons, order: seq<Node>)
    requires Closed(g) && EdgesReturn(g) && IsNodeOrder(g, order)
    ensures Partition(g, PackList(g, order, |order|))
  {
    OrderInGraph(g, order);
    PackListPartitions(g, order, |order|);
    var ps := PackList(g, order, |order|);
    forall n | n in g
      ensures Covered(ps, n)
    {
      assert n in order;
      var k :| 0 <= k < |order| && order[k] == n;
      assert Covered(ps, order[k]);
    }
  }

  lemma OrderInGraph(g: Sons, order: seq<Node>)
    requires IsNodeOrder(g, order)
    ensures forall k :: 0 <= k < |order| ==> order[k] in g
  {
    forall k | 0 <= k < |order|
      ensures order[k] in g
    {
      assert order[k] in order;
    }
  }

  // ------------------------------------------------- every graph

  /** The pack of a start that was not visited has its place in the list. */
  lemma {:induction false} PackPlace(g: Sons, order: seq<Node>, i: nat, k: nat)
    requires k < i <= |order| && !VisitedFrom(g, order, k, order[k])
    ensures |PackList(g, order, k)| < |PackList(g, order, i)|
    ensures PackList(g, order, i)[|PackList(g, order, k)|] == Pack(g, order, k)
  {
    if k < i - 1 { PackPlace(g, order, i - 1, k); }
  }

  lemma {:induction false} PlaceIsPack(g: Sons, order: seq<Node>, i: nat, m: nat) returns (k: nat)
    requires i <= |order| && m < |PackList(g, order, i)|
    ensures k < i && !VisitedFrom(g, order, k, order[k])
    ensures m == |PackList(g, order, k)| && PackList(g, order, i)[m] == Pack(g, order, k)
  {
    if m < |PackList(g, order, i - 1)| {
      k := PlaceIsPack(g, order, i - 1, m);
    } else {
      k := i - 1;
    }
  }

  /** Every visited node is new to exactly the first start that reaches it. */
  lemma {:induction false} FirstVisit(g: Sons, order: seq<Node>, i: nat, n: Node) returns (k: nat)
    requires i <= |order| && VisitedFrom(g, order, i, n)
    ensures k < i && Fresh(g, order, k, n) && !VisitedFrom(g, order, k, order[k])
  {
    if VisitedFrom(g, order, i - 1, n) {
      k := FirstVisit(g, order, i - 1, n);
    } else {
      k := i - 1;
      if j :| 0 <= j < k && ReachesOrIs(g, order[j], order[k]) {
        ReachesOrIsTrans(g, order[j], order[k], n);
      }
    }
  }

  /** An edge has both its ends in some pack. */
  lemma EdgeInPack(g: Sons, order: seq<Node>, a: Node, b: Node) returns (k: nat)
    requires Closed(g) && IsNodeOrder(g, order) && Edge(g, a, b)
    ensures k < |order| && !VisitedFrom(g, order, k, order[k])
    ensures a in Pack(g, order, k) && b in Pack(g, order, k)
  {
    assert a in order;
    var i :| 0 <= i < |order| && order[i] == a;
    assert ReachesOrIs(g, order[i], a);
    k := FirstVisit(g, order, |order|, a);
    assert Fresh(g, order, k, a) && AtOrBelow(g, a, a) && AtOrBelow(g, a, b);
  }

  /** The packs are the components of mutual reachability exactly when every edge can
      be walked back. */
  lemma PartitionIff(g: Sons, order: seq<Node>)
    requires Closed(g) && IsNodeOrder(g, order)
    ensures Partition(g, PackList(g, order, |order|)) <==> EdgesReturn(g)
  {
    if EdgesReturn(g) { PacksArePartition(g, order); }
    if Partition(g, PackList(g, order, |order|)) {
      forall a, b | Edge(g, a, b) ensures ReachesOrIs(g, b, a) {
        var k := EdgeInPack(g, order, a, b);
        PackPlace(g, order, |order|, k);
        assert IsComponent(g, Pack(g, order, k));
        assert Connected(g, a, b);
      }
    }
  }

  ghost predicate PairwiseDisjoint(packs: seq<set<Node>>) {
    forall j, k :: 0 <= j < k < |packs| ==> packs[j] !! packs[k]
  }

  /** Some start finds a new node with an edge to a node seen from an earlier start. */
  ghost predicate PointsBack(g: Sons, order: seq<Node>, i: nat, n: Node, x: Node)
    requires i < |order|
  {
    Fresh(g, order, i, n) && Edge(g, n, x) && VisitedFrom(g, order, i, x)
  }

  ghost predicate NonePointsBack(g: Sons, order: seq<Node>) {
    forall i, n, x :: 0 <= i < |order| ==> !PointsBack(g, order, i, n, x)
  }

  lemma EarlierPackVisited(g: Sons, order: seq<Node>, j: nat, i: nat, x: Node)
    requires j < i < |order| && x in Pack(g, order, j)
    ensures VisitedFrom(g, order, i, x)
  {
    var n :| Fresh(g, order, j, n) && AtOrBelow(g, n, x);
    if x != n { ReachesOrIsThenEdge(g, order[j], n, x); }
    assert ReachesOrIs(g, order[j], x);
  }

  lemma AllNewInPack(g: Sons, order: seq<Node>, i: nat)
    requires i < |order| && NonePointsBack(g, order)
    ensures forall x :: x in Pack(g, order, i) ==> !VisitedFrom(g, order, i, x)
  {
    forall x | x in Pack(g, order, i) ensures !VisitedFrom(g, order, i, x) {
      var n :| Fresh(g, order, i, n) && AtOrBelow(g, n, x);
      assert !PointsBack(g, order, i, n, x);
    }
  }

  lemma PointingBackOverlaps(g: Sons, order: seq<Node>, i: nat, n: Node, x: Node)
    requires Closed(g) && i < |order| && PointsBack(g, order, i, n, x)
    ensures !PairwiseDisjoint(PackList(g, order, |order|))
  {
    var k := FirstVisit(g, order, i, x);
    assert Fresh(g, order, k, x) && AtOrBelow(g, x, x);
    assert AtOrBelow(g, n, x);
    assert !VisitedFrom(g, order, i, order[i]) by {
      if j :| 0 <= j < i && ReachesOrIs(g, order[j], order[i]) {
        ReachesOrIsTrans(g, order[j], order[i], n);
      }
    }
    PackPlace(g, order, i, k);
    PackPlace(g, order, |order|, k);
    PackPlace(g, order, |order|, i);
    assert x in Pack(g, order, k) && x in Pack(g, order, i);
  }

  /** The packs are disjoint exactly when no new node points back to one seen before. */
  lemma DisjointIff(g: Sons, order: seq<Node>)
    requires Closed(g)
    ensures PairwiseDisjoint(PackList(g, order, |order|)) <==> NonePointsBack(g, order)
  {
    var ps := PackList(g, order, |order|);
    if NonePointsBack(g, order) {
      forall l, m | 0 <= l < m < |ps| ensures ps[l] !! ps[m] {
        var j := PlaceIsPack(g, order, |order|, l);
        var i := PlaceIsPack(g, order, |order|, m);
        if i < j { PackPlace(g, order, j, i); }
        forall x | x in ps[l] ensures x !in ps[m] {
          EarlierPackVisited(g, order, j, i, x);
          AllNewInPack(g, order, i);
        }
      }
    } else {
      var i, n, x :| 0 <= i < |order| && PointsBack(g, order, i, n, x);
      PointingBackOverlaps(g, order, i, n, x);
    }
  }

  // ------------------------------------------------- related nodes

  /** An edge, in one direction or the other. */
  predicate Linked(g: Sons, a: Node, b: Node) { Edge(g, a, b) || Edge(g, b, a) }

  ghost predicate Chain(g: Sons, p: seq<Node>) {
    forall i :: 0 <= i < |p| - 1 ==> Linked(g, p[i], p[i + 1])
  }

  ghost predicate ChainFromTo(g: Sons, p: seq<Node>, a: Node, b: Node) {
    p != [] && p[0] == a && p[|p| - 1] == b && Chain(g, p)
  }

  /** The nodes are related in some way: joined by edges, whatever their directions. */
  ghost predicate Related(g: Sons, a: Node, b: Node) {
    exists p :: ChainFromTo(g, p, a, b)
  }

  lemma RelatedBack(g: Sons, a: Node, b: Node)
    requires Related(g, a, b)
    ensures Related(g, b, a)
  {
    var p :| ChainFromTo(g, p, a, b);
    var q := seq(|p|, i requires 0 <= i < |p| => p[|p| - 1 - i]);
    forall i | 0 <= i < |q| - 1 ensures Linked(g, q[i], q[i + 1]) {
      assert Linked(g, p[|p| - 2 - i], p[|p| - 2 - i + 1]);
    }
    assert ChainFromTo(g, q, b, a);
  }

  lemma RelatedTrans(g: Sons, a: Node, b: Node, c: Node)
    requires Related(g, a, b) && Related(g, b, c)
    ensures Related(g, a, c)
  {
    var p :| ChainFromTo(g, p, a, b);
    var q :| ChainFromTo(g, q, b, c);
    var r := p + q[1..];
    forall i | 0 <= i < |r| - 1 ensures Linked(g, r[i], r[i + 1]) {
      if i < |p| - 1 {
        assert r[i] == p[i] && r[i + 1] == p[i + 1];
      } else {
        assert r[i] == q[i - (|p| - 1)] && r[i + 1] == q[i - (|p| - 1) + 1];
      }
    }
    assert ChainFromTo(g, r, a, c);
  }

  lemma ReachedIsRelated(g: Sons, a: Node, b: Node)
    requires ReachesOrIs(g, a, b)
    ensures Related(g, a, b)
  {
    if a == b {
      assert ChainFromTo(g, [a], a, b);
    } else {
      var p :| WalkFromTo(g, p, a, b);
      forall i | 0 <= i < |p| - 1 ensures Linked(g, p[i], p[i + 1]) {
        assert Edge(g, p[i], p[i + 1]);
      }
      assert ChainFromTo(g, p, a, b);
    }
  }

  /** No edge has one end in s and the other outside. */
  ghost predicate Unlinked(g: Sons, s: set<Node>) {
    forall a, b :: Edge(g, a, b) ==> (a in s <==> b in s)
  }

  lemma {:induction false} ChainStaysInside(g: Sons, s: set<Node>, p: seq<Node>)
    requires Unlinked(g, s) && Chain(g, p) && p != [] && p[0] in s
    ensures p[|p| - 1] in s
  {
    if |p| > 1 {
      var front := p[..|p| - 1];
      assert Chain(g, front) by {
        forall i | 0 <= i < |front| - 1 ensures Linked(g, front[i], front[i + 1]) {
          assert Linked(g, p[i], p[i + 1]);
        }
      }
      ChainStaysInside(g, s, front);
      assert Linked(g, p[|p| - 2], p[|p| - 2 + 1]);
    }
  }

  /** All that is related to one of its nodes, and nothing else. */
  ghost predicate IsRelatedGroup(g: Sons, s: set<Node>) {
    s != {} && forall a, x :: a in s ==> (x in s <==> Related(g, a, x))
  }

  /** What is promised: nodes of one pack are related in some way, and between packs
      there is no relation at all. */
  ghost predicate KeepsPromise(g: Sons, packs: seq<set<Node>>) {
    && (forall k :: 0 <= k < |packs| ==> IsRelatedGroup(g, packs[k]))
    && PairwiseDisjoint(packs)
    && (forall n :: n in g ==> Covered(packs, n))
  }

  /** When no new node points back, a pack is exactly what its start finds new. */
  lemma PackIsNew(g: Sons, order: seq<Node>, i: nat, x: Node)
    requires Closed(g) && NonePointsBack(g, order) && i < |order| && order[i] in g
    ensures x in Pack(g, order, i) <==> Fresh(g, order, i, x)
  {
    if x in Pack(g, order, i) {
      AllNewInPack(g, order, i);
      var n :| Fresh(g, order, i, n) && AtOrBelow(g, n, x);
      if x != n { ReachesOrIsThenEdge(g, order[i], n, x); }
    }
    if Fresh(g, order, i, x) {
      assert AtOrBelow(g, x, x);
      if x != order[i] { var s := LastStep(g, order[i], x); }
    }
  }

  /** A node is new to one start only. */
  lemma NewOnce(g: Sons, order: seq<Node>, i: nat, j: nat, x: Node)
    requires i < |order| && j < |order| && Fresh(g, order, i, x) && Fresh(g, order, j, x)
    ensures i == j
  {
    assert ReachesOrIs(g, order[i], x) && ReachesOrIs(g, order[j], x);
  }

  lemma PackIsUnlinked(g: Sons, order: seq<Node>, i: nat)
    requires Closed(g) && IsNodeOrder(g, order) && NonePointsBack(g, order) && i < |order|
    ensures Unlinked(g, Pack(g, order, i))
  {
    OrderInGraph(g, order);
    forall a, b | Edge(g, a, b) ensures a in Pack(g, order, i) <==> b in Pack(g, order, i) {
      var k := EdgeInPack(g, order, a, b);
      PackIsNew(g, order, k, a);
      PackIsNew(g, order, k, b);
      PackIsNew(g, order, i, a);
      PackIsNew(g, order, i, b);
      if Fresh(g, order, i, a) { NewOnce(g, order, i, k, a); }
      if Fresh(g, order, i, b) { NewOnce(g, order, i, k, b); }
    }
  }

  lemma PackIsRelatedGroup(g: Sons, order: seq<Node>, i: nat)
    requires Closed(g) && IsNodeOrder(g, order) && NonePointsBack(g, order) && i < |order|
    requires !VisitedFrom(g, order, i, order[i])
    ensures IsRelatedGroup(g, Pack(g, order, i))
  {
    var s, root := Pack(g, order, i), order[i];
    OrderInGraph(g, order);
    PackIsUnlinked(g, order, i);
    PackIsNew(g, order, i, root);
    assert root in s;
    forall x | x in s ensures Related(g, root, x) {
      PackIsNew(g, order, i, x);
      ReachedIsRelated(g, root, x);
    }
    forall a, x | a in s ensures x in s <==> Related(g, a, x) {
      if x in s {
        RelatedBack(g, root, a);
        RelatedTrans(g, a, root, x);
      }
      if Related(g, a, x) {
        var p :| ChainFromTo(g, p, a, x);
        ChainStaysInside(g, s, p);
      }
    }
  }

  /** Every node is in the pack of the first start that reaches it. */
  lemma EveryNodeCovered(g: Sons, order: seq<Node>, n: Node)
    requires IsNodeOrder(g, order) && n in g
    ensures Covered(PackList(g, order, |order|), n)
  {
    assert n in order;
    var i :| 0 <= i < |order| && order[i] == n;
    assert ReachesOrIs(g, order[i], n);
    var k := FirstVisit(g, order, |order|, n);
    assert Fresh(g, order, k, n) && AtOrBelow(g, n, n);
    PackPlace(g, order, |order|, k);
    assert n in PackList(g, order, |order|)[|PackList(g, order, k)|];
  }

  /** The packs are what the documentation promises, related inside and unrelated to
      each other, exactly when no new node points back to one seen before. */
  lemma PromiseKeptIff(g: Sons, order: seq<Node>)
    requires Closed(g) && IsNodeOrder(g, order)
    ensures KeepsPromise(g, PackList(g, order, |order|)) <==> NonePointsBack(g, order)
  {
    DisjointIff(g, order);
    var ps := PackList(g, order, |order|);
    if NonePointsBack(g, order) {
      forall m | 0 <= m < |ps| ensures IsRelatedGroup(g, ps[m]) {
        var k := PlaceIsPack(g, order, |order|, m);
        PackIsRelatedGroup(g, order, k);
      }
      forall n | n in g ensures Covered(ps, n) { EveryNodeCovered(g, order, n); }
    }
  }

  /** A single edge to an earlier node is enough for packs that overlap. Taken in
      the other order the same graph keeps the promise, with one pack that is not a
      component of mutual reachability. */
  lemma OneWayEdgeOverlaps()
    ensures var g: Sons := map[0 := [], 1 := [0]];
            && PackList(g, [0, 1], 2) == [{0}, {1, 0}] && !KeepsPromise(g, [{0}, {1, 0}])
            && PackList(g, [1, 0], 2) == [{1, 0}] && KeepsPromise(g, [{1, 0}]) && !IsComponent(g, {1, 0})
  {
    var g: Sons := map[0 := [], 1 := [0]];
    forall b ensures !Reaches(g, 0, b) {
      if Reaches(g, 0, b) {
        var s := FirstStep(g, 0, b);
      }
    }
    EdgeReaches(g, 1, 0);
    SonFirst(g);
    FatherFirst(g);
    assert !Connected(g, 1, 0);
    assert !PairwiseDisjoint([{0}, {1, 0}]) by {
      var ps: seq<set<Node>> := [{0}, {1, 0}];
      assert 0 in ps[0] && 0 in ps[1];
    }
    OneGroup(g);
  }

  lemma SonFirst(g: Sons)
    requires g == map[0 := [], 1 := [0]] && forall b :: !Reaches(g, 0, b)
    ensures PackList(g, [0, 1], 2) == [{0}, {1, 0}]
  {
    var order := [0, 1];
    assert !VisitedFrom(g, order, 0, 0);
    assert Fresh(g, order, 0, 0) && AtOrBelow(g, 0, 0);
    assert Pack(g, order, 0) == {0};
    assert !VisitedFrom(g, order, 1, 1);
    assert Fresh(g, order, 1, 1) && AtOrBelow(g, 1, 1) && AtOrBelow(g, 1, 0);
    assert Pack(g, order, 1) == {1, 0};
    assert PackList(g, order, 1) == [{0}];
  }

  lemma OneGroup(g: Sons)
    requires g == map[0 := [], 1 := [0]]
    ensures KeepsPromise(g, [{1, 0}])
  {
    var s: set<Node> := {1, 0};
    assert Unlinked(g, s);
    EdgeReaches(g, 1, 0);
    ReachedIsRelated(g, 1, 0);
    ReachedIsRelated(g, 0, 0);
    ReachedIsRelated(g, 1, 1);
    RelatedBack(g, 1, 0);
    forall a, x | a in s ensures x in s <==> Related(g, a, x) {
      if p :| ChainFromTo(g, p, a, x) { ChainStaysInside(g, s, p); }
    }
    forall n | n in g ensures Covered([s], n) { assert n in [s][0]; }
  }

  lemma FatherFirst(g: Sons)
    requires g == map[0 := [], 1 := [0]] && Reaches(g, 1, 0)
    ensures PackList(g, [1, 0], 2) == [{1, 0}]
  {
    var order := [1, 0];
    assert !VisitedFrom(g, order, 0, 1);
    assert Fresh(g, order, 0, 1) && AtOrBelow(g, 1, 1) && AtOrBelow(g, 1, 0);
    assert Pack(g, order, 0) == {1, 0};
    assert ReachesOrIs(g, order[0], 0);
    assert VisitedFrom(g, order, 1, 0);
    assert PackList(g, order, 1) == [{1, 0}];
  }
}
