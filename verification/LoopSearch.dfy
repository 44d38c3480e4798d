/** The colour discipline of the loop search, on values: what holds of the
    colours at every moment of the search, and why each recolouring keeps it. */
module LoopSearch {
  import opened Graphs

  ghost predicate Coloured(g: Sons, c: Colours) {
    c.Keys == g.Keys
  }

  predicate Bad(s: Status) {
    s == NearLoop || s == LoopInside
  }

  /** Facts about one node that do not depend on the search stack. */
  ghost predicate NodeSound(g: Sons, c: Colours, n: Node)
    requires Coloured(g, c) && n in g
  {
    && (c[n] == Okay ==> !LeadsToCycle(g, n))
    && (Bad(c[n]) ==> LeadsToCycle(g, n))
    && (c[n] == LoopInside ==> exists p :: Edge(g, p, n) && c[p] != Unchecked)
    && c[n] != Checked
  }

  /** Nodes on the stack are temporary or already known to be bad; only they
      can be temporary. A finished node has all its sons settled. */
  ghost predicate NodePlaced(g: Sons, c: Colours, stack: set<Node>, n: Node)
    requires Closed(g) && Coloured(g, c) && n in g
  {
    && (n in stack ==> c[n] == Temporary || Bad(c[n]))
    && (c[n] == Temporary ==> n in stack)
    && (c[n] != Unchecked && n !in stack ==>
          forall s :: Edge(g, n, s) ==> Settled(c[s]))
  }

  predicate Settled(s: Status) {
    s == Okay || s == LoopInside
  }

  ghost predicate SearchInv(g: Sons, c: Colours, stack: set<Node>) {
    && Closed(g) && Coloured(g, c) && stack <= g.Keys
    && (forall n {:trigger NodeSound(g, c, n)} :: n in g ==> NodeSound(g, c, n))
    && (forall n {:trigger NodePlaced(g, c, stack, n)} :: n in g ==> NodePlaced(g, c, stack, n))
  }

  /** How the colour of a visited node may change: bad or temporary nodes may
      be promoted to LoopInside, which is final, as is Okay. */
  predicate Promotes(s: Status, s': Status) {
    s' == s || (s' == LoopInside && (s == Temporary || s == NearLoop))
  }

  ghost predicate Advances(c: Colours, c': Colours, except: Node) {
    && c'.Keys == c.Keys
    && (forall n :: n in c && n != except && c[n] != Unchecked ==> Promotes(c[n], c'[n]))
    && (except in c && c[except] != Unchecked ==> c'[except] != Unchecked)
    && (except in c && c[except] == LoopInside ==> c'[except] == LoopInside)
  }

  function UncheckedNodes(c: Colours): (u: set<Node>)
    ensures u <= c.Keys
  {
    set n | n in c && c[n] == Unchecked
  }

  lemma AdvancesShrinks(c: Colours, c': Colours, root: Node)
    requires Advances(c, c', root)
    requires root in c && c[root] == Unchecked && c'[root] != Unchecked
    ensures UncheckedNodes(c') < UncheckedNodes(c)
  {
    forall n | n in UncheckedNodes(c')
      ensures n in UncheckedNodes(c)
    {
      assert n in c;
    }
    assert root in UncheckedNodes(c) && root !in UncheckedNodes(c');
  }

  lemma SettledIsFinal(c: Colours, c': Colours, root: Node, n: Node)
    requires Advances(c, c', root) && n in c && Settled(c[n])
    requires n == root ==> c[n] == LoopInside
    ensures c'[n] == c[n]
  {
  }

  lemma PushKeepsInv(g: Sons, c: Colours, stack: set<Node>, root: Node)
    requires SearchInv(g, c, stack)
    requires root in g && c[root] == Unchecked
    ensures SearchInv(g, c[root := Temporary], stack + {root})
  {
    var c' := c[root := Temporary];
    forall n | n in g
      ensures NodeSound(g, c', n)
    {
      assert NodeSound(g, c, n);
      if c[n] == LoopInside {
        var p :| Edge(g, p, n) && c[p] != Unchecked;
        assert Edge(g, p, n) && c'[p] != Unchecked;
      }
    }
    forall n | n in g
      ensures NodePlaced(g, c', stack + {root}, n)
    {
      assert NodePlaced(g, c, stack, n);
    }
  }

  /** Recolouring visited nodes to LoopInside when they do lead to a cycle. */
  lemma MarkLoopInside(g: Sons, c: Colours, stack: set<Node>, p: Node, n: Node)
    requires SearchInv(g, c, stack)
    requires Edge(g, p, n) && p in g && c[p] != Unchecked
    requires n in g && c[n] != Unchecked && LeadsToCycle(g, n)
    ensures SearchInv(g, c[n := LoopInside], stack)
  {
    var c' := c[n := LoopInside];
    forall m | m in g
      ensures NodeSound(g, c', m)
    {
      assert NodeSound(g, c, m);
      if m == n {
        assert Edge(g, p, n) && c'[p] != Unchecked;
      } else if c'[m] == LoopInside {
        var q :| Edge(g, q, m) && c[q] != Unchecked;
        assert Edge(g, q, m) && c'[q] != Unchecked;
      }
    }
    forall m | m in g
      ensures NodePlaced(g, c', stack, m)
    {
      assert NodePlaced(g, c, stack, m);
    }
  }

  lemma MarkNearLoop(g: Sons, c: Colours, stack: set<Node>, n: Node)
    requires SearchInv(g, c, stack)
    requires n in stack && c[n] != LoopInside && LeadsToCycle(g, n)
    ensures SearchInv(g, c[n := NearLoop], stack)
  {
    var c' := c[n := NearLoop];
    assert NodePlaced(g, c, stack, n);
    forall m | m in g
      ensures NodeSound(g, c', m)
    {
      assert NodeSound(g, c, m);
      if c'[m] == LoopInside {
        var q :| Edge(g, q, m) && c[q] != Unchecked;
        assert Edge(g, q, m) && c'[q] != Unchecked;
      }
    }
    forall m | m in g
      ensures NodePlaced(g, c', stack, m)
    {
      assert NodePlaced(g, c, stack, m);
    }
  }

  /** The root leaves the stack once all its sons are settled: still temporary
      means every son is fine, so the root is too. */
  lemma PopKeepsInv(g: Sons, c: Colours, stack: set<Node>, root: Node)
    requires root in g && root !in stack
    requires SearchInv(g, c, stack + {root})
    requires forall s :: Edge(g, root, s) ==> Settled(c[s])
    requires c[root] == Temporary ==> forall s :: Edge(g, root, s) ==> c[s] == Okay
    ensures SearchInv(g, if c[root] == Temporary then c[root := Okay] else c, stack)
  {
    var c' := if c[root] == Temporary then c[root := Okay] else c;
    forall s | Edge(g, root, s)
      ensures c[root] == Temporary ==> !LeadsToCycle(g, s)
    {
      assert NodeSound(g, c, s);
    }
    if c[root] == Temporary && LeadsToCycle(g, root) {
      var s := LeadsToCycleForward(g, root);
    }
    forall n | n in g
      ensures NodeSound(g, c', n)
    {
      assert NodeSound(g, c, n);
      if c'[n] == LoopInside {
        var p :| Edge(g, p, n) && c[p] != Unchecked;
        assert Edge(g, p, n) && c'[p] != Unchecked;
      }
    }
    forall n | n in g
      ensures NodePlaced(g, c', stack, n)
    {
      assert NodePlaced(g, c, stack + {root}, n);
    }
  }

  /** The stack is a path that ends in an edge to root. */
  ghost predicate StackAbove(g: Sons, stack: set<Node>, root: Node) {
    && (forall a :: a in stack ==> Reaches(g, a, root))
    && (stack != {} ==> exists p :: p in stack && Edge(g, p, root))
  }

  lemma StackAboveChild(g: Sons, stack: set<Node>, root: Node, child: Node)
    requires Edge(g, root, child) && StackAbove(g, stack, root)
    ensures StackAbove(g, stack + {root}, child)
  {
    assert root in stack + {root} && Edge(g, root, child);
    forall a | a in stack + {root}
      ensures Reaches(g, a, child)
    {
      ReachesOrIsThenEdge(g, a, root, child);
    }
  }

  /** What one son does to the colours, as a function of its status. */
  function AfterSon(c: Colours, root: Node, child: Node): Colours
    requires root in c && child in c
  {
    if c[child] == Temporary then c[child := LoopInside][root := LoopInside]
    else if Bad(c[child]) then
      (if c[root] != LoopInside then c[root := NearLoop] else c)[child := LoopInside]
    else c
  }

  /** Meeting a temporary son closes a cycle through it; meeting a bad son
      shows that the root leads to a cycle. Either way the invariant stands. */
  lemma StepSound(g: Sons, c: Colours, stack: set<Node>, root: Node, child: Node)
    requires root in g && SearchInv(g, c, stack + {root}) && Edge(g, root, child)
    requires c[child] != Unchecked
    requires StackAbove(g, stack, root)
    ensures SearchInv(g, AfterSon(c, root, child), stack + {root})
    ensures Settled(AfterSon(c, root, child)[child])
    ensures AfterSon(c, root, child)[root] == Temporary ==>
              c[root] == Temporary && c[child] == Okay
  {
    var stack' := stack + {root};
    assert NodeSound(g, c, child) && NodePlaced(g, c, stack', child);
    assert NodePlaced(g, c, stack', root);
    if c[child] == Temporary {
      ReachesOrIsThenEdge(g, child, root, child);
      OnCycleLeadsToCycle(g, child);
      LeadsToCycleBack(g, root, child);
      MarkLoopInside(g, c, stack', root, child);
      var c1 := c[child := LoopInside];
      if child == root {
        MarkLoopInside(g, c1, stack', root, root);
      } else {
        var p :| p in stack && Edge(g, p, root);
        assert NodePlaced(g, c, stack', p);
        MarkLoopInside(g, c1, stack', p, root);
      }
    } else if Bad(c[child]) {
      LeadsToCycleBack(g, root, child);
      if c[root] != LoopInside {
        MarkNearLoop(g, c, stack', root);
        MarkLoopInside(g, c[root := NearLoop], stack', root, child);
      } else {
        MarkLoopInside(g, c, stack', root, child);
      }
    }
  }

  ghost predicate NewReachable(g: Sons, c: Colours, c': Colours, root: Node)
    requires Coloured(g, c) && Coloured(g, c')
  {
    forall n :: n in g && c[n] == Unchecked && c'[n] != Unchecked ==> ReachesOrIs(g, root, n)
  }

  /** Scanning one son, with the search below it, only promotes other nodes
      and only visits nodes the root reaches. */
  lemma ScanAdvances(g: Sons, c: Colours, c1: Colours, root: Node, child: Node)
    requires Coloured(g, c) && Coloured(g, c1) && root in g && child in g && Edge(g, root, child)
    requires c[root] != Unchecked && c[root] != Okay
    requires c1 == c || (c[child] == Unchecked && Advances(c, c1, child) && NewReachable(g, c, c1, child))
    requires c1[child] != Unchecked
    ensures Advances(c, AfterSon(c1, root, child), root)
    ensures NewReachable(g, c, AfterSon(c1, root, child), root)
  {
    forall n | n in g && c[n] == Unchecked && c1[n] != Unchecked
      ensures ReachesOrIs(g, root, n)
    {
      EdgeThenReachesOrIs(g, root, child, n);
    }
  }

  /** The first i sons of root are settled, and all fine if root still may be. */
  ghost predicate Scanned(g: Sons, c: Colours, root: Node, i: nat)
    requires Closed(g) && Coloured(g, c) && root in g && i <= |g[root]|
  {
    forall j :: 0 <= j < i ==>
      && Edge(g, root, g[root][j])
      && Settled(c[g[root][j]])
      && (c[root] == Temporary ==> c[g[root][j]] == Okay)
  }

  lemma ScannedStep(g: Sons, c: Colours, c': Colours, root: Node, i: nat)
    requires Closed(g) && Coloured(g, c) && Coloured(g, c') && root in g && i < |g[root]|
    requires Scanned(g, c, root, i) && c[root] != Okay && Advances(c, c', root)
    requires Edge(g, root, g[root][i]) && Settled(c'[g[root][i]])
    requires c'[root] == Temporary ==> c[root] == Temporary && c'[g[root][i]] == Okay
    ensures Scanned(g, c', root, i + 1)
  {
    forall j | 0 <= j < i
      ensures c'[g[root][j]] == c[g[root][j]]
    {
      SettledIsFinal(c, c', root, g[root][j]);
    }
  }

  lemma AdvancesTrans(g: Sons, c: Colours, c1: Colours, c2: Colours, root: Node)
    requires Coloured(g, c) && Coloured(g, c1) && Coloured(g, c2)
    requires Advances(c, c1, root) && Advances(c1, c2, root)
    requires NewReachable(g, c, c1, root) && NewReachable(g, c1, c2, root)
    ensures Advances(c, c2, root) && NewReachable(g, c, c2, root)
  {
    forall n | n in g && c[n] == Unchecked && c2[n] != Unchecked
      ensures ReachesOrIs(g, root, n)
    {
      assert c1[n] == Unchecked || c1[n] != Unchecked;
    }
  }

  // ------------------------------------------------- the report

  /** The nodes the search has coloured after handling order[..i]. */
  ghost predicate VisitedFrom(g: Sons, order: seq<Node>, i: nat, n: Node)
    requires i <= |order|
  {
    exists k :: 0 <= k < i && ReachesOrIs(g, order[k], n)
  }

  /** Node order[j] leads to a cycle and lies behind a node that is not later
      than itself in the iteration order. */
  ghost predicate Reported(g: Sons, order: seq<Node>, j: nat)
    requires j < |order|
  {
    && LeadsToCycle(g, order[j])
    && exists k :: 0 <= k <= j && Reaches(g, order[k], order[j])
  }

  /** The nodes of order[..i] that are reported, in order. */
  ghost function Report(g: Sons, order: seq<Node>, i: nat): (r: seq<Node>)
    requires i <= |order|
  {
    if i == 0 then []
    else if Reported(g, order, i - 1) then Report(g, order, i - 1) + [order[i - 1]]
    else Report(g, order, i - 1)
  }

  lemma {:induction false} ReportMembers(g: Sons, order: seq<Node>, i: nat, v: Node)
    requires i <= |order|
    ensures v in Report(g, order, i) <==> exists j :: 0 <= j < i && Reported(g, order, j) && order[j] == v
  {
    if i > 0 {
      ReportMembers(g, order, i - 1, v);
      if exists j :: 0 <= j < i && Reported(g, order, j) && order[j] == v {
        var j :| 0 <= j < i && Reported(g, order, j) && order[j] == v;
        assert j < i - 1 || j == i - 1;
      }
      if Reported(g, order, i - 1) && order[i - 1] == v {
        assert Reported(g, order, i - 1) && order[i - 1] == v;
      }
    }
  }

  ghost predicate IsNodeOrder(g: Sons, order: seq<Node>) {
    && (forall n :: n in g <==> n in order)
    && (forall i, j :: 0 <= i < j < |order| ==> order[i] != order[j])
  }

  lemma OrderGrows(g: Sons, g': Sons, order: seq<Node>, n: Node)
    requires IsNodeOrder(g, order) && g'.Keys == g.Keys + {n}
    ensures IsNodeOrder(g', if n in g then order else order + [n])
  {
    if n !in g {
      forall i | 0 <= i < |order| ensures order[i] != n {
        assert order[i] in order;
      }
    }
  }

  ghost predicate VisitedExactly(g: Sons, order: seq<Node>, i: nat, c: Colours)
    requires i <= |order| && Coloured(g, c)
  {
    forall n :: n in g ==> (c[n] != Unchecked <==> VisitedFrom(g, order, i, n))
  }

  lemma StartOfSearch(g: Sons, order: seq<Node>, c: Colours)
    requires Closed(g) && c == map n | n in g :: Unchecked
    ensures SearchInv(g, c, {}) && VisitedExactly(g, order, 0, c)
  {
  }

  /** Handling order[i] visits what order[i] reaches and nothing else. */
  lemma VisitedGrows(g: Sons, order: seq<Node>, i: nat, c: Colours, c': Colours)
    requires i < |order| && order[i] in g
    requires SearchInv(g, c, {}) && SearchInv(g, c', {})
    requires VisitedExactly(g, order, i, c)
    requires forall n :: n in g && c[n] != Unchecked ==> c'[n] != Unchecked
    requires NewReachable(g, c, c', order[i])
    requires c'[order[i]] != Unchecked
    ensures VisitedExactly(g, order, i + 1, c')
  {
    forall n | n in g
      ensures c'[n] != Unchecked <==> VisitedFrom(g, order, i + 1, n)
    {
      if VisitedFrom(g, order, i, n) {
      } else if ReachesOrIs(g, order[i], n) && n != order[i] {
        var seen := set m | m in g && c'[m] != Unchecked;
        forall x, y | x in seen && Edge(g, x, y)
          ensures y in seen
        {
          assert NodePlaced(g, c', {}, x);
        }
        ClosedSetHoldsReached(g, seen, order[i], n);
      }
    }
  }

  /** At an empty stack, the colours are exactly determined by the graph. */
  lemma ColourMeaning(g: Sons, c: Colours, order: seq<Node>, i: nat, j: nat)
    requires SearchInv(g, c, {})
    requires j < i <= |order| && i == j + 1
    requires forall k :: 0 <= k < |order| ==> order[k] in g
    requires VisitedExactly(g, order, i, c)
    ensures c[order[j]] == LoopInside <==> Reported(g, order, j)
  {
    var v := order[j];
    assert NodeSound(g, c, v) && NodePlaced(g, c, {}, v);
    assert ReachesOrIs(g, order[j], v);
    if c[v] == LoopInside {
      var p :| Edge(g, p, v) && c[p] != Unchecked;
      var k :| 0 <= k < i && ReachesOrIs(g, order[k], p);
      ReachesOrIsThenEdge(g, order[k], p, v);
    }
    if Reported(g, order, j) {
      var k :| 0 <= k <= j && Reaches(g, order[k], v);
      var p := LastStep(g, order[k], v);
      assert VisitedFrom(g, order, i, p);
      assert NodePlaced(g, c, {}, p);
      assert Settled(c[v]);
    }
  }

  /** A finished node is coloured Okay exactly when no cycle can be reached from it. */
  lemma OkayIffNoCycle(g: Sons, c: Colours, n: Node)
    requires SearchInv(g, c, {}) && n in g && c[n] != Unchecked
    ensures c[n] == Okay <==> !LeadsToCycle(g, n)
  {
    assert NodeSound(g, c, n) && NodePlaced(g, c, {}, n);
  }

  // ------------------------------------------------- what the report tells

  lemma EveryCycleNodeIsReported(g: Sons, order: seq<Node>, v: Node)
    requires IsNodeOrder(g, order) && OnCycle(g, v)
    ensures v in Report(g, order, |order|)
  {
    ReportMembers(g, order, |order|, v);
    var s := FirstStep(g, v, v);
    assert v in order;
    var j :| 0 <= j < |order| && order[j] == v;
    OnCycleLeadsToCycle(g, v);
    assert Reported(g, order, j);
  }

  lemma OnlyCycleLeadersAreReported(g: Sons, order: seq<Node>, v: Node)
    requires v in Report(g, order, |order|)
    ensures LeadsToCycle(g, v)
  {
    ReportMembers(g, order, |order|, v);
    var j :| 0 <= j < |order| && Reported(g, order, j) && order[j] == v;
  }

  lemma EmptyReportIffAcyclic(g: Sons, order: seq<Node>)
    requires IsNodeOrder(g, order)
    ensures Report(g, order, |order|) == [] <==> Acyclic(g)
  {
    var r := Report(g, order, |order|);
    if r == [] {
      forall v ensures !OnCycle(g, v) {
        if OnCycle(g, v) {
          EveryCycleNodeIsReported(g, order, v);
        }
      }
    } else {
      OnlyCycleLeadersAreReported(g, order, r[0]);
      var c :| ReachesOrIs(g, r[0], c) && OnCycle(g, c);
    }
  }

  /** A node of no cycle that leads to one and lies behind an earlier node. */
  ghost predicate Stray(g: Sons, order: seq<Node>, k: nat, j: nat)
    requires k < j < |order|
  {
    !OnCycle(g, order[j]) && LeadsToCycle(g, order[j]) && Reaches(g, order[k], order[j])
  }

  lemma StrayIsReported(g: Sons, order: seq<Node>, k: nat, j: nat)
    requires k < j < |order| && Stray(g, order, k, j)
    ensures order[j] in Report(g, order, |order|)
  {
    ReportMembers(g, order, |order|, order[j]);
    assert Reported(g, order, j);
  }

  lemma ReportedOffCycleIsStray(g: Sons, order: seq<Node>, v: Node) returns (k: nat, j: nat)
    requires v in Report(g, order, |order|) && !OnCycle(g, v)
    ensures k < j < |order| && Stray(g, order, k, j)
  {
    ReportMembers(g, order, |order|, v);
    j :| 0 <= j < |order| && Reported(g, order, j) && order[j] == v;
    k :| 0 <= k <= j && Reaches(g, order[k], order[j]);
  }

  ghost predicate HasStray(g: Sons, order: seq<Node>) {
    exists k, j :: 0 <= k < j < |order| && Stray(g, order, k, j)
  }

  ghost predicate ReportsExactlyCycles(g: Sons, order: seq<Node>) {
    forall v :: v in Report(g, order, |order|) <==> OnCycle(g, v)
  }

  /** The documentation says a reported node is part of a loop. That is so for
      every reported node exactly when the graph, in this order, has no stray. */
  lemma ReportsExactlyCyclesIffNoStray(g: Sons, order: seq<Node>)
    requires IsNodeOrder(g, order)
    ensures ReportsExactlyCycles(g, order) <==> !HasStray(g, order)
  {
    if HasStray(g, order) {
      var k, j :| 0 <= k < j < |order| && Stray(g, order, k, j);
      StrayIsReported(g, order, k, j);
    } else {
      forall v
        ensures v in Report(g, order, |order|) <==> OnCycle(g, v)
      {
        if OnCycle(g, v) {
          EveryCycleNodeIsReported(g, order, v);
        } else if v in Report(g, order, |order|) {
          var k, j := ReportedOffCycleIsStray(g, order, v);
        }
      }
    }
  }

  /** A concrete graph where the report names a node of no loop:
      0 -> 1 -> 2 -> 2, handled in the order 0, 1, 2. */
  lemma ReportedOffCycle()
    ensures var g: Sons := map[0 := [1], 1 := [2], 2 := [2]];
            1 in Report(g, [0, 1, 2], 3) && !OnCycle(g, 1)
  {
    var g: Sons := map[0 := [1], 1 := [2], 2 := [2]];
    var order := [0, 1, 2];
    EdgeReaches(g, 0, 1);
    EdgeReaches(g, 1, 2);
    EdgeReaches(g, 2, 2);
    assert ReachesOrIs(g, order[1], 2) && OnCycle(g, 2);
    assert Reaches(g, order[0], order[1]);
    assert Reported(g, order, 1);
    ReportMembers(g, order, 3, 1);
    if OnCycle(g, 1) {
      var s := FirstStep(g, 1, 1);
      ClosedSetHoldsReached(g, {2}, 2, 1);
    }
  }
}
