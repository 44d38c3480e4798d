/** The mutable graph with its two searches. */
module DependencyGraph {
  import opened Graphs
  import opened LoopSearch
  import opened Packs

  class Graph {
    var sons: Sons
    var order: seq<Node>   // iteration order of the nodes
    var colours: Colours   // dfs_loop_status, meaningful during a search

    ghost predicate Valid()
      reads this
    {
      Closed(sons) && IsNodeOrder(sons, order)
    }

    constructor ()
      ensures Valid() && sons == map[] && order == []
    {
      sons, order, colours := map[], [], map[];
    }

    /** Adding a known node again forgets its sons. */
    method AddNode(node: Node)
      requires Valid()
      modifies this
      ensures Valid()
      ensures sons == old(sons)[node := []]
      ensures order == if node in old(sons) then old(order) else old(order) + [node]
    {
      OrderGrows(sons, sons[node := []], order, node);
      if node !in sons {
        order := order + [node];
      }
      sons := sons[node := []];
      colours := colours[node := Unchecked];
      assert forall a, b :: Edge(sons, a, b) ==> Edge(old(sons), a, b);
    }

    method AddEdge(from: Node, to: Node)
      requires Valid()
      modifies this
      ensures Valid()
      ensures sons == WithEdge(old(sons), from, to)
    {
      WithEdgeClosed(sons, from, to);
      if to !in sons {
        AddNode(to);
      }
      OrderGrows(sons, WithEdge(old(sons), from, to), order, from);
      if from in sons {
        sons := sons[from := sons[from] + [to]];
      } else {
        order := order + [from];
        sons := sons[from := [to]];
        colours := colours[from := Unchecked];
        assert [] + [to] == [to];
      }
    }

    method LoopCheck() returns (inLoop: seq<Node>)
      requires Valid()
      modifies `colours
      ensures inLoop == Report(sons, order, |order|)
      ensures inLoop == [] <==> Acyclic(sons)
    {
      inLoop := [];
      colours := map n | n in sons :: Unchecked;
      StartOfSearch(sons, order, colours);
      var i := 0;
      while i < |order|
        invariant i <= |order|
        invariant SearchInv(sons, colours, {})
        invariant VisitedExactly(sons, order, i, colours)
        invariant inLoop == Report(sons, order, i)
      {
        SearchFrom(i);
        if colours[order[i]] == LoopInside {
          inLoop := inLoop + [order[i]];
        }
        i := i + 1;
      }
      colours := map[];
      EmptyReportIffAcyclic(sons, order);
    }

    /** One turn of the main loop: search from a node not yet coloured. */
    method SearchFrom(i: nat)
      requires Valid() && i < |order|
      requires SearchInv(sons, colours, {}) && VisitedExactly(sons, order, i, colours)
      modifies `colours
      ensures SearchInv(sons, colours, {}) && VisitedExactly(sons, order, i + 1, colours)
      ensures order[i] in colours
      ensures colours[order[i]] == LoopInside <==> Reported(sons, order, i)
    {
      ghost var node := order[i];
      assert node in order;
      assert node in sons;
      ghost var before := colours;
      if colours[order[i]] == Unchecked {
        DfsLoopSearch(order[i], {});
      }
      VisitedGrows(sons, order, i, before, colours);
      ColourMeaning(sons, colours, order, i + 1, i);
    }

    method DfsLoopSearch(root: Node, ghost stack: set<Node>)
      requires SearchInv(sons, colours, stack)
      requires root in sons && colours[root] == Unchecked
      requires StackAbove(sons, stack, root)
      modifies `colours
      ensures SearchInv(sons, colours, stack)
      ensures colours[root] == Okay || Bad(colours[root])
      ensures Advances(old(colours), colours, root)
      ensures NewReachable(sons, old(colours), colours, root)
      decreases UncheckedNodes(colours), 0
    {
      assert NodePlaced(sons, colours, stack, root);
      PushKeepsInv(sons, colours, stack, root);
      ghost var start := colours;
      assert root in UncheckedNodes(start);
      colours := colours[root := Temporary];
      var i := 0;
      while i < |sons[root]|
        invariant i <= |sons[root]|
        invariant SearchInv(sons, colours, stack + {root})
        invariant Advances(start, colours, root) && colours[root] != Unchecked
        invariant NewReachable(sons, start, colours, root)
        invariant Scanned(sons, colours, root, i)
      {
        assert Edge(sons, root, sons[root][i]);
        assert NodePlaced(sons, colours, stack + {root}, root);
        AdvancesShrinks(start, colours, root);
        ghost var before := colours;
        ScanSon(root, sons[root][i], stack);
        ScannedStep(sons, before, colours, root, i);
        AdvancesTrans(sons, start, before, colours, root);
        i := i + 1;
      }
      assert NodePlaced(sons, colours, stack + {root}, root);
      PopKeepsInv(sons, colours, stack, root);
      if colours[root] == Temporary {
        colours := colours[root := Okay];
      }
    }

    /** The body of the scan over the sons of a root. */
    method ScanSon(root: Node, child: Node, ghost stack: set<Node>)
      requires root in sons && root !in stack && Edge(sons, root, child)
      requires SearchInv(sons, colours, stack + {root})
      requires StackAbove(sons, stack, root)
      modifies `colours
      ensures SearchInv(sons, colours, stack + {root})
      ensures Settled(colours[child])
      ensures colours[root] == Temporary ==> old(colours)[root] == Temporary && colours[child] == Okay
      ensures Advances(old(colours), colours, root)
      ensures NewReachable(sons, old(colours), colours, root)
      decreases UncheckedNodes(colours), 1
    {
      ghost var before := colours;
      assert NodePlaced(sons, before, stack + {root}, root);
      if colours[child] == Unchecked {
        StackAboveChild(sons, stack, root, child);
        DfsLoopSearch(child, stack + {root});
      }
      ghost var mid := colours;
      StepSound(sons, mid, stack, root, child);
      ScanAdvances(sons, before, mid, root, child);
      var childStatus := colours[child];
      if childStatus == Temporary {
        colours := colours[child := LoopInside];
        colours := colours[root := LoopInside];
      }
      if childStatus == NearLoop || childStatus == LoopInside {
        if colours[root] != LoopInside {
          colours := colours[root := NearLoop];
        }
        colours := colours[child := LoopInside];
      }
      assert colours == AfterSon(mid, root, child);
    }

    method GetAccessibilityPacks() returns (packs: seq<set<Node>>)
      requires Valid()
      modifies `colours
      ensures packs == PackList(sons, order, |order|)
      ensures KeepsPromise(sons, packs) <==> NonePointsBack(sons, order)
    {
      hide KeepsPromise, NonePointsBack;
      PromiseKeptIff(sons, order);
      packs := [];
      colours := map n | n in sons :: Unchecked;
      StartOfSearch(sons, order, colours);
      var i := 0;
      while i < |order|
        invariant i <= |order|
        invariant TwoColoured(sons, colours) && VisitedExactly(sons, order, i, colours)
        invariant packs == PackList(sons, order, i)
      {
        ghost var node := order[i];
        assert node in order;
        assert node in sons;
        ghost var before := colours;
        if colours[order[i]] == Unchecked {
          var pack := DfsGetAllChilds(order[i]);
          packs := packs + [pack];
          GatheredIsPack(sons, order, i, before, colours, pack);
        } else {
          AlreadyVisited(sons, order, i, colours);
        }
        i := i + 1;
      }
      colours := map[];
    }

    method DfsGetAllChilds(root: Node) returns (ret: set<Node>)
      requires TwoColoured(sons, colours) && root in sons && colours[root] == Unchecked
      modifies `colours
      ensures Gathered(sons, old(colours), colours, root, ret)
      ensures SonsDone(sons, old(colours), colours, {}) && New(old(colours), colours, root)
      decreases UncheckedNodes(colours)
    {
      ghost var start := colours;
      GatherRoot(sons, colours, root);
      colours := colours[root := Checked];
      ret := {root} + set s | s in sons[root];
      var i := 0;
      while i < |sons[root]|
        invariant i <= |sons[root]|
        invariant Gathered(sons, start, colours, root, ret) && New(start, colours, root)
        invariant SonsDone(sons, start, colours, {root})
        invariant SonsChecked(sons, colours, root, i)
      {
        var child := sons[root][i];
        assert Edge(sons, root, child);
        if colours[child] == Unchecked {
          CheckedShrinks(sons, start, colours, root);
          ghost var mid, got := colours, ret;
          var more := DfsGetAllChilds(child);
          GatherChild(sons, start, mid, colours, root, child, got, more);
          ret := ret + more;
          SonsCheckedStays(sons, mid, colours, root, child, more, i);
        }
        i := i + 1;
      }
    }
  }
}
