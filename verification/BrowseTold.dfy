/** The graph a listener of the browser is told: the references delivered with each node,
    and what is reachable over them. */
module BrowseTold {
  import opened OpcUaTypes
  import opened ViewServiceBrowse

  // ---------------------------------------------------------------------
  // Reachability
  // ---------------------------------------------------------------------

  /** The references of each node. */
  type Graph = NodeId -> seq<Reference>

  ghost predicate IsPath(g: Graph, start: set<NodeId>, p: seq<NodeId>) {
    && p != [] && p[0] in start
    && forall i :: 0 < i < |p| ==> p[i] in Targets(g(p[i - 1]))
  }

  ghost predicate PathTo(g: Graph, start: set<NodeId>, p: seq<NodeId>, n: NodeId) {
    IsPath(g, start, p) && p[|p| - 1] == n
  }

  ghost predicate Reachable(g: Graph, start: set<NodeId>, n: NodeId) {
    exists p :: PathTo(g, start, p, n)
  }

  ghost predicate Closed(g: Graph, start: set<NodeId>, nodes: set<NodeId>) {
    start <= nodes && forall n :: n in nodes ==> Targets(g(n)) <= nodes
  }

  lemma ExtendPath(g: Graph, start: set<NodeId>, p: seq<NodeId>, m: NodeId, n: NodeId)
    requires PathTo(g, start, p, m) && n in Targets(g(m))
    ensures PathTo(g, start, p + [n], n)
  {}

  lemma ReachFurther(g: Graph, start: set<NodeId>, m: NodeId, n: NodeId)
    requires Reachable(g, start, m) && n in Targets(g(m))
    ensures Reachable(g, start, n)
  {
    var p :| PathTo(g, start, p, m);
    ExtendPath(g, start, p, m, n);
  }

  lemma {:induction false} PathStaysInside(g: Graph, start: set<NodeId>, nodes: set<NodeId>, p: seq<NodeId>, i: nat)
    requires Closed(g, start, nodes) && IsPath(g, start, p) && i < |p|
    ensures p[i] in nodes
  {
    if i > 0 {
      PathStaysInside(g, start, nodes, p, i - 1);
    }
  }

  lemma ReachableIsInside(g: Graph, start: set<NodeId>, nodes: set<NodeId>, n: NodeId)
    requires Closed(g, start, nodes) && Reachable(g, start, n)
    ensures n in nodes
  {
    var p :| PathTo(g, start, p, n);
    PathStaysInside(g, start, nodes, p, |p| - 1);
  }

  /** A graph with more references reaches no fewer nodes. */
  lemma ReachableInLarger(g: Graph, h: Graph, start: set<NodeId>, n: NodeId)
    requires forall m :: Targets(g(m)) <= Targets(h(m))
    requires Reachable(g, start, n)
    ensures Reachable(h, start, n)
  {
    var p :| PathTo(g, start, p, n);
    assert PathTo(h, start, p, n);
  }

  /** Graphs that agree on a closed set of nodes reach the same nodes. */
  lemma SameReach(g: Graph, h: Graph, start: set<NodeId>, nodes: set<NodeId>, n: NodeId)
    requires Closed(g, start, nodes) && forall m :: m in nodes ==> g(m) == h(m)
    ensures Closed(h, start, nodes)
    ensures Reachable(g, start, n) <==> Reachable(h, start, n)
  {
    if p :| PathTo(g, start, p, n) {
      SamePath(g, h, start, nodes, p);
      assert PathTo(h, start, p, n);
    }
    if p :| PathTo(h, start, p, n) {
      SamePath(h, g, start, nodes, p);
      assert PathTo(g, start, p, n);
    }
  }

  lemma SamePath(g: Graph, h: Graph, start: set<NodeId>, nodes: set<NodeId>, p: seq<NodeId>)
    requires Closed(g, start, nodes) && forall m :: m in nodes ==> g(m) == h(m)
    requires IsPath(g, start, p)
    ensures IsPath(h, start, p)
  {
    forall i | 0 < i < |p| ensures p[i] in Targets(h(p[i - 1])) {
      PathStaysInside(g, start, nodes, p, i - 1);
    }
  }

  // ---------------------------------------------------------------------
  // What has been told to the listener
  // ---------------------------------------------------------------------

  /** The nodes reported so far. */
  ghost function Found(cs: seq<Callback>): set<NodeId> {
    if cs == [] then {}
    else
      var told, c := cs[..|cs| - 1], cs[|cs| - 1];
      if c.NodeResult? then Found(told) + {c.nodeId} else Found(told)
  }

  /** The targets of all references delivered so far. */
  ghost function Heard(cs: seq<Callback>): set<NodeId> {
    if cs == [] then {}
    else
      var told, c := cs[..|cs| - 1], cs[|cs| - 1];
      if c.NodeResult? then Heard(told) + Targets(c.references) else Heard(told)
  }

  /** The references last delivered for a node. */
  ghost function RefsTold(cs: seq<Callback>, n: NodeId): seq<Reference> {
    if cs == [] then []
    else
      var c := cs[|cs| - 1];
      if c.NodeResult? && c.nodeId == n then c.references else RefsTold(cs[..|cs| - 1], n)
  }

  ghost function ToldGraph(cs: seq<Callback>): Graph {
    n => RefsTold(cs, n)
  }

  /** Each result is the first of its node, which is a start node or the target of a
      reference delivered before. */
  ghost predicate InOrder(start: set<NodeId>, cs: seq<Callback>) {
    cs != [] ==>
      var told, c := cs[..|cs| - 1], cs[|cs| - 1];
      && InOrder(start, told)
      && (c.NodeResult? ==> c.nodeId !in Found(told) && c.nodeId in start + Heard(told))
  }

  lemma TellOneMore(start: set<NodeId>, cs: seq<Callback>, c: Callback)
    ensures Found(cs + [c]) == if c.NodeResult? then Found(cs) + {c.nodeId} else Found(cs)
    ensures Heard(cs + [c]) == if c.NodeResult? then Heard(cs) + Targets(c.references) else Heard(cs)
    ensures InOrder(start, cs + [c]) <==>
            InOrder(start, cs) && (c.NodeResult? ==> c.nodeId !in Found(cs) && c.nodeId in start + Heard(cs))
  {
    assert (cs + [c])[..|cs|] == cs;
  }

  lemma {:induction false} RefsAreHeard(cs: seq<Callback>, n: NodeId)
    ensures Targets(RefsTold(cs, n)) <= Heard(cs)
    ensures n !in Found(cs) ==> RefsTold(cs, n) == []
    decreases |cs|
  {
    if cs != [] {
      RefsAreHeard(cs[..|cs| - 1], n);
    }
  }

  lemma {:induction false} FoundAt(cs: seq<Callback>, i: nat)
    requires i < |cs| && cs[i].NodeResult?
    ensures cs[i].nodeId in Found(cs)
    decreases |cs|
  {
    if i < |cs| - 1 {
      FoundAt(cs[..|cs| - 1], i);
    }
  }

  /** Read position by position: no node is reported twice, and what was delivered for a
      node is what its one result carried. */
  lemma {:induction false} InOrderAt(start: set<NodeId>, cs: seq<Callback>, i: nat)
    requires InOrder(start, cs) && i < |cs| && cs[i].NodeResult?
    ensures forall j :: 0 <= j < |cs| && j != i && cs[j].NodeResult? ==> cs[j].nodeId != cs[i].nodeId
    ensures RefsTold(cs, cs[i].nodeId) == cs[i].references
    decreases |cs|
  {
    var told := cs[..|cs| - 1];
    assert forall j :: 0 <= j < |told| ==> told[j] == cs[j];
    if i < |told| {
      InOrderAt(start, told, i);
      FoundAt(told, i);
    } else {
      forall j | 0 <= j < |told| && told[j].NodeResult? ensures told[j].nodeId != cs[i].nodeId {
        FoundAt(told, j);
      }
    }
  }

  /** Start nodes, reported nodes and targets heard of are reachable over the delivered
      references. */
  lemma {:induction false} KnownIsReachable(start: set<NodeId>, cs: seq<Callback>, n: NodeId)
    requires InOrder(start, cs) && n in start + Found(cs) + Heard(cs)
    ensures Reachable(ToldGraph(cs), start, n)
    decreases |cs|
  {
    if n in start {
      assert PathTo(ToldGraph(cs), start, [n], n);
    } else {
      var told, c := cs[..|cs| - 1], cs[|cs| - 1];
      ToldGraphGrows(start, cs);
      if n in start + Found(told) + Heard(told) {
        KnownIsReachable(start, told, n);
        ReachableInLarger(ToldGraph(told), ToldGraph(cs), start, n);
      } else {
        KnownIsReachable(start, told, c.nodeId);
        ReachableInLarger(ToldGraph(told), ToldGraph(cs), start, c.nodeId);
        if n in Targets(c.references) {
          ReachFurther(ToldGraph(cs), start, c.nodeId, n);
        }
      }
    }
  }

  lemma ToldGraphGrows(start: set<NodeId>, cs: seq<Callback>)
    requires cs != [] && InOrder(start, cs)
    ensures forall m :: Targets(ToldGraph(cs[..|cs| - 1])(m)) <= Targets(ToldGraph(cs)(m))
  {
    var told, c := cs[..|cs| - 1], cs[|cs| - 1];
    forall m ensures Targets(ToldGraph(told)(m)) <= Targets(ToldGraph(cs)(m)) {
      RefsAreHeard(told, m);
    }
  }

  lemma FoundIsClosed(start: set<NodeId>, cs: seq<Callback>)
    requires start + Heard(cs) <= Found(cs)
    ensures Closed(ToldGraph(cs), start, Found(cs))
  {
    forall n | n in Found(cs) ensures Targets(ToldGraph(cs)(n)) <= Found(cs) {
      RefsAreHeard(cs, n);
    }
  }
}
