/** Runs of the recursive browser against an arbitrary server. The graph is the one the
    listener is told: the references delivered with each node, whatever its status. */
module BrowseExploration {
  import opened OpcUaTypes
  import opened BrowsePaging
  import opened ViewServiceBrowse
  import opened BrowseRuns
  import opened BrowseTold

  // ---------------------------------------------------------------------
  // The invariant of every run
  // ---------------------------------------------------------------------

  /** `open` are the nodes of the current batch that are not reported yet, `dropped` the
      nodes that failed calls have dropped. Every node heard of is accounted for. */
  ghost predicate Inv(start: set<NodeId>, b: Browser, open: set<NodeId>, dropped: set<NodeId>) {
    var known := start + Heard(b.callbacks);
    && b.recursive
    && InOrder(start, b.callbacks)
    && Found(b.callbacks) == b.processed
    && open !! b.processed && b.toRead !! b.processed
    && b.processed + open + b.toRead + dropped == known
  }

  lemma ReportKeepsInv(
    start: set<NodeId>, b: Browser, open: set<NodeId>, dropped: set<NodeId>,
    s: StatusCode, n: NodeId, refs: seq<Reference>)
    requires Inv(start, b, open, dropped) && n in open
    ensures Inv(start, Report(b, s, n, refs), open - {n}, dropped)
  {
    TellOneMore(start, b.callbacks, NodeResult(s, n, refs));
    ReportKeepsKnown(start + Heard(b.callbacks), b.processed, open, b.toRead, dropped, n, Targets(refs));
  }

  lemma ReportKeepsKnown(
    known: set<NodeId>, processed: set<NodeId>, open: set<NodeId>, toRead: set<NodeId>, dropped: set<NodeId>,
    n: NodeId, targets: set<NodeId>)
    requires processed + open + toRead + dropped == known && n in open
    ensures var processed' := processed + {n};
            processed' + (open - {n}) + (toRead - {n} + (targets - processed')) + dropped == known + targets
  {}

  lemma TellDoneKeepsInv(start: set<NodeId>, b: Browser, open: set<NodeId>, dropped: set<NodeId>, s: StatusCode)
    requires Inv(start, b, open, dropped)
    ensures Inv(start, b.(callbacks := b.callbacks + [BrowseDone(s)]), open, dropped)
  {
    TellOneMore(start, b.callbacks, BrowseDone(s));
  }

  // ---------------------------------------------------------------------
  // One response
  // ---------------------------------------------------------------------

  /** The nodes still open in a pass that has absorbed the first `k` results. */
  function StillOpen(b: Browser, p: Pass, k: nat): seq<NodeId>
    requires k <= |b.nodeIdVec|
  {
    p.nodes + b.nodeIdVec[k..]
  }

  lemma RemoveAt(s: seq<NodeId>, j: nat)
    requires j < |s| && Distinct(s)
    ensures Distinct(s[..j] + s[j + 1..])
    ensures Elements(s[..j] + s[j + 1..]) == Elements(s) - {s[j]}
  {
    var t := s[..j] + s[j + 1..];
    assert forall i :: 0 <= i < |t| ==> t[i] == if i < j then s[i] else s[i + 1];
    forall x | x in Elements(s) && x != s[j] ensures x in t {
      var i :| 0 <= i < |s| && s[i] == x;
      assert t[if i < j then i else i - 1] == x;
    }
  }

  lemma AbsorbMovesOn(b: Browser, p: Pass, k: nat, v: Verdict)
    requires k < |b.nodeIdVec|
    ensures var s, n, s' := StillOpen(b, p, k), |p.nodes|, StillOpen(b, Absorb(p, b.nodeIdVec[k], v), k + 1);
            n < |s| && s[n] == b.nodeIdVec[k] && s' == if v.Hold? then s else s[..n] + s[n + 1..]
  {}

  /** `s` lists the nodes of `open`, each once. */
  ghost predicate Lists(s: seq<NodeId>, open: set<NodeId>) {
    Distinct(s) && Elements(s) == open
  }

  lemma AbsorbTakesOne(b: Browser, p: Pass, k: nat, v: Verdict, open: set<NodeId>)
    requires k < |b.nodeIdVec| && Lists(StillOpen(b, p, k), open)
    ensures b.nodeIdVec[k] in open
    ensures var s' := StillOpen(b, Absorb(p, b.nodeIdVec[k], v), k + 1);
            Lists(s', if v.Deliver? then open - {b.nodeIdVec[k]} else open)
  {
    AbsorbMovesOn(b, p, k, v);
    RemoveAt(StillOpen(b, p, k), |p.nodes|);
  }

  lemma PassOpensBatch(b: Browser, results: seq<BrowseResult>)
    requires Matches(b, results)
    ensures AbsorbPrefix(b, results, 0).browser == b
    ensures StillOpen(b, AbsorbPrefix(b, results, 0), 0) == b.nodeIdVec
  {}

  /** The nodes of the batch that the first `k` results leave unreported. */
  ghost function Unreported(b: Browser, results: seq<BrowseResult>, k: nat): set<NodeId>
    requires Matches(b, results) && k <= |results|
  {
    if k == 0 then Elements(b.nodeIdVec)
    else if Judge(b, results, k - 1).Deliver? then Unreported(b, results, k - 1) - {b.nodeIdVec[k - 1]}
    else Unreported(b, results, k - 1)
  }

  lemma {:induction false} PassListsUnreported(b: Browser, results: seq<BrowseResult>, k: nat)
    requires Matches(b, results) && k <= |results| && Distinct(b.nodeIdVec)
    ensures Lists(StillOpen(b, AbsorbPrefix(b, results, k), k), Unreported(b, results, k))
  {
    if k == 0 {
      PassOpensBatch(b, results);
    } else {
      PassListsUnreported(b, results, k - 1);
      AbsorbTakesOne(
        b, AbsorbPrefix(b, results, k - 1), k - 1, Judge(b, results, k - 1), Unreported(b, results, k - 1));
    }
  }

  lemma PassEndsWithUnreported(b: Browser, results: seq<BrowseResult>)
    requires Matches(b, results) && Distinct(b.nodeIdVec)
    ensures Lists(AbsorbPrefix(b, results, |results|).nodes, Unreported(b, results, |results|))
  {
    var p := AbsorbPrefix(b, results, |results|);
    PassListsUnreported(b, results, |results|);
    assert StillOpen(b, p, |results|) == p.nodes;
  }

  lemma NextIsUnreported(b: Browser, results: seq<BrowseResult>, k: nat)
    requires Matches(b, results) && k < |results| && Distinct(b.nodeIdVec)
    ensures b.nodeIdVec[k] in Unreported(b, results, k)
  {
    PassListsUnreported(b, results, k);
    AbsorbTakesOne(b, AbsorbPrefix(b, results, k), k, Judge(b, results, k), Unreported(b, results, k));
  }

  /** One report. */
  datatype Item = Item(statusCode: StatusCode, nodeId: NodeId, references: seq<Reference>)

  ghost function ReportAll(b: Browser, items: seq<Item>): Browser {
    if items == [] then b
    else
      var i := items[|items| - 1];
      Report(ReportAll(b, items[..|items| - 1]), i.statusCode, i.nodeId, i.references)
  }

  ghost function Minus(open: set<NodeId>, items: seq<Item>): set<NodeId> {
    if items == [] then open else Minus(open, items[..|items| - 1]) - {items[|items| - 1].nodeId}
  }

  /** Each item's node is open when its turn comes. */
  ghost predicate InTurn(open: set<NodeId>, items: seq<Item>) {
    items != [] ==>
      InTurn(open, items[..|items| - 1]) && items[|items| - 1].nodeId in Minus(open, items[..|items| - 1])
  }

  lemma {:induction false} ReportAllKeepsInv(
    start: set<NodeId>, b: Browser, open: set<NodeId>, dropped: set<NodeId>, items: seq<Item>)
    requires Inv(start, b, open, dropped) && InTurn(open, items)
    ensures Inv(start, ReportAll(b, items), Minus(open, items), dropped)
  {
    if items != [] {
      var front, i := items[..|items| - 1], items[|items| - 1];
      ReportAllKeepsInv(start, b, open, dropped, front);
      ReportKeepsInv(
        start, ReportAll(b, front), Minus(open, front), dropped, i.statusCode, i.nodeId, i.references);
    }
  }

  lemma ReportOneMore(b: Browser, open: set<NodeId>, items: seq<Item>, i: Item)
    requires InTurn(open, items) && i.nodeId in Minus(open, items)
    ensures InTurn(open, items + [i]) && Minus(open, items + [i]) == Minus(open, items) - {i.nodeId}
    ensures ReportAll(b, items + [i]) == Report(ReportAll(b, items), i.statusCode, i.nodeId, i.references)
  {
    assert (items + [i])[..|items|] == items;
  }

  /** A pass reports nodes in turn: those whose results are delivered. */
  lemma {:induction false} PassReports(b: Browser, results: seq<BrowseResult>, k: nat) returns (items: seq<Item>)
    requires Matches(b, results) && k <= |results| && Distinct(b.nodeIdVec)
    ensures AbsorbPrefix(b, results, k).browser == ReportAll(b, items)
    ensures InTurn(Elements(b.nodeIdVec), items)
    ensures Minus(Elements(b.nodeIdVec), items) == Unreported(b, results, k)
  {
    if k == 0 {
      items := [];
    } else {
      items := PassReports(b, results, k - 1);
      match Judge(b, results, k - 1) {
        case Deliver(s, refs) =>
          var i := Item(s, b.nodeIdVec[k - 1], refs);
          NextIsUnreported(b, results, k - 1);
          ReportOneMore(b, Elements(b.nodeIdVec), items, i);
          items := items + [i];
        case Hold(_, _) =>
      }
    }
  }

  /** The nodes a failed call drops: those of its batch that are not to be read. */
  ghost function Dropped(b: Browser, r: Response): set<NodeId> {
    if Fails(b, r) then Elements(b.nodeIdVec) - b.toRead else {}
  }

  ghost function OpenNodes(b: Browser): set<NodeId> {
    if b.request == Idle then {} else Elements(b.nodeIdVec)
  }

  /** A batch holds distinct nodes, and nothing is left to be read at the end. */
  ghost predicate Tidy(b: Browser) {
    if b.request == Idle then b.toRead == {} else Distinct(b.nodeIdVec)
  }

  lemma BatchKeepsInv(start: set<NodeId>, b: Browser, dropped: set<NodeId>, s: StatusCode, b': Browser)
    requires Inv(start, b, {}, dropped) && DoneStep(b, s, b')
    ensures Inv(start, b', OpenNodes(b'), dropped) && Tidy(b')
  {
    TellDoneKeepsInv(start, b, {}, dropped, s);
    var told := b.(callbacks := b.callbacks + [BrowseDone(s)]);
    TellDoneKeepsInv(start, told, {}, dropped, s);
  }

  lemma PassStepKeepsInv(start: set<NodeId>, p: Pass, dropped: set<NodeId>, b': Browser)
    requires Inv(start, p.browser, Elements(p.nodes), dropped) && Distinct(p.nodes) && PassStep(p, b')
    ensures Inv(start, b', OpenNodes(b'), dropped) && Tidy(b')
  {
    if p.nodes == [] {
      assert Elements(p.nodes) == {};
      BatchKeepsInv(start, p.browser, dropped, Success, b');
    }
  }

  lemma PassKeepsInv(start: set<NodeId>, b: Browser, dropped: set<NodeId>, results: seq<BrowseResult>)
    requires Matches(b, results) && Distinct(b.nodeIdVec)
    requires Inv(start, b, Elements(b.nodeIdVec), dropped)
    ensures var p := AbsorbPrefix(b, results, |results|);
            Inv(start, p.browser, Elements(p.nodes), dropped) && Distinct(p.nodes)
  {
    var k := |results|;
    var items := PassReports(b, results, k);
    ReportAllKeepsInv(start, b, Elements(b.nodeIdVec), dropped, items);
    PassEndsWithUnreported(b, results);
  }

  lemma FailureKeepsInv(start: set<NodeId>, b: Browser, dropped: set<NodeId>)
    requires Inv(start, b, Elements(b.nodeIdVec), dropped)
    ensures Inv(start, b, {}, dropped + (Elements(b.nodeIdVec) - b.toRead))
  {}

  /** Every response keeps the invariant; a failed one adds the nodes it drops. */
  lemma StepKeepsInv(start: set<NodeId>, b: Browser, dropped: set<NodeId>, r: Response, b': Browser)
    requires Valid(b) && b.request != Idle && Step(b, r, b') && Tidy(b)
    requires Inv(start, b, OpenNodes(b), dropped)
    ensures Inv(start, b', OpenNodes(b'), dropped + Dropped(b, r)) && Tidy(b')
  {
    if Fails(b, r) {
      FailureKeepsInv(start, b, dropped);
      var s := if r.serviceResult != Success then r.serviceResult else BadCommunicationError;
      BatchKeepsInv(start, b, dropped + Dropped(b, r), s, b');
    } else {
      assert dropped + Dropped(b, r) == dropped;
      PassKeepsInv(start, b, dropped, r.results);
      PassStepKeepsInv(start, AbsorbPrefix(b, r.results, |r.results|), dropped, b');
    }
  }

  // ---------------------------------------------------------------------
  // Runs
  // ---------------------------------------------------------------------

  /** A recursive browse from distinct start nodes. */
  ghost predicate IsBrowse(start: seq<NodeId>, bs: seq<Browser>, rs: seq<Response>) {
    IsRun(bs, rs) && Distinct(start) && Initial(bs[0], start) && bs[0].recursive
  }

  ghost function DroppedBefore(bs: seq<Browser>, rs: seq<Response>, i: nat): set<NodeId>
    requires |bs| == |rs| + 1 && i <= |rs|
  {
    if i == 0 then {} else DroppedBefore(bs, rs, i - 1) + Dropped(bs[i - 1], rs[i - 1])
  }

  lemma InitialInv(start: seq<NodeId>, b: Browser)
    requires Distinct(start) && Initial(b, start) && b.recursive
    ensures Inv(Elements(start), b, OpenNodes(b), {}) && Tidy(b)
  {
    assert Found(b.callbacks) == {} && Heard(b.callbacks) == {};
  }

  lemma {:induction false} RunKeepsInv(start: seq<NodeId>, bs: seq<Browser>, rs: seq<Response>, i: nat)
    requires IsBrowse(start, bs, rs) && i < |bs|
    ensures Inv(Elements(start), bs[i], OpenNodes(bs[i]), DroppedBefore(bs, rs, i)) && Tidy(bs[i])
  {
    if i == 0 {
      InitialInv(start, bs[0]);
    } else {
      RunKeepsInv(start, bs, rs, i - 1);
      StepKeepsInv(Elements(start), bs[i - 1], DroppedBefore(bs, rs, i - 1), rs[i - 1], bs[i]);
    }
  }

  /** For every server, with failed calls and failed nodes in any number: no node is ever
      reported twice, and every reported node is reachable over the delivered references. */
  lemma EveryReportIsNewAndReachable(start: seq<NodeId>, bs: seq<Browser>, rs: seq<Response>, i: nat, n: NodeId)
    requires IsBrowse(start, bs, rs) && i < |bs|
    ensures var cs := bs[i].callbacks;
            && InOrder(Elements(start), cs)
            && (n in Found(cs) ==> Reachable(ToldGraph(cs), Elements(start), n))
  {
    RunKeepsInv(start, bs, rs, i);
    if n in Found(bs[i].callbacks) {
      KnownIsReachable(Elements(start), bs[i].callbacks, n);
    }
  }

  lemma EndedIsCompleteIff(start: seq<NodeId>, bs: seq<Browser>, rs: seq<Response>)
    requires IsBrowse(start, bs, rs) && bs[|rs|].request == Idle
    ensures var cs := bs[|rs|].callbacks;
            (forall n :: n in Found(cs) <==> Reachable(ToldGraph(cs), Elements(start), n)) <==>
            DroppedBefore(bs, rs, |rs|) <= Found(cs)
  {
    RunKeepsInv(start, bs, rs, |rs|);
    var from, cs, dropped := Elements(start), bs[|rs|].callbacks, DroppedBefore(bs, rs, |rs|);
    assert from + Heard(cs) == Found(cs) + dropped;
    forall n | n in from + Found(cs) + Heard(cs) ensures Reachable(ToldGraph(cs), from, n) {
      KnownIsReachable(from, cs, n);
    }
    if dropped <= Found(cs) {
      FoundIsClosed(from, cs);
      forall n | Reachable(ToldGraph(cs), from, n) ensures n in Found(cs) {
        ReachableIsInside(ToldGraph(cs), from, Found(cs), n);
      }
    }
  }

  lemma {:induction false} NothingDropped(bs: seq<Browser>, rs: seq<Response>, i: nat)
    requires |bs| == |rs| + 1 && NoFailure(bs, rs) && i <= |rs|
    ensures DroppedBefore(bs, rs, i) == {}
  {
    if i > 0 {
      NothingDropped(bs, rs, i - 1);
      assert !Fails(bs[i - 1], rs[i - 1]);
    }
  }

  /** Sound and complete: if every call succeeds with as many results as nodes, whatever
      status, references and continuation points the single results carry, a browse that
      has ended has told exactly the nodes reachable over the delivered references, each
      once, and then success, once and last. Cycles need no special treatment. */
  lemma BrowseVisitsExactlyTheReachableNodes(start: seq<NodeId>, bs: seq<Browser>, rs: seq<Response>)
    requires IsBrowse(start, bs, rs) && NoFailure(bs, rs) && bs[|rs|].request == Idle
    ensures var cs := bs[|rs|].callbacks;
            && cs != [] && cs[|cs| - 1] == BrowseDone(Success) && CountDone(cs[..|cs| - 1]) == 0
            && InOrder(Elements(start), cs)
            && (forall n :: n in Found(cs) <==> Reachable(ToldGraph(cs), Elements(start), n))
            && Found(cs) == Elements(start) + Heard(cs)
  {
    RunKeepsInv(start, bs, rs, |rs|);
    NothingDropped(bs, rs, |rs|);
    EndedIsCompleteIff(start, bs, rs);
    DoneCallbacksCountFailures(bs, rs);
    NoFailureCounts(bs, rs);
    assert rs != [];
    LastStepTellsSuccess(bs[|rs| - 1], rs[|rs| - 1], bs[|rs|]);
  }
}
