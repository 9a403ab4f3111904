/** What failed calls cost the recursive browser: the nodes they drop, and when a browse
    with failed calls is complete all the same. */
module BrowseFailures {
  import opened OpcUaTypes
  import opened BrowsePaging
  import opened ViewServiceBrowse
  import opened BrowseRuns
  import opened BrowseTold
  import opened BrowseExploration

  // ---------------------------------------------------------------------
  // Dropped nodes that are heard of again
  // ---------------------------------------------------------------------

  /** The targets of the references delivered from callback `k` on. */
  ghost function HeardFrom(cs: seq<Callback>, k: nat): set<NodeId> {
    if |cs| <= k then {}
    else
      var told, c := cs[..|cs| - 1], cs[|cs| - 1];
      if c.NodeResult? then HeardFrom(told, k) + Targets(c.references) else HeardFrom(told, k)
  }

  lemma HearOneMore(cs: seq<Callback>, c: Callback, k: nat)
    requires k <= |cs|
    ensures HeardFrom(cs + [c], k) ==
            if c.NodeResult? then HeardFrom(cs, k) + Targets(c.references) else HeardFrom(cs, k)
  {
    assert (cs + [c])[..|cs|] == cs;
  }

  /** After a failed call that dropped `n`: open nodes are still to be read, and `n` is
      processed or to be read exactly if it was heard of again since callback `k`. */
  ghost predicate Tracks(n: NodeId, k: nat, b: Browser, open: set<NodeId>) {
    && k <= |b.callbacks| && b.recursive && open <= b.toRead
    && (n in HeardFrom(b.callbacks, k) <==> n in b.processed + b.toRead)
  }

  lemma ReportKeepsTracks(
    n: NodeId, k: nat, b: Browser, open: set<NodeId>, s: StatusCode, m: NodeId, refs: seq<Reference>)
    requires Tracks(n, k, b, open) && m in open
    ensures Tracks(n, k, Report(b, s, m, refs), open - {m})
  {
    HearOneMore(b.callbacks, NodeResult(s, m, refs), k);
  }

  lemma {:induction false} ReportAllKeepsTracks(
    n: NodeId, k: nat, b: Browser, open: set<NodeId>, items: seq<Item>)
    requires Tracks(n, k, b, open) && InTurn(open, items)
    ensures Tracks(n, k, ReportAll(b, items), Minus(open, items))
  {
    if items != [] {
      var front, i := items[..|items| - 1], items[|items| - 1];
      ReportAllKeepsTracks(n, k, b, open, front);
      ReportKeepsTracks(n, k, ReportAll(b, front), Minus(open, front), i.statusCode, i.nodeId, i.references);
    }
  }

  lemma DoneKeepsTracks(n: NodeId, k: nat, b: Browser, s: StatusCode, b': Browser)
    requires Tracks(n, k, b, {}) && DoneStep(b, s, b')
    ensures Tracks(n, k, b', OpenNodes(b'))
  {
    HearOneMore(b.callbacks, BrowseDone(s), k);
    HearOneMore(b.callbacks + [BrowseDone(s)], BrowseDone(s), k);
  }

  lemma PassKeepsTracks(n: NodeId, k: nat, b: Browser, results: seq<BrowseResult>)
    requires Matches(b, results) && Distinct(b.nodeIdVec) && Tracks(n, k, b, Elements(b.nodeIdVec))
    ensures var p := AbsorbPrefix(b, results, |results|); Tracks(n, k, p.browser, Elements(p.nodes))
  {
    var items := PassReports(b, results, |results|);
    ReportAllKeepsTracks(n, k, b, Elements(b.nodeIdVec), items);
    PassEndsWithUnreported(b, results);
  }

  lemma StepKeepsTracks(n: NodeId, k: nat, b: Browser, r: Response, b': Browser)
    requires Valid(b) && b.request != Idle && Tidy(b) && Step(b, r, b') && Tracks(n, k, b, OpenNodes(b))
    ensures Tracks(n, k, b', OpenNodes(b'))
  {
    if Fails(b, r) {
      var s := if r.serviceResult != Success then r.serviceResult else BadCommunicationError;
      DoneKeepsTracks(n, k, b, s, b');
    } else {
      PassKeepsTracks(n, k, b, r.results);
      var p := AbsorbPrefix(b, r.results, |r.results|);
      if p.nodes == [] {
        DoneKeepsTracks(n, k, p.browser, Success, b');
      }
    }
  }

  lemma DropStartsTracks(b: Browser, r: Response, b': Browser, n: NodeId)
    requires Valid(b) && b.request != Idle && b.recursive && Step(b, r, b')
    requires n in Dropped(b, r) && n !in b.processed
    ensures Tracks(n, |b.callbacks|, b', OpenNodes(b'))
  {
    var s := if r.serviceResult != Success then r.serviceResult else BadCommunicationError;
    DoneKeepsTracks(n, |b.callbacks|, b, s, b');
  }

  lemma {:induction false} RunKeepsTracks(
    start: seq<NodeId>, bs: seq<Browser>, rs: seq<Response>, i: nat, n: NodeId, j: nat)
    requires IsBrowse(start, bs, rs) && i < j < |bs| && n in Dropped(bs[i], rs[i])
    ensures Tracks(n, |bs[i].callbacks|, bs[j], OpenNodes(bs[j]))
    decreases j
  {
    RunKeepsInv(start, bs, rs, j - 1);
    if j == i + 1 {
      assert rs[i] == rs[j - 1];
      DropStartsTracks(bs[i], rs[i], bs[j], n);
    } else {
      RunKeepsTracks(start, bs, rs, i, n, j - 1);
      StepKeepsTracks(n, |bs[i].callbacks|, bs[j - 1], rs[j - 1], bs[j]);
    }
  }

  /** In a browse that has ended, a node that a failed call dropped has been reported if and
      only if a reference to it was delivered after the drop. */
  lemma DroppedIsReportedIff(start: seq<NodeId>, bs: seq<Browser>, rs: seq<Response>, i: nat, n: NodeId)
    requires IsBrowse(start, bs, rs) && bs[|rs|].request == Idle
    requires i < |rs| && n in Dropped(bs[i], rs[i])
    ensures n in Found(bs[|rs|].callbacks) <==> n in HeardFrom(bs[|rs|].callbacks, |bs[i].callbacks|)
  {
    RunKeepsInv(start, bs, rs, |rs|);
    RunKeepsTracks(start, bs, rs, i, n, |rs|);
  }

  lemma {:induction false} DroppedBeforeIs(bs: seq<Browser>, rs: seq<Response>, k: nat, found: set<NodeId>)
    requires |bs| == |rs| + 1 && k <= |rs|
    ensures DroppedBefore(bs, rs, k) <= found <==> forall i :: 0 <= i < k ==> Dropped(bs[i], rs[i]) <= found
  {
    if k > 0 {
      DroppedBeforeIs(bs, rs, k - 1, found);
    }
  }

  /** A reference to every node that call `i` dropped was delivered after it. */
  ghost predicate HeardAgain(bs: seq<Browser>, rs: seq<Response>, i: nat)
    requires |bs| == |rs| + 1 && i < |rs|
  {
    Dropped(bs[i], rs[i]) <= HeardFrom(bs[|rs|].callbacks, |bs[i].callbacks|)
  }

  /** A browse that has ended, with failed calls or without, has reported exactly the nodes
      reachable over the delivered references if and only if a reference to every node that
      a failed call dropped was delivered after the drop. */
  lemma ReportsExactlyTheReachableIff(start: seq<NodeId>, bs: seq<Browser>, rs: seq<Response>)
    requires IsBrowse(start, bs, rs) && bs[|rs|].request == Idle
    ensures var cs := bs[|rs|].callbacks;
            (forall n :: n in Found(cs) <==> Reachable(ToldGraph(cs), Elements(start), n)) <==>
            forall i :: 0 <= i < |rs| ==> HeardAgain(bs, rs, i)
  {
    var found := Found(bs[|rs|].callbacks);
    EndedIsCompleteIff(start, bs, rs);
    DroppedBeforeIs(bs, rs, |rs|, found);
    forall i | 0 <= i < |rs| ensures Dropped(bs[i], rs[i]) <= found <==> HeardAgain(bs, rs, i) {
      forall n | n in Dropped(bs[i], rs[i])
        ensures n in found <==> n in HeardFrom(bs[|rs|].callbacks, |bs[i].callbacks|)
      {
        DroppedIsReportedIff(start, bs, rs, i, n);
      }
    }
  }

  // ---------------------------------------------------------------------
  // What a failed call costs
  // ---------------------------------------------------------------------

  /** The nodes the browser still intends to report. */
  ghost function Intended(b: Browser): set<NodeId> {
    OpenNodes(b) + if b.recursive then b.toRead else {}
  }

  lemma {:induction false} ReportAllKeepsIntended(b: Browser, items: seq<Item>)
    requires b.recursive
    ensures ReportAll(b, items).recursive
    ensures b.processed + b.toRead <= ReportAll(b, items).processed + ReportAll(b, items).toRead
  {
    if items != [] {
      ReportAllKeepsIntended(b, items[..|items| - 1]);
    }
  }

  lemma {:induction false} ReportAllProcesses(b: Browser, open: set<NodeId>, items: seq<Item>)
    requires b.recursive
    ensures ReportAll(b, items).recursive
    ensures open <= Minus(open, items) + ReportAll(b, items).processed
  {
    if items != [] {
      ReportAllProcesses(b, open, items[..|items| - 1]);
    }
  }

  lemma PassKeepsIntended(b: Browser, results: seq<BrowseResult>)
    requires Matches(b, results) && Distinct(b.nodeIdVec) && b.recursive
    ensures var p := AbsorbPrefix(b, results, |results|);
            && p.browser.recursive
            && b.processed + b.toRead <= p.browser.processed + p.browser.toRead
            && Elements(b.nodeIdVec) <= Elements(p.nodes) + p.browser.processed
  {
    var k := |results|;
    var items := PassReports(b, results, k);
    ReportAllKeepsIntended(b, items);
    ReportAllProcesses(b, Elements(b.nodeIdVec), items);
    PassEndsWithUnreported(b, results);
  }

  /** A response gives up an intended node, neither reporting nor keeping it, if and only if
      the call fails and the node is in its batch but not to be read. */
  lemma StepGivesUpIff(b: Browser, r: Response, b': Browser, n: NodeId)
    requires Valid(b) && b.request != Idle && b.recursive && Tidy(b) && Step(b, r, b')
    requires n in Intended(b) && n !in b.processed
    ensures n !in Intended(b') + b'.processed <==> Fails(b, r) && n in b.nodeIdVec && n !in b.toRead
  {
    if !Fails(b, r) {
      PassKeepsIntended(b, r.results);
      var p := AbsorbPrefix(b, r.results, |r.results|);
      if p.nodes == [] {
        assert Elements(p.nodes) == {};
      }
    }
  }

  /** The first result is held, the second delivered. */
  lemma HoldThenDeliver(b: Browser, r: Response, b': Browser)
    requires b.request.Browse? && |b.nodeIdVec| == 2 && r.serviceResult == Success && |r.results| == 2
    requires FirstPage(r.results[0]).Hold? && FirstPage(r.results[1]).Deliver?
    requires var h, f := FirstPage(r.results[0]), FirstPage(r.results[1]);
             b' == Report(b, f.statusCode, b.nodeIdVec[1], f.references).(
                     nodeIdVec := [b.nodeIdVec[0]], held := [h.page], points := [h.point],
                     request := BrowseNext([h.point]))
    requires Valid(b)
    ensures Step(b, r, b')
  {
    var h := FirstPage(r.results[0]);
    assert AbsorbPrefix(b, r.results, 0) == Pass(b, [], [], []);
    assert AbsorbPrefix(b, r.results, 1) == Pass(b, [b.nodeIdVec[0]], [h.page], [h.point]);
  }

  lemma FailOver(b: Browser, s: StatusCode, c: NodeId)
    requires Valid(b) && b.recursive && b.toRead == {c} && b.maxNodesInBrowse == 1 && s != Success
    ensures Step(b, Response(s, []),
                 b.(nodeIdVec := [c], request := Browse([c]), callbacks := b.callbacks + [BrowseDone(s)]))
  {
    assert Elements([c]) == {c};
  }

  lemma LastNodeIsEmpty(b: Browser, c: NodeId)
    requires b.recursive && b.request == Browse([c]) && b.nodeIdVec == [c] && b.toRead == {c}
    ensures var r := Response(Success, [BrowseResult(Success, [], None)]);
            var told := b.callbacks + [NodeResult(Success, c, [])];
            Step(b, r, b.(toRead := {}, processed := b.processed + {c}, request := Idle,
                          callbacks := told + [BrowseDone(Success)]))
  {
    var results := [BrowseResult(Success, [], None)];
    assert AbsorbPrefix(b, results, 0) == Pass(b, [], [], []);
    assert Targets([]) == {};
    assert {c} - {c} + ({} - (b.processed + {c})) == {};
  }

  /** A run in which a start node is never reported: its first page is held when the call
      for the next page fails, and it is not in the to-read set. */
  lemma FailedCallLosesAStartNode(a: NodeId, d: NodeId, x: Reference, y: Reference, point: ContinuationPoint)
    returns (bs: seq<Browser>, rs: seq<Response>)
    requires a != d && y.target != a && y.target != d
    ensures IsBrowse([a, d], bs, rs) && bs[|rs|].request == Idle
    ensures Found(bs[|rs|].callbacks) == {d, y.target}
  {
    var b0 := Browser(1, true, [a, d], [], [], {}, {}, Browse([a, d]), []);
    var r0 := Response(Success, [BrowseResult(Success, [x], Some(point)), BrowseResult(Success, [y], None)]);
    var b1 := Report(b0, Success, d, [y]).(
      nodeIdVec := [a], held := [[x]], points := [point], request := BrowseNext([point]));
    HoldThenDeliver(b0, r0, b1);
    assert Targets([y]) == {y.target};
    ExtendRun([b0], [], r0, b1);
    bs, rs := LostRunEnd([b0] + [b1], [] + [r0], y.target);
    FoundInLostRun(d, y.target, [y]);
  }

  lemma LostRunEnd(bs: seq<Browser>, rs: seq<Response>, c: NodeId) returns (bs': seq<Browser>, rs': seq<Response>)
    requires IsRun(bs, rs)
    requires var b := bs[|rs|];
             b.request != Idle && b.recursive && b.toRead == {c} && b.maxNodesInBrowse == 1
    ensures IsRun(bs', rs') && bs'[0] == bs[0] && bs'[|rs'|].request == Idle
    ensures bs'[|rs'|].callbacks ==
            bs[|rs|].callbacks + [BrowseDone(BadTimeout)] + [NodeResult(Success, c, [])] + [BrowseDone(Success)]
  {
    var b := bs[|rs|];
    var b2 := b.(nodeIdVec := [c], request := Browse([c]), callbacks := b.callbacks + [BrowseDone(BadTimeout)]);
    FailOver(b, BadTimeout, c);
    ExtendRun(bs, rs, Response(BadTimeout, []), b2);
    bs', rs' := LastNodeEnds(bs + [b2], rs + [Response(BadTimeout, [])], c);
  }

  lemma LastNodeEnds(bs: seq<Browser>, rs: seq<Response>, c: NodeId) returns (bs': seq<Browser>, rs': seq<Response>)
    requires IsRun(bs, rs)
    requires var b := bs[|rs|];
             b.request == Browse([c]) && b.nodeIdVec == [c] && b.recursive && b.toRead == {c}
    ensures IsRun(bs', rs') && bs'[0] == bs[0] && bs'[|rs'|].request == Idle
    ensures bs'[|rs'|].callbacks == bs[|rs|].callbacks + [NodeResult(Success, c, [])] + [BrowseDone(Success)]
    ensures bs' == bs + [bs'[|rs'|]] && rs' == rs + [Response(Success, [BrowseResult(Success, [], None)])]
  {
    var b, r := bs[|rs|], Response(Success, [BrowseResult(Success, [], None)]);
    var b' := b.(toRead := {}, processed := b.processed + {c}, request := Idle,
                 callbacks := b.callbacks + [NodeResult(Success, c, [])] + [BrowseDone(Success)]);
    LastNodeIsEmpty(b, c);
    ExtendRun(bs, rs, r, b');
    bs', rs' := bs + [b'], rs + [r];
  }

  lemma OneResult(b: Browser, r: BrowseResult)
    requires |b.nodeIdVec| == 1 && (b.request.BrowseNext? ==> |b.held| == 1)
    ensures AbsorbPrefix(b, [r], 1) == Absorb(Pass(b, [], [], []), b.nodeIdVec[0], Judge(b, [r], 0))
  {
    assert AbsorbPrefix(b, [r], 0) == Pass(b, [], [], []);
  }

  lemma HoldFirstPage(b: Browser, n: NodeId, x: Reference, point: ContinuationPoint)
    requires b.request == Browse([n]) && b.nodeIdVec == [n]
    ensures Step(b, Response(Success, [BrowseResult(Success, [x], Some(point))]),
                 b.(held := [[x]], points := [point], request := BrowseNext([point])))
  {
    OneResult(b, BrowseResult(Success, [x], Some(point)));
  }

  lemma SecondPageFails(b: Browser, n: NodeId, x: Reference, bad: StatusCode)
    requires Valid(b) && b.request.BrowseNext? && b.nodeIdVec == [n] && b.held == [[x]] && b.recursive
    requires b.maxNodesInBrowse == 1 && b.toRead == {} && x.target != n && x.target !in b.processed && bad != Success
    ensures Step(b, Response(Success, [BrowseResult(bad, [], None)]),
                 b.(nodeIdVec := [x.target], request := Browse([x.target]), processed := b.processed + {n},
                    toRead := {x.target}, callbacks := b.callbacks + [NodeResult(bad, n, [x])]))
  {
    OneResult(b, BrowseResult(bad, [], None));
    assert Targets([x]) == {x.target};
    assert {} - {n} + ({x.target} - (b.processed + {n})) == {x.target};
    assert Elements([x.target]) == {x.target};
  }

  /** A browse in which the second page of a node fails: its first page is told with the bad
      status, and its target is browsed. */
  lemma BadLaterPageIsTold(n: NodeId, x: Reference, point: ContinuationPoint, bad: StatusCode)
    returns (bs: seq<Browser>, rs: seq<Response>)
    requires x.target != n && bad != Success
    ensures IsBrowse([n], bs, rs) && NoFailure(bs, rs) && bs[|rs|].request == Idle
    ensures bs[|rs|].callbacks ==
            [NodeResult(bad, n, [x])] + [NodeResult(Success, x.target, [])] + [BrowseDone(Success)]
  {
    var b0 := Browser(1, true, [n], [], [], {}, {}, Browse([n]), []);
    var r0 := Response(Success, [BrowseResult(Success, [x], Some(point))]);
    var b1 := b0.(held := [[x]], points := [point], request := BrowseNext([point]));
    HoldFirstPage(b0, n, x, point);
    ExtendRun([b0], [], r0, b1);
    var bs1, rs1 := FailSecondPage([b0] + [b1], [] + [r0], n, x, bad);
    bs, rs := LastNodeEnds(bs1, rs1, x.target);
    var r2 := Response(Success, [BrowseResult(Success, [], None)]);
    assert rs == [r0, Response(Success, [BrowseResult(bad, [], None)]), r2];
    assert [] + [NodeResult(bad, n, [x])] == [NodeResult(bad, n, [x])];
  }

  lemma FailSecondPage(bs: seq<Browser>, rs: seq<Response>, n: NodeId, x: Reference, bad: StatusCode)
    returns (bs': seq<Browser>, rs': seq<Response>)
    requires IsRun(bs, rs) && bad != Success && x.target != n
    requires var b := bs[|rs|];
             && b.request.BrowseNext? && b.nodeIdVec == [n] && b.held == [[x]] && b.recursive
             && b.maxNodesInBrowse == 1 && b.toRead == {} && b.processed == {}
    ensures IsRun(bs', rs') && rs' == rs + [Response(Success, [BrowseResult(bad, [], None)])]
    ensures |bs'| == |bs| + 1 && bs'[..|bs|] == bs
    ensures var b' := bs'[|rs'|];
            && b'.request == Browse([x.target]) && b'.nodeIdVec == [x.target] && b'.recursive
            && b'.toRead == {x.target} && b'.callbacks == bs[|rs|].callbacks + [NodeResult(bad, n, [x])]
  {
    var b, r := bs[|rs|], Response(Success, [BrowseResult(bad, [], None)]);
    var b' := b.(nodeIdVec := [x.target], request := Browse([x.target]), processed := b.processed + {n},
                 toRead := {x.target}, callbacks := b.callbacks + [NodeResult(bad, n, [x])]);
    SecondPageFails(b, n, x, bad);
    ExtendRun(bs, rs, r, b');
    bs', rs' := bs + [b'], rs + [r];
  }

  lemma FoundInLostRun(d: NodeId, c: NodeId, refs: seq<Reference>)
    ensures Found([] + [NodeResult(Success, d, refs)] + [BrowseDone(BadTimeout)] + [NodeResult(Success, c, [])]
                  + [BrowseDone(Success)]) == {d, c}
  {
    var c0, c1 := NodeResult(Success, d, refs), NodeResult(Success, c, []);
    var cs := [] + [c0] + [BrowseDone(BadTimeout)];
    TellOneMore({}, [], c0);
    TellOneMore({}, [] + [c0], BrowseDone(BadTimeout));
    TellOneMore({}, cs, c1);
    TellOneMore({}, cs + [c1], BrowseDone(Success));
  }
}
