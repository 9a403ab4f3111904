/** The recursive browser against a server that keeps the references of each node in pages:
    what is delivered for a node, and which nodes are visited. */
module BrowsedPages {
  import opened OpcUaTypes
  import opened BrowsePaging
  import opened ViewServiceBrowse
  import opened BrowseRuns
  import opened BrowseTold
  import opened BrowseExploration
  import opened BrowseTermination
  import opened BrowseResponses

  /** The pages of each node; `locate` is the server's own record of which node and page an
      issued continuation point stands for. */
  datatype Server = Server(pages: NodeId -> seq<seq<Reference>>, locate: ContinuationPoint -> (NodeId, nat))

  /** The references of a node as the client delivers them. */
  ghost function RefsOf(srv: Server, n: NodeId): seq<Reference> {
    if srv.pages(n) == [] then [] else Delivered(srv.pages(n))
  }

  ghost function PageGraph(srv: Server): Graph {
    n => RefsOf(srv, n)
  }

  /** `r` is page `i` of node `n`, with a continuation point exactly when pages remain. */
  ghost predicate IsPage(srv: Server, n: NodeId, i: nat, r: BrowseResult) {
    && i < |srv.pages(n)|
    && r.statusCode == Success && r.references == srv.pages(n)[i]
    && (r.continuationPoint.Some? <==> i + 1 < |srv.pages(n)|)
    && (r.continuationPoint.Some? ==> srv.locate(r.continuationPoint.value) == (n, i + 1))
  }

  ghost function PageAsked(srv: Server, b: Browser, i: nat): nat
    requires b.request.BrowseNext? ==> i < |b.points|
  {
    if b.request.BrowseNext? then srv.locate(b.points[i]).1 else 0
  }

  /** A response that does not fail carries the pages asked for or, unless `strict`, errors
      for single nodes. */
  ghost predicate AnswersWithPages(srv: Server, b: Browser, r: Response, strict: bool)
    requires Valid(b)
  {
    !Fails(b, r) ==>
      forall i :: 0 <= i < |r.results| ==>
        IsPage(srv, b.nodeIdVec[i], PageAsked(srv, b, i), r.results[i])
        || (!strict && r.results[i].statusCode != Success)
  }

  /** A good result carries what its pages deliver; a bad one nothing or a single page. */
  ghost predicate IsRight(srv: Server, n: NodeId, s: StatusCode, refs: seq<Reference>, strict: bool) {
    if s == Success then refs == RefsOf(srv, n)
    else !strict && (refs == [] || refs in srv.pages(n))
  }

  ghost predicate AllRight(srv: Server, cs: seq<Callback>, strict: bool) {
    cs != [] ==>
      var c := cs[|cs| - 1];
      && AllRight(srv, cs[..|cs| - 1], strict)
      && (c.NodeResult? ==> IsRight(srv, c.nodeId, c.statusCode, c.references, strict))
  }

  lemma {:induction false} AllRightAt(srv: Server, cs: seq<Callback>, strict: bool, i: nat)
    requires AllRight(srv, cs, strict) && i < |cs| && cs[i].NodeResult?
    ensures IsRight(srv, cs[i].nodeId, cs[i].statusCode, cs[i].references, strict)
    decreases |cs|
  {
    if i < |cs| - 1 {
      AllRightAt(srv, cs[..|cs| - 1], strict, i);
    }
  }

  lemma AllRightAppend(srv: Server, cs: seq<Callback>, strict: bool, c: Callback)
    requires AllRight(srv, cs, strict)
    requires c.NodeResult? ==> IsRight(srv, c.nodeId, c.statusCode, c.references, strict)
    ensures AllRight(srv, cs + [c], strict)
  {
    assert (cs + [c])[..|cs|] == cs;
  }

  // ---------------------------------------------------------------------
  // What is held
  // ---------------------------------------------------------------------

  /** The newest page of `n` is held, and the pages still to come complete it. */
  ghost predicate Holding(srv: Server, n: NodeId, page: seq<Reference>, point: ContinuationPoint) {
    var (m, i) := srv.locate(point);
    && m == n && 0 < i < |srv.pages(n)| && page == srv.pages(n)[i - 1] && page != []
    && DeliverRest(page, srv.pages(n)[i..]) == RefsOf(srv, n)
  }

  ghost predicate Paged(srv: Server, b: Browser, strict: bool) {
    && Valid(b) && AllRight(srv, b.callbacks, strict)
    && (b.request.BrowseNext? ==>
          forall i :: 0 <= i < |b.nodeIdVec| ==> Holding(srv, b.nodeIdVec[i], b.held[i], b.points[i]))
  }

  ghost predicate RightVerdict(srv: Server, n: NodeId, v: Verdict, strict: bool) {
    match v
    case Deliver(s, refs) => IsRight(srv, n, s, refs, strict)
    case Hold(page, point) => Holding(srv, n, page, point)
  }

  lemma FirstPageIsRight(srv: Server, n: NodeId, r: BrowseResult, strict: bool)
    requires IsPage(srv, n, 0, r) || (!strict && r.statusCode != Success)
    ensures RightVerdict(srv, n, FirstPage(r), strict)
  {}

  lemma NextPageIsRight(
    srv: Server, n: NodeId, held: seq<Reference>, point: ContinuationPoint, r: BrowseResult, strict: bool)
    requires Holding(srv, n, held, point)
    requires IsPage(srv, n, srv.locate(point).1, r) || (!strict && r.statusCode != Success)
    ensures RightVerdict(srv, n, NextPage(held, r), strict)
  {
    var i := srv.locate(point).1;
    var rest := srv.pages(n)[i..];
    assert rest[0] == srv.pages(n)[i];
    assert rest[1..] == srv.pages(n)[i + 1..];
  }

  lemma JudgedRight(srv: Server, b: Browser, r: Response, strict: bool, i: nat)
    requires Paged(srv, b, strict) && !Fails(b, r) && AnswersWithPages(srv, b, r, strict) && i < |r.results|
    ensures RightVerdict(srv, b.nodeIdVec[i], Judge(b, r.results, i), strict)
  {
    if b.request.BrowseNext? {
      NextPageIsRight(srv, b.nodeIdVec[i], b.held[i], b.points[i], r.results[i], strict);
    } else {
      FirstPageIsRight(srv, b.nodeIdVec[i], r.results[i], strict);
    }
  }

  ghost predicate AllJudgedRight(srv: Server, b: Browser, results: seq<BrowseResult>, strict: bool)
    requires Matches(b, results)
  {
    forall i :: 0 <= i < |results| ==> RightVerdict(srv, b.nodeIdVec[i], Judge(b, results, i), strict)
  }

  ghost predicate PassHolding(srv: Server, p: Pass) {
    && |p.nodes| == |p.held| == |p.points|
    && forall i :: 0 <= i < |p.nodes| ==> Holding(srv, p.nodes[i], p.held[i], p.points[i])
  }

  lemma {:induction false} PassIsRight(srv: Server, b: Browser, results: seq<BrowseResult>, strict: bool, k: nat)
    requires Matches(b, results) && k <= |results| && AllJudgedRight(srv, b, results, strict)
    requires AllRight(srv, b.callbacks, strict)
    ensures var p := AbsorbPrefix(b, results, k); PassHolding(srv, p) && AllRight(srv, p.browser.callbacks, strict)
  {
    if k > 0 {
      PassIsRight(srv, b, results, strict, k - 1);
      var p, n := AbsorbPrefix(b, results, k - 1), b.nodeIdVec[k - 1];
      assert RightVerdict(srv, n, Judge(b, results, k - 1), strict);
      match Judge(b, results, k - 1) {
        case Deliver(s, refs) => AllRightAppend(srv, p.browser.callbacks, strict, NodeResult(s, n, refs));
        case Hold(_, _) =>
      }
    }
  }

  lemma DoneKeepsRight(srv: Server, b: Browser, s: StatusCode, b': Browser, strict: bool)
    requires AllRight(srv, b.callbacks, strict) && DoneStep(b, s, b')
    ensures AllRight(srv, b'.callbacks, strict) && !b'.request.BrowseNext?
  {
    AllRightAppend(srv, b.callbacks, strict, BrowseDone(s));
    AllRightAppend(srv, b.callbacks + [BrowseDone(s)], strict, BrowseDone(s));
  }

  lemma StepKeepsPaged(srv: Server, b: Browser, r: Response, b': Browser, strict: bool)
    requires Paged(srv, b, strict) && b.request != Idle && AnswersWithPages(srv, b, r, strict) && Step(b, r, b')
    ensures Paged(srv, b', strict)
  {
    StepKeepsValid(b, r, b');
    if Fails(b, r) {
      var s := if r.serviceResult != Success then r.serviceResult else BadCommunicationError;
      DoneKeepsRight(srv, b, s, b', strict);
    } else {
      forall i | 0 <= i < |r.results| ensures RightVerdict(srv, b.nodeIdVec[i], Judge(b, r.results, i), strict) {
        JudgedRight(srv, b, r, strict, i);
      }
      PassIsRight(srv, b, r.results, strict, |r.results|);
      var p := AbsorbPrefix(b, r.results, |r.results|);
      if p.nodes == [] {
        DoneKeepsRight(srv, p.browser, Success, b', strict);
      }
    }
  }

  /** The bad result at `i` is told with nothing if and only if the first page failed, and
      otherwise with exactly the page before the one that failed. */
  ghost predicate BadResultTold(srv: Server, b: Browser, r: Response, b': Browser, i: nat)
    requires Valid(b) && i < |r.results| == |b.nodeIdVec|
  {
    var n, page, refs := b.nodeIdVec[i], PageAsked(srv, b, i), HeldBefore(b, i);
    && NodeResult(r.results[i].statusCode, n, refs) in NewlyTold(b, b')
    && (refs == [] <==> page == 0)
    && (page > 0 ==> page <= |srv.pages(n)| && refs == srv.pages(n)[page - 1])
  }

  lemma BadResultCarriesIff(srv: Server, b: Browser, r: Response, b': Browser, i: nat)
    requires Paged(srv, b, false) && b.request != Idle && Step(b, r, b')
    requires !Fails(b, r) && i < |r.results| && r.results[i].statusCode != Success
    ensures BadResultTold(srv, b, r, b', i)
  {
    BadResultCarriesTheHeldPage(b, r, b', i);
  }

  // ---------------------------------------------------------------------
  // Runs
  // ---------------------------------------------------------------------

  ghost predicate AllPages(srv: Server, bs: seq<Browser>, rs: seq<Response>, strict: bool)
    requires IsRun(bs, rs)
  {
    forall i {:trigger rs[i]} :: 0 <= i < |rs| ==> AnswersWithPages(srv, bs[i], rs[i], strict)
  }

  /** In every run, failed calls included, each good result carries exactly what the pages
      of its node deliver, and each bad one nothing or one page. */
  lemma {:induction false} EveryResultIsRight(
    srv: Server, start: seq<NodeId>, bs: seq<Browser>, rs: seq<Response>, strict: bool, i: nat)
    requires IsRun(bs, rs) && Initial(bs[0], start) && AllPages(srv, bs, rs, strict) && i < |bs|
    ensures Paged(srv, bs[i], strict)
  {
    if i > 0 {
      EveryResultIsRight(srv, start, bs, rs, strict, i - 1);
      StepKeepsPaged(srv, bs[i - 1], rs[i - 1], bs[i], strict);
    }
  }

  /** In every run a bad result is told with nothing if and only if the first page of its node
      failed, and otherwise with exactly the page before the one that failed. */
  lemma BadResultsOfARunCarryIff(
    srv: Server, start: seq<NodeId>, bs: seq<Browser>, rs: seq<Response>, k: nat, i: nat)
    requires IsRun(bs, rs) && Initial(bs[0], start) && AllPages(srv, bs, rs, false) && k < |rs|
    requires !Fails(bs[k], rs[k]) && i < |rs[k].results| && rs[k].results[i].statusCode != Success
    ensures BadResultTold(srv, bs[k], rs[k], bs[k + 1], i)
  {
    EveryResultIsRight(srv, start, bs, rs, false, k);
    assert Step(bs[k], rs[k], bs[k + 1]);
    BadResultCarriesIff(srv, bs[k], rs[k], bs[k + 1], i);
  }

  lemma {:induction false} RightRefs(srv: Server, cs: seq<Callback>, n: NodeId)
    requires AllRight(srv, cs, true) && n in Found(cs)
    ensures RefsTold(cs, n) == RefsOf(srv, n)
    decreases |cs|
  {
    var c := cs[|cs| - 1];
    if !(c.NodeResult? && c.nodeId == n) {
      RightRefs(srv, cs[..|cs| - 1], n);
    }
  }

  /** If no call and no node fails, the nodes told are exactly those reachable in the
      server's address space over the references its pages deliver. */
  lemma PagesAreExplored(srv: Server, start: seq<NodeId>, bs: seq<Browser>, rs: seq<Response>)
    requires IsBrowse(start, bs, rs) && NoFailure(bs, rs) && bs[|rs|].request == Idle
    requires AllPages(srv, bs, rs, true)
    ensures var cs := bs[|rs|].callbacks;
            && (forall n :: n in Found(cs) <==> Reachable(PageGraph(srv), Elements(start), n))
            && (forall n :: n in Found(cs) ==> RefsTold(cs, n) == RefsOf(srv, n))
  {
    BrowseVisitsExactlyTheReachableNodes(start, bs, rs);
    EveryResultIsRight(srv, start, bs, rs, true, |rs|);
    ToldIsPageGraph(srv, Elements(start), bs[|rs|].callbacks);
  }

  lemma ToldIsPageGraph(srv: Server, from: set<NodeId>, cs: seq<Callback>)
    requires AllRight(srv, cs, true) && from + Heard(cs) <= Found(cs) && InOrder(from, cs)
    ensures forall n :: n in Found(cs) <==> Reachable(PageGraph(srv), from, n)
    ensures forall n :: n in Found(cs) ==> RefsTold(cs, n) == RefsOf(srv, n)
  {
    forall n | n in Found(cs) ensures RefsTold(cs, n) == RefsOf(srv, n) {
      RightRefs(srv, cs, n);
    }
    FoundIsClosed(from, cs);
    forall n ensures n in Found(cs) <==> Reachable(PageGraph(srv), from, n) {
      SameReach(ToldGraph(cs), PageGraph(srv), from, Found(cs), n);
      if n in Found(cs) {
        KnownIsReachable(from, cs, n);
      } else if Reachable(ToldGraph(cs), from, n) {
        ReachableIsInside(ToldGraph(cs), from, Found(cs), n);
        assert false;
      }
    }
  }

  // ---------------------------------------------------------------------
  // Termination
  // ---------------------------------------------------------------------

  ghost predicate AlwaysPages(srv: Server, bs: nat -> Browser, rs: nat -> Response) {
    forall i: nat :: Valid(bs(i)) && (bs(i).request != Idle ==> AnswersWithPages(srv, bs(i), rs(i), true))
  }

  lemma {:induction false} RunStaysPaged(
    srv: Server, sp: Space, start: seq<NodeId>, bs: nat -> Browser, rs: nat -> Response, i: nat)
    requires IsEndlessRun(sp, bs, rs) && StartsIn(sp, start, bs(0)) && AlwaysPages(srv, bs, rs)
    ensures Paged(srv, bs(i), true)
  {
    if i > 0 {
      var j := i - 1;
      RunStaysPaged(srv, sp, start, bs, rs, j);
      if bs(j).request != Idle {
        StepKeepsPaged(srv, bs(j), rs(j), bs(j + 1), true);
      }
    }
  }

  lemma {:induction false} HeardInClosed(srv: Server, cs: seq<Callback>, nodes: set<NodeId>)
    requires AllRight(srv, cs, true) && Found(cs) <= nodes && Closed(PageGraph(srv), nodes, nodes)
    ensures Heard(cs) <= nodes
    decreases |cs|
  {
    if cs != [] {
      HeardInClosed(srv, cs[..|cs| - 1], nodes);
      var c := cs[|cs| - 1];
      if c.NodeResult? {
        assert Targets(PageGraph(srv)(c.nodeId)) <= nodes;
      }
    }
  }

  /** If no node fails, the browse of a finite address space ends if and only if the batch
      limit is positive or the start nodes refer only to each other. */
  lemma PagedBrowseTerminatesIff(
    srv: Server, sp: Space, start: seq<NodeId>, bs: nat -> Browser, rs: nat -> Response)
    requires IsEndlessRun(sp, bs, rs) && NoFailureFrom(bs, rs, 0)
    requires StartsIn(sp, start, bs(0)) && AlwaysPages(srv, bs, rs)
    ensures (exists j: nat :: bs(j).request == Idle) <==>
            bs(0).maxNodesInBrowse >= 1 || Closed(PageGraph(srv), Elements(start), Elements(start))
  {
    var from := Elements(start);
    BrowseTerminatesIff(sp, start, bs, rs);
    if bs(0).maxNodesInBrowse == 0 {
      if Closed(PageGraph(srv), from, from) {
        forall j: nat ensures Heard(bs(j).callbacks) <= from {
          ZeroLimitHearsInside(srv, sp, start, bs, rs, j);
        }
      }
      if j: nat :| bs(j).request == Idle {
        EndedInsideIsClosed(srv, sp, start, bs, rs, j);
      }
    }
  }

  lemma ZeroLimitHearsInside(
    srv: Server, sp: Space, start: seq<NodeId>, bs: nat -> Browser, rs: nat -> Response, j: nat)
    requires IsEndlessRun(sp, bs, rs) && NoFailureFrom(bs, rs, 0)
    requires StartsIn(sp, start, bs(0)) && AlwaysPages(srv, bs, rs)
    requires bs(0).maxNodesInBrowse == 0 && Closed(PageGraph(srv), Elements(start), Elements(start))
    ensures Heard(bs(j).callbacks) <= Elements(start)
  {
    ZeroLimitStaysInFirstBatch(sp, start, bs, rs, j);
    BrowseTermination.RunExplores(sp, start, bs, rs, j);
    RunStaysPaged(srv, sp, start, bs, rs, j);
    HeardInClosed(srv, bs(j).callbacks, Elements(start));
  }

  lemma EndedInsideIsClosed(
    srv: Server, sp: Space, start: seq<NodeId>, bs: nat -> Browser, rs: nat -> Response, j: nat)
    requires IsEndlessRun(sp, bs, rs) && NoFailureFrom(bs, rs, 0)
    requires StartsIn(sp, start, bs(0)) && AlwaysPages(srv, bs, rs)
    requires bs(0).maxNodesInBrowse == 0 && bs(j).request == Idle
    ensures Closed(PageGraph(srv), Elements(start), Elements(start))
  {
    var from, cs := Elements(start), bs(j).callbacks;
    ZeroLimitStaysInFirstBatch(sp, start, bs, rs, j);
    BrowseTermination.RunExplores(sp, start, bs, rs, j);
    RunStaysPaged(srv, sp, start, bs, rs, j);
    BrowseTerminatesIff(sp, start, bs, rs);
    forall n | n in from ensures Targets(PageGraph(srv)(n)) <= from {
      RightRefs(srv, cs, n);
      RefsAreHeard(cs, n);
    }
  }
}
