/** What one response makes the browser tell its listener and ask next, result by result. */
module BrowseResponses {
  import opened OpcUaTypes
  import opened BrowsePaging
  import opened ViewServiceBrowse
  import opened BrowseRuns

  /** A good page with references and a further page. */
  predicate Continues(r: BrowseResult) {
    r.statusCode == Success && r.references != [] && r.continuationPoint.Some?
  }

  /** The page held for the node at position `i`, if any. */
  function HeldBefore(b: Browser, i: nat): seq<Reference>
    requires b.request.BrowseNext? ==> i < |b.held|
  {
    if b.request.BrowseNext? then b.held[i] else []
  }

  /** A result that is not continued is told with its own status; what was held comes first,
      and the references of the result itself count only if it is good. */
  function ResultTold(b: Browser, results: seq<BrowseResult>, i: nat): Callback
    requires Matches(b, results) && i < |results|
  {
    var own := if results[i].statusCode == Success then results[i].references else [];
    NodeResult(results[i].statusCode, b.nodeIdVec[i], HeldBefore(b, i) + own)
  }

  /** What the first `k` results tell, in their order. */
  function ResultsTold(b: Browser, results: seq<BrowseResult>, k: nat): seq<Callback>
    requires Matches(b, results) && k <= |results|
  {
    if k == 0 then []
    else if Continues(results[k - 1]) then ResultsTold(b, results, k - 1)
    else ResultsTold(b, results, k - 1) + [ResultTold(b, results, k - 1)]
  }

  /** The positions of the first `k` results that are continued. */
  function Continued(results: seq<BrowseResult>, k: nat): seq<nat>
    requires k <= |results|
  {
    if k == 0 then []
    else if Continues(results[k - 1]) then Continued(results, k - 1) + [k - 1]
    else Continued(results, k - 1)
  }

  lemma {:induction false} ContinuedAreInRange(results: seq<BrowseResult>, k: nat)
    requires k <= |results|
    ensures forall j :: 0 <= j < |Continued(results, k)| ==>
              Continued(results, k)[j] < k && Continues(results[Continued(results, k)[j]])
    ensures (forall i :: 0 <= i < k ==> !Continues(results[i])) <==> Continued(results, k) == []
  {
    if k > 0 {
      ContinuedAreInRange(results, k - 1);
    }
  }

  /** The vectors hold, for each of these positions, the node, the newest page and the point
      for the next one. */
  ghost predicate HoldsContinued(
    b: Browser, results: seq<BrowseResult>, ps: seq<nat>,
    nodes: seq<NodeId>, held: seq<seq<Reference>>, points: seq<ContinuationPoint>)
  {
    && |nodes| == |held| == |points| == |ps|
    && forall j :: 0 <= j < |ps| ==>
         && ps[j] < |results| && ps[j] < |b.nodeIdVec|
         && nodes[j] == b.nodeIdVec[ps[j]] && held[j] == results[ps[j]].references
         && results[ps[j]].continuationPoint == Some(points[j])
  }

  lemma JudgeTells(b: Browser, results: seq<BrowseResult>, i: nat)
    requires Matches(b, results) && i < |results|
    ensures var c := ResultTold(b, results, i);
            Judge(b, results, i) ==
            if Continues(results[i]) then Hold(results[i].references, results[i].continuationPoint.value)
            else Deliver(c.statusCode, c.references)
  {
    var held := HeldBefore(b, i);
    assert held + [] == held && [] + results[i].references == results[i].references;
  }

  lemma {:induction false} PassTells(b: Browser, results: seq<BrowseResult>, k: nat)
    requires Matches(b, results) && k <= |results|
    ensures AbsorbPrefix(b, results, k).browser.callbacks == b.callbacks + ResultsTold(b, results, k)
  {
    if k > 0 {
      PassTells(b, results, k - 1);
      JudgeTells(b, results, k - 1);
      AbsorbTells(AbsorbPrefix(b, results, k - 1), b.nodeIdVec[k - 1], Judge(b, results, k - 1));
      TellOneMore(b.callbacks, ResultsTold(b, results, k - 1), ResultTold(b, results, k - 1));
    }
  }

  lemma AbsorbTells(p: Pass, n: NodeId, v: Verdict)
    ensures Absorb(p, n, v).browser.callbacks ==
            p.browser.callbacks + if v.Deliver? then [NodeResult(v.statusCode, n, v.references)] else []
  {
    assert p.browser.callbacks + [] == p.browser.callbacks;
  }

  lemma TellOneMore(cs: seq<Callback>, told: seq<Callback>, c: Callback)
    ensures cs + told + [c] == cs + (told + [c]) && cs + told + [] == cs + told
  {}

  lemma {:induction false} PassContinues(b: Browser, results: seq<BrowseResult>, k: nat)
    requires Matches(b, results) && k <= |results|
    ensures var p := AbsorbPrefix(b, results, k);
            HoldsContinued(b, results, Continued(results, k), p.nodes, p.held, p.points)
  {
    if k > 0 {
      PassContinues(b, results, k - 1);
      JudgeTells(b, results, k - 1);
      if Continues(results[k - 1]) {
        var p := AbsorbPrefix(b, results, k - 1);
        ContinueOneMore(b, results, Continued(results, k - 1), p.nodes, p.held, p.points, k - 1);
      }
    }
  }

  lemma ContinueOneMore(
    b: Browser, results: seq<BrowseResult>, ps: seq<nat>,
    nodes: seq<NodeId>, held: seq<seq<Reference>>, points: seq<ContinuationPoint>, i: nat)
    requires HoldsContinued(b, results, ps, nodes, held, points)
    requires i < |results| && i < |b.nodeIdVec| && results[i].continuationPoint.Some?
    ensures HoldsContinued(
              b, results, ps + [i], nodes + [b.nodeIdVec[i]], held + [results[i].references],
              points + [results[i].continuationPoint.value])
  {}

  /** A response to a call that does not fail tells exactly one result for each position
      that is not continued, in order, then success if the browse is over. */
  lemma ResponseTells(b: Browser, r: Response, b': Browser)
    requires Valid(b) && b.request != Idle && !Fails(b, r) && Step(b, r, b')
    ensures b'.callbacks ==
            b.callbacks + ResultsTold(b, r.results, |r.results|)
            + if b'.request == Idle then [BrowseDone(Success)] else []
  {
    PassTells(b, r.results, |r.results|);
    AbsorbPrefixShape(b, r.results, |r.results|);
  }

  /** BrowseNext follows if and only if some result is continued, and asks for exactly the
      next pages of those nodes. */
  lemma ResponseContinuesIff(b: Browser, r: Response, b': Browser)
    requires Valid(b) && b.request != Idle && !Fails(b, r) && Step(b, r, b')
    ensures b'.request.BrowseNext? <==> exists i :: 0 <= i < |r.results| && Continues(r.results[i])
    ensures b'.request.BrowseNext? ==>
              && b'.request.points == b'.points
              && HoldsContinued(
                   b, r.results, Continued(r.results, |r.results|), b'.nodeIdVec, b'.held, b'.points)
  {
    PassContinues(b, r.results, |r.results|);
    ContinuedAreInRange(r.results, |r.results|);
  }

  /** A failed call tells its status once, and once more if nothing is left to be read. */
  lemma FailureTells(b: Browser, r: Response, b': Browser)
    requires Valid(b) && b.request != Idle && Fails(b, r) && Step(b, r, b')
    ensures var s := if r.serviceResult != Success then r.serviceResult else BadCommunicationError;
            b'.callbacks ==
            b.callbacks + [BrowseDone(s)] + if b'.request == Idle then [BrowseDone(s)] else []
  {}

  lemma {:induction false} ToldIsThere(b: Browser, results: seq<BrowseResult>, k: nat, i: nat)
    requires Matches(b, results) && i < k <= |results| && !Continues(results[i])
    ensures ResultTold(b, results, i) in ResultsTold(b, results, k)
  {
    if i < k - 1 {
      ToldIsThere(b, results, k - 1, i);
    }
  }

  /** The callbacks of `b'` that `b` did not have. */
  function NewlyTold(b: Browser, b': Browser): seq<Callback> {
    if |b.callbacks| <= |b'.callbacks| then b'.callbacks[|b.callbacks|..] else []
  }

  /** A bad result is told with its status and exactly the page held before: nothing for a
      first page, the newest page for a later one. */
  lemma BadResultCarriesTheHeldPage(b: Browser, r: Response, b': Browser, i: nat)
    requires Valid(b) && b.request != Idle && !Fails(b, r) && Step(b, r, b')
    requires i < |r.results| && r.results[i].statusCode != Success
    ensures NodeResult(r.results[i].statusCode, b.nodeIdVec[i], HeldBefore(b, i)) in NewlyTold(b, b')
  {
    ResponseTells(b, r, b');
    ToldIsThere(b, r.results, |r.results|, i);
    var told := ResultsTold(b, r.results, |r.results|);
    assert HeldBefore(b, i) + [] == HeldBefore(b, i);
    assert NewlyTold(b, b') == told + if b'.request == Idle then [BrowseDone(Success)] else [];
  }

  // ---------------------------------------------------------------------
  // Browsing without recursion
  // ---------------------------------------------------------------------

  /** The nodes reported, with their multiplicity. */
  ghost function Reported(cs: seq<Callback>): multiset<NodeId> {
    if cs == [] then multiset{}
    else
      var told, c := cs[..|cs| - 1], cs[|cs| - 1];
      if c.NodeResult? then Reported(told) + multiset{c.nodeId} else Reported(told)
  }

  lemma ReportOneMore(cs: seq<Callback>, c: Callback)
    ensures Reported(cs + [c]) == if c.NodeResult? then Reported(cs) + multiset{c.nodeId} else Reported(cs)
  {
    assert (cs + [c])[..|cs|] == cs;
  }

  ghost function FirstBag(s: seq<NodeId>, k: nat): multiset<NodeId>
    requires k <= |s|
  {
    if k == 0 then multiset{} else FirstBag(s, k - 1) + multiset{s[k - 1]}
  }

  lemma {:induction false} FirstBagIs(s: seq<NodeId>, k: nat)
    requires k <= |s|
    ensures FirstBag(s, k) == multiset(s[..k])
  {
    if k > 0 {
      FirstBagIs(s, k - 1);
      assert s[..k] == s[..k - 1] + [s[k - 1]];
    }
  }

  lemma AbsorbMovesOne(p: Pass, n: NodeId, v: Verdict)
    ensures var p' := Absorb(p, n, v);
            Reported(p'.browser.callbacks) + multiset(p'.nodes) ==
            Reported(p.browser.callbacks) + multiset(p.nodes) + multiset{n}
  {
    match v
    case Deliver(s, refs) => ReportOneMore(p.browser.callbacks, NodeResult(s, n, refs));
    case Hold(_, _) =>
  }

  lemma {:induction false} PassMovesEach(b: Browser, results: seq<BrowseResult>, k: nat)
    requires Matches(b, results) && k <= |results|
    ensures var p := AbsorbPrefix(b, results, k);
            Reported(p.browser.callbacks) + multiset(p.nodes) == Reported(b.callbacks) + FirstBag(b.nodeIdVec, k)
  {
    if k > 0 {
      PassMovesEach(b, results, k - 1);
      AbsorbMovesOne(AbsorbPrefix(b, results, k - 1), b.nodeIdVec[k - 1], Judge(b, results, k - 1));
    }
  }

  ghost function OpenBag(b: Browser): multiset<NodeId> {
    if b.request == Idle then multiset{} else multiset(b.nodeIdVec)
  }

  lemma StepMovesEach(b: Browser, r: Response, b': Browser)
    requires Valid(b) && b.request != Idle && !b.recursive && !Fails(b, r) && Step(b, r, b')
    ensures !b'.recursive
    ensures Reported(b'.callbacks) + OpenBag(b') == Reported(b.callbacks) + OpenBag(b)
  {
    var p := AbsorbPrefix(b, r.results, |r.results|);
    PassMovesEach(b, r.results, |r.results|);
    AbsorbPrefixShape(b, r.results, |r.results|);
    FirstBagIs(b.nodeIdVec, |r.results|);
    assert b.nodeIdVec[..|r.results|] == b.nodeIdVec;
    if p.nodes == [] {
      ReportOneMore(p.browser.callbacks, BrowseDone(Success));
    }
  }

  lemma {:induction false} RunMovesEach(start: seq<NodeId>, bs: seq<Browser>, rs: seq<Response>, i: nat)
    requires IsRun(bs, rs) && NoFailure(bs, rs) && Initial(bs[0], start) && !bs[0].recursive && i < |bs|
    ensures !bs[i].recursive && Reported(bs[i].callbacks) + OpenBag(bs[i]) == multiset(start)
  {
    if i > 0 {
      RunMovesEach(start, bs, rs, i - 1);
      assert !Fails(bs[i - 1], rs[i - 1]);
      StepMovesEach(bs[i - 1], rs[i - 1], bs[i]);
    }
  }

  /** Without recursion and failed calls, a browse that has ended has reported each start node
      as often as it is listed and nothing else, and then success, once and last. */
  lemma PlainBrowseReportsTheStartNodes(start: seq<NodeId>, bs: seq<Browser>, rs: seq<Response>)
    requires IsRun(bs, rs) && NoFailure(bs, rs) && Initial(bs[0], start) && !bs[0].recursive
    requires bs[|rs|].request == Idle
    ensures var cs := bs[|rs|].callbacks;
            && Reported(cs) == multiset(start)
            && cs != [] && cs[|cs| - 1] == BrowseDone(Success) && CountDone(cs[..|cs| - 1]) == 0
  {
    RunMovesEach(start, bs, rs, |rs|);
    DoneCallbacksCountFailures(bs, rs);
    NoFailureCounts(bs, rs);
    assert rs != [];
    LastStepTellsSuccess(bs[|rs| - 1], rs[|rs| - 1], bs[|rs|]);
  }
}
