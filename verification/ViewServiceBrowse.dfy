/** The recursive browser: its state, the effect of every response as a relation on
    states, and the class whose handlers implement that relation in place. */
module ViewServiceBrowse {
  import opened OpcUaTypes
  import opened BrowsePaging

  datatype Callback =
    | NodeResult(statusCode: StatusCode, nodeId: NodeId, references: seq<Reference>)
    | BrowseDone(statusCode: StatusCode)

  /** The request the server has not answered yet. */
  datatype Request =
    | Idle
    | Browse(nodes: seq<NodeId>)
    | BrowseNext(points: seq<ContinuationPoint>)

  datatype Response = Response(serviceResult: StatusCode, results: seq<BrowseResult>)

  datatype Browser = Browser(
    maxNodesInBrowse: nat,
    recursive: bool,
    nodeIdVec: seq<NodeId>,
    held: seq<seq<Reference>>,
    points: seq<ContinuationPoint>,
    toRead: set<NodeId>,
    processed: set<NodeId>,
    request: Request,
    callbacks: seq<Callback>)

  function Targets(references: seq<Reference>): set<NodeId> {
    set r | r in references :: r.target
  }

  /** The vectors belong to the outstanding request, so every index of a matching
      response is an index of each of them. */
  ghost predicate Valid(b: Browser) {
    && (b.request.Browse? ==> b.request.nodes == b.nodeIdVec)
    && (b.request.BrowseNext? ==>
          b.request.points == b.points && |b.held| == |b.points| == |b.nodeIdVec|)
  }

  ghost predicate Initial(b: Browser, start: seq<NodeId>) {
    && b.nodeIdVec == start && b.request == Browse(start)
    && b.toRead == {} && b.processed == {} && b.callbacks == []
  }

  /** Reporting one node: in recursive mode it leaves the to-read set for the processed
      set, and its targets that are not processed enter the to-read set. */
  function Report(b: Browser, statusCode: StatusCode, nodeId: NodeId, references: seq<Reference>): Browser {
    var processed := b.processed + {nodeId};
    var reported := b.(callbacks := b.callbacks + [NodeResult(statusCode, nodeId, references)]);
    if !b.recursive then reported
    else reported.(processed := processed, toRead := b.toRead - {nodeId} + (Targets(references) - processed))
  }

  /** A pass over one response: the browser so far and the nodes to be continued. */
  datatype Pass = Pass(
    browser: Browser,
    nodes: seq<NodeId>,
    held: seq<seq<Reference>>,
    points: seq<ContinuationPoint>)

  function Absorb(p: Pass, nodeId: NodeId, v: Verdict): Pass {
    match v
    case Deliver(statusCode, references) => p.(browser := Report(p.browser, statusCode, nodeId, references))
    case Hold(page, point) =>
      p.(nodes := p.nodes + [nodeId], held := p.held + [page], points := p.points + [point])
  }

  function Judge(b: Browser, results: seq<BrowseResult>, i: nat): Verdict
    requires i < |results|
    requires b.request.BrowseNext? ==> i < |b.held|
  {
    if b.request.BrowseNext? then NextPage(b.held[i], results[i]) else FirstPage(results[i])
  }

  /** One result for each node of the batch. */
  predicate Matches(b: Browser, results: seq<BrowseResult>) {
    |results| == |b.nodeIdVec| && (b.request.BrowseNext? ==> |b.held| == |b.nodeIdVec|)
  }

  /** The first `k` results of a response, absorbed in order. */
  function AbsorbPrefix(b: Browser, results: seq<BrowseResult>, k: nat): Pass
    requires Matches(b, results) && k <= |results|
  {
    if k == 0 then Pass(b, [], [], [])
    else Absorb(AbsorbPrefix(b, results, k - 1), b.nodeIdVec[k - 1], Judge(b, results, k - 1))
  }

  /** A batch takes as many nodes of the to-read set as the limit allows, in any order. */
  ghost predicate IsBatch(toRead: set<NodeId>, limit: nat, batch: seq<NodeId>) {
    && Distinct(batch)
    && Elements(batch) <= toRead
    && |batch| == if |toRead| <= limit then |toRead| else limit
  }

  /** `done`: an error is reported, then browsing goes on if nodes are left, and
      otherwise the status is reported (again). */
  ghost predicate DoneStep(b: Browser, statusCode: StatusCode, b': Browser) {
    var told := if statusCode != Success then b.callbacks + [BrowseDone(statusCode)] else b.callbacks;
    if b.recursive && b.toRead != {} then
      && IsBatch(b.toRead, b.maxNodesInBrowse, b'.nodeIdVec)
      && b' == b.(nodeIdVec := b'.nodeIdVec, request := Browse(b'.nodeIdVec), callbacks := told)
    else
      b' == b.(request := Idle, callbacks := told + [BrowseDone(statusCode)])
  }

  ghost predicate PassStep(p: Pass, b': Browser) {
    if p.nodes != [] then
      b' == p.browser.(nodeIdVec := p.nodes, held := p.held, points := p.points, request := BrowseNext(p.points))
    else
      DoneStep(p.browser, Success, b')
  }

  /** A response that fails as a whole. */
  predicate Fails(b: Browser, r: Response) {
    r.serviceResult != Success || |r.results| != |b.nodeIdVec|
  }

  /** The effect of the response to the outstanding request. */
  ghost predicate Step(b: Browser, r: Response, b': Browser)
    requires Valid(b)
  {
    if r.serviceResult != Success then DoneStep(b, r.serviceResult, b')
    else if |r.results| != |b.nodeIdVec| then DoneStep(b, BadCommunicationError, b')
    else PassStep(AbsorbPrefix(b, r.results, |r.results|), b')
  }

  lemma {:induction false} AbsorbPrefixShape(b: Browser, results: seq<BrowseResult>, k: nat)
    requires Matches(b, results) && k <= |results|
    ensures var p := AbsorbPrefix(b, results, k);
            && |p.nodes| == |p.held| == |p.points| <= k
            && p.browser == b.(
                 callbacks := p.browser.callbacks, toRead := p.browser.toRead, processed := p.browser.processed)
  {
    if k > 0 {
      AbsorbPrefixShape(b, results, k - 1);
    }
  }

  /** Whatever the server answers, the vectors of the next request match it. */
  lemma StepKeepsValid(b: Browser, r: Response, b': Browser)
    requires Valid(b) && Step(b, r, b')
    ensures Valid(b')
    ensures b'.recursive == b.recursive && b'.maxNodesInBrowse == b.maxNodesInBrowse
    ensures b'.request.BrowseNext? ==> b'.nodeIdVec != []
  {
    if !Fails(b, r) {
      AbsorbPrefixShape(b, r.results, |r.results|);
    }
  }

  class BrowseService {
    var maxNodesInBrowse: nat
    var recursive: bool
    var nodeIdVec: seq<NodeId>
    var held: seq<seq<Reference>>
    var points: seq<ContinuationPoint>
    var toRead: set<NodeId>
    var processed: set<NodeId>
    // what the object has put on the wire and told its listener
    var request: Request
    var callbacks: seq<Callback>

    function View(): Browser
      reads this
    {
      Browser(maxNodesInBrowse, recursive, nodeIdVec, held, points, toRead, processed, request, callbacks)
    }

    constructor (start: seq<NodeId>, limit: nat, recursive: bool)
      ensures View() == Browser(limit, recursive, start, [], [], {}, {}, Idle, [])
    {
      maxNodesInBrowse, this.recursive := limit, recursive;
      nodeIdVec, held, points := start, [], [];
      toRead, processed := {}, {};
      request, callbacks := Idle, [];
    }

    method AsyncBrowse()
      modifies this`request
      ensures View() == old(View()).(request := Browse(nodeIdVec))
    {
      request := Browse(nodeIdVec);
    }

    method AsyncBrowseNext()
      modifies this`request
      ensures View() == old(View()).(request := BrowseNext(points))
    {
      request := BrowseNext(points);
    }

    method BrowseResponse(r: Response)
      requires Valid(View()) && request.Browse?
      modifies this
      ensures Step(old(View()), r, View()) && Valid(View())
    {
      ghost var before := View();
      if r.serviceResult != Success {
        Done(r.serviceResult);
        return;
      }
      if |r.results| != |nodeIdVec| {
        Done(BadCommunicationError);
        return;
      }
      var tmpNodes, tmpHeld, tmpPoints := [], [], [];
      for pos := 0 to |nodeIdVec|
        modifies this`callbacks, this`toRead, this`processed
        invariant Pass(View(), tmpNodes, tmpHeld, tmpPoints) == AbsorbPrefix(before, r.results, pos)
      {
        var result := r.results[pos];
        if result.statusCode != Success {
          NodeDone(result.statusCode, nodeIdVec[pos], []);
        } else if |result.references| == 0 {
          NodeDone(Success, nodeIdVec[pos], []);
        } else if result.continuationPoint.Some? {
          tmpNodes := tmpNodes + [nodeIdVec[pos]];
          tmpHeld := tmpHeld + [result.references];
          tmpPoints := tmpPoints + [result.continuationPoint.value];
        } else {
          NodeDone(Success, nodeIdVec[pos], result.references);
        }
      }
      Continue(tmpNodes, tmpHeld, tmpPoints);
      StepKeepsValid(before, r, View());
    }

    method BrowseNextResponse(r: Response)
      requires Valid(View()) && request.BrowseNext?
      modifies this
      ensures Step(old(View()), r, View()) && Valid(View())
    {
      ghost var before := View();
      if r.serviceResult != Success {
        Done(r.serviceResult);
        return;
      }
      if |r.results| != |nodeIdVec| {
        Done(BadCommunicationError);
        return;
      }
      var tmpNodes, tmpHeld, tmpPoints := [], [], [];
      for pos := 0 to |nodeIdVec|
        modifies this`callbacks, this`toRead, this`processed
        invariant Pass(View(), tmpNodes, tmpHeld, tmpPoints) == AbsorbPrefix(before, r.results, pos)
      {
        var result := r.results[pos];
        if result.statusCode != Success {
          NodeDone(result.statusCode, nodeIdVec[pos], held[pos]);
        } else if |result.references| == 0 {
          NodeDone(Success, nodeIdVec[pos], held[pos]);
        } else if result.continuationPoint.Some? {
          tmpNodes := tmpNodes + [nodeIdVec[pos]];
          tmpHeld := tmpHeld + [result.references];
          tmpPoints := tmpPoints + [result.continuationPoint.value];
        } else {
          NodeDone(Success, nodeIdVec[pos], held[pos] + result.references);
        }
      }
      Continue(tmpNodes, tmpHeld, tmpPoints);
      StepKeepsValid(before, r, View());
    }

    /** The common end of both response handlers. */
    method Continue(nodes: seq<NodeId>, pages: seq<seq<Reference>>, next: seq<ContinuationPoint>)
      modifies this
      ensures PassStep(Pass(old(View()), nodes, pages, next), View())
    {
      if |nodes| != 0 {
        nodeIdVec, held, points := nodes, pages, next;
        AsyncBrowseNext();
      } else {
        Done(Success);
      }
    }

    method Done(statusCode: StatusCode)
      modifies this
      ensures DoneStep(old(View()), statusCode, View())
    {
      if statusCode != Success {
        callbacks := callbacks + [BrowseDone(statusCode)];
      }
      if recursive && toRead != {} {
        nodeIdVec := [];
        var rest := toRead;
        while rest != {} && |nodeIdVec| < maxNodesInBrowse
          modifies this`nodeIdVec
          invariant rest <= toRead && Elements(nodeIdVec) == toRead - rest
          invariant Distinct(nodeIdVec) && |nodeIdVec| <= maxNodesInBrowse
          invariant |nodeIdVec| + |rest| == |toRead|
          decreases rest
        {
          var n :| n in rest;
          assert n !in Elements(nodeIdVec);
          ghost var taken := nodeIdVec;
          nodeIdVec, rest := nodeIdVec + [n], rest - {n};
          assert Elements(nodeIdVec) == Elements(taken) + {n};
        }
        AsyncBrowse();
        return;
      }
      request := Idle;
      callbacks := callbacks + [BrowseDone(statusCode)];
    }

    method NodeDone(statusCode: StatusCode, nodeId: NodeId, references: seq<Reference>)
      modifies this`callbacks, this`toRead, this`processed
      ensures View() == Report(old(View()), statusCode, nodeId, references)
    {
      if recursive {
        toRead := toRead - {nodeId};
        processed := processed + {nodeId};
        ghost var base := toRead;
        for i := 0 to |references|
          modifies this`toRead
          invariant toRead == base + (Targets(references[..i]) - processed)
        {
          var target := references[i].target;
          assert references[..i + 1] == references[..i] + [references[i]];
          assert Targets(references[..i + 1]) == Targets(references[..i]) + {target};
          if target !in processed {
            toRead := toRead + {target};
          }
        }
        assert references[..|references|] == references;
      }
      callbacks := callbacks + [NodeResult(statusCode, nodeId, references)];
    }
  }
}
