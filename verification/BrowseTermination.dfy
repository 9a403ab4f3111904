/** When the recursive browser stops: a finite address space whose nodes have finitely many
    pages. Single nodes may answer with errors at any time. */
module BrowseTermination {
  import opened OpcUaTypes
  import opened BrowsePaging
  import opened ViewServiceBrowse
  import opened BrowseRuns
  import opened BrowseTold
  import opened BrowseExploration

  /** The nodes that references lead to, the number of pages each node can have, and the
      server's record of which node and page a continuation point stands for. */
  datatype Space = Space(
    nodes: set<NodeId>,
    pageCount: NodeId -> nat,
    locate: ContinuationPoint -> (NodeId, nat))

  /** An error for the node, or a page `i` with references into the space; a continuation
      point stands for page `i + 1`, which the node must have. */
  ghost predicate InSpace(sp: Space, n: NodeId, i: nat, r: BrowseResult) {
    r.statusCode == Success ==>
      && i < sp.pageCount(n) && Targets(r.references) <= sp.nodes
      && (r.continuationPoint.Some? ==>
            i + 1 < sp.pageCount(n) && sp.locate(r.continuationPoint.value) == (n, i + 1))
  }

  /** The page the outstanding request asks for at position `i`. */
  ghost function Cursor(sp: Space, b: Browser, i: nat): nat
    requires b.request.BrowseNext? ==> i < |b.points|
  {
    if b.request.BrowseNext? then sp.locate(b.points[i]).1 else 0
  }

  /** A call may fail; otherwise its results stay in the space. */
  ghost predicate AnswersInSpace(sp: Space, b: Browser, r: Response)
    requires Valid(b)
  {
    !Fails(b, r) ==>
      forall i :: 0 <= i < |r.results| ==> InSpace(sp, b.nodeIdVec[i], Cursor(sp, b, i), r.results[i])
  }

  /** What is held for an open node stays in the space, and its next page exists. */
  ghost predicate HeldInSpace(sp: Space, n: NodeId, page: seq<Reference>, point: ContinuationPoint) {
    && sp.locate(point).0 == n && 0 < sp.locate(point).1 < sp.pageCount(n)
    && Targets(page) <= sp.nodes
  }

  ghost predicate AllHeldInSpace(sp: Space, b: Browser)
    requires Valid(b)
  {
    b.request.BrowseNext? ==>
      forall i :: 0 <= i < |b.nodeIdVec| ==> HeldInSpace(sp, b.nodeIdVec[i], b.held[i], b.points[i])
  }

  /** The invariant of a browse in the space. */
  ghost predicate Exploring(sp: Space, start: set<NodeId>, b: Browser, dropped: set<NodeId>) {
    && Valid(b) && Tidy(b) && Inv(start, b, OpenNodes(b), dropped)
    && start <= sp.nodes && Heard(b.callbacks) <= sp.nodes
    && AllHeldInSpace(sp, b)
  }

  // ---------------------------------------------------------------------
  // One response
  // ---------------------------------------------------------------------

  ghost predicate VerdictInSpace(sp: Space, n: NodeId, cursor: nat, v: Verdict) {
    match v
    case Deliver(_, refs) => Targets(refs) <= sp.nodes
    case Hold(page, point) => HeldInSpace(sp, n, page, point) && sp.locate(point).1 == cursor + 1
  }

  lemma JudgedInSpace(sp: Space, b: Browser, r: Response, i: nat)
    requires Valid(b) && AllHeldInSpace(sp, b) && !Fails(b, r) && AnswersInSpace(sp, b, r) && i < |b.nodeIdVec|
    ensures VerdictInSpace(sp, b.nodeIdVec[i], Cursor(sp, b, i), Judge(b, r.results, i))
  {
    assert InSpace(sp, b.nodeIdVec[i], Cursor(sp, b, i), r.results[i]);
    if b.request.BrowseNext? {
      assert HeldInSpace(sp, b.nodeIdVec[i], b.held[i], b.points[i]);
      TargetsOfBoth(b.held[i], r.results[i].references);
    }
  }

  lemma TargetsOfBoth(a: seq<Reference>, b: seq<Reference>)
    ensures Targets(a + b) == Targets(a) + Targets(b)
  {}

  ghost predicate JudgedAll(sp: Space, b: Browser, results: seq<BrowseResult>)
    requires Valid(b) && Matches(b, results)
  {
    forall i :: 0 <= i < |results| ==>
      VerdictInSpace(sp, b.nodeIdVec[i], Cursor(sp, b, i), Judge(b, results, i))
  }

  lemma AllJudgedInSpace(sp: Space, b: Browser, r: Response)
    requires Valid(b) && AllHeldInSpace(sp, b) && !Fails(b, r) && AnswersInSpace(sp, b, r)
    ensures Matches(b, r.results) && JudgedAll(sp, b, r.results)
  {
    forall i | 0 <= i < |r.results|
      ensures VerdictInSpace(sp, b.nodeIdVec[i], Cursor(sp, b, i), Judge(b, r.results, i))
    {
      JudgedInSpace(sp, b, r, i);
    }
  }

  ghost predicate PassInSpace(sp: Space, p: Pass) {
    && |p.nodes| == |p.held| == |p.points|
    && forall i :: 0 <= i < |p.nodes| ==> HeldInSpace(sp, p.nodes[i], p.held[i], p.points[i])
  }

  lemma {:induction false} PassStaysInSpace(sp: Space, b: Browser, results: seq<BrowseResult>, k: nat)
    requires Valid(b) && Matches(b, results) && k <= |results| && JudgedAll(sp, b, results)
    requires Heard(b.callbacks) <= sp.nodes
    ensures var p := AbsorbPrefix(b, results, k);
            PassInSpace(sp, p) && Heard(b.callbacks) <= Heard(p.browser.callbacks) <= sp.nodes
  {
    if k > 0 {
      PassStaysInSpace(sp, b, results, k - 1);
      var p, n := AbsorbPrefix(b, results, k - 1), b.nodeIdVec[k - 1];
      assert VerdictInSpace(sp, n, Cursor(sp, b, k - 1), Judge(b, results, k - 1));
      match Judge(b, results, k - 1) {
        case Deliver(s, refs) => TellOneMore({}, p.browser.callbacks, NodeResult(s, n, refs));
        case Hold(_, _) =>
      }
    }
  }

  lemma DoneTellsNoTargets(b: Browser, s: StatusCode, b': Browser)
    requires DoneStep(b, s, b')
    ensures Heard(b'.callbacks) == Heard(b.callbacks)
  {
    TellOneMore({}, b.callbacks, BrowseDone(s));
    TellOneMore({}, b.callbacks + [BrowseDone(s)], BrowseDone(s));
  }

  /** Every response keeps the invariant, failed calls included. */
  lemma StepKeepsExploring(
    sp: Space, start: set<NodeId>, b: Browser, dropped: set<NodeId>, r: Response, b': Browser)
    requires Exploring(sp, start, b, dropped) && b.request != Idle && AnswersInSpace(sp, b, r) && Step(b, r, b')
    ensures Exploring(sp, start, b', dropped + Dropped(b, r)) && Heard(b.callbacks) <= Heard(b'.callbacks)
  {
    StepKeepsValid(b, r, b');
    StepKeepsInv(start, b, dropped, r, b');
    if Fails(b, r) {
      DoneTellsNoTargets(b, if r.serviceResult != Success then r.serviceResult else BadCommunicationError, b');
    } else {
      AllJudgedInSpace(sp, b, r);
      PassStaysInSpace(sp, b, r.results, |r.results|);
      var p := AbsorbPrefix(b, r.results, |r.results|);
      if p.nodes == [] {
        DoneTellsNoTargets(p.browser, Success, b');
      }
    }
  }

  // ---------------------------------------------------------------------
  // The measure
  // ---------------------------------------------------------------------

  /** Pages not fetched yet for the positions `i` and above of the current batch. */
  ghost function PagesLeft(sp: Space, b: Browser, i: nat): nat
    requires Valid(b) && i <= |b.nodeIdVec|
    decreases |b.nodeIdVec| - i
  {
    if i == |b.nodeIdVec| then 0
    else
      var all, used := sp.pageCount(b.nodeIdVec[i]), Cursor(sp, b, i);
      (if used < all then all - used else 0) + PagesLeft(sp, b, i + 1)
  }

  ghost function NodesLeft(sp: Space, b: Browser): nat {
    |sp.nodes - b.processed|
  }

  ghost function Effort(sp: Space, b: Browser): nat
    requires Valid(b)
  {
    if b.request == Idle then 0 else 1 + PagesLeft(sp, b, 0)
  }

  /** A browser with nodes left never sends an empty Browse request. */
  ghost predicate Productive(b: Browser) {
    b.request != Idle && b.nodeIdVec == [] ==> b.toRead == {}
  }

  lemma {:induction false} PassProcesses(b: Browser, results: seq<BrowseResult>, k: nat)
    requires Matches(b, results) && k <= |results| && b.recursive
    ensures var p := AbsorbPrefix(b, results, k);
            && p.browser.recursive && b.processed <= p.browser.processed
            && (forall i :: 0 <= i < k && Judge(b, results, i).Deliver? ==> b.nodeIdVec[i] in p.browser.processed)
  {
    if k > 0 {
      PassProcesses(b, results, k - 1);
    }
  }

  /** If some result of the response is delivered, also as an error, its node becomes
      processed. */
  lemma DeliveryProcessesANode(
    sp: Space, start: set<NodeId>, b: Browser, dropped: set<NodeId>, r: Response, b': Browser, i: nat)
    requires Exploring(sp, start, b, dropped) && b.request != Idle && !Fails(b, r) && Step(b, r, b')
    requires i < |b.nodeIdVec| && Judge(b, r.results, i).Deliver?
    ensures NodesLeft(sp, b') < NodesLeft(sp, b)
  {
    PassProcesses(b, r.results, |r.results|);
    var n := b.nodeIdVec[i];
    assert n in Elements(b.nodeIdVec);
    assert n in sp.nodes - b.processed && n !in sp.nodes - b'.processed;
    SmallerSet(sp.nodes - b'.processed, sp.nodes - b.processed, n);
  }

  lemma SmallerSet(a: set<NodeId>, b: set<NodeId>, x: NodeId)
    requires a <= b && x in b && x !in a
    ensures |a| < |b|
  {
    assert a <= b - {x};
    SubsetSize(a, b - {x});
  }

  lemma {:induction false} SubsetSize(a: set<NodeId>, b: set<NodeId>)
    requires a <= b
    ensures |a| <= |b|
  {
    if a != {} {
      var x :| x in a;
      SubsetSize(a - {x}, b - {x});
    }
  }

  ghost predicate AllHeld(b: Browser, results: seq<BrowseResult>, k: nat)
    requires Matches(b, results) && k <= |results|
  {
    forall i :: 0 <= i < k ==> Judge(b, results, i).Hold?
  }

  /** A response that holds every node leaves the browser alone and keeps their order. */
  lemma {:induction false} PassHoldsAll(b: Browser, results: seq<BrowseResult>, k: nat)
    requires Matches(b, results) && k <= |results| && AllHeld(b, results, k)
    ensures var p := AbsorbPrefix(b, results, k);
            && p.browser == b && p.nodes == b.nodeIdVec[..k] && |p.points| == k
            && forall i :: 0 <= i < k ==> p.points[i] == Judge(b, results, i).point
  {
    if k > 0 {
      PassHoldsAll(b, results, k - 1);
      assert Judge(b, results, k - 1).Hold?;
      assert b.nodeIdVec[..k] == b.nodeIdVec[..k - 1] + [b.nodeIdVec[k - 1]];
    }
  }

  lemma {:induction false} PagesLeftFalls(sp: Space, b: Browser, b': Browser, i: nat)
    requires Valid(b) && Valid(b') && b.nodeIdVec == b'.nodeIdVec && i <= |b.nodeIdVec|
    requires forall j :: i <= j < |b.nodeIdVec| ==>
               Cursor(sp, b', j) == Cursor(sp, b, j) + 1 <= sp.pageCount(b.nodeIdVec[j])
    ensures PagesLeft(sp, b, i) == PagesLeft(sp, b', i) + |b.nodeIdVec| - i
    decreases |b.nodeIdVec| - i
  {
    if i < |b.nodeIdVec| {
      PagesLeftFalls(sp, b, b', i + 1);
    }
  }

  /** If every result is held, the same nodes stay open and each has one page less to go. */
  lemma HoldingFetchesPages(sp: Space, b: Browser, r: Response, b': Browser)
    requires Valid(b) && Valid(b') && b.request != Idle && AllHeldInSpace(sp, b) && Productive(b)
    requires !Fails(b, r) && AnswersInSpace(sp, b, r) && Step(b, r, b') && AllHeld(b, r.results, |r.results|)
    ensures b'.processed == b.processed && Effort(sp, b') < Effort(sp, b)
  {
    PassHoldsAll(b, r.results, |r.results|);
    var p := AbsorbPrefix(b, r.results, |r.results|);
    assert p.nodes == b.nodeIdVec;
    if b.nodeIdVec != [] {
      assert b'.points == p.points && b'.request == BrowseNext(p.points);
      forall j | 0 <= j < |b.nodeIdVec|
        ensures Cursor(sp, b', j) == Cursor(sp, b, j) + 1 <= sp.pageCount(b.nodeIdVec[j])
      {
        JudgedInSpace(sp, b, r, j);
        assert b'.points[j] == Judge(b, r.results, j).point;
      }
      PagesLeftFalls(sp, b, b', 0);
    }
  }

  // ---------------------------------------------------------------------
  // Batch limit
  // ---------------------------------------------------------------------

  /** With a limit of 0 only the first batch is ever browsed. */
  ghost predicate FirstBatch(start: set<NodeId>, b: Browser) {
    b.processed + OpenNodes(b) == start
  }

  lemma ElementsAppend(s: seq<NodeId>, n: NodeId)
    ensures Elements(s + [n]) == Elements(s) + {n}
  {}

  lemma AbsorbPartition(p: Pass, n: NodeId, v: Verdict)
    requires p.browser.recursive
    ensures var p' := Absorb(p, n, v);
            && p'.browser.recursive
            && p'.browser.processed + Elements(p'.nodes) == p.browser.processed + Elements(p.nodes) + {n}
  {
    ElementsAppend(p.nodes, n);
  }

  lemma {:induction false} PassPartition(b: Browser, results: seq<BrowseResult>, k: nat)
    requires Matches(b, results) && k <= |results| && b.recursive
    ensures var p := AbsorbPrefix(b, results, k);
            && p.browser.recursive
            && p.browser.processed + Elements(p.nodes) == b.processed + FirstNodes(b.nodeIdVec, k)
  {
    if k > 0 {
      PassPartition(b, results, k - 1);
      AbsorbPartition(AbsorbPrefix(b, results, k - 1), b.nodeIdVec[k - 1], Judge(b, results, k - 1));
    } else {
      assert AbsorbPrefix(b, results, 0) == Pass(b, [], [], []);
    }
  }

  /** The first `k` nodes of a sequence. */
  ghost function FirstNodes(s: seq<NodeId>, k: nat): set<NodeId>
    requires k <= |s|
  {
    if k == 0 then {} else FirstNodes(s, k - 1) + {s[k - 1]}
  }

  lemma {:induction false} FirstNodesAre(s: seq<NodeId>, k: nat)
    requires k <= |s|
    ensures FirstNodes(s, k) == Elements(s[..k])
  {
    if k > 0 {
      FirstNodesAre(s, k - 1);
      assert s[..k] == s[..k - 1] + [s[k - 1]];
      ElementsAppend(s[..k - 1], s[k - 1]);
    }
  }

  lemma EmptyBatch(start: set<NodeId>, b: Browser, b': Browser)
    requires b.recursive && b.maxNodesInBrowse == 0 && b.processed == start && DoneStep(b, Success, b')
    ensures b'.maxNodesInBrowse == 0 && FirstBatch(start, b')
    ensures b'.request.Browse? ==> b'.nodeIdVec == []
  {
    assert Elements<NodeId>([]) == {};
  }

  lemma StepKeepsFirstBatch(start: set<NodeId>, b: Browser, r: Response, b': Browser)
    requires Valid(b) && b.request != Idle && b.recursive && b.maxNodesInBrowse == 0 && FirstBatch(start, b)
    requires !Fails(b, r) && Step(b, r, b')
    ensures b'.maxNodesInBrowse == 0 && FirstBatch(start, b')
    ensures b'.request.Browse? ==> b'.nodeIdVec == []
  {
    PassPartition(b, r.results, |r.results|);
    AbsorbPrefixShape(b, r.results, |r.results|);
    FirstNodesAre(b.nodeIdVec, |r.results|);
    assert b.nodeIdVec[..|r.results|] == b.nodeIdVec;
    var p := AbsorbPrefix(b, r.results, |r.results|);
    if p.nodes == [] {
      assert Elements<NodeId>([]) == {};
      EmptyBatch(start, p.browser, b');
    }
  }

  /** The browser can finish: batches are not empty, or no new node will be heard of. */
  ghost predicate CanFinish(start: set<NodeId>, b: Browser) {
    b.maxNodesInBrowse >= 1 || (FirstBatch(start, b) && Heard(b.callbacks) <= start)
  }

  lemma AnswerKeepsProductive(
    sp: Space, start: set<NodeId>, b: Browser, dropped: set<NodeId>, r: Response, b': Browser)
    requires Exploring(sp, start, b, dropped) && b.request != Idle && CanFinish(start, b)
    requires !Fails(b, r) && AnswersInSpace(sp, b, r) && Step(b, r, b')
    requires b.maxNodesInBrowse == 0 ==> Heard(b'.callbacks) <= start
    ensures Productive(b') && CanFinish(start, b')
  {
    StepKeepsExploring(sp, start, b, dropped, r, b');
    StepKeepsValid(b, r, b');
    if b.maxNodesInBrowse >= 1 {
      NonEmptyBatch(b, r, b');
    } else {
      StepKeepsFirstBatch(start, b, r, b');
      if b'.request.Browse? {
        assert Elements(b'.nodeIdVec) == {};
      }
    }
  }

  lemma NonEmptyBatch(b: Browser, r: Response, b': Browser)
    requires Valid(b) && b.request != Idle && Step(b, r, b') && b.maxNodesInBrowse >= 1
    ensures Productive(b') && b'.maxNodesInBrowse >= 1
  {
    if Fails(b, r) {
      assert b.toRead != {} ==> |b.toRead| > 0;
    } else {
      AbsorbPrefixShape(b, r.results, |r.results|);
      var c := AbsorbPrefix(b, r.results, |r.results|).browser;
      assert c.toRead != {} ==> |c.toRead| > 0;
    }
  }

  /** The lexicographic measure: every call that succeeds processes a node or fetches a page
      of every node of the batch. */
  lemma EveryAnswerMakesProgress(
    sp: Space, start: set<NodeId>, b: Browser, dropped: set<NodeId>, r: Response, b': Browser)
    requires Exploring(sp, start, b, dropped) && b.request != Idle && Productive(b)
    requires !Fails(b, r) && AnswersInSpace(sp, b, r) && Step(b, r, b')
    ensures Valid(b')
    ensures NodesLeft(sp, b') < NodesLeft(sp, b)
            || (NodesLeft(sp, b') == NodesLeft(sp, b) && Effort(sp, b') < Effort(sp, b))
  {
    StepKeepsValid(b, r, b');
    if i :| 0 <= i < |b.nodeIdVec| && Judge(b, r.results, i).Deliver? {
      DeliveryProcessesANode(sp, start, b, dropped, r, b', i);
    } else {
      HoldingFetchesPages(sp, b, r, b');
    }
  }

  // ---------------------------------------------------------------------
  // Endless runs
  // ---------------------------------------------------------------------

  /** An endless sequence of browser states, one response after the other until the browse
      ends. */
  ghost predicate IsEndlessRun(sp: Space, bs: nat -> Browser, rs: nat -> Response) {
    forall i: nat ::
      && Valid(bs(i))
      && if bs(i).request == Idle then bs(i + 1) == bs(i)
         else AnswersInSpace(sp, bs(i), rs(i)) && Step(bs(i), rs(i), bs(i + 1))
  }

  ghost predicate FailsAt(bs: nat -> Browser, rs: nat -> Response, i: nat) {
    bs(i).request != Idle && Fails(bs(i), rs(i))
  }

  /** No call fails from state `k` on. */
  ghost predicate NoFailureFrom(bs: nat -> Browser, rs: nat -> Response, k: nat) {
    forall i: nat :: k <= i ==> !FailsAt(bs, rs, i)
  }

  ghost function DroppedUpTo(bs: nat -> Browser, rs: nat -> Response, i: nat): set<NodeId> {
    if i == 0 then {}
    else DroppedUpTo(bs, rs, i - 1) + if FailsAt(bs, rs, i - 1) then Dropped(bs(i - 1), rs(i - 1)) else {}
  }

  lemma {:induction false} NothingDroppedUpTo(bs: nat -> Browser, rs: nat -> Response, i: nat)
    requires NoFailureFrom(bs, rs, 0)
    ensures DroppedUpTo(bs, rs, i) == {}
  {
    if i > 0 {
      NothingDroppedUpTo(bs, rs, i - 1);
      assert !FailsAt(bs, rs, i - 1);
    }
  }

  ghost predicate StartsIn(sp: Space, start: seq<NodeId>, b: Browser) {
    Distinct(start) && Elements(start) <= sp.nodes && Initial(b, start) && b.recursive
  }

  lemma InitialExplores(sp: Space, start: seq<NodeId>, b: Browser)
    requires StartsIn(sp, start, b)
    ensures Exploring(sp, Elements(start), b, {}) && FirstBatch(Elements(start), b) && Heard(b.callbacks) == {}
    ensures Productive(b)
  {
    InitialInv(start, b);
  }

  lemma {:induction false} RunExplores(
    sp: Space, start: seq<NodeId>, bs: nat -> Browser, rs: nat -> Response, i: nat)
    requires IsEndlessRun(sp, bs, rs) && StartsIn(sp, start, bs(0))
    ensures Exploring(sp, Elements(start), bs(i), DroppedUpTo(bs, rs, i))
    ensures bs(i).maxNodesInBrowse == bs(0).maxNodesInBrowse
  {
    if i == 0 {
      InitialExplores(sp, start, bs(0));
    } else {
      var j, dropped := i - 1, DroppedUpTo(bs, rs, i - 1);
      RunExplores(sp, start, bs, rs, j);
      if bs(j).request != Idle {
        StepKeepsExploring(sp, Elements(start), bs(j), dropped, rs(j), bs(j + 1));
        StepKeepsValid(bs(j), rs(j), bs(j + 1));
      }
    }
  }

  lemma {:induction false} RunIsProductive(
    sp: Space, start: seq<NodeId>, bs: nat -> Browser, rs: nat -> Response, i: nat)
    requires IsEndlessRun(sp, bs, rs) && StartsIn(sp, start, bs(0)) && bs(0).maxNodesInBrowse >= 1
    ensures Productive(bs(i))
  {
    if i == 0 {
      InitialExplores(sp, start, bs(0));
    } else {
      var j := i - 1;
      RunIsProductive(sp, start, bs, rs, j);
      RunExplores(sp, start, bs, rs, j);
      if bs(j).request != Idle {
        NonEmptyBatch(bs(j), rs(j), bs(j + 1));
      }
    }
  }

  lemma {:induction false} HeardGrows(
    sp: Space, start: seq<NodeId>, bs: nat -> Browser, rs: nat -> Response, i: nat, j: nat)
    requires IsEndlessRun(sp, bs, rs) && StartsIn(sp, start, bs(0)) && i <= j
    ensures Heard(bs(i).callbacks) <= Heard(bs(j).callbacks)
    ensures bs(i).request == Idle ==> bs(j) == bs(i)
    decreases j - i
  {
    if i < j {
      var k := j - 1;
      HeardGrows(sp, start, bs, rs, i, k);
      if bs(k).request != Idle {
        RunExplores(sp, start, bs, rs, k);
        StepKeepsExploring(sp, Elements(start), bs(k), DroppedUpTo(bs, rs, k), rs(k), bs(k + 1));
      } else {
        assert bs(k + 1) == bs(k);
      }
    }
  }

  /** From every explored state after which no call fails the browse reaches its end. */
  lemma {:induction false} FinishesFrom(
    sp: Space, start: set<NodeId>, bs: nat -> Browser, rs: nat -> Response, i: nat, dropped: set<NodeId>)
    returns (j: nat)
    requires IsEndlessRun(sp, bs, rs) && NoFailureFrom(bs, rs, i)
    requires Exploring(sp, start, bs(i), dropped) && Productive(bs(i)) && CanFinish(start, bs(i))
    requires bs(i).maxNodesInBrowse == 0 ==> forall k: nat :: Heard(bs(k).callbacks) <= start
    ensures i <= j && bs(j).request == Idle
    decreases NodesLeft(sp, bs(i)), Effort(sp, bs(i))
  {
    if bs(i).request == Idle {
      return i;
    }
    assert !FailsAt(bs, rs, i);
    EveryAnswerMakesProgress(sp, start, bs(i), dropped, rs(i), bs(i + 1));
    StepKeepsExploring(sp, start, bs(i), dropped, rs(i), bs(i + 1));
    AnswerKeepsProductive(sp, start, bs(i), dropped, rs(i), bs(i + 1));
    StepKeepsValid(bs(i), rs(i), bs(i + 1));
    j := FinishesFrom(sp, start, bs, rs, i + 1, dropped + Dropped(bs(i), rs(i)));
  }

  lemma {:induction false} ZeroLimitStaysInFirstBatch(
    sp: Space, start: seq<NodeId>, bs: nat -> Browser, rs: nat -> Response, i: nat)
    requires IsEndlessRun(sp, bs, rs) && NoFailureFrom(bs, rs, 0)
    requires StartsIn(sp, start, bs(0)) && bs(0).maxNodesInBrowse == 0
    ensures FirstBatch(Elements(start), bs(i))
  {
    if i == 0 {
      InitialExplores(sp, start, bs(0));
    } else {
      var j := i - 1;
      ZeroLimitStaysInFirstBatch(sp, start, bs, rs, j);
      RunExplores(sp, start, bs, rs, j);
      if bs(j).request != Idle {
        assert !FailsAt(bs, rs, j);
        StepKeepsFirstBatch(Elements(start), bs(j), rs(j), bs(j + 1));
      }
    }
  }

  /** The browse of a finite address space in which no call fails ends, whatever batches are
      chosen and whatever nodes answer with errors, if and only if the batch limit is
      positive or no reference is delivered that leaves the start nodes. */
  lemma BrowseTerminatesIff(sp: Space, start: seq<NodeId>, bs: nat -> Browser, rs: nat -> Response)
    requires IsEndlessRun(sp, bs, rs) && NoFailureFrom(bs, rs, 0) && StartsIn(sp, start, bs(0))
    ensures (exists j: nat :: bs(j).request == Idle) <==>
            bs(0).maxNodesInBrowse >= 1 || forall j: nat :: Heard(bs(j).callbacks) <= Elements(start)
  {
    var from := Elements(start);
    InitialExplores(sp, start, bs(0));
    if bs(0).maxNodesInBrowse >= 1 || forall j: nat :: Heard(bs(j).callbacks) <= from {
      var j := FinishesFrom(sp, from, bs, rs, 0, {});
    }
    if j: nat :| bs(j).request == Idle {
      if bs(0).maxNodesInBrowse == 0 {
        ZeroLimitStaysInFirstBatch(sp, start, bs, rs, j);
        RunExplores(sp, start, bs, rs, j);
        NothingDroppedUpTo(bs, rs, j);
        forall i: nat ensures Heard(bs(i).callbacks) <= from {
          HeardGrows(sp, start, bs, rs, if i <= j then i else j, if i <= j then j else i);
        }
      }
    }
  }

  // ---------------------------------------------------------------------
  // Failed calls
  // ---------------------------------------------------------------------

  /** With a positive batch limit the browse of a finite address space ends if and only if
      only finitely many calls fail. */
  lemma FewFailuresEndIff(sp: Space, start: seq<NodeId>, bs: nat -> Browser, rs: nat -> Response)
    requires IsEndlessRun(sp, bs, rs) && StartsIn(sp, start, bs(0)) && bs(0).maxNodesInBrowse >= 1
    ensures (exists j: nat :: bs(j).request == Idle) <==> exists k: nat :: NoFailureFrom(bs, rs, k)
  {
    if j: nat :| bs(j).request == Idle {
      forall i: nat | j <= i ensures !FailsAt(bs, rs, i) {
        HeardGrows(sp, start, bs, rs, j, i);
      }
      assert NoFailureFrom(bs, rs, j);
    }
    if k: nat :| NoFailureFrom(bs, rs, k) {
      RunExplores(sp, start, bs, rs, k);
      RunIsProductive(sp, start, bs, rs, k);
      var j := FinishesFrom(sp, Elements(start), bs, rs, k, DroppedUpTo(bs, rs, k));
    }
  }

  /** A server that fails every call while nodes are to be read is asked for ever. */
  lemma {:induction false} FailingServerIsAskedForEver(
    sp: Space, bs: nat -> Browser, rs: nat -> Response, i: nat, j: nat)
    requires IsEndlessRun(sp, bs, rs) && i <= j
    requires bs(i).request != Idle && bs(i).recursive && bs(i).toRead != {}
    requires forall k: nat :: i <= k && bs(k).request != Idle ==> Fails(bs(k), rs(k))
    ensures bs(j).request != Idle && bs(j).recursive && bs(j).toRead == bs(i).toRead
    ensures bs(j).processed == bs(i).processed
    decreases j - i
  {
    if i < j {
      var k := j - 1;
      FailingServerIsAskedForEver(sp, bs, rs, i, k);
      FailedCallKeepsTheSets(bs(k), rs(k), bs(k + 1));
      StepKeepsValid(bs(k), rs(k), bs(k + 1));
    }
  }
}
