/** Runs of the browser against an arbitrary server: batches and completion callbacks. */
module BrowseRuns {
  import opened OpcUaTypes
  import opened BrowsePaging
  import opened ViewServiceBrowse

  /** A run under arbitrary responses. */
  ghost predicate IsRun(bs: seq<Browser>, rs: seq<Response>) {
    && |bs| == |rs| + 1
    && (forall i :: 0 <= i < |bs| ==> Valid(bs[i]))
    && (forall i {:trigger rs[i]} :: 0 <= i < |rs| ==> bs[i].request != Idle && Step(bs[i], rs[i], bs[i + 1]))
  }

  ghost predicate NoFailure(bs: seq<Browser>, rs: seq<Response>)
    requires |bs| == |rs| + 1
  {
    forall i {:trigger rs[i]} :: 0 <= i < |rs| ==> !Fails(bs[i], rs[i])
  }

  lemma ExtendRun(bs: seq<Browser>, rs: seq<Response>, r: Response, b': Browser)
    requires IsRun(bs, rs) && bs[|rs|].request != Idle && Step(bs[|rs|], r, b')
    ensures IsRun(bs + [b'], rs + [r])
  {
    StepKeepsValid(bs[|rs|], r, b');
    var bs', rs' := bs + [b'], rs + [r];
    forall i | 0 <= i < |rs'| ensures bs'[i].request != Idle && Step(bs'[i], rs'[i], bs'[i + 1]) {
      if i < |rs| {
        assert rs'[i] == rs[i] && bs'[i] == bs[i] && bs'[i + 1] == bs[i + 1];
      }
    }
  }

  /** After a failed call both sets are as before, and the next batch is chosen from the
      to-read set; the browse ends if nothing is to be read. */
  lemma FailedCallKeepsTheSets(b: Browser, r: Response, b': Browser)
    requires Valid(b) && b.request != Idle && Fails(b, r) && Step(b, r, b')
    ensures b'.toRead == b.toRead && b'.processed == b.processed
    ensures b'.request == Idle <==> !(b.recursive && b.toRead != {})
    ensures b'.request != Idle ==> IsBatch(b.toRead, b.maxNodesInBrowse, b'.nodeIdVec)
  {}

  /** Every batch after the first takes as many of the nodes to be read as the limit allows. */
  lemma BatchesRespectTheLimit(b: Browser, r: Response, b': Browser)
    requires Valid(b) && Step(b, r, b') && b'.request.Browse?
    ensures |b'.nodeIdVec| == (if |b'.toRead| <= b.maxNodesInBrowse then |b'.toRead| else b.maxNodesInBrowse)
    ensures b'.nodeIdVec == b'.request.nodes
    ensures Distinct(b'.nodeIdVec) && Elements(b'.nodeIdVec) <= b'.toRead
  {
    if !Fails(b, r) {
      AbsorbPrefixShape(b, r.results, |r.results|);
    }
  }

  lemma LastStepTellsSuccess(b: Browser, r: Response, b': Browser)
    requires Valid(b) && b.request != Idle && !Fails(b, r) && Step(b, r, b') && b'.request == Idle
    ensures b'.callbacks != [] && b'.callbacks[|b'.callbacks| - 1] == BrowseDone(Success)
  {
    AbsorbPrefixShape(b, r.results, |r.results|);
  }

  // ---------------------------------------------------------------------
  // Completion callbacks
  // ---------------------------------------------------------------------

  ghost function CountDone(cs: seq<Callback>): nat {
    if cs == [] then 0
    else CountDone(cs[..|cs| - 1]) + if cs[|cs| - 1].BrowseDone? then 1 else 0
  }

  ghost function CountFailures(bs: seq<Browser>, rs: seq<Response>): nat
    requires |bs| == |rs| + 1
  {
    if rs == [] then 0
    else CountFailures(bs[..|rs|], rs[..|rs| - 1]) + if Fails(bs[|rs| - 1], rs[|rs| - 1]) then 1 else 0
  }

  lemma {:induction false} NoFailureCounts(bs: seq<Browser>, rs: seq<Response>)
    requires |bs| == |rs| + 1 && NoFailure(bs, rs)
    ensures CountFailures(bs, rs) == 0
    decreases |rs|
  {
    if rs != [] {
      var bs0, rs0 := bs[..|rs|], rs[..|rs| - 1];
      assert !Fails(bs[|rs| - 1], rs[|rs| - 1]);
      forall i | 0 <= i < |rs0| ensures !Fails(bs0[i], rs0[i]) {
        assert bs0[i] == bs[i] && rs0[i] == rs[i];
      }
      NoFailureCounts(bs0, rs0);
    }
  }

  lemma CountDoneAppend(cs: seq<Callback>, c: Callback)
    ensures CountDone(cs + [c]) == CountDone(cs) + if c.BrowseDone? then 1 else 0
  {
    assert (cs + [c])[..|cs|] == cs;
  }

  lemma {:induction false} PassReportsNoDone(b: Browser, results: seq<BrowseResult>, k: nat)
    requires Matches(b, results) && k <= |results|
    ensures CountDone(AbsorbPrefix(b, results, k).browser.callbacks) == CountDone(b.callbacks)
  {
    if k > 0 {
      PassReportsNoDone(b, results, k - 1);
      var p := AbsorbPrefix(b, results, k - 1);
      match Judge(b, results, k - 1) {
        case Deliver(s, refs) => CountDoneAppend(p.browser.callbacks, NodeResult(s, b.nodeIdVec[k - 1], refs));
        case Hold(_, _) =>
      }
    }
  }

  lemma DoneStepCounts(b: Browser, s: StatusCode, b': Browser)
    requires b.request != Idle && DoneStep(b, s, b')
    ensures CountDone(b'.callbacks) ==
            CountDone(b.callbacks) + (if s != Success then 1 else 0) + (if b'.request == Idle then 1 else 0)
  {
    CountDoneAppend(b.callbacks, BrowseDone(s));
    CountDoneAppend(b.callbacks + [BrowseDone(s)], BrowseDone(s));
  }

  /** For every run and every server, the completion callback comes once for each failed
      call and once more at the end; so it comes exactly once if and only if no call fails. */
  lemma {:induction false} DoneCallbacksCountFailures(bs: seq<Browser>, rs: seq<Response>)
    requires IsRun(bs, rs) && bs[0].callbacks == [] && bs[0].request != Idle
    ensures CountDone(bs[|rs|].callbacks) ==
            CountFailures(bs, rs) + if bs[|rs|].request == Idle then 1 else 0
    decreases |rs|
  {
    if rs != [] {
      var k := |rs| - 1;
      RunPrefix(bs, rs);
      DoneCallbacksCountFailures(bs[..|rs|], rs[..k]);
      StepCountsDone(bs[k], rs[k], bs[k + 1]);
    }
  }

  lemma RunPrefix(bs: seq<Browser>, rs: seq<Response>)
    requires IsRun(bs, rs) && rs != []
    ensures IsRun(bs[..|rs|], rs[..|rs| - 1])
  {
    var bs0, rs0 := bs[..|rs|], rs[..|rs| - 1];
    forall i | 0 <= i < |rs0| ensures bs0[i].request != Idle && Step(bs0[i], rs0[i], bs0[i + 1]) {
      assert bs0[i] == bs[i] && rs0[i] == rs[i] && bs0[i + 1] == bs[i + 1];
    }
  }

  lemma StepCountsDone(b: Browser, r: Response, b': Browser)
    requires Valid(b) && b.request != Idle && Step(b, r, b')
    ensures CountDone(b'.callbacks) ==
            CountDone(b.callbacks) + (if Fails(b, r) then 1 else 0) + (if b'.request == Idle then 1 else 0)
  {
    if Fails(b, r) {
      DoneStepCounts(b, if r.serviceResult != Success then r.serviceResult else BadCommunicationError, b');
    } else {
      PassReportsNoDone(b, r.results, |r.results|);
      AbsorbPrefixShape(b, r.results, |r.results|);
      var p := AbsorbPrefix(b, r.results, |r.results|);
      if p.nodes == [] {
        DoneStepCounts(p.browser, Success, b');
      }
    }
  }
}
