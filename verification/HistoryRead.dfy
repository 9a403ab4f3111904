/** Reading historical values page by page within a request budget. */
module HistoryRead {
  import opened OpcUaTypes

  type Variant = int
  type Timestamp = int

  datatype DataValue = DataValue(
    statusCode: nat,
    variant: Variant,
    sourceTimestamp: Option<Timestamp>,
    serverTimestamp: Option<Timestamp>)

  /** One node of a HistoryRead request; a continuation asks for the next page. */
  datatype Entry = Entry(nodeId: NodeId, point: Option<ContinuationPoint>)

  datatype Request = Request(release: bool, entries: seq<Entry>)

  datatype Result = Result(
    statusCode: StatusCode,
    isHistoryData: bool,
    values: seq<DataValue>,
    point: Option<ContinuationPoint>)

  datatype Response = Response(statusCode: StatusCode, results: seq<Result>)

  /** A value handed to the output, with the node it was read from; a result beyond the
      nodes of its request belongs to none. */
  datatype Sample = Sample(nodeId: Option<NodeId>, value: DataValue)

  /** The server's answer to the last request of a log. */
  type Server = seq<Request> -> Response

  datatype Reader = Reader(budget: nat, log: seq<Request>, output: seq<Sample>)

  /** How the loop over the results ends. It crashes when a result beyond the nodes of the
      request has a next page, because there is no node to ask. */
  datatype End = Clean | WrongType | Crash

  datatype Scan = Scan(end: End, output: seq<Sample>, next: seq<Entry>)

  datatype Outcome = Returned(ok: bool) | Crashed

  function NodeAt(entries: seq<Entry>, i: nat): Option<NodeId> {
    if i < |entries| then Some(entries[i].nodeId) else None
  }

  function Samples(n: Option<NodeId>, values: seq<DataValue>): seq<Sample> {
    seq(|values|, i requires 0 <= i < |values| => Sample(n, values[i]))
  }

  /** The first `k` results of a response. */
  function ScanPrefix(entries: seq<Entry>, results: seq<Result>, k: nat): Scan
    requires k <= |results|
  {
    if k == 0 then Scan(Clean, [], [])
    else
      var before, r, n := ScanPrefix(entries, results, k - 1), results[k - 1], NodeAt(entries, k - 1);
      if before.end != Clean || r.statusCode != Success then before
      else if !r.isHistoryData then before.(end := WrongType)
      else
        var told := before.(output := before.output + Samples(n, r.values));
        if r.point.None? || r.values == [] then told
        else if n.None? then told.(end := Crash)
        else told.(next := told.next + [Entry(n.value, r.point)])
  }

  function ScanAll(entries: seq<Entry>, results: seq<Result>): Scan {
    ScanPrefix(entries, results, |results|)
  }

  /** The whole read from one data request on: the reader afterwards and the outcome.
      With the budget used up the remaining continuation points are released. */
  function Rounds(server: Server, r: Reader, entries: seq<Entry>): (Reader, Outcome)
    decreases r.budget
  {
    var budget := if r.budget > 0 then r.budget - 1 else 0;
    var log := r.log + [Request(false, entries)];
    var answer := server(log);
    if answer.statusCode != Success || answer.results == [] then (Reader(budget, log, r.output), Returned(false))
    else
      var scan := ScanAll(entries, answer.results);
      var after := Reader(budget, log, r.output + scan.output);
      if scan.end == Crash then (after, Crashed)
      else if scan.end == WrongType then (after, Returned(false))
      else if scan.next == [] then (after, Returned(true))
      else if budget == 0 then Release(server, after, scan.next)
      else Rounds(server, after, scan.next)
  }

  function Release(server: Server, r: Reader, entries: seq<Entry>): (Reader, Outcome) {
    var log := r.log + [Request(true, entries)];
    (r.(log := log), Returned(server(log).statusCode == Success && server(log).results != []))
  }

  function FirstEntries(nodes: seq<NodeId>): seq<Entry> {
    seq(|nodes|, i requires 0 <= i < |nodes| => Entry(nodes[i], None))
  }

  class HistoryReader {
    const server: Server
    var budget: nat
    var log: seq<Request>
    var output: seq<Sample>

    function View(): Reader
      reads this
    {
      Reader(budget, log, output)
    }

    /** `maxNumRequests` is read as an unsigned 32-bit number; the default -1 is its maximum. */
    constructor (server: Server, maxNumRequests: nat)
      ensures this.server == server && View() == Reader(maxNumRequests, [], [])
    {
      this.server, budget, log, output := server, maxNumRequests, [], [];
    }

    method HRead(nodes: seq<NodeId>) returns (outcome: Outcome)
      modifies this
      ensures (View(), outcome) == Rounds(server, old(View()), FirstEntries(nodes))
    {
      outcome := DataRequest(FirstEntries(nodes));
    }

    /** One data request and everything it leads to. */
    method DataRequest(entries: seq<Entry>) returns (outcome: Outcome)
      modifies this
      ensures (View(), outcome) == Rounds(server, old(View()), entries)
      decreases budget
    {
      if budget > 0 {
        budget := budget - 1;
      }
      log := log + [Request(false, entries)];
      var answer := server(log);
      if answer.statusCode != Success || |answer.results| == 0 {
        return Returned(false);
      }
      var end, next := ReadResults(entries, answer.results);
      if end == Crash {
        return Crashed;
      }
      if end == WrongType {
        return Returned(false);
      }
      if |next| != 0 {
        if budget == 0 {
          outcome := HDelete(next);
        } else {
          outcome := DataRequest(next);
        }
        return;
      }
      return Returned(true);
    }

    /** The loop over the results. */
    method ReadResults(entries: seq<Entry>, results: seq<Result>) returns (end: End, next: seq<Entry>)
      modifies this`output
      ensures var scan := ScanAll(entries, results);
              end == scan.end && output == old(output) + scan.output && (end == Clean ==> next == scan.next)
    {
      next := [];
      for idx := 0 to |results|
        invariant var scan := ScanPrefix(entries, results, idx);
                  scan.end == Clean && output == old(output) + scan.output && next == scan.next
      {
        var result := results[idx];
        if result.statusCode == Success {
          if !result.isHistoryData {
            ScanStops(entries, results, idx + 1, |results|);
            return WrongType, next;
          }
          OutputValues(NodeAt(entries, idx), result.values);
          if result.point.Some? && |result.values| > 0 {
            if idx >= |entries| {
              ScanStops(entries, results, idx + 1, |results|);
              return Crash, next;
            }
            next := next + [Entry(entries[idx].nodeId, result.point)];
          }
        }
      }
      end := Clean;
    }

    method OutputValues(nodeId: Option<NodeId>, values: seq<DataValue>)
      modifies this`output
      ensures output == old(output) + Samples(nodeId, values)
    {
      for idx := 0 to |values|
        invariant output == old(output) + Samples(nodeId, values)[..idx]
      {
        output := output + [Sample(nodeId, values[idx])];
      }
    }

    method HDelete(entries: seq<Entry>) returns (outcome: Outcome)
      modifies this`log
      ensures (View(), outcome) == Release(server, old(View()), entries)
    {
      log := log + [Request(true, entries)];
      var answer := server(log);
      outcome := Returned(answer.statusCode == Success && |answer.results| != 0);
    }
  }

  /** A scan that has stopped stays as it is. */
  lemma {:induction false} ScanStops(entries: seq<Entry>, results: seq<Result>, j: nat, k: nat)
    requires j <= k <= |results| && ScanPrefix(entries, results, j).end != Clean
    ensures ScanPrefix(entries, results, k) == ScanPrefix(entries, results, j)
  {
    if j < k {
      ScanStops(entries, results, j, k - 1);
    }
  }

  // ---------------------------------------------------------------------
  // How a response is scanned, in terms of request and response
  // ---------------------------------------------------------------------

  predicate IsData(r: Result) {
    r.statusCode == Success && r.isHistoryData
  }

  /** A good result of another type than history data. */
  predicate WrongTypeAt(results: seq<Result>, i: nat) {
    i < |results| && results[i].statusCode == Success && !results[i].isHistoryData
  }

  /** A result beyond the nodes of the request that has values and a next page. */
  predicate CrashAt(entries: seq<Entry>, results: seq<Result>, i: nat) {
    |entries| <= i < |results| && IsData(results[i]) && results[i].values != [] && results[i].point.Some?
  }

  /** No result before `k` stops the scan. */
  predicate CleanBefore(entries: seq<Entry>, results: seq<Result>, k: nat) {
    forall i :: 0 <= i < k ==> !WrongTypeAt(results, i) && !CrashAt(entries, results, i)
  }

  lemma {:induction false} ScanIsCleanIff(entries: seq<Entry>, results: seq<Result>, k: nat)
    requires k <= |results|
    ensures ScanPrefix(entries, results, k).end == Clean <==> CleanBefore(entries, results, k)
  {
    if k > 0 {
      ScanIsCleanIff(entries, results, k - 1);
      assert CleanBefore(entries, results, k) <==>
             CleanBefore(entries, results, k - 1) && !WrongTypeAt(results, k - 1)
             && !CrashAt(entries, results, k - 1);
    }
  }

  lemma {:induction false} FirstStop(entries: seq<Entry>, results: seq<Result>, k: nat) returns (i: nat)
    requires k <= |results| && ScanPrefix(entries, results, k).end != Clean
    ensures i < k && CleanBefore(entries, results, i)
    ensures if ScanPrefix(entries, results, k).end == Crash then CrashAt(entries, results, i)
            else WrongTypeAt(results, i)
  {
    if ScanPrefix(entries, results, k - 1).end != Clean {
      i := FirstStop(entries, results, k - 1);
    } else {
      i := k - 1;
      ScanIsCleanIff(entries, results, i);
    }
  }

  lemma StopDecides(entries: seq<Entry>, results: seq<Result>, i: nat)
    requires i < |results| && CleanBefore(entries, results, i)
    ensures CrashAt(entries, results, i) ==> ScanAll(entries, results).end == Crash
    ensures WrongTypeAt(results, i) ==> ScanAll(entries, results).end == WrongType
  {
    ScanIsCleanIff(entries, results, i);
    if CrashAt(entries, results, i) || WrongTypeAt(results, i) {
      ScanStops(entries, results, i + 1, |results|);
    }
  }

  /** For every request and response: the scan is clean if and only if no result is of a wrong
      type or a continued one beyond the nodes of the request; it crashes if and only if the
      first result that stops it is of the second kind. */
  lemma ScanEndsIff(entries: seq<Entry>, results: seq<Result>)
    ensures ScanAll(entries, results).end == Clean <==> CleanBefore(entries, results, |results|)
    ensures ScanAll(entries, results).end == Crash <==>
            exists i :: CrashAt(entries, results, i) && CleanBefore(entries, results, i)
    ensures ScanAll(entries, results).end == WrongType <==>
            exists i :: WrongTypeAt(results, i) && CleanBefore(entries, results, i)
    ensures |results| <= |entries| ==> ScanAll(entries, results).end != Crash
  {
    ScanIsCleanIff(entries, results, |results|);
    if ScanAll(entries, results).end != Clean {
      var i := FirstStop(entries, results, |results|);
    }
    if i :| CrashAt(entries, results, i) && CleanBefore(entries, results, i) {
      StopDecides(entries, results, i);
    }
    if i :| WrongTypeAt(results, i) && CleanBefore(entries, results, i) {
      StopDecides(entries, results, i);
    }
  }

  /** Data with values beyond the nodes of the request. */
  predicate NodelessAt(entries: seq<Entry>, results: seq<Result>, i: nat) {
    |entries| <= i < |results| && IsData(results[i]) && results[i].values != []
  }

  ghost predicate HasNodeless(output: seq<Sample>) {
    exists j :: 0 <= j < |output| && output[j].nodeId.None?
  }

  lemma NodelessConcat(a: seq<Sample>, n: Option<NodeId>, values: seq<DataValue>)
    ensures HasNodeless(a + Samples(n, values)) <==> HasNodeless(a) || (n.None? && values != [])
  {
    var out := a + Samples(n, values);
    if j :| 0 <= j < |a| && a[j].nodeId.None? {
      assert out[j].nodeId.None?;
    }
    if n.None? && values != [] {
      assert out[|a|] == Samples(n, values)[0];
    }
  }

  /** The scan outputs a value without a node if and only if it gets as far as data with
      values beyond the nodes of the request. */
  lemma {:induction false} OutputWithoutNodeIff(entries: seq<Entry>, results: seq<Result>, k: nat)
    requires k <= |results|
    ensures HasNodeless(ScanPrefix(entries, results, k).output) <==>
            exists i :: 0 <= i < k && NodelessAt(entries, results, i) && CleanBefore(entries, results, i)
  {
    if k > 0 {
      OutputWithoutNodeIff(entries, results, k - 1);
      ScanIsCleanIff(entries, results, k - 1);
      var before, r := ScanPrefix(entries, results, k - 1), results[k - 1];
      if before.end == Clean && IsData(r) {
        NodelessConcat(before.output, NodeAt(entries, k - 1), r.values);
        assert NodeAt(entries, k - 1).None? && r.values != [] ==>
               NodelessAt(entries, results, k - 1) && CleanBefore(entries, results, k - 1);
      }
    }
  }

  /** A read crashes if and only if one of its data requests is answered with such a
      response. */
  lemma {:induction false} ReadCrashesIff(server: Server, r: Reader, entries: seq<Entry>)
    ensures var (final, outcome) := Rounds(server, r, entries);
            outcome == Crashed <==> exists j :: |r.log| <= j < |final.log| && AnsweredWithCrash(server, final.log, j)
    decreases r.budget
  {
    var budget := if r.budget > 0 then r.budget - 1 else 0;
    var log := r.log + [Request(false, entries)];
    var answer := server(log);
    var (final, outcome) := Rounds(server, r, entries);
    RoundsExtendTheLog(server, r, entries);
    assert final.log[..|log|] == log && final.log[|r.log|] == log[|r.log|];
    if answer.statusCode == Success && answer.results != [] {
      var scan := ScanAll(entries, answer.results);
      if scan.end == Crash {
        assert AnsweredWithCrash(server, final.log, |r.log|);
      } else if scan.end == Clean && scan.next != [] && budget > 0 {
        ReadCrashesIff(server, Reader(budget, log, r.output + scan.output), scan.next);
      }
    }
  }

  ghost predicate AnsweredWithCrash(server: Server, log: seq<Request>, j: nat)
    requires j < |log|
  {
    var answer := AnswerTo(server, log, j);
    !log[j].release && answer.statusCode == Success && ScanAll(log[j].entries, answer.results).end == Crash
  }

  /** One node, two results: the second is output without a node and crashes the read. */
  lemma LongResponseCrashes(n: NodeId, v: DataValue, point: ContinuationPoint)
    ensures var one := Result(Success, true, [], None);
            var two := Result(Success, true, [v], Some(point));
            var scan := ScanAll([Entry(n, None)], [one, two]);
            scan.end == Crash && scan.output == [Sample(None, v)]
  {
    var entries, one, two := [Entry(n, None)], Result(Success, true, [], None), Result(Success, true, [v], Some(point));
    var results := [one, two];
    assert ScanPrefix(entries, results, 0) == Scan(Clean, [], []);
    assert ScanPrefix(entries, results, 1) == Scan(Clean, [], []);
    assert Samples(None, [v]) == [Sample(None, v)];
  }

  // ---------------------------------------------------------------------
  // Requests, for every server
  // ---------------------------------------------------------------------

  /** The number of data requests a budget allows. */
  function Allowance(budget: nat): nat {
    if budget == 0 then 1 else budget
  }

  /** What the requests from position `from` on look like: data requests within the
      allowance, then at most one release. */
  ghost predicate WithinBudget(log: seq<Request>, from: nat, allowance: nat) {
    && from < |log| && !log[from].release
    && (forall i :: from <= i < |log| - 1 ==> !log[i].release)
    && |log| - from <= allowance + if log[|log| - 1].release then 1 else 0
  }

  lemma {:induction false} RoundsExtendTheLog(server: Server, r: Reader, entries: seq<Entry>)
    ensures r.log + [Request(false, entries)] <= Rounds(server, r, entries).0.log
    decreases r.budget
  {
    var budget := if r.budget > 0 then r.budget - 1 else 0;
    var log := r.log + [Request(false, entries)];
    var answer := server(log);
    if answer.statusCode == Success && answer.results != [] && budget > 0 {
      var scan := ScanAll(entries, answer.results);
      RoundsExtendTheLog(server, Reader(budget, log, r.output + scan.output), scan.next);
    }
  }

  /** At most max(1, n) data requests are sent for a limit of n, then at most one release. */
  lemma {:induction false} BudgetIsKept(server: Server, r: Reader, entries: seq<Entry>)
    ensures WithinBudget(Rounds(server, r, entries).0.log, |r.log|, Allowance(r.budget))
    decreases r.budget
  {
    var budget := if r.budget > 0 then r.budget - 1 else 0;
    var log := r.log + [Request(false, entries)];
    var answer := server(log);
    if answer.statusCode == Success && answer.results != [] {
      var scan := ScanAll(entries, answer.results);
      var after := Reader(budget, log, r.output + scan.output);
      if scan.end == Clean && scan.next != [] && budget > 0 {
        BudgetIsKept(server, after, scan.next);
        RoundsExtendTheLog(server, after, scan.next);
        var final := Rounds(server, after, scan.next).0.log;
        assert final[|r.log|] == log[|r.log|];
      }
    }
  }

  /** The continuation points a response hands out with a non-empty page, in order and
      with the nodes they belong to. */
  function PointsReceived(entries: seq<Entry>, results: seq<Result>): seq<Entry>
    decreases |results|
  {
    if results == [] then []
    else
      var k := |results| - 1;
      var r, n := results[k], NodeAt(entries, k);
      if r.statusCode == Success && r.values != [] && r.point.Some? && n.Some?
      then PointsReceived(entries, results[..k]) + [Entry(n.value, r.point)]
      else PointsReceived(entries, results[..k])
  }

  lemma {:induction false} ScanKeepsPoints(entries: seq<Entry>, results: seq<Result>, k: nat)
    requires k <= |results| && ScanPrefix(entries, results, k).end == Clean
    ensures ScanPrefix(entries, results, k).next == PointsReceived(entries, results[..k])
  {
    if k > 0 {
      ScanKeepsPoints(entries, results, k - 1);
      assert results[..k][..k - 1] == results[..k - 1];
    }
  }

  /** The answer to request `j` of a log. */
  function AnswerTo(server: Server, log: seq<Request>, j: nat): Response
    requires j < |log|
  {
    server(log[..j + 1])
  }

  /** The points received with request `j` are exactly the entries of the next request,
      and there are none if it was the last. */
  ghost predicate PointsUsedOnce(server: Server, log: seq<Request>, j: nat)
    requires j < |log|
  {
    log[j].release ||
    var received := PointsReceived(log[j].entries, AnswerTo(server, log, j).results);
    if j + 1 < |log| then log[j + 1].entries == received else received == []
  }

  /** The read was not aborted: it succeeded or got as far as the release. */
  ghost predicate NotAborted(log: seq<Request>, outcome: Outcome) {
    outcome == Returned(true) || (log != [] && log[|log| - 1].release)
  }

  /** In a read that is not aborted every continuation point received with a non-empty page
      is used in the next request or released, exactly once and with its own node. */
  lemma {:induction false} EveryPointIsUsedOnce(server: Server, r: Reader, entries: seq<Entry>, j: nat)
    requires var (final, outcome) := Rounds(server, r, entries);
             |r.log| <= j < |final.log| && NotAborted(final.log, outcome)
    ensures PointsUsedOnce(server, Rounds(server, r, entries).0.log, j)
    decreases r.budget
  {
    var budget := if r.budget > 0 then r.budget - 1 else 0;
    var log := r.log + [Request(false, entries)];
    var final := Rounds(server, r, entries).0.log;
    RoundsExtendTheLog(server, r, entries);
    var results := server(log).results;
    assert results[..|results|] == results;
    var scan := ScanAll(entries, results);
    if j == |r.log| {
      assert final[..j + 1] == log && final[j] == log[j];
      ScanKeepsPoints(entries, results, |results|);
      if scan.next != [] && budget > 0 {
        RoundsExtendTheLog(server, Reader(budget, log, r.output + scan.output), scan.next);
        assert final[j + 1] == (log + [Request(false, scan.next)])[j + 1];
      }
    } else if budget > 0 {
      EveryPointIsUsedOnce(server, Reader(budget, log, r.output + scan.output), scan.next, j);
    }
  }

  // ---------------------------------------------------------------------
  // What a read returns
  // ---------------------------------------------------------------------

  /** Data request `j` was answered, with results, and every one of them can be used. */
  ghost predicate AnsweredClean(server: Server, log: seq<Request>, j: nat)
    requires j < |log|
  {
    var answer := AnswerTo(server, log, j);
    && answer.statusCode == Success && answer.results != []
    && CleanBefore(log[j].entries, answer.results, |answer.results|)
  }

  /** The last request is a data request that handed out no continuation point, or a release
      that was answered with results. */
  ghost predicate EndsWell(server: Server, log: seq<Request>) {
    && log != []
    && var last, answer := log[|log| - 1], AnswerTo(server, log, |log| - 1);
       if last.release then answer.statusCode == Success && answer.results != []
       else PointsReceived(last.entries, answer.results) == []
  }

  ghost predicate AllClean(server: Server, log: seq<Request>, from: nat) {
    forall j :: from <= j < |log| && !log[j].release ==> AnsweredClean(server, log, j)
  }

  lemma AllCleanFrom(server: Server, log: seq<Request>, from: nat)
    requires from < |log| && !log[from].release
    ensures AllClean(server, log, from) <==> AnsweredClean(server, log, from) && AllClean(server, log, from + 1)
  {}

  /** For every server a read returns true if and only if each of its data requests was
      answered well and its last request ended it well; it returns false or crashes
      otherwise. */
  lemma {:induction false} ReadReturnsTrueIff(server: Server, r: Reader, entries: seq<Entry>)
    ensures var (final, outcome) := Rounds(server, r, entries);
            outcome == Returned(true) <==> AllClean(server, final.log, |r.log|) && EndsWell(server, final.log)
    decreases r.budget
  {
    var budget := if r.budget > 0 then r.budget - 1 else 0;
    var log := r.log + [Request(false, entries)];
    var answer := server(log);
    var results := answer.results;
    var final := Rounds(server, r, entries).0.log;
    RoundsExtendTheLog(server, r, entries);
    assert final[..|log|] == log && final[|r.log|] == log[|r.log|];
    AllCleanFrom(server, final, |r.log|);
    ScanIsCleanIff(entries, results, |results|);
    if answer.statusCode == Success && results != [] && ScanAll(entries, results).end == Clean {
      var scan := ScanAll(entries, results);
      assert results[..|results|] == results;
      ScanKeepsPoints(entries, results, |results|);
      if scan.next != [] && budget > 0 {
        ReadReturnsTrueIff(server, Reader(budget, log, r.output + scan.output), scan.next);
      } else {
        assert final[..|final|] == final;
      }
    }
  }
}
