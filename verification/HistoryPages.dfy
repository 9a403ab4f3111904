/** What a history read outputs for one node, given how the server answers for that node.
    Nothing is assumed about other nodes, and aborted reads are included. */
module HistoryPages {
  import opened OpcUaTypes
  import opened HistoryRead

  /** The pages of the node; `index` is the server's record of the page a continuation point
      of this node stands for. */
  datatype Archive = Archive(pages: seq<seq<DataValue>>, index: ContinuationPoint -> nat)

  /** The page an entry asks for. */
  ghost function Asked(a: Archive, e: Entry): nat {
    if e.point.None? then 0 else a.index(e.point.value)
  }

  /** `r` is the page asked for; a continuation point stands for the next one. */
  ghost predicate ServesPage(a: Archive, e: Entry, r: Result) {
    var i := Asked(a, e);
    && i < |a.pages| && r.values == a.pages[i]
    && (r.point.Some? ==> i + 1 < |a.pages| && a.index(r.point.value) == i + 1)
  }

  /** Where the response has data for `n`, it is the page asked for. The response may be
      shorter than the request, or longer. */
  ghost predicate AnsweredFor(a: Archive, n: NodeId, entries: seq<Entry>, results: seq<Result>) {
    forall i :: 0 <= i < |entries| && i < |results| && entries[i].nodeId == n && IsData(results[i]) ==>
      ServesPage(a, entries[i], results[i])
  }

  /** The same for every data request of a log from position `from` on. */
  ghost predicate ServedOn(a: Archive, n: NodeId, server: Server, log: seq<Request>, from: nat) {
    forall j :: from <= j < |log| && !log[j].release ==>
      AnsweredFor(a, n, log[j].entries, AnswerTo(server, log, j).results)
  }

  /** `n` is listed at most once. */
  ghost predicate Once(entries: seq<Entry>, n: NodeId) {
    forall i, j :: 0 <= i < j < |entries| ==> entries[i].nodeId != n || entries[j].nodeId != n
  }

  ghost predicate Mentions(entries: seq<Entry>, n: NodeId) {
    exists i :: 0 <= i < |entries| && entries[i].nodeId == n
  }

  /** The values output for one node, in order. */
  function OutputOf(output: seq<Sample>, n: NodeId): seq<DataValue> {
    if output == [] then []
    else
      var front, last := output[..|output| - 1], output[|output| - 1];
      if last.nodeId == Some(n) then OutputOf(front, n) + [last.value] else OutputOf(front, n)
  }

  lemma {:induction false} OutputOfConcat(a: seq<Sample>, b: seq<Sample>, n: NodeId)
    ensures OutputOf(a + b, n) == OutputOf(a, n) + OutputOf(b, n)
    decreases |b|
  {
    if b == [] {
      assert a + b == a;
    } else {
      var front := b[..|b| - 1];
      assert (a + b)[..|a + b| - 1] == a + front;
      OutputOfConcat(a, front, n);
    }
  }

  lemma {:induction false} OutputOfSamples(m: Option<NodeId>, values: seq<DataValue>, n: NodeId)
    ensures OutputOf(Samples(m, values), n) == if m == Some(n) then values else []
    decreases |values|
  {
    if values != [] {
      var front := values[..|values| - 1];
      assert Samples(m, values)[..|values| - 1] == Samples(m, front);
      OutputOfSamples(m, front, n);
    }
  }

  // ---------------------------------------------------------------------
  // One response
  // ---------------------------------------------------------------------

  lemma ScanOneMore(entries: seq<Entry>, results: seq<Result>, k: nat, n: NodeId)
    requires 0 < k <= |results|
    ensures var before, r := ScanPrefix(entries, results, k - 1), results[k - 1];
            OutputOf(ScanPrefix(entries, results, k).output, n) ==
            if before.end == Clean && IsData(r) && NodeAt(entries, k - 1) == Some(n)
            then OutputOf(before.output, n) + r.values else OutputOf(before.output, n)
  {
    var before, r := ScanPrefix(entries, results, k - 1), results[k - 1];
    ScanOutputsOneMore(entries, results, k);
    if before.end == Clean && IsData(r) {
      OutputOfConcat(before.output, Samples(NodeAt(entries, k - 1), r.values), n);
      OutputOfSamples(NodeAt(entries, k - 1), r.values, n);
    }
  }

  lemma ScanOutputsOneMore(entries: seq<Entry>, results: seq<Result>, k: nat)
    requires 0 < k <= |results|
    ensures var before, r := ScanPrefix(entries, results, k - 1), results[k - 1];
            ScanPrefix(entries, results, k).output ==
            if before.end == Clean && IsData(r)
            then before.output + Samples(NodeAt(entries, k - 1), r.values) else before.output
  {}

  lemma {:induction false} ScanWithout(entries: seq<Entry>, results: seq<Result>, k: nat, n: NodeId)
    requires k <= |results| && forall i :: 0 <= i < k && i < |entries| ==> entries[i].nodeId != n
    ensures OutputOf(ScanPrefix(entries, results, k).output, n) == []
  {
    if k > 0 {
      ScanWithout(entries, results, k - 1, n);
      ScanOneMore(entries, results, k, n);
    }
  }

  /** The scan gets as far as result `i`, and it is data. */
  ghost predicate Reads(entries: seq<Entry>, results: seq<Result>, i: nat) {
    i < |results| && ScanPrefix(entries, results, i).end == Clean && IsData(results[i])
  }

  lemma {:induction false} ScanWith(entries: seq<Entry>, results: seq<Result>, k: nat, i: nat, n: NodeId)
    requires i < k <= |results| && i < |entries| && entries[i].nodeId == n && Once(entries, n)
    ensures OutputOf(ScanPrefix(entries, results, k).output, n) ==
            if Reads(entries, results, i) then results[i].values else []
  {
    if i == k - 1 {
      FirstWith(entries, results, i, n);
    } else {
      assert NodeAt(entries, k - 1) != Some(n);
      ScanWith(entries, results, k - 1, i, n);
      ScanOneMore(entries, results, k, n);
    }
  }

  lemma FirstWith(entries: seq<Entry>, results: seq<Result>, i: nat, n: NodeId)
    requires i < |results| && i < |entries| && entries[i].nodeId == n && Once(entries, n)
    ensures OutputOf(ScanPrefix(entries, results, i + 1).output, n) ==
            if Reads(entries, results, i) then results[i].values else []
  {
    ScanWithout(entries, results, i, n);
    ScanOneMore(entries, results, i + 1, n);
    assert [] + results[i].values == results[i].values;
  }

  /** The next entries continue some of the scanned ones. */
  lemma {:induction false} ScanContinues(entries: seq<Entry>, results: seq<Result>, k: nat, j: nat) returns (i: nat)
    requires k <= |results| && j < |ScanPrefix(entries, results, k).next|
    ensures i < k && i < |entries| && Reads(entries, results, i) && results[i].point.Some? && results[i].values != []
    ensures ScanPrefix(entries, results, k).next[j] == Entry(entries[i].nodeId, results[i].point)
  {
    var before := ScanPrefix(entries, results, k - 1);
    if j < |before.next| {
      i := ScanContinues(entries, results, k - 1, j);
    } else {
      i := k - 1;
    }
  }

  lemma {:induction false} ScanKeepsOnce(entries: seq<Entry>, results: seq<Result>, k: nat, n: NodeId)
    requires k <= |results| && Once(entries, n)
    ensures Once(ScanPrefix(entries, results, k).next, n)
  {
    if k > 0 {
      ScanKeepsOnce(entries, results, k - 1, n);
      var before, next := ScanPrefix(entries, results, k - 1).next, ScanPrefix(entries, results, k).next;
      forall p, q | 0 <= p < q < |next| ensures next[p].nodeId != n || next[q].nodeId != n {
        if q == |before| {
          var i := ScanContinues(entries, results, k - 1, p);
        }
      }
    }
  }

  lemma {:induction false} ScanIncludes(entries: seq<Entry>, results: seq<Result>, k: nat, i: nat)
    requires i < k <= |results| && i < |entries| && ScanPrefix(entries, results, k).end == Clean
    requires IsData(results[i]) && results[i].point.Some? && results[i].values != []
    ensures Entry(entries[i].nodeId, results[i].point) in ScanPrefix(entries, results, k).next
  {
    if i < k - 1 {
      ScanIncludes(entries, results, k - 1, i);
    }
  }

  // ---------------------------------------------------------------------
  // The output is a prefix of the pages
  // ---------------------------------------------------------------------

  /** The first `k` pages have been output. */
  ghost predicate IsPrefix(a: Archive, output: seq<Sample>, n: NodeId, k: nat) {
    k <= |a.pages| && OutputOf(output, n) == Flatten(a.pages[..k])
  }

  ghost predicate AllAsk(a: Archive, entries: seq<Entry>, n: NodeId, k: nat) {
    forall i :: 0 <= i < |entries| && entries[i].nodeId == n ==> Asked(a, entries[i]) == k
  }

  lemma OnePageMore(a: Archive, output: seq<Sample>, more: seq<Sample>, n: NodeId, k: nat)
    requires IsPrefix(a, output, n, k) && k < |a.pages| && OutputOf(more, n) == a.pages[k]
    ensures IsPrefix(a, output + more, n, k + 1)
  {
    OutputOfConcat(output, more, n);
    FlattenSnoc(a.pages[..k], a.pages[k]);
    assert a.pages[..k + 1] == a.pages[..k] + [a.pages[k]];
  }

  lemma NothingMore(a: Archive, output: seq<Sample>, more: seq<Sample>, n: NodeId, k: nat)
    requires IsPrefix(a, output, n, k) && OutputOf(more, n) == []
    ensures IsPrefix(a, output + more, n, k)
  {
    OutputOfConcat(output, more, n);
  }

  /** One response adds the next page or nothing, and whoever is asked again is asked for
      the page after the last one output. */
  lemma RoundKeepsPrefix(a: Archive, n: NodeId, entries: seq<Entry>, results: seq<Result>, output: seq<Sample>, k: nat)
    returns (k': nat)
    requires Once(entries, n) && AnsweredFor(a, n, entries, results)
    requires IsPrefix(a, output, n, k) && AllAsk(a, entries, n, k)
    ensures var scan := ScanAll(entries, results);
            && IsPrefix(a, output + scan.output, n, k')
            && Once(scan.next, n) && AllAsk(a, scan.next, n, k')
  {
    var m := |results|;
    var scan := ScanAll(entries, results);
    ScanKeepsOnce(entries, results, m, n);
    if i :| 0 <= i < |entries| && i < m && entries[i].nodeId == n && Reads(entries, results, i) {
      assert ServesPage(a, entries[i], results[i]);
      ScanWith(entries, results, m, i, n);
      OnePageMore(a, output, scan.output, n, k);
      k' := k + 1;
    } else {
      SilentScan(entries, results, n);
      NothingMore(a, output, scan.output, n, k);
      k' := k;
    }
    forall j | 0 <= j < |scan.next| && scan.next[j].nodeId == n ensures Asked(a, scan.next[j]) == k' {
      var i := ScanContinues(entries, results, m, j);
      assert ServesPage(a, entries[i], results[i]);
    }
  }

  lemma SilentScan(entries: seq<Entry>, results: seq<Result>, n: NodeId)
    requires Once(entries, n)
    requires forall i :: 0 <= i < |entries| && i < |results| && entries[i].nodeId == n ==> !Reads(entries, results, i)
    ensures OutputOf(ScanAll(entries, results).output, n) == []
  {
    if i :| 0 <= i < |entries| && i < |results| && entries[i].nodeId == n {
      ScanWith(entries, results, |results|, i, n);
    } else {
      ScanWithout(entries, results, |results|, n);
    }
  }

  /** What is output for a node listed once is in order the concatenation of its first pages:
      for responses of any length, errors of single nodes, and reads that are aborted. */
  lemma {:induction false} OutputIsAPrefixOfPages(
    a: Archive, n: NodeId, server: Server, r: Reader, entries: seq<Entry>, k: nat)
    returns (k': nat)
    requires Once(entries, n) && IsPrefix(a, r.output, n, k) && AllAsk(a, entries, n, k)
    requires ServedOn(a, n, server, Rounds(server, r, entries).0.log, |r.log|)
    ensures IsPrefix(a, Rounds(server, r, entries).0.output, n, k')
    decreases r.budget
  {
    var budget := if r.budget > 0 then r.budget - 1 else 0;
    var log := r.log + [Request(false, entries)];
    var answer := server(log);
    if answer.statusCode != Success || answer.results == [] {
      return k;
    }
    FirstAnswer(a, n, server, r, entries);
    var scan := ScanAll(entries, answer.results);
    k' := RoundKeepsPrefix(a, n, entries, answer.results, r.output, k);
    if scan.end == Clean && scan.next != [] && budget > 0 {
      k' := OutputIsAPrefixOfPages(a, n, server, Reader(budget, log, r.output + scan.output), scan.next, k');
    }
  }

  lemma FirstAnswer(a: Archive, n: NodeId, server: Server, r: Reader, entries: seq<Entry>)
    requires ServedOn(a, n, server, Rounds(server, r, entries).0.log, |r.log|)
    ensures AnsweredFor(a, n, entries, server(r.log + [Request(false, entries)]).results)
  {
    RoundsExtendTheLog(server, r, entries);
    var log := Rounds(server, r, entries).0.log;
    assert log[..|r.log| + 1] == r.log + [Request(false, entries)];
    assert log[|r.log|] == Request(false, entries);
  }

  /** The same for the public entry point. */
  lemma HistoryOutputIsAPrefix(a: Archive, n: NodeId, server: Server, budget: nat, nodes: seq<NodeId>)
    requires Once(FirstEntries(nodes), n)
    requires ServedOn(a, n, server, Rounds(server, Reader(budget, [], []), FirstEntries(nodes)).0.log, 0)
    ensures exists k :: IsPrefix(a, Rounds(server, Reader(budget, [], []), FirstEntries(nodes)).0.output, n, k)
  {
    assert IsPrefix(a, [], n, 0);
    var k := OutputIsAPrefixOfPages(a, n, server, Reader(budget, [], []), FirstEntries(nodes), 0);
  }

  // ---------------------------------------------------------------------
  // The exact extent of the output, for a node listed any number of times
  // ---------------------------------------------------------------------

  /** How often `n` is listed. */
  function TimesListed(entries: seq<Entry>, n: NodeId): nat {
    if entries == [] then 0
    else
      var before := TimesListed(entries[..|entries| - 1], n);
      if entries[|entries| - 1].nodeId == n then before + 1 else before
  }

  /** How often `n` is listed among the first `k` entries, as far as there are any. */
  function ListedBefore(entries: seq<Entry>, k: nat, n: NodeId): nat {
    if k == 0 then 0
    else ListedBefore(entries, k - 1, n) + if NodeAt(entries, k - 1) == Some(n) then 1 else 0
  }

  function Copies(page: seq<DataValue>, times: nat): seq<DataValue> {
    if times == 0 then [] else Copies(page, times - 1) + page
  }

  lemma CopiesOneMore(page: seq<DataValue>, times: nat)
    ensures Copies(page, times + 1) == Copies(page, times) + page
  {}

  /** The first `k` pages, each repeated. */
  function RepeatedPages(pages: seq<seq<DataValue>>, k: nat, times: nat): seq<DataValue>
    requires k <= |pages|
  {
    if k == 0 then [] else RepeatedPages(pages, k - 1, times) + Copies(pages[k - 1], times)
  }

  lemma TimesListedAppend(entries: seq<Entry>, e: Entry, n: NodeId)
    ensures TimesListed(entries + [e], n) == TimesListed(entries, n) + if e.nodeId == n then 1 else 0
  {
    assert (entries + [e])[..|entries|] == entries;
  }

  lemma {:induction false} ListedBeforeAll(entries: seq<Entry>, k: nat, n: NodeId)
    requires k <= |entries|
    ensures ListedBefore(entries, k, n) == TimesListed(entries[..k], n)
  {
    if k > 0 {
      ListedBeforeAll(entries, k - 1, n);
      assert entries[..k] == entries[..k - 1] + [entries[k - 1]];
      TimesListedAppend(entries[..k - 1], entries[k - 1], n);
    }
  }

  lemma {:induction false} NotListedBetween(entries: seq<Entry>, j: nat, k: nat, n: NodeId)
    requires j <= k && forall i :: j <= i < k ==> NodeAt(entries, i) != Some(n)
    ensures ListedBefore(entries, k, n) == ListedBefore(entries, j, n)
  {
    if j < k {
      NotListedBetween(entries, j, k - 1, n);
    }
  }

  lemma {:induction false} ListedIsMentioned(entries: seq<Entry>, n: NodeId)
    ensures TimesListed(entries, n) > 0 <==> Mentions(entries, n)
  {
    if entries != [] {
      var front := entries[..|entries| - 1];
      ListedIsMentioned(front, n);
      if i :| 0 <= i < |front| && front[i].nodeId == n {
        assert entries[i].nodeId == n;
      }
      if i :| 0 <= i < |entries| && entries[i].nodeId == n {
        assert i < |front| ==> front[i].nodeId == n;
      }
    }
  }

  /** The response is scanned to its end and has, for each entry of `n`, the page asked for,
      with a continuation point exactly when pages remain. */
  ghost predicate AnsweredFully(a: Archive, n: NodeId, entries: seq<Entry>, answer: Response) {
    && answer.statusCode == Success && answer.results != []
    && ScanAll(entries, answer.results).end == Clean && AllFull(a, n, entries, answer.results)
  }

  ghost predicate FullAt(a: Archive, entries: seq<Entry>, results: seq<Result>, i: nat)
    requires i < |entries|
  {
    && i < |results| && IsData(results[i]) && ServesPage(a, entries[i], results[i])
    && (Asked(a, entries[i]) + 1 < |a.pages| ==> results[i].point.Some?)
  }

  ghost predicate ServedFully(a: Archive, n: NodeId, server: Server, log: seq<Request>, from: nat) {
    forall j :: from <= j < |log| && !log[j].release ==>
      AnsweredFully(a, n, log[j].entries, AnswerTo(server, log, j))
  }

  ghost predicate NoEmptyPage(a: Archive) {
    forall i :: 0 <= i < |a.pages| ==> a.pages[i] != []
  }

  function Min(x: nat, y: nat): nat {
    if x <= y then x else y
  }

  lemma FullAnswer(a: Archive, n: NodeId, server: Server, r: Reader, entries: seq<Entry>)
    requires ServedFully(a, n, server, Rounds(server, r, entries).0.log, |r.log|)
    ensures AnsweredFully(a, n, entries, server(r.log + [Request(false, entries)]))
  {
    RoundsExtendTheLog(server, r, entries);
    var log := Rounds(server, r, entries).0.log;
    assert log[..|r.log| + 1] == r.log + [Request(false, entries)];
    assert log[|r.log|] == Request(false, entries);
  }

  ghost predicate AllFull(a: Archive, n: NodeId, entries: seq<Entry>, results: seq<Result>) {
    forall i :: 0 <= i < |entries| && entries[i].nodeId == n ==> FullAt(a, entries, results, i)
  }

  /** The first `k` results output the page for each of the node's entries. */
  lemma {:induction false} FullScanOutputs(
    a: Archive, n: NodeId, entries: seq<Entry>, results: seq<Result>, c: nat, k: nat)
    requires k <= |results| && ScanPrefix(entries, results, k).end == Clean
    requires c < |a.pages| && AllAsk(a, entries, n, c) && AllFull(a, n, entries, results)
    ensures OutputOf(ScanPrefix(entries, results, k).output, n) ==
            Copies(a.pages[c], ListedBefore(entries, k, n))
  {
    if k > 0 {
      FullScanOutputs(a, n, entries, results, c, k - 1);
      ScanOneMore(entries, results, k, n);
      CopiesOneMore(a.pages[c], ListedBefore(entries, k - 1, n));
      if NodeAt(entries, k - 1) == Some(n) {
        assert FullAt(a, entries, results, k - 1);
        assert results[k - 1].values == a.pages[c];
      }
    }
  }

  lemma NextOneMore(entries: seq<Entry>, results: seq<Result>, k: nat, n: NodeId)
    requires 0 < k <= |results| && ScanPrefix(entries, results, k).end == Clean
    ensures var before, r := ScanPrefix(entries, results, k - 1), results[k - 1];
            TimesListed(ScanPrefix(entries, results, k).next, n) == TimesListed(before.next, n) +
            if IsData(r) && r.point.Some? && r.values != [] && NodeAt(entries, k - 1) == Some(n) then 1 else 0
  {
    var before, r, node := ScanPrefix(entries, results, k - 1), results[k - 1], NodeAt(entries, k - 1);
    if node.Some? {
      TimesListedAppend(before.next, Entry(node.value, r.point), n);
    }
  }

  /** They continue each of the node's entries exactly when pages remain. */
  lemma {:induction false} FullScanContinues(
    a: Archive, n: NodeId, entries: seq<Entry>, results: seq<Result>, c: nat, k: nat)
    requires k <= |results| && ScanPrefix(entries, results, k).end == Clean
    requires c < |a.pages| && a.pages[c] != [] && AllAsk(a, entries, n, c) && AllFull(a, n, entries, results)
    ensures TimesListed(ScanPrefix(entries, results, k).next, n) ==
            if c + 1 < |a.pages| then ListedBefore(entries, k, n) else 0
  {
    if k > 0 {
      FullScanContinues(a, n, entries, results, c, k - 1);
      NextOneMore(entries, results, k, n);
      if NodeAt(entries, k - 1) == Some(n) {
        assert FullAt(a, entries, results, k - 1);
      }
    }
  }

  /** One response to all entries of the node. */
  lemma FullRound(a: Archive, n: NodeId, entries: seq<Entry>, answer: Response, c: nat)
    requires c < |a.pages| && NoEmptyPage(a) && AllAsk(a, entries, n, c) && AnsweredFully(a, n, entries, answer)
    ensures var scan, t := ScanAll(entries, answer.results), TimesListed(entries, n);
            && OutputOf(scan.output, n) == Copies(a.pages[c], t)
            && TimesListed(scan.next, n) == (if c + 1 < |a.pages| then t else 0)
            && AllAsk(a, scan.next, n, c + 1)
  {
    var results := answer.results;
    FullScanOutputs(a, n, entries, results, c, |results|);
    FullScanContinues(a, n, entries, results, c, |results|);
    AllListed(a, n, entries, results);
    forall j | 0 <= j < |ScanAll(entries, results).next| && ScanAll(entries, results).next[j].nodeId == n
      ensures Asked(a, ScanAll(entries, results).next[j]) == c + 1
    {
      var i := ScanContinues(entries, results, |results|, j);
      assert FullAt(a, entries, results, i);
    }
  }

  lemma AllListed(a: Archive, n: NodeId, entries: seq<Entry>, results: seq<Result>)
    requires AllFull(a, n, entries, results)
    ensures ListedBefore(entries, |results|, n) == TimesListed(entries, n)
  {
    ListedBeforeAll(entries, |entries|, n);
    assert entries[..|entries|] == entries;
    if |results| <= |entries| {
      NotListedBetween(entries, |results|, |entries|, n);
    } else {
      NotListedBetween(entries, |entries|, |results|, n);
    }
  }

  /** `c` pages of a node listed `t` times are out, and it is asked for the next one. */
  ghost predicate AskedAgain(a: Archive, n: NodeId, entries: seq<Entry>, output: seq<Sample>, c: nat, t: nat) {
    && t > 0 && c < |a.pages| && TimesListed(entries, n) == t && AllAsk(a, entries, n, c)
    && Repeats(a, n, output, c, t)
  }

  /** The first `k` pages have been output, each `t` times. */
  ghost predicate Repeats(a: Archive, n: NodeId, output: seq<Sample>, k: nat, t: nat) {
    k <= |a.pages| && OutputOf(output, n) == RepeatedPages(a.pages, k, t)
  }

  lemma RoundRepeats(
    a: Archive, n: NodeId, entries: seq<Entry>, answer: Response, output: seq<Sample>, c: nat, t: nat)
    requires NoEmptyPage(a) && AskedAgain(a, n, entries, output, c, t) && AnsweredFully(a, n, entries, answer)
    ensures var scan := ScanAll(entries, answer.results);
            && Repeats(a, n, output + scan.output, c + 1, t)
            && if c + 1 < |a.pages|
               then scan.next != [] && AskedAgain(a, n, scan.next, output + scan.output, c + 1, t)
               else !Mentions(scan.next, n)
  {
    var scan := ScanAll(entries, answer.results);
    FullRound(a, n, entries, answer, c);
    OutputOfConcat(output, scan.output, n);
    ListedIsMentioned(scan.next, n);
  }

  ghost function AfterRound(server: Server, r: Reader, entries: seq<Entry>): Reader
    requires r.budget > 1
  {
    var log := r.log + [Request(false, entries)];
    Reader(r.budget - 1, log, r.output + ScanAll(entries, server(log).results).output)
  }

  /** The last round that matters for the node. */
  lemma LastRound(a: Archive, n: NodeId, server: Server, r: Reader, entries: seq<Entry>, c: nat, t: nat)
    requires NoEmptyPage(a) && AskedAgain(a, n, entries, r.output, c, t)
    requires AnsweredFully(a, n, entries, server(r.log + [Request(false, entries)]))
    requires c + 1 == |a.pages| || r.budget <= 1
    ensures Repeats(a, n, Rounds(server, r, entries).0.output, c + 1, t)
  {
    var answer := server(r.log + [Request(false, entries)]);
    RoundRepeats(a, n, entries, answer, r.output, c, t);
    OneCleanRound(server, r, entries);
    var next := ScanAll(entries, answer.results).next;
    if next != [] && r.budget > 1 {
      NoMoreOutput(n, server, AfterRound(server, r, entries), next);
    }
  }

  ghost function NextEntries(server: Server, r: Reader, entries: seq<Entry>): seq<Entry> {
    ScanAll(entries, server(r.log + [Request(false, entries)]).results).next
  }

  /** Round by round: every data request from here on is answered fully. */
  ghost predicate ServedThrough(a: Archive, n: NodeId, server: Server, r: Reader, entries: seq<Entry>)
    decreases r.budget
  {
    && AnsweredFully(a, n, entries, server(r.log + [Request(false, entries)]))
    && (r.budget > 1 && NextEntries(server, r, entries) != [] ==>
          ServedThrough(a, n, server, AfterRound(server, r, entries), NextEntries(server, r, entries)))
  }

  lemma {:induction false} FullyIsThrough(a: Archive, n: NodeId, server: Server, r: Reader, entries: seq<Entry>)
    requires ServedFully(a, n, server, Rounds(server, r, entries).0.log, |r.log|)
    ensures ServedThrough(a, n, server, r, entries)
    decreases r.budget
  {
    FullAnswer(a, n, server, r, entries);
    if r.budget > 1 && NextEntries(server, r, entries) != [] {
      OneCleanRound(server, r, entries);
      ServedLater(a, n, server, Rounds(server, r, entries).0.log, |r.log|, |r.log| + 1);
      FullyIsThrough(a, n, server, AfterRound(server, r, entries), NextEntries(server, r, entries));
    }
  }

  lemma {:induction false} RepeatedOutput(
    a: Archive, n: NodeId, server: Server, r: Reader, entries: seq<Entry>, c: nat, t: nat)
    returns (k: nat)
    requires NoEmptyPage(a) && AskedAgain(a, n, entries, r.output, c, t)
    requires ServedThrough(a, n, server, r, entries)
    ensures Repeats(a, n, Rounds(server, r, entries).0.output, k, t)
    ensures k == Min(|a.pages|, c + Allowance(r.budget))
    decreases r.budget
  {
    if c + 1 == |a.pages| || r.budget <= 1 {
      LastRound(a, n, server, r, entries, c, t);
      k := c + 1;
    } else {
      var after, next := AfterRound(server, r, entries), NextEntries(server, r, entries);
      MiddleRound(a, n, server, r, entries, c, t, after, next);
      k := RepeatedOutput(a, n, server, after, next, c + 1, t);
    }
  }

  /** A round after which the node is asked again. */
  lemma MiddleRound(
    a: Archive, n: NodeId, server: Server, r: Reader, entries: seq<Entry>, c: nat, t: nat,
    after: Reader, next: seq<Entry>)
    requires NoEmptyPage(a) && AskedAgain(a, n, entries, r.output, c, t)
    requires ServedThrough(a, n, server, r, entries) && c + 1 < |a.pages| && r.budget > 1
    requires after == AfterRound(server, r, entries) && next == NextEntries(server, r, entries)
    ensures Rounds(server, r, entries) == Rounds(server, after, next)
    ensures AskedAgain(a, n, next, after.output, c + 1, t)
    ensures ServedThrough(a, n, server, after, next)
  {
    RoundRepeats(a, n, entries, server(r.log + [Request(false, entries)]), r.output, c, t);
    OneCleanRound(server, r, entries);
  }

  lemma ServedLater(a: Archive, n: NodeId, server: Server, log: seq<Request>, from: nat, later: nat)
    requires ServedFully(a, n, server, log, from) && from <= later
    ensures ServedFully(a, n, server, log, later)
  {}

  /** A clean response and what follows it. */
  lemma OneCleanRound(server: Server, r: Reader, entries: seq<Entry>)
    requires var answer := server(r.log + [Request(false, entries)]);
             answer.statusCode == Success && answer.results != [] && ScanAll(entries, answer.results).end == Clean
    ensures var log := r.log + [Request(false, entries)];
            var scan := ScanAll(entries, server(log).results);
            if scan.next != [] && r.budget > 1
            then Rounds(server, r, entries) ==
                 Rounds(server, Reader(r.budget - 1, log, r.output + scan.output), scan.next)
            else Rounds(server, r, entries).0.output == r.output + scan.output
  {}

  lemma {:induction false} NoMoreOutput(n: NodeId, server: Server, r: Reader, entries: seq<Entry>)
    requires !Mentions(entries, n)
    ensures OutputOf(Rounds(server, r, entries).0.output, n) == OutputOf(r.output, n)
    decreases r.budget
  {
    var budget := if r.budget > 0 then r.budget - 1 else 0;
    var log := r.log + [Request(false, entries)];
    var results := server(log).results;
    var scan := ScanAll(entries, results);
    ScanWithout(entries, results, |results|, n);
    OutputOfConcat(r.output, scan.output, n);
    if scan.next != [] && budget > 0 {
      forall j | 0 <= j < |scan.next| ensures scan.next[j].nodeId != n {
        var i := ScanContinues(entries, results, |results|, j);
      }
      NoMoreOutput(n, server, Reader(budget, log, r.output + scan.output), scan.next);
    }
  }

  /** The number of pages that a limit of `budget` requests reads. */
  function PagesRead(a: Archive, budget: nat): nat {
    Min(|a.pages|, Allowance(budget))
  }

  /** If the server answers every data request of the read with the pages asked for of a node
      without empty pages, then a limit of m requests outputs, page by page, its first
      max(1, m) pages, each as often as the node is listed. */
  lemma RepeatedNodeRepeatsPages(a: Archive, n: NodeId, server: Server, budget: nat, nodes: seq<NodeId>)
    requires n in nodes && NoEmptyPage(a)
    requires ServedFully(a, n, server, Rounds(server, Reader(budget, [], []), FirstEntries(nodes)).0.log, 0)
    ensures OutputOf(Rounds(server, Reader(budget, [], []), FirstEntries(nodes)).0.output, n) ==
            RepeatedPages(a.pages, PagesRead(a, budget), TimesListed(FirstEntries(nodes), n))
    ensures a.pages != [] && TimesListed(FirstEntries(nodes), n) > 0
  {
    var entries, r := FirstEntries(nodes), Reader(budget, [], []);
    var i :| 0 <= i < |nodes| && nodes[i] == n;
    assert entries[i].nodeId == n;
    ListedIsMentioned(entries, n);
    FullAnswer(a, n, server, r, entries);
    assert FullAt(a, entries, server(r.log + [Request(false, entries)]).results, i);
    FullyIsThrough(a, n, server, r, entries);
    var k := RepeatedOutput(a, n, server, r, entries, 0, TimesListed(entries, n));
  }

  lemma {:induction false} CopiesLength(page: seq<DataValue>, times: nat)
    ensures |Copies(page, times)| == times * |page|
  {
    if times > 0 {
      CopiesLength(page, times - 1);
    }
  }

  lemma {:induction false} RepeatedLength(pages: seq<seq<DataValue>>, k: nat, times: nat)
    requires k <= |pages|
    ensures |RepeatedPages(pages, k, times)| == times * |Flatten(pages[..k])|
  {
    if k > 0 {
      RepeatedLength(pages, k - 1, times);
      CopiesLength(pages[k - 1], times);
      FlattenSnoc(pages[..k - 1], pages[k - 1]);
      assert pages[..k] == pages[..k - 1] + [pages[k - 1]];
      Distribute(times, |Flatten(pages[..k - 1])|, |pages[k - 1]|);
    }
  }

  lemma Distribute(t: nat, x: nat, y: nat)
    ensures t * x + t * y == t * (x + y)
  {}

  lemma {:induction false} RepeatedOnce(pages: seq<seq<DataValue>>, k: nat)
    requires k <= |pages|
    ensures RepeatedPages(pages, k, 1) == Flatten(pages[..k])
  {
    if k > 0 {
      RepeatedOnce(pages, k - 1);
      FlattenSnoc(pages[..k - 1], pages[k - 1]);
      assert pages[..k] == pages[..k - 1] + [pages[k - 1]];
      CopyOnce(pages[k - 1]);
    }
  }

  lemma CopyOnce(page: seq<DataValue>)
    ensures Copies(page, 1) == page
  {
    assert Copies(page, 0) == [];
  }

  lemma FlattenFirst(pages: seq<seq<DataValue>>, k: nat)
    requires 0 < k <= |pages| && pages[0] != []
    ensures |Flatten(pages[..k])| > 0
  {
    assert pages[..k][0] == pages[0];
  }

  lemma TimesOne(t: nat, x: nat)
    requires t * x == x && x > 0
    ensures t == 1
  {
    assert (t - 1) * x == 0;
  }

  /** So exactly its first max(1, m) pages are output if and only if the node is listed
      once. */
  lemma HistoryOutputExactlyIff(a: Archive, n: NodeId, server: Server, budget: nat, nodes: seq<NodeId>)
    requires n in nodes && NoEmptyPage(a)
    requires ServedFully(a, n, server, Rounds(server, Reader(budget, [], []), FirstEntries(nodes)).0.log, 0)
    ensures OutputOf(Rounds(server, Reader(budget, [], []), FirstEntries(nodes)).0.output, n) ==
            Flatten(a.pages[..PagesRead(a, budget)]) <==>
            TimesListed(FirstEntries(nodes), n) == 1
  {
    var k, t := PagesRead(a, budget), TimesListed(FirstEntries(nodes), n);
    RepeatedNodeRepeatsPages(a, n, server, budget, nodes);
    RepeatedOnce(a.pages, k);
    RepeatedLength(a.pages, k, t);
    FlattenFirst(a.pages, k);
    if RepeatedPages(a.pages, k, t) == Flatten(a.pages[..k]) {
      TimesOne(t, |Flatten(a.pages[..k])|);
    }
  }
}
