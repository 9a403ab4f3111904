/** What each answer does to a client connection, stated on the world before and after: the
    connection after the namespace array, a subscription after its create, the items after
    the item results, and the items that are requested again after a loss. */
module ConnectionAnswers {
  import opened OpcUaTypes
  import opened ClientConnection
  import opened ConnectionRuns

  // ---------------------------------------------------------------------
  // Item results
  // ---------------------------------------------------------------------

  /** Result `k` names the item with handle `h` and gives it a server id. */
  ghost predicate Gives(results: seq<ItemResult>, k: nat, h: nat) {
    k < |results| && results[k].clientHandle == h && results[k].monitoredItemId.Some?
  }

  /** What the first `n` results make of one item: it is open if it was or some result gives it
      an id; it has the id of the last such result; nothing else about it changes. */
  ghost predicate ItemTold(results: seq<ItemResult>, n: nat, h: nat, item: Item, item': Item)
    requires n <= |results|
  {
    && item'.nodeId == item.nodeId && item'.reconnectTime == item.reconnectTime
    && (item'.open <==> item.open || exists k :: 0 <= k < n && Gives(results, k, h))
    && (item'.monitoredItemId != item.monitoredItemId ==> exists k :: 0 <= k < n && Gives(results, k, h))
    && forall k :: 0 <= k < n && Gives(results, k, h) && (forall l :: k < l < n ==> !Gives(results, l, h)) ==>
         item'.monitoredItemId == results[k].monitoredItemId.value
  }

  lemma ItemToldNext(results: seq<ItemResult>, n: nat, h: nat, item: Item, before: Item, after: Item)
    requires n < |results| && ItemTold(results, n, h, item, before)
    requires after == if Gives(results, n, h)
                      then before.(open := true, monitoredItemId := results[n].monitoredItemId.value) else before
    ensures ItemTold(results, n + 1, h, item, after)
  {
    forall k | 0 <= k < n + 1 && Gives(results, k, h) && (forall l :: k < l < n + 1 ==> !Gives(results, l, h))
      ensures after.monitoredItemId == results[k].monitoredItemId.value
    {
      assert k < n ==> !Gives(results, n, h);
    }
  }

  lemma {:induction false} OpenedTellsItems(items: map<nat, Item>, results: seq<ItemResult>, n: nat)
    requires n <= |results|
    ensures Opened(items, results, n).Keys == items.Keys
    ensures forall h :: h in items ==> ItemTold(results, n, h, items[h], Opened(items, results, n)[h])
  {
    if n > 0 {
      OpenedTellsItems(items, results, n - 1);
      var before, after := Opened(items, results, n - 1), Opened(items, results, n);
      forall h | h in items ensures ItemTold(results, n, h, items[h], after[h]) {
        ItemToldNext(results, n - 1, h, items[h], before[h], after[h]);
      }
    }
  }

  /** An item answer changes the items of its subscription as its results say, one unanswered
      request less, and nothing else; without a result list no item changes. */
  lemma ItemsAnswerEffect(config: seq<Namespace>, w: World, k: nat, results: Option<seq<ItemResult>>, w': World)
    requires WellSized(w) && Step(config, w, ItemsAnswer(k, results), w')
    ensures k < |w.connection.subs| == |w'.connection.subs| && w.opening[k] > 0
    ensures w' == w.(connection := w'.connection, opening := w.opening[k := w.opening[k] - 1])
    ensures w'.connection == w.connection.(subs := w'.connection.subs)
    ensures forall i :: 0 <= i < |w.connection.subs| && i != k ==> w'.connection.subs[i] == w.connection.subs[i]
    ensures var s, s' := w.connection.subs[k], w'.connection.subs[k];
            && s'.state == s.state && s'.subscriptionId == s.subscriptionId && s'.items.Keys == s.items.Keys
            && (results.None? ==> s' == s)
            && (results.Some? ==> forall h :: h in s.items ==>
                  ItemTold(results.value, |results.value|, h, s.items[h], s'.items[h]))
  {
    if results.Some? {
      OpenedTellsItems(w.connection.subs[k].items, results.value, |results.value|);
    }
  }

  // ---------------------------------------------------------------------
  // Requests and their items
  // ---------------------------------------------------------------------

  /** A request that was sent names different items that its subscription has. */
  ghost predicate Names(w: World, s: Sent) {
    && s.sub < |w.connection.subs|
    && (forall i, j :: 0 <= i < j < |s.items| ==> s.items[i].clientHandle != s.items[j].clientHandle)
    && forall i :: 0 <= i < |s.items| ==> s.items[i].clientHandle in w.connection.subs[s.sub].items
  }

  ghost predicate SentInv(w: World) {
    forall i :: 0 <= i < |w.sent| ==> Names(w, w.sent[i])
  }

  /** No item of a subscription is added or dropped, and what it watches stays the same. */
  ghost predicate SameItems(w: World, w': World) {
    && |w.connection.subs| == |w'.connection.subs|
    && forall k :: 0 <= k < |w.connection.subs| ==>
         && w.connection.subs[k].items.Keys == w'.connection.subs[k].items.Keys
         && forall h :: h in w.connection.subs[k].items ==>
              w.connection.subs[k].items[h].nodeId == w'.connection.subs[k].items[h].nodeId
  }

  lemma StepKeepsItems(config: seq<Namespace>, w: World, e: Event, w': World)
    requires WellSized(w) && Step(config, w, e, w')
    ensures SameItems(w, w')
  {
    match e {
      case ItemsAnswer(k, results) => ItemsAnswerEffect(config, w, k, results, w');
      case _ =>
    }
  }

  lemma {:induction false} RunKeepsItems(config: seq<Namespace>, ws: seq<World>, es: seq<Event>, i: nat)
    requires IsRun(config, ws, es) && i < |ws|
    ensures SameItems(ws[0], ws[i])
  {
    if i > 0 {
      RunKeepsItems(config, ws, es, i - 1);
      assert Step(config, ws[i - 1], es[i - 1], ws[i]);
      StepKeepsItems(config, ws[i - 1], es[i - 1], ws[i]);
    }
  }

  lemma StepKeepsSent(config: seq<Namespace>, w: World, e: Event, w': World)
    requires WellSized(w) && Step(config, w, e, w') && SentInv(w)
    ensures SentInv(w')
  {
    StepKeepsItems(config, w, e, w');
    if w'.sent != w.sent {
      OnlyCreatesSend(config, w, e, w');
    }
    forall i | 0 <= i < |w'.sent| ensures Names(w', w'.sent[i]) {
      if i < |w.sent| {
        assert Names(w, w.sent[i]);
      }
    }
  }

  lemma {:induction false} RunKeepsSent(config: seq<Namespace>, ws: seq<World>, es: seq<Event>, i: nat)
    requires IsRun(config, ws, es) && i < |ws|
    ensures SentInv(ws[i])
  {
    if i > 0 {
      RunKeepsSent(config, ws, es, i - 1);
      assert Step(config, ws[i - 1], es[i - 1], ws[i]);
      StepKeepsSent(config, ws[i - 1], es[i - 1], ws[i]);
    }
  }

  /** The answer to a request in which every item was created. */
  ghost predicate AllGood(request: seq<ItemRequest>, results: seq<ItemResult>) {
    && |results| == |request|
    && forall i :: 0 <= i < |request| ==> Gives(results, i, request[i].clientHandle)
  }

  /** In every run an item request that is answered with an id for each of its items leaves
      each of them open under its id, in an open subscription of an established connection. */
  lemma AnsweredItemsAreOpen(config: seq<Namespace>, ws: seq<World>, es: seq<Event>, i: nat, s: Sent, n: nat)
    requires IsRun(config, ws, es) && i < |es|
    requires es[i].ItemsAnswer? && es[i].results.Some?
    requires s in ws[i].sent && s.sub == es[i].sub && AllGood(s.items, es[i].results.value) && n < |s.items|
    ensures s.sub < |ws[i + 1].connection.subs|
    ensures var sub, h := ws[i + 1].connection.subs[s.sub], s.items[n].clientHandle;
            && h in sub.items && sub.items[h].open
            && Some(sub.items[h].monitoredItemId) == es[i].results.value[n].monitoredItemId
            && sub.state == SubOpen && ws[i + 1].connection.state == ConnEstablished
  {
    RunKeepsSent(config, ws, es, i);
    assert Names(ws[i], s);
    var k, results, h := s.sub, es[i].results.value, s.items[n].clientHandle;
    assert Allowed(ws[i], es[i]) && Step(config, ws[i], es[i], ws[i + 1]);
    ItemsAnswerEffect(config, ws[i], k, es[i].results, ws[i + 1]);
    assert Gives(results, n, h);
    assert forall l :: n < l < |results| ==> !Gives(results, l, h) by {
      forall l | n < l < |results| ensures !Gives(results, l, h) {
        assert Gives(results, l, s.items[l].clientHandle);
      }
    }
    OpenItemsHaveEstablishedConnections(config, ws, es, i + 1, k, h);
  }

  // ---------------------------------------------------------------------
  // The connection and its subscriptions
  // ---------------------------------------------------------------------

  ghost predicate AllOpening(subs: seq<Subscription>, subs': seq<Subscription>) {
    && |subs'| == |subs|
    && forall k :: 0 <= k < |subs| ==> subs'[k] == Subscription(SubOpening, subs[k].subscriptionId, subs[k].items)
  }

  /** The answer to the namespace read decides the state of the connection: lost when the
      read failed, in error when the content is unusable or a configured URI is missing,
      and established, with every subscription being opened, otherwise. Without a
      configured namespace the answer changes no state. */
  lemma NamespacesAnswerEffect(config: seq<Namespace>, w: World, r: ReadResult, w': World)
    requires WellSized(w) && Step(config, w, NamespacesAnswered(r), w')
    ensures var c, c' := w.connection, w'.connection;
            && (r.ReadFailed? ==> c'.state == ConnDisconnected)
            && (r.BadContent? ==> c'.state == ConnError)
            && (r.Uris? && config == [] ==> c' == c)
            && (r.Uris? && config != [] ==>
                  && (c'.state == ConnEstablished <==> forall ns :: ns in config ==> ns.uri in r.uris)
                  && (c'.state == ConnError <==> exists ns :: ns in config && ns.uri !in r.uris))
            && (r.Uris? && config != [] && c'.state == ConnEstablished ==> AllOpening(c.subs, c'.subs))
            && (!(r.Uris? && config != [] && c'.state == ConnEstablished) ==> c'.subs == c.subs)
  {
    if r.Uris? && config != [] {
      if AllOnServer(r.uris, config) {
        assert w'.connection.state == ConnEstablished;
      } else {
        var k :| 0 <= k < |config| && config[k].uri !in r.uris;
        assert config[k] in config;
      }
    }
  }

  /** A connected session asks for the namespaces; a lost one disconnects, and closes the
      subscriptions and items of an established connection from that time on. */
  lemma SessionEffect(config: seq<Namespace>, w: World, e: Event, w': World)
    requires WellSized(w) && Step(config, w, e, w')
    ensures e.SessionConnects? ==>
              w'.connection == Connection(ConnConnected, w.connection.namespaceMap, w.connection.subs)
    ensures e.SessionDisconnects? ==>
              && w'.connection.state == ConnDisconnected && |w'.connection.subs| == |w.connection.subs|
              && (w.connection.state != ConnEstablished ==> w'.connection.subs == w.connection.subs)
              && (w.connection.state == ConnEstablished ==> forall k :: 0 <= k < |w.connection.subs| ==>
                    Lost(w.connection.subs[k], e.now, w'.connection.subs[k]))
  {}

  ghost predicate Lost(s: Subscription, t: nat, s': Subscription) {
    && s'.state == SubClose && s'.subscriptionId == 0 && s'.items.Keys == s.items.Keys
    && forall h :: h in s.items ==>
         s'.items[h] == Item(s.items[h].nodeId, false, t, s.items[h].monitoredItemId)
  }

  /** The header of the answer to a create decides: open under the answer's id if and only if
      it says success, in error otherwise; items and other subscriptions stay as they are. */
  lemma CreateAnswerEffect(config: seq<Namespace>, w: World, e: Event, w': World)
    requires WellSized(w) && e.SubscriptionAnswered? && Step(config, w, e, w')
    ensures e.sub < |w.connection.subs| && w'.connection.subs == w.connection.subs[e.sub := w'.connection.subs[e.sub]]
    ensures w'.connection == w.connection.(subs := w'.connection.subs)
    ensures var s, s' := w.connection.subs[e.sub], w'.connection.subs[e.sub];
            && s'.items == s.items
            && (s'.state == SubOpen <==> e.answer.serviceResult == Success)
            && (s'.state == SubError <==> e.answer.serviceResult != Success)
            && s'.subscriptionId == if s'.state == SubOpen then e.answer.subscriptionId else s.subscriptionId
  {}

  // ---------------------------------------------------------------------
  // Items requested again after a loss
  // ---------------------------------------------------------------------

  function Time(e: Event): Option<nat> {
    match e
    case SessionDisconnects(now) => Some(now)
    case SubscriptionAnswered(_, _, now, _) => Some(now)
    case _ => None
  }

  /** The clock does not run backwards. */
  ghost predicate ClockRuns(es: seq<Event>) {
    forall i, j :: 0 <= i < j < |es| && Time(es[i]).Some? && Time(es[j]).Some? ==>
      Time(es[i]).value <= Time(es[j]).value
  }

  /** No item waits for a time after `now`. */
  ghost predicate NoneLater(w: World, now: nat) {
    forall k :: 0 <= k < |w.connection.subs| ==>
      forall h :: h in w.connection.subs[k].items ==> w.connection.subs[k].items[h].reconnectTime <= now
  }

  lemma StepKeepsNoneLater(config: seq<Namespace>, w: World, e: Event, w': World, now: nat)
    requires WellSized(w) && Step(config, w, e, w')
    requires e.SessionDisconnects? ==> e.now <= now
    requires NoneLater(w, now) || (e.SessionDisconnects? && w.connection.state == ConnEstablished)
    ensures NoneLater(w', now)
  {
    match e {
      case ItemsAnswer(k, results) => ItemsAnswerEffect(config, w, k, results, w');
      case _ =>
    }
  }

  /** After the connection was lost in event `i` no item waits for a later time than `now`. */
  lemma {:induction false} LossIsRemembered(
    config: seq<Namespace>, ws: seq<World>, es: seq<Event>, i: nat, j: nat, now: nat)
    requires IsRun(config, ws, es) && i < j < |ws|
    requires es[i].SessionDisconnects? && ws[i].connection.state == ConnEstablished
    requires forall l :: i <= l < j && es[l].SessionDisconnects? ==> es[l].now <= now
    ensures NoneLater(ws[j], now)
  {
    if i < j - 1 {
      LossIsRemembered(config, ws, es, i, j - 1, now);
    }
    assert Step(config, ws[j - 1], es[j - 1], ws[j]);
    StepKeepsNoneLater(config, ws[j - 1], es[j - 1], ws[j], now);
  }

  ghost predicate HasUri(config: seq<Namespace>, n: NodeId) {
    exists k :: 0 <= k < |config| && config[k].index == n.namespaceIndex
  }

  lemma {:induction false} ConfiguredIff(config: seq<Namespace>, n: nat, index: nat)
    requires n <= |config|
    ensures ConfiguredUri(config, n, index).Some? <==> exists k :: 0 <= k < n && config[k].index == index
  {
    if n > 0 {
      ConfiguredIff(config, n - 1, index);
    }
  }

  lemma MappedIff(server: seq<string>, config: seq<Namespace>, m: NamespaceMap, n: NodeId)
    requires Translates(server, config, |config|, m)
    ensures n.namespaceIndex in m <==> HasUri(config, n)
  {
    ConfiguredIff(config, |config|, n.namespaceIndex);
    var c := n.namespaceIndex;
    assert match ConfiguredUri(config, |config|, c)
           case None => c !in m
           case Some(uri) => c in m;
  }

  /** In every run, at any time after the connection was lost and is established again, a
      create that is answered well asks for monitored items if and only if the subscription
      has items and the namespace index of every one of them is configured. The request
      carries the subscription id of that answer and names every item. */
  lemma LostItemsAreRequestedIff(config: seq<Namespace>, ws: seq<World>, es: seq<Event>, i: nat, j: nat)
    requires IsRun(config, ws, es) && ClockRuns(es) && i < j < |es|
    requires es[i].SessionDisconnects? && ws[i].connection.state == ConnEstablished
    requires es[j].SubscriptionAnswered? && es[j].answer.serviceResult == Success
    requires ws[j].connection.state == ConnEstablished
    ensures es[j].sub < |ws[j].connection.subs|
    ensures var k, items := es[j].sub, ws[j].connection.subs[es[j].sub].items;
            && (ws[j + 1].sent != ws[j].sent <==>
                  items.Keys != {} && forall h :: h in items ==> HasUri(config, items[h].nodeId))
            && (ws[j + 1].sent != ws[j].sent ==>
                  && es[j].request.Some?
                  && ws[j + 1].sent == ws[j].sent + [Sent(k, es[j].answer.subscriptionId, es[j].request.value)]
                  && NamesAll(items, es[j].request.value))
  {
    var w, e, w', now := ws[j], es[j], ws[j + 1], es[j].now;
    RunKeepsInv(config, ws, es, j);
    assert forall l :: i <= l < j && es[l].SessionDisconnects? ==> Time(es[l]).Some?;
    LossIsRemembered(config, ws, es, i, j, now);
    assert Allowed(w, e) && Step(config, w, e, w');
    var s, m := w.connection.subs[e.sub], w.connection.namespaceMap;
    assert SubInv(s, true, w.up, w.creating[e.sub], w.opening[e.sub], e.sub in w.stale);
    assert forall h :: h in s.items ==> IsDue(s.items[h], now);
    forall h | h in s.items ensures s.items[h].nodeId.namespaceIndex in m <==> HasUri(config, s.items[h].nodeId) {
      MappedIff(w.server, config, m, s.items[h].nodeId);
    }
    AllDueIff(Created(s, e.answer), m, now, e.request);
  }

  /** The request names each item of the subscription, and no other. */
  ghost predicate NamesAll(items: map<nat, Item>, request: seq<ItemRequest>) {
    forall h :: h in items <==> exists i :: 0 <= i < |request| && request[i].clientHandle == h
  }

  lemma AllDueIff(s: Subscription, m: NamespaceMap, now: nat, request: Option<seq<ItemRequest>>)
    requires SendsItems(s, m, now, request) && s.state == SubOpen
    requires forall h :: h in s.items ==> IsDue(s.items[h], now)
    ensures request.Some? <==> s.items.Keys != {} && forall h :: h in s.items ==> s.items[h].nodeId.namespaceIndex in m
    ensures request.Some? ==> NamesAll(s.items, request.value)
  {
    if s.items.Keys != {} {
      var h :| h in s.items.Keys;
      assert IsDue(s.items[h], now);
    }
  }
}
