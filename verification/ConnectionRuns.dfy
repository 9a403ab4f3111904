/** Runs of a client connection: which subscriptions and items are open, what losing the
    session closes, and what the requests for items mean to the server. */
module ConnectionRuns {
  import opened OpcUaTypes
  import opened ClientConnection

  datatype Event =
    | SessionConnects
    | SessionDisconnects(now: nat)
    | NamespacesAnswered(result: ReadResult)
    | SubscriptionAnswered(sub: nat, answer: CreateAnswer, now: nat, request: Option<seq<ItemRequest>>)
    | ItemsAnswer(sub: nat, results: Option<seq<ItemResult>>)

  /** A request for monitored items on its way to the server. */
  datatype Sent = Sent(sub: nat, subscriptionId: nat, items: seq<ItemRequest>)

  /** The connection, whether the session is up, the namespace array the server last
      answered, the unanswered requests and the item requests sent so far. `stale` are the
      subscriptions opened by a transaction that the session failed while the connection
      was not established, until the next establishment. */
  datatype World = World(
    connection: Connection,
    up: bool,
    server: seq<string>,
    reading: bool,
    creating: seq<bool>,
    opening: seq<nat>,
    sent: seq<Sent>,
    stale: set<nat>)

  ghost predicate WellSized(w: World) {
    |w.creating| == |w.opening| == |w.connection.subs|
  }

  function SetSub(c: Connection, k: nat, s: Subscription): Connection
    requires k < |c.subs|
  {
    c.(subs := c.subs[k := s])
  }

  /** A rejected or timed-out create while the connection is not established. */
  ghost predicate OpensStale(w: World, e: Event) {
    e.SubscriptionAnswered? && FromSession(e.answer) && w.connection.state != ConnEstablished
  }

  ghost predicate CreateStep(w: World, k: nat, a: CreateAnswer, now: nat, request: Option<seq<ItemRequest>>, w': World)
    requires WellSized(w)
  {
    && k < |w.connection.subs|
    && var s := Created(w.connection.subs[k], a);
       && SendsItems(s, w.connection.namespaceMap, now, request)
       && w' == w.(
                  connection := SetSub(w.connection, k, s),
                  creating := w.creating[k := false],
                  opening := if request.Some? then w.opening[k := w.opening[k] + 1] else w.opening,
                  sent := if request.Some? then w.sent + [Sent(k, s.subscriptionId, request.value)] else w.sent,
                  stale := if OpensStale(w, SubscriptionAnswered(k, a, now, request)) then w.stale + {k} else w.stale)
  }

  ghost predicate NamespacesStep(config: seq<Namespace>, w: World, r: ReadResult, w': World)
    requires WellSized(w)
  {
    var established := r.Uris? && config != [] && AllOnServer(r.uris, config);
    && NamespacesRead(config, w.connection, r, w'.connection)
    && w' == w.(
               connection := w'.connection,
               reading := false,
               server := if r.Uris? then r.uris else w.server,
               creating := if established then seq(|w.creating|, _ => true) else w.creating,
               stale := if established then {} else w.stale)
  }

  ghost predicate Step(config: seq<Namespace>, w: World, e: Event, w': World)
    requires WellSized(w)
  {
    var c := w.connection;
    match e
    case SessionConnects =>
      w' == w.(connection := c.(state := ConnConnected), up := true, reading := true)
    case SessionDisconnects(now) =>
      w' == w.(connection := SessionDown(c, now), up := false)
    case NamespacesAnswered(r) => NamespacesStep(config, w, r, w')
    case SubscriptionAnswered(k, a, now, request) => CreateStep(w, k, a, now, request, w')
    case ItemsAnswer(k, results) =>
      && k < |c.subs| && w.opening[k] > 0
      && w' == w.(connection := SetSub(c, k, ItemsAnswered(c.subs[k], results)),
                  opening := w.opening[k := w.opening[k] - 1])
  }

  /** Requests are answered once; those of a lost session fail, and before the next
      session starts. */
  ghost predicate Allowed(w: World, e: Event)
    requires WellSized(w)
  {
    match e
    case SessionConnects =>
      !w.up && !w.reading && forall k :: 0 <= k < |w.creating| ==> !w.creating[k] && w.opening[k] == 0
    case SessionDisconnects(_) => true
    case NamespacesAnswered(r) => w.reading && (w.up || r.ReadFailed?)
    case SubscriptionAnswered(k, a, _, _) =>
      k < |w.creating| && w.creating[k] && (FromSession(a) || (w.up && FromServer(a)))
    case ItemsAnswer(k, r) => k < |w.opening| && w.opening[k] > 0 && (w.up || r.None?)
  }

  ghost predicate IsRun(config: seq<Namespace>, ws: seq<World>, es: seq<Event>) {
    && |ws| == |es| + 1 && Start(ws[0])
    && (forall i :: 0 <= i < |ws| ==> WellSized(ws[i]))
    && (forall i {:trigger es[i]} :: 0 <= i < |es| ==> Allowed(ws[i], es[i]) && Step(config, ws[i], es[i], ws[i + 1]))
  }

  ghost predicate Start(w: World) {
    && WellSized(w) && !w.up && !w.reading && w.connection.state != ConnEstablished && w.stale == {} && w.sent == []
    && forall k :: 0 <= k < |w.creating| ==>
         && !w.creating[k] && w.opening[k] == 0
         && w.connection.subs[k].state == SubClose && w.connection.subs[k].subscriptionId == 0
         && ItemsClosed(w.connection.subs[k])
  }

  // ---------------------------------------------------------------------
  // The invariant
  // ---------------------------------------------------------------------

  ghost predicate ItemsClosed(s: Subscription) {
    forall h :: h in s.items ==> !s.items[h].open
  }

  ghost predicate SubInv(s: Subscription, established: bool, up: bool, creating: bool, opening: nat, stale: bool) {
    && (s.state == SubOpen && !established <==> stale)
    && (s.state != SubOpen || stale ==> ItemsClosed(s) && s.subscriptionId == 0)
    && (creating && up ==> established && s.state == SubOpening)
    && (opening > 0 && up ==> established && s.state == SubOpen)
    && (creating ==> s.state != SubOpen)
    && (!established && !stale ==> s.state == SubClose || s.state == SubError)
    && s.state != SubClosing
  }

  ghost predicate NamesInv(config: seq<Namespace>, w: World) {
    w.connection.state == ConnEstablished ==>
      && AllOnServer(w.server, config) && Translates(w.server, config, |config|, w.connection.namespaceMap)
      && w.up && !w.reading
  }

  ghost predicate SubsInv(w: World) {
    && WellSized(w)
    && forall k :: 0 <= k < |w.connection.subs| ==>
         SubInv(w.connection.subs[k], w.connection.state == ConnEstablished, w.up,
                w.creating[k], w.opening[k], k in w.stale)
  }

  ghost predicate Inv(config: seq<Namespace>, w: World) {
    SubsInv(w) && NamesInv(config, w)
  }

  lemma SessionStepKeepsInv(config: seq<Namespace>, w: World, e: Event, w': World)
    requires Inv(config, w) && Allowed(w, e) && Step(config, w, e, w')
    requires e.SessionConnects? || e.SessionDisconnects?
    ensures Inv(config, w')
  {
    match e {
      case SessionConnects =>
      case SessionDisconnects(_) =>
    }
  }

  lemma NamespacesStepKeepsInv(config: seq<Namespace>, w: World, r: ReadResult, w': World)
    requires Inv(config, w) && Allowed(w, NamespacesAnswered(r)) && Step(config, w, NamespacesAnswered(r), w')
    ensures Inv(config, w')
  {}

  lemma CreateStepKeepsInv(config: seq<Namespace>, w: World, e: Event, w': World)
    requires e.SubscriptionAnswered? && Inv(config, w) && Allowed(w, e) && Step(config, w, e, w')
    ensures Inv(config, w')
  {}

  lemma ItemsStepKeepsInv(config: seq<Namespace>, w: World, e: Event, w': World)
    requires e.ItemsAnswer? && Inv(config, w) && Allowed(w, e) && Step(config, w, e, w')
    ensures Inv(config, w')
  {}

  lemma StepKeepsInv(config: seq<Namespace>, w: World, e: Event, w': World)
    requires Inv(config, w) && Allowed(w, e) && Step(config, w, e, w')
    ensures Inv(config, w')
  {
    match e {
      case SessionConnects => SessionStepKeepsInv(config, w, e, w');
      case SessionDisconnects(_) => SessionStepKeepsInv(config, w, e, w');
      case NamespacesAnswered(r) => NamespacesStepKeepsInv(config, w, r, w');
      case SubscriptionAnswered(_, _, _, _) => CreateStepKeepsInv(config, w, e, w');
      case ItemsAnswer(_, _) => ItemsStepKeepsInv(config, w, e, w');
    }
  }

  lemma {:induction false} RunKeepsInv(config: seq<Namespace>, ws: seq<World>, es: seq<Event>, i: nat)
    requires IsRun(config, ws, es) && i < |ws|
    ensures Inv(config, ws[i])
  {
    if i > 0 {
      RunKeepsInv(config, ws, es, i - 1);
      StepKeepsInv(config, ws[i - 1], es[i - 1], ws[i]);
    }
  }

  // ---------------------------------------------------------------------
  // The hierarchy
  // ---------------------------------------------------------------------

  /** In every run an open item has an open subscription, an established connection and a
      session, also when the session fails requests. */
  lemma OpenItemsHaveEstablishedConnections(
    config: seq<Namespace>, ws: seq<World>, es: seq<Event>, i: nat, k: nat, h: nat)
    requires IsRun(config, ws, es) && i < |ws| && k < |ws[i].connection.subs|
    ensures var c := ws[i].connection;
            h in c.subs[k].items && c.subs[k].items[h].open ==>
              c.subs[k].state == SubOpen && c.state == ConnEstablished && ws[i].up
  {
    RunKeepsInv(config, ws, es, i);
  }

  /** Subscription open implies connection established. */
  ghost predicate Hierarchy(w: World) {
    forall k :: 0 <= k < |w.connection.subs| && w.connection.subs[k].state == SubOpen ==>
      w.connection.state == ConnEstablished
  }

  /** In every run an open subscription has an established connection if and only if it was
      not opened by a create that the session failed after the connection was lost. */
  lemma OpenSubscriptionHasConnectionIff(config: seq<Namespace>, ws: seq<World>, es: seq<Event>, i: nat, k: nat)
    requires IsRun(config, ws, es) && i < |ws| && k < |ws[i].connection.subs|
    ensures var c := ws[i].connection;
            (c.subs[k].state == SubOpen ==> c.state == ConnEstablished) <==> k !in ws[i].stale
  {
    RunKeepsInv(config, ws, es, i);
  }

  /** A step breaks the hierarchy if and only if it is a rejected or timed-out create while
      the connection is not established. */
  lemma StepKeepsHierarchyIff(config: seq<Namespace>, w: World, e: Event, w': World)
    requires Inv(config, w) && Hierarchy(w) && Allowed(w, e) && Step(config, w, e, w')
    ensures Hierarchy(w') <==> !OpensStale(w, e)
  {
    StepKeepsInv(config, w, e, w');
    forall k | 0 <= k < |w.connection.subs| ensures k !in w.stale {
      assert SubInv(w.connection.subs[k], w.connection.state == ConnEstablished, w.up,
                    w.creating[k], w.opening[k], k in w.stale);
    }
    StaleStep(config, w, e, w');
    forall k | 0 <= k < |w'.connection.subs|
      ensures w'.connection.subs[k].state == SubOpen && w'.connection.state != ConnEstablished <==> k in w'.stale
    {
      assert SubInv(w'.connection.subs[k], w'.connection.state == ConnEstablished, w'.up,
                    w'.creating[k], w'.opening[k], k in w'.stale);
    }
  }

  lemma StaleStep(config: seq<Namespace>, w: World, e: Event, w': World)
    requires WellSized(w) && Allowed(w, e) && Step(config, w, e, w')
    requires forall k :: 0 <= k < |w.connection.subs| ==> k !in w.stale
    ensures |w'.connection.subs| == |w.connection.subs|
    ensures (exists k :: 0 <= k < |w'.connection.subs| && k in w'.stale) <==> OpensStale(w, e)
  {
    if OpensStale(w, e) {
      assert e.sub in w'.stale;
    }
  }

  /** In every run in which no create is rejected or times out while the connection is not
      established, open subscriptions have an established connection. */
  lemma {:induction false} RunKeepsHierarchy(config: seq<Namespace>, ws: seq<World>, es: seq<Event>, i: nat)
    requires IsRun(config, ws, es) && i < |ws|
    requires forall j :: 0 <= j < i ==> !OpensStale(ws[j], es[j])
    ensures Hierarchy(ws[i])
  {
    if i > 0 {
      RunKeepsHierarchy(config, ws, es, i - 1);
      RunKeepsInv(config, ws, es, i - 1);
      StepKeepsHierarchyIff(config, ws[i - 1], es[i - 1], ws[i]);
    }
  }

  /** After a session disconnect every item is closed and every subscription id is 0, and a
      subscription is still open if and only if it was opened by a failed create. */
  lemma DisconnectClosesIff(config: seq<Namespace>, ws: seq<World>, es: seq<Event>, i: nat, k: nat)
    requires IsRun(config, ws, es) && i < |es| && es[i].SessionDisconnects?
    requires k < |ws[i].connection.subs|
    ensures k < |ws[i + 1].connection.subs|
    ensures var s := ws[i + 1].connection.subs[k];
            && ItemsClosed(s) && s.subscriptionId == 0
            && (s.state != SubOpen <==> k !in ws[i].stale)
            && (ws[i].connection.state == ConnEstablished ==> s.state == SubClose)
  {
    RunKeepsInv(config, ws, es, i);
    RunKeepsInv(config, ws, es, i + 1);
  }

  // ---------------------------------------------------------------------
  // A run that breaks the hierarchy
  // ---------------------------------------------------------------------

  lemma ExtendRun(config: seq<Namespace>, ws: seq<World>, es: seq<Event>, e: Event, w': World)
    requires IsRun(config, ws, es) && Allowed(ws[|es|], e) && Step(config, ws[|es|], e, w') && WellSized(w')
    ensures IsRun(config, ws + [w'], es + [e])
  {
    var ws', es' := ws + [w'], es + [e];
    forall i | 0 <= i < |es'| ensures Allowed(ws'[i], es'[i]) && Step(config, ws'[i], es'[i], ws'[i + 1]) {
      if i < |es| {
        assert es'[i] == es[i] && ws'[i] == ws[i] && ws'[i + 1] == ws[i + 1];
      }
    }
  }

  /** A connection with one configured namespace and one subscription without items. */
  function Small(state: ConnectionState, m: NamespaceMap, sub: SubscriptionState): Connection {
    Connection(state, m, [Subscription(sub, 0, map[])])
  }

  lemma EstablishAndLose(uri: string) returns (ws: seq<World>, es: seq<Event>, m: NamespaceMap)
    ensures IsRun([Namespace(1, uri)], ws, es)
    ensures ws[|es|] == World(Small(ConnDisconnected, m, SubClose), false, [uri], false, [true], [0], [], {})
  {
    var config := [Namespace(1, uri)];
    m := map[1 := 0];
    var w0 := World(Small(ConnDisconnected, map[], SubClose), false, [], false, [false], [0], [], {});
    var w1 := w0.(connection := Small(ConnConnected, map[], SubClose), up := true, reading := true);
    var w2 := World(Small(ConnEstablished, m, SubOpening), true, [uri], false, [true], [0], [], {});
    var w3 := World(Small(ConnDisconnected, m, SubClose), false, [uri], false, [true], [0], [], {});
    ExtendRun(config, [w0], [], SessionConnects, w1);
    assert Translates([uri], config, 1, m) by {
      assert ConfiguredUri(config, 0, 1) == None;
      assert forall c :: ConfiguredUri(config, 1, c) == if c == 1 then Some(uri) else None;
    }
    assert NamespacesStep(config, w1, Uris([uri]), w2) by {
      assert AllOnServer([uri], config);
      assert seq(|w1.creating|, _ => true) == [true];
    }
    ExtendRun(config, [w0] + [w1], [] + [SessionConnects], NamespacesAnswered(Uris([uri])), w2);
    assert CleanUp(map[], 0) == map[];
    assert SessionDown(w2.connection, 0) == w3.connection;
    ws, es := [w0] + [w1] + [w2], [] + [SessionConnects] + [NamespacesAnswered(Uris([uri]))];
    ExtendRun(config, ws, es, SessionDisconnects(0), w3);
    ws, es := ws + [w3], es + [SessionDisconnects(0)];
  }

  /** The create is outstanding when the session is lost; it times out, and the subscription
      is open without a connection. The next session that is lost before the namespaces are
      read leaves it open. */
  lemma TimedOutCreateOpensASubscription(uri: string) returns (ws: seq<World>, es: seq<Event>, n: nat)
    ensures IsRun([Namespace(1, uri)], ws, es) && n < |es| == n + 2
    ensures |ws[n].connection.subs| == |ws[n + 2].connection.subs| == 1
    ensures ws[n].connection.state == ConnDisconnected && ws[n].connection.subs[0].state == SubOpen
    ensures es[n].SessionConnects? && es[n + 1].SessionDisconnects? && ws[n + 2].connection.subs[0].state == SubOpen
  {
    var config := [Namespace(1, uri)];
    var m;
    ws, es, m := EstablishAndLose(uri);
    var a := CreateAnswer(BadSessionClosed, Success, 0);
    var w4 := World(Small(ConnDisconnected, m, SubOpen), false, [uri], false, [false], [0], [], {0});
    assert CreateStep(ws[|es|], 0, a, 0, None, w4) by {
      assert {} + {0} == {0};
      assert SendsItems(w4.connection.subs[0], m, 0, None);
    }
    ExtendRun(config, ws, es, SubscriptionAnswered(0, a, 0, None), w4);
    ws, es := ws + [w4], es + [SubscriptionAnswered(0, a, 0, None)];
    n := |es|;
    var w5 := w4.(connection := Small(ConnConnected, m, SubOpen), up := true, reading := true);
    ExtendRun(config, ws, es, SessionConnects, w5);
    var w6 := w5.(connection := Small(ConnDisconnected, m, SubOpen), up := false);
    ExtendRun(config, ws + [w5], es + [SessionConnects], SessionDisconnects(0), w6);
    ws, es := ws + [w5] + [w6], es + [SessionConnects] + [SessionDisconnects(0)];
  }

  // ---------------------------------------------------------------------
  // Requests for items
  // ---------------------------------------------------------------------

  /** In every run, each item of a request sent by an established connection goes out under
      a node id that names, on the connected server, the URI its client index names in the
      configuration, and the request covers every due item of the subscription. */
  lemma ItemRequestsNameTheConfiguredUri(config: seq<Namespace>, ws: seq<World>, es: seq<Event>, i: nat, j: nat)
    requires IsRun(config, ws, es) && i < |es| && ws[i].connection.state == ConnEstablished
    requires ws[i + 1].sent != ws[i].sent
    ensures es[i].SubscriptionAnswered? && es[i].request.Some? && es[i].sub < |ws[i + 1].connection.subs|
    ensures var s, request := ws[i + 1].connection.subs[es[i].sub], es[i].request.value;
            && ws[i + 1].sent == ws[i].sent + [Sent(es[i].sub, s.subscriptionId, request)]
            && CoversDueItems(s, ws[i].connection.namespaceMap, es[i].now, request)
            && (j < |request| ==>
                  var item := s.items[request[j].clientHandle];
                  && AllOnServer(ws[i].server, config)
                  && NamesConfiguredUri(config, ws[i].server, item.nodeId, request[j].nodeId))
  {
    RunKeepsInv(config, ws, es, i);
    var w, e, w' := ws[i], es[i], ws[i + 1];
    assert Step(config, w, e, w');
    OnlyCreatesSend(config, w, e, w');
    var s := w'.connection.subs[e.sub];
    if j < |e.request.value| {
      TranslationKeepsTheUri(
        w.server, config, w.connection.namespaceMap, s.items[e.request.value[j].clientHandle].nodeId,
        e.request.value[j].nodeId);
    }
  }

  lemma OnlyCreatesSend(config: seq<Namespace>, w: World, e: Event, w': World)
    requires WellSized(w) && Step(config, w, e, w') && w'.sent != w.sent
    ensures e.SubscriptionAnswered? && e.request.Some? && e.sub < |w'.connection.subs|
    ensures var s := w'.connection.subs[e.sub];
            && w'.sent == w.sent + [Sent(e.sub, s.subscriptionId, e.request.value)]
            && CoversDueItems(s, w.connection.namespaceMap, e.now, e.request.value)
  {}

  ghost predicate NamesConfiguredUri(config: seq<Namespace>, server: seq<string>, n: NodeId, n': NodeId) {
    var uri := ConfiguredUri(config, |config|, n.namespaceIndex);
    n'.identifier == n.identifier && uri.Some? && IsServerIndex(server, uri.value, n'.namespaceIndex)
  }
}
