/** The connection, its subscriptions and their monitored items, and the translation of
    configured namespace indices to those of the connected server. */
module ClientConnection {
  import opened OpcUaTypes

  datatype ConnectionState = ConnDisconnected | ConnConnecting | ConnConnected | ConnEstablished | ConnError

  datatype SubscriptionState = SubClose | SubOpening | SubOpen | SubClosing | SubError

  datatype Item = Item(nodeId: NodeId, open: bool, reconnectTime: nat, monitoredItemId: nat)

  /** Monitored items are kept by client handle. */
  datatype Subscription = Subscription(state: SubscriptionState, subscriptionId: nat, items: map<nat, Item>)

  datatype Namespace = Namespace(index: nat, uri: string)

  type NamespaceMap = map<nat, nat>

  datatype ItemRequest = ItemRequest(clientHandle: nat, nodeId: NodeId)

  datatype ItemResult = ItemResult(clientHandle: nat, monitoredItemId: Option<nat>)

  // ---------------------------------------------------------------------
  // Namespace translation
  // ---------------------------------------------------------------------

  /** `i` is the first position of `uri` in the server's namespace array. */
  ghost predicate IsServerIndex(server: seq<string>, uri: string, i: nat) {
    i < |server| && server[i] == uri && forall k :: 0 <= k < i ==> server[k] != uri
  }

  /** The URI the first `n` configured namespaces give a client index: the first entry wins. */
  function ConfiguredUri(config: seq<Namespace>, n: nat, index: nat): Option<string>
    requires n <= |config|
  {
    if n == 0 then None
    else
      var earlier := ConfiguredUri(config, n - 1, index);
      if earlier.Some? then earlier
      else if config[n - 1].index == index then Some(config[n - 1].uri)
      else None
  }

  /** The map built from the first `n` configured namespaces means what the configuration
      means, on this server. */
  ghost predicate Translates(server: seq<string>, config: seq<Namespace>, n: nat, m: NamespaceMap)
    requires n <= |config|
  {
    forall c ::
      match ConfiguredUri(config, n, c)
      case None => c !in m
      case Some(uri) => c in m && IsServerIndex(server, uri, m[c])
  }

  ghost predicate AllOnServer(server: seq<string>, config: seq<Namespace>) {
    forall k :: 0 <= k < |config| ==> config[k].uri in server
  }

  /** Positions of the server's namespace URIs, the first occurrence of each. */
  method IndexServer(server: seq<string>) returns (m: map<string, nat>)
    ensures forall uri :: uri in m <==> uri in server
    ensures forall uri :: uri in m ==> IsServerIndex(server, uri, m[uri])
  {
    m := map[];
    for idx := 0 to |server|
      invariant forall uri :: uri in m <==> uri in server[..idx]
      invariant forall uri :: uri in m ==> IsServerIndex(server, uri, m[uri])
    {
      assert server[..idx + 1] == server[..idx] + [server[idx]];
      if server[idx] !in m {
        assert forall k :: 0 <= k < idx ==> server[k] in server[..idx];
        m := m[server[idx] := idx];
      }
    }
    assert server[..|server|] == server;
  }

  /** The namespace map of the connection; it is complete exactly when the server knows
      every configured URI. */
  method BuildNamespaceMap(server: seq<string>, config: seq<Namespace>) returns (ok: bool, m: NamespaceMap)
    ensures ok <==> AllOnServer(server, config)
    ensures ok ==> Translates(server, config, |config|, m)
  {
    var index := IndexServer(server);
    m := map[];
    for idx := 0 to |config|
      invariant Translates(server, config, idx, m)
      invariant forall k :: 0 <= k < idx ==> config[k].uri in server
    {
      var ns := config[idx];
      if ns.uri !in index {
        return false, m;
      }
      if ns.index !in m {
        m := m[ns.index := index[ns.uri]];
      }
    }
    ok := true;
  }

  // ---------------------------------------------------------------------
  // Subscriptions
  // ---------------------------------------------------------------------

  function CleanUp(items: map<nat, Item>, now: nat): map<nat, Item> {
    map h | h in items :: items[h].(reconnectTime := now, open := false)
  }

  function Failed(s: Subscription, now: nat): Subscription {
    Subscription(SubClose, 0, CleanUp(s.items, now))
  }

  function Opening(s: Subscription): Subscription {
    s.(state := SubOpening)
  }

  /** A CreateSubscription transaction as it comes back: the status the session gave it, the
      service result of its response header, and the subscription id of its response. */
  datatype CreateAnswer = CreateAnswer(statusCode: StatusCode, serviceResult: StatusCode, subscriptionId: nat)

  /** The session copies the service result of a response that has arrived. */
  predicate FromServer(a: CreateAnswer) {
    a.statusCode == a.serviceResult
  }

  /** A transaction the session rejects or lets time out has a bad status, but a header that
      no server wrote: it is created on first use and says success. */
  predicate FromSession(a: CreateAnswer) {
    a.statusCode != Success && a.serviceResult == Success && a.subscriptionId == 0
  }

  /** The handler looks at the header only. */
  function Created(s: Subscription, a: CreateAnswer): Subscription {
    if a.serviceResult != Success then s.(state := SubError)
    else s.(state := SubOpen, subscriptionId := a.subscriptionId)
  }

  /** The first `n` results of a CreateMonitoredItems response, applied in order. */
  function Opened(items: map<nat, Item>, results: seq<ItemResult>, n: nat): map<nat, Item>
    requires n <= |results|
  {
    if n == 0 then items
    else
      var before, r := Opened(items, results, n - 1), results[n - 1];
      if r.clientHandle !in before || r.monitoredItemId.None? then before
      else before[r.clientHandle := before[r.clientHandle].(monitoredItemId := r.monitoredItemId.value, open := true)]
  }

  function ItemsAnswered(s: Subscription, results: Option<seq<ItemResult>>): Subscription {
    if results.None? then s else s.(items := Opened(s.items, results.value, |results.value|))
  }

  predicate IsDue(item: Item, now: nat) {
    !item.open && item.reconnectTime <= now
  }

  ghost predicate AllMapped(s: Subscription, m: NamespaceMap, now: nat) {
    forall h :: h in s.items && IsDue(s.items[h], now) ==> s.items[h].nodeId.namespaceIndex in m
  }

  /** The request names every due item once, under its translated node id. */
  ghost predicate CoversDueItems(s: Subscription, m: NamespaceMap, now: nat, request: seq<ItemRequest>) {
    && (forall i, j :: 0 <= i < j < |request| ==> request[i].clientHandle != request[j].clientHandle)
    && (forall i :: 0 <= i < |request| ==>
          && request[i].clientHandle in s.items && IsDue(s.items[request[i].clientHandle], now)
          && IsTranslated(m, s.items[request[i].clientHandle].nodeId, request[i].nodeId))
    && (forall h :: h in s.items && IsDue(s.items[h], now) ==>
          exists i :: 0 <= i < |request| && request[i].clientHandle == h)
  }

  ghost predicate IsTranslated(m: NamespaceMap, n: NodeId, n': NodeId) {
    n.namespaceIndex in m && n' == n.(namespaceIndex := m[n.namespaceIndex])
  }

  /** A request for monitored items is sent exactly when the subscription is open, an item is
      due and every due item has a mapped namespace; it then covers the due items. */
  ghost predicate SendsItems(s: Subscription, m: NamespaceMap, now: nat, request: Option<seq<ItemRequest>>) {
    && (request.Some? <==>
          s.state == SubOpen && (exists h :: h in s.items && IsDue(s.items[h], now)) && AllMapped(s, m, now))
    && (request.Some? ==> CoversDueItems(s, m, now, request.value))
  }

  class ClientSubscription {
    var state: SubscriptionState
    var subscriptionId: nat
    var items: map<nat, Item>

    function View(): Subscription
      reads this
    {
      Subscription(state, subscriptionId, items)
    }

    constructor (items: map<nat, Item>)
      ensures View() == Subscription(SubClose, 0, items)
    {
      state, subscriptionId, this.items := SubClose, 0, items;
    }

    method Open()
      modifies this`state
      ensures View() == Opening(old(View()))
    {
      state := SubOpening;
    }

    method Error(now: nat)
      modifies this
      ensures View() == Failed(old(View()), now)
    {
      state := SubClose;
      subscriptionId := 0;
      CleanUpMonitoredItems(now);
    }

    method CleanUpMonitoredItems(now: nat)
      modifies this`items
      ensures items == CleanUp(old(items), now)
    {
      var rest := items.Keys;
      while rest != {}
        invariant rest <= old(items).Keys && items.Keys == old(items).Keys
        invariant forall h :: h in items ==>
                    items[h] == if h in rest then old(items)[h] else old(items)[h].(reconnectTime := now, open := false)
        decreases rest
      {
        var h :| h in rest;
        items := items[h := items[h].(reconnectTime := now).(open := false)];
        rest := rest - {h};
      }
    }

    /** The request is the one for monitored items, if the handler sends it. */
    method OnCreateSubscriptionResponse(a: CreateAnswer, m: NamespaceMap, now: nat)
      returns (request: Option<seq<ItemRequest>>)
      modifies this`state, this`subscriptionId
      ensures View() == Created(old(View()), a)
      ensures SendsItems(View(), m, now, request)
    {
      if a.serviceResult != Success {
        state := SubError;
        return None;
      }
      subscriptionId := a.subscriptionId;
      state := SubOpen;
      request := OpenMonitoredItems(m, now);
    }

    /** The request to send, if any: all due items, or nothing when one of them has a
        namespace index that is not in the map. */
    method OpenMonitoredItems(m: NamespaceMap, now: nat) returns (request: Option<seq<ItemRequest>>)
      ensures SendsItems(View(), m, now, request)
    {
      if state != SubOpen {
        return None;
      }
      var due := DueItems(now);
      if |due| == 0 {
        return None;
      }
      var req: seq<ItemRequest> := [];
      for i := 0 to |due|
        invariant |req| == i
        invariant forall j :: 0 <= j < i ==>
                    req[j].clientHandle == due[j] && IsTranslated(m, items[due[j]].nodeId, req[j].nodeId)
      {
        var nodeId := items[due[i]].nodeId;
        if nodeId.namespaceIndex !in m {
          return None;
        }
        req := req + [ItemRequest(due[i], nodeId.(namespaceIndex := m[nodeId.namespaceIndex]))];
      }
      assert items[due[0]] == items[due[0]];
      forall h | h in items && IsDue(items[h], now) ensures exists i :: 0 <= i < |req| && req[i].clientHandle == h {
        var i :| 0 <= i < |due| && due[i] == h;
        assert req[i].clientHandle == h;
      }
      request := Some(req);
    }

    method DueItems(now: nat) returns (due: seq<nat>)
      ensures Distinct(due)
      ensures forall h :: h in due <==> h in items && IsDue(items[h], now)
    {
      due := [];
      var rest := items.Keys;
      while rest != {}
        invariant rest <= items.Keys && Distinct(due)
        invariant forall h :: h in due <==> h in items && h !in rest && IsDue(items[h], now)
        decreases rest
      {
        var h :| h in rest;
        if !items[h].open && items[h].reconnectTime <= now {
          due := due + [h];
        }
        rest := rest - {h};
      }
    }

    /** The results pair the handles of the request with the ids of the response; they are
        missing when the transaction failed or the sizes differ. */
    method OnCreateMonitoredItemsResponse(results: Option<seq<ItemResult>>)
      modifies this`items
      ensures View() == ItemsAnswered(old(View()), results)
    {
      if results.None? {
        return;
      }
      var rs := results.value;
      for idx := 0 to |rs|
        invariant items == Opened(old(items), rs, idx)
      {
        var h := rs[idx].clientHandle;
        if h in items && rs[idx].monitoredItemId.Some? {
          items := items[h := items[h].(monitoredItemId := rs[idx].monitoredItemId.value).(open := true)];
        }
      }
    }
  }

  // ---------------------------------------------------------------------
  // The connection
  // ---------------------------------------------------------------------

  datatype ReadResult = ReadFailed | BadContent | Uris(uris: seq<string>)

  datatype Connection = Connection(state: ConnectionState, namespaceMap: NamespaceMap, subs: seq<Subscription>)

  function SessionDown(c: Connection, now: nat): Connection {
    if c.state != ConnEstablished then c.(state := ConnDisconnected)
    else c.(state := ConnDisconnected, subs := seq(|c.subs|, i requires 0 <= i < |c.subs| => Failed(c.subs[i], now)))
  }

  /** The answer to the namespace array read. `c'` is established only with a complete
      translation, and then every subscription is being opened. */
  ghost predicate NamespacesRead(config: seq<Namespace>, c: Connection, r: ReadResult, c': Connection) {
    match r
    case ReadFailed => c' == c.(state := ConnDisconnected)
    case BadContent => c' == c.(state := ConnError)
    case Uris(uris) =>
      if config == [] then c' == c
      else if AllOnServer(uris, config) then
        && Translates(uris, config, |config|, c'.namespaceMap)
        && c' == Connection(ConnEstablished, c'.namespaceMap,
                            seq(|c.subs|, i requires 0 <= i < |c.subs| => Opening(c.subs[i])))
      else c' == c.(state := ConnError, namespaceMap := c'.namespaceMap)
  }

  class ConnectionObject {
    const config: seq<Namespace>
    const subs: seq<ClientSubscription>
    var state: ConnectionState
    var namespaceMap: NamespaceMap

    ghost predicate Valid() {
      Distinct(subs)
    }

    ghost function View(): Connection
      reads this, subs
    {
      Connection(state, namespaceMap, seq(|subs|, i requires 0 <= i < |subs| reads this, subs => subs[i].View()))
    }

    constructor (config: seq<Namespace>, subs: seq<ClientSubscription>)
      ensures this.config == config && this.subs == subs && state == ConnDisconnected && namespaceMap == map[]
    {
      this.config, this.subs, state, namespaceMap := config, subs, ConnDisconnected, map[];
    }

    /** SS_Connect: the namespace array is requested. */
    method ReadNamespaceArray()
      modifies this`state
      ensures View() == old(View()).(state := ConnConnected)
    {
      state := ConnConnected;
    }

    /** SS_Disconnect. */
    method HandleDisconnect(now: nat)
      requires Valid()
      modifies this`state, subs
      ensures View() == SessionDown(old(View()), now)
    {
      if state != ConnEstablished {
        state := ConnDisconnected;
        return;
      }
      state := ConnDisconnected;
      for i := 0 to |subs|
        modifies subs
        invariant forall k :: 0 <= k < |subs| ==>
                    subs[k].View() == if k < i then Failed(old(subs[k].View()), now) else old(subs[k].View())
      {
        subs[i].Error(now);
      }
    }

    method HandleNamespaceArray(r: ReadResult)
      requires Valid()
      modifies this`state, this`namespaceMap, subs
      ensures NamespacesRead(config, old(View()), r, View())
    {
      match r {
        case ReadFailed => state := ConnDisconnected;
        case BadContent => state := ConnError;
        case Uris(uris) =>
          if |config| == 0 {
            return;
          }
          var ok, m := BuildNamespaceMap(uris, config);
          namespaceMap := m;
          if !ok {
            state := ConnError;
            return;
          }
          HandleConnect();
      }
    }

    method HandleConnect()
      requires Valid()
      modifies this`state, subs
      ensures View() == Connection(ConnEstablished, namespaceMap,
                                   seq(|subs|, i requires 0 <= i < |subs| => Opening(old(View()).subs[i])))
    {
      state := ConnEstablished;
      for i := 0 to |subs|
        modifies subs
        invariant forall k :: 0 <= k < |subs| ==>
                    subs[k].View() == if k < i then Opening(old(subs[k].View())) else old(subs[k].View())
      {
        subs[i].Open();
      }
    }
  }

  // ---------------------------------------------------------------------
  // What the translation means
  // ---------------------------------------------------------------------

  /** On a server for which the map was built, a translated node id names the same
      namespace URI that the client's index names in the configuration. */
  lemma TranslationKeepsTheUri(server: seq<string>, config: seq<Namespace>, m: NamespaceMap, n: NodeId, n': NodeId)
    requires Translates(server, config, |config|, m) && IsTranslated(m, n, n')
    ensures n'.identifier == n.identifier
    ensures ConfiguredUri(config, |config|, n.namespaceIndex).Some?
    ensures IsServerIndex(server, ConfiguredUri(config, |config|, n.namespaceIndex).value, n'.namespaceIndex)
  {
    assert match ConfiguredUri(config, |config|, n.namespaceIndex)
           case None => n.namespaceIndex !in m
           case Some(uri) => IsServerIndex(server, uri, m[n.namespaceIndex]);
  }

  /** `ConfiguredUri` is the URI of the first entry for that index. */
  lemma {:induction false} FirstEntryWins(config: seq<Namespace>, n: nat, k: nat)
    requires k < n <= |config|
    requires forall j :: 0 <= j < k ==> config[j].index != config[k].index
    ensures ConfiguredUri(config, n, config[k].index) == Some(config[k].uri)
  {
    if k < n - 1 {
      FirstEntryWins(config, n - 1, k);
    } else {
      NoEntry(config, k, config[k].index);
    }
  }

  lemma {:induction false} NoEntry(config: seq<Namespace>, n: nat, index: nat)
    requires n <= |config| && forall j :: 0 <= j < n ==> config[j].index != index
    ensures ConfiguredUri(config, n, index) == None
  {
    if n > 0 {
      NoEntry(config, n - 1, index);
    }
  }
}
