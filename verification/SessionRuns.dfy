/** Runs of the client session under the contracts of its environment. */
module SessionRuns {
  import opened OpcUaTypes
  import opened SessionService

  datatype Event =
    | UserConnect(waiter: Option<Waiter>, urlGood: bool)
    | UserDisconnect(waiter: Option<Waiter>, deleteSubscriptions: bool)
    | UserCancel(requestHandle: nat)
    | TimerFires(urlGood: bool)
    | ChannelUp
    | ChannelDown
    | CreateAnswer(token: Token)
    | ActivateAnswer
    | ServiceAnswer(requestId: nat, statusCode: StatusCode)
    | RequestExpires(requestId: nat)
    | Submit(transaction: Transaction)

  function Handle(s: Session, e: Event): Session {
    match e
    case UserConnect(w, good) => Connect(s, w, good)
    case UserDisconnect(w, del) => Disconnect(s, w, del)
    case UserCancel(h) => Cancel(s, h)
    case TimerFires(good) => ReconnectTimeout(s, good)
    case ChannelUp => HandleConnect(s)
    case ChannelDown => HandleDisconnect(s)
    case CreateAnswer(t) => CreateSessionResponse(s, t)
    case ActivateAnswer => ActivateSessionResponse(s)
    case ServiceAnswer(id, st) => ServiceResponse(s, id, st)
    case RequestExpires(id) => Timeout(s, id)
    case Submit(t) => Receive(s, t)
  }

  // ---------------------------------------------------------------------
  // The environment
  // ---------------------------------------------------------------------

  /** The secure channel: `connect` opens it, `disconnect` starts closing it. */
  datatype Channel = Closed | Opening | Open | Closing(wasOpen: bool)

  /** How far the handshake of the current channel has come. */
  datatype Handshake = NoHandshake | CreateSent | ActivateSent | Activated

  /** A session with its environment: the channel, the handshake of the channel's lifetime
      with the token the server issued in it, the synchronous calls made, the transactions
      handed in, and how often the request id was advanced. */
  datatype World = World(
    session: Session,
    channel: Channel,
    handshake: Handshake,
    issuedToken: Option<Token>,
    calls: seq<Waiter>,
    submitted: seq<Transaction>,
    sends: nat)

  function NewWorld(mode: Mode, reconnects: bool): World {
    World(Start(mode, reconnects), Closed, NoHandshake, None, [], [], 0)
  }

  function NextChannel(w: World, e: Event): Channel {
    match e
    case UserConnect(_, good) =>
      if good && (w.session.state == Disconnected || w.session.state == DisconnectedWait) then Opening else w.channel
    case TimerFires(good) => if good then Opening else w.channel
    case UserDisconnect(_, _) =>
      if w.session.state == Connecting || w.session.state == Connected then Closing(w.channel == Open) else w.channel
    case ChannelUp => Open
    case ChannelDown => Closed
    case _ => w.channel
  }

  function NextHandshake(w: World, e: Event): Handshake {
    match e
    case ChannelUp => if w.session.mode == SecureChannelAndSession then CreateSent else NoHandshake
    case ChannelDown => NoHandshake
    case CreateAnswer(_) => ActivateSent
    case ActivateAnswer => Activated
    case _ => w.handshake
  }

  /** The events that take a new request id. */
  predicate Advances(s: Session, e: Event) {
    match e
    case UserDisconnect(_, _) => s.state == Connected && s.mode == SecureChannelAndSession
    case UserCancel(_) => s.state == Connected
    case ChannelUp => s.mode == SecureChannelAndSession
    case CreateAnswer(_) => true
    case Submit(_) => true
    case _ => false
  }

  function Next(w: World, e: Event): World {
    var s := Handle(w.session, e);
    World(
      s,
      NextChannel(w, e),
      NextHandshake(w, e),
      if e.CreateAnswer? then Some(e.token) else if e.ChannelUp? || e.ChannelDown? then None else w.issuedToken,
      if (e.UserConnect? || e.UserDisconnect?) && e.waiter.Some? then w.calls + [e.waiter.value] else w.calls,
      if e.Submit? then w.submitted + [e.transaction] else w.submitted,
      w.sends + if Advances(w.session, e) then 1 else 0)
  }

  /** The channel and queue contracts: events come only when their source may raise them,
      every synchronous call uses a new waiter and every submitted transaction is new. */
  ghost predicate Allowed(w: World, e: Event) {
    match e
    case UserConnect(c, _) => c.Some? ==> c.value !in w.calls && c.value.operation == OpConnect
    case UserDisconnect(c, _) => c.Some? ==> c.value !in w.calls && c.value.operation == OpDisconnect
    case UserCancel(_) => w.session.state == Connected ==> w.session.mode == SecureChannelAndSession
    case TimerFires(_) => w.session.timerArmed
    case ChannelUp => w.channel == Opening
    case ChannelDown => w.channel != Closed
    case CreateAnswer(_) => w.channel == Open || w.channel == Closing(true)
    case ActivateAnswer => w.channel == Open || w.channel == Closing(true)
    case ServiceAnswer(_, _) => w.channel == Open || w.channel == Closing(true)
    case RequestExpires(id) => id in w.session.pending
    case Submit(t) => t !in w.submitted
  }

  /** The server answers each handshake request once. */
  ghost predicate AnswersOnce(w: World, e: Event) {
    && (e.CreateAnswer? ==> w.handshake == CreateSent)
    && (e.ActivateAnswer? ==> w.handshake == ActivateSent)
  }

  ghost predicate IsRun(ws: seq<World>, es: seq<Event>) {
    && |ws| == |es| + 1
    && ws[0] == NewWorld(ws[0].session.mode, ws[0].session.reconnects)
    && (forall i {:trigger es[i]} :: 0 <= i < |es| ==> Allowed(ws[i], es[i]) && ws[i + 1] == Next(ws[i], es[i]))
  }

  ghost predicate HandshakeHonoured(ws: seq<World>, es: seq<Event>)
    requires IsRun(ws, es)
  {
    forall i {:trigger es[i]} :: 0 <= i < |es| ==> AnswersOnce(ws[i], es[i])
  }

  // ---------------------------------------------------------------------
  // State invariant
  // ---------------------------------------------------------------------

  /** Channel state and channel agree; the timer runs exactly in the waiting state, which
      a session-less client never enters; a connected session has an open channel. */
  ghost predicate StateInv(w: World) {
    var s := w.session;
    && (w.channel == Closed <==> s.state == Disconnected || s.state == DisconnectedWait)
    && (w.channel == Opening <==> s.state == Connecting)
    && (w.channel == Open <==> s.state == Connected)
    && (w.channel.Closing? <==> s.state == Disconnecting)
    && (s.timerArmed <==> s.state == DisconnectedWait)
    && (s.mode == SecureChannelOnly ==> s.state != DisconnectedWait)
    && (s.sessionConnect ==> s.state == Connected || s.state == Disconnecting)
    && (s.sessionConnect ==> w.channel == Open || w.channel == Closing(true))
  }

  lemma UserStepKeepsStateInv(w: World, e: Event)
    requires StateInv(w) && Allowed(w, e)
    requires e.UserConnect? || e.UserDisconnect? || e.TimerFires?
    ensures StateInv(Next(w, e))
  {
    match e {
      case UserConnect(_, _) =>
      case UserDisconnect(_, _) =>
      case TimerFires(_) =>
    }
  }

  lemma StepKeepsStateInv(w: World, e: Event)
    requires StateInv(w) && Allowed(w, e)
    ensures StateInv(Next(w, e))
  {
    match e {
      case UserConnect(_, _) => UserStepKeepsStateInv(w, e);
      case UserDisconnect(_, _) => UserStepKeepsStateInv(w, e);
      case TimerFires(_) => UserStepKeepsStateInv(w, e);
      case UserCancel(_) =>
      case ChannelUp =>
      case ChannelDown =>
      case CreateAnswer(_) =>
      case ActivateAnswer =>
      case ServiceAnswer(_, _) =>
      case RequestExpires(_) =>
      case Submit(_) =>
    }
  }

  lemma {:induction false} RunKeepsStateInv(ws: seq<World>, es: seq<Event>, i: nat)
    requires IsRun(ws, es) && i < |ws|
    ensures StateInv(ws[i])
  {
    if i > 0 {
      RunKeepsStateInv(ws, es, i - 1);
      StepKeepsStateInv(ws[i - 1], es[i - 1]);
    }
  }

  /** Whenever the client is destroyed, no timer stays armed behind it. */
  lemma DestructionLeavesNoTimer(ws: seq<World>, es: seq<Event>, i: nat)
    requires IsRun(ws, es) && i < |ws|
    ensures !Destroyed(ws[i].session).timerArmed
  {
    RunKeepsStateInv(ws, es, i);
  }

  // ---------------------------------------------------------------------
  // Exactly-once answering
  // ---------------------------------------------------------------------

  ghost function AnsweredSet(answers: seq<Answer>): set<Transaction> {
    if answers == [] then {}
    else AnsweredSet(answers[..|answers| - 1]) + {answers[|answers| - 1].transaction}
  }

  /** Every answer is the first for its transaction and goes to that transaction's service. */
  ghost predicate AnsweredOnce(answers: seq<Answer>) {
    answers != [] ==>
      var told, a := answers[..|answers| - 1], answers[|answers| - 1];
      AnsweredOnce(told) && a.transaction !in AnsweredSet(told) && a.service == a.transaction.service
  }

  ghost predicate Injective(m: map<nat, Transaction>) {
    forall i, j :: i in m && j in m && m[i] == m[j] ==> i == j
  }

  /** Submitted transactions are answered once or pending under one id, never both. */
  ghost predicate Balanced(submitted: seq<Transaction>, answers: seq<Answer>, pending: map<nat, Transaction>) {
    && AnsweredOnce(answers) && Injective(pending)
    && Elements(submitted) == AnsweredSet(answers) + pending.Values
    && AnsweredSet(answers) !! pending.Values
    && |submitted| == |answers| + |pending|
  }

  ghost predicate ExactlyOnce(w: World) {
    Balanced(w.submitted, w.session.answers, w.session.pending)
  }

  /** As long as the request id has not wrapped around, it counts the sends and exceeds
      every id in use. */
  ghost predicate FreshIds(w: World) {
    && w.session.requestId == w.sends
    && forall id :: id in w.session.pending ==> id <= w.sends
  }

  lemma AppendAnswer(answers: seq<Answer>, a: Answer)
    requires AnsweredOnce(answers) && a.transaction !in AnsweredSet(answers) && a.service == a.transaction.service
    ensures AnsweredOnce(answers + [a]) && AnsweredSet(answers + [a]) == AnsweredSet(answers) + {a.transaction}
  {
    assert (answers + [a])[..|answers|] == answers;
  }

  lemma RemoveEntry(m: map<nat, Transaction>, id: nat)
    requires id in m && Injective(m)
    ensures Injective(m - {id}) && (m - {id}).Values == m.Values - {m[id]} && |m - {id}| == |m| - 1
  {
    var m' := m - {id};
    forall x | x in m.Values && x != m[id] ensures x in m'.Values {
      var k :| k in m && m[k] == x;
      assert k in m' && m'[k] == x;
    }
    assert m'.Keys == m.Keys - {id};
  }

  lemma AddEntry(m: map<nat, Transaction>, id: nat, t: Transaction)
    requires id !in m && Injective(m) && t !in m.Values
    ensures Injective(m[id := t]) && m[id := t].Values == m.Values + {t} && |m[id := t]| == |m| + 1
  {
    var m' := m[id := t];
    assert m'[id] == t;
    forall x | x in m.Values ensures x in m'.Values {
      var k :| k in m && m[k] == x;
      assert k in m' && m'[k] == x;
    }
    assert m'.Keys == m.Keys + {id};
  }

  lemma AnswerPending(
    submitted: seq<Transaction>, answers: seq<Answer>, pending: map<nat, Transaction>, id: nat, code: StatusCode)
    requires Balanced(submitted, answers, pending) && id in pending
    ensures Balanced(submitted, answers + [Answer(pending[id].service, pending[id], code)], pending - {id})
  {
    AppendAnswer(answers, Answer(pending[id].service, pending[id], code));
    RemoveEntry(pending, id);
  }

  lemma AppendElement(submitted: seq<Transaction>, t: Transaction)
    ensures Elements(submitted + [t]) == Elements(submitted) + {t}
  {}

  lemma RejectNew(
    submitted: seq<Transaction>, answers: seq<Answer>, pending: map<nat, Transaction>, t: Transaction, code: StatusCode)
    requires Balanced(submitted, answers, pending) && t !in submitted
    ensures Balanced(submitted + [t], answers + [Answer(t.service, t, code)], pending)
  {
    AppendElement(submitted, t);
    GrowFirst(Elements(submitted), AnsweredSet(answers), pending.Values, t);
    AppendAnswer(answers, Answer(t.service, t, code));
  }

  lemma GrowFirst(all: set<Transaction>, a: set<Transaction>, b: set<Transaction>, t: Transaction)
    requires all == a + b && a !! b && t !in all
    ensures t !in a && all + {t} == (a + {t}) + b && a + {t} !! b
  {}

  lemma EnqueueNew(
    submitted: seq<Transaction>, answers: seq<Answer>, pending: map<nat, Transaction>, t: Transaction, id: nat)
    requires Balanced(submitted, answers, pending) && t !in submitted && id !in pending
    ensures Balanced(submitted + [t], answers, pending[id := t])
  {
    AppendElement(submitted, t);
    GrowSecond(Elements(submitted), AnsweredSet(answers), pending.Values, t);
    AddEntry(pending, id, t);
  }

  lemma GrowSecond(all: set<Transaction>, a: set<Transaction>, b: set<Transaction>, t: Transaction)
    requires all == a + b && a !! b && t !in all
    ensures t !in b && all + {t} == a + (b + {t}) && a !! b + {t}
  {}

  /** A submission that reaches the pending table is kept exactly when its id is free:
      the refused insert drops the transaction without an answer. */
  lemma SubmissionIsKeptIff(w: World, t: Transaction)
    requires ExactlyOnce(w) && Allowed(w, Submit(t))
    requires w.session.state == Connected && (w.session.sessionConnect || IsDiscovery(t.requestType))
    ensures ExactlyOnce(Next(w, Submit(t))) <==> NextId(w.session.requestId) !in w.session.pending
  {
    var id := NextId(w.session.requestId);
    if id !in w.session.pending {
      EnqueueNew(w.submitted, w.session.answers, w.session.pending, t, id);
    }
  }

  /** An accepted submission whose request id is in use. */
  ghost predicate DropsSubmission(w: World, e: Event) {
    && e.Submit?
    && w.session.state == Connected && (w.session.sessionConnect || IsDiscovery(e.transaction.requestType))
    && NextId(w.session.requestId) in w.session.pending
  }

  lemma SubmitKeepsExactlyOnce(w: World, t: Transaction)
    requires ExactlyOnce(w) && t !in w.submitted && !DropsSubmission(w, Submit(t))
    ensures ExactlyOnce(Next(w, Submit(t)))
  {
    var s := w.session;
    if !s.sessionConnect && !IsDiscovery(t.requestType) {
      RejectNew(w.submitted, s.answers, s.pending, t, BadSessionClosed);
    } else if s.state != Connected {
      RejectNew(w.submitted, s.answers, s.pending, t, BadSecureChannelClosed);
    } else {
      SubmissionIsKeptIff(w, t);
    }
  }

  lemma RequestIdCountsSends(s: Session, e: Event)
    ensures Handle(s, e).requestId == if Advances(s, e) then NextId(s.requestId) else s.requestId
  {
    match e {
      case UserConnect(_, _) =>
      case UserDisconnect(_, _) =>
      case UserCancel(_) =>
      case TimerFires(_) =>
      case ChannelUp =>
      case ChannelDown =>
      case CreateAnswer(_) =>
      case ActivateAnswer =>
      case ServiceAnswer(_, _) =>
      case RequestExpires(_) =>
      case Submit(_) =>
    }
  }

  predicate SameLedger(s: Session, s': Session) {
    s'.answers == s.answers && s'.pending == s.pending
  }

  lemma ConnectKeepsTheLedger(s: Session, w: Option<Waiter>, urlGood: bool)
    ensures SameLedger(s, Connect(s, w, urlGood))
  {}

  lemma DisconnectKeepsTheLedger(s: Session, w: Option<Waiter>, deleteSubscriptions: bool)
    ensures SameLedger(s, Disconnect(s, w, deleteSubscriptions))
  {}

  /** Only submissions, answers and timeouts change the ledger. */
  lemma OtherEventsKeepTheLedger(s: Session, e: Event)
    requires !e.Submit? && !e.ServiceAnswer? && !e.RequestExpires?
    ensures SameLedger(s, Handle(s, e))
  {
    match e {
      case UserConnect(w, good) => ConnectKeepsTheLedger(s, w, good);
      case UserDisconnect(w, del) => DisconnectKeepsTheLedger(s, w, del);
      case UserCancel(_) =>
      case TimerFires(good) => ConnectKeepsTheLedger(s.(timerArmed := false, state := Disconnected), None, good);
      case ChannelUp =>
      case ChannelDown =>
      case CreateAnswer(_) =>
      case ActivateAnswer =>
    }
  }

  lemma StepKeepsExactlyOnce(w: World, e: Event)
    requires ExactlyOnce(w) && Allowed(w, e) && !DropsSubmission(w, e)
    ensures ExactlyOnce(Next(w, e))
  {
    var s := w.session;
    match e {
      case ServiceAnswer(id, st) =>
        if id in s.pending { AnswerPending(w.submitted, s.answers, s.pending, id, st); }
      case RequestExpires(id) =>
        AnswerPending(w.submitted, s.answers, s.pending, id, if s.sessionConnect then BadTimeout else BadSessionClosed);
      case Submit(t) => SubmitKeepsExactlyOnce(w, t);
      case _ => OtherEventsKeepTheLedger(s, e);
    }
  }

  /** Submitted transactions that are neither answered nor pending. */
  ghost function Deficit(w: World): int {
    |w.submitted| - |w.session.answers| - |w.session.pending|
  }

  lemma SizeAfterRemove(m: map<nat, Transaction>, id: nat)
    requires id in m
    ensures |m - {id}| == |m| - 1
  {
    assert (m - {id}).Keys == m.Keys - {id};
  }

  lemma SizeAfterAdd(m: map<nat, Transaction>, id: nat, t: Transaction)
    requires id !in m
    ensures |m[id := t]| == |m| + 1
  {
    assert m[id := t].Keys == m.Keys + {id};
  }

  /** Whatever happened before, only a dropped submission adds to the deficit, and nothing
      makes it up. */
  lemma StepDeficit(w: World, e: Event)
    ensures Deficit(Next(w, e)) == Deficit(w) + if DropsSubmission(w, e) then 1 else 0
  {
    match e {
      case ServiceAnswer(id, _) => AnswerKeepsDeficit(w, e, id);
      case RequestExpires(id) => AnswerKeepsDeficit(w, e, id);
      case Submit(t) => SubmitDeficit(w, t);
      case _ => OtherEventsKeepTheLedger(w.session, e);
    }
  }

  lemma AnswerKeepsDeficit(w: World, e: Event, id: nat)
    requires (e.ServiceAnswer? || e.RequestExpires?) && e.requestId == id
    ensures Deficit(Next(w, e)) == Deficit(w)
  {
    if id in w.session.pending {
      SizeAfterRemove(w.session.pending, id);
    }
  }

  lemma SubmitDeficit(w: World, t: Transaction)
    ensures Deficit(Next(w, Submit(t))) == Deficit(w) + if DropsSubmission(w, Submit(t)) then 1 else 0
  {
    var id := NextId(w.session.requestId);
    if id !in w.session.pending {
      SizeAfterAdd(w.session.pending, id, t);
    }
  }

  lemma RunStepDeficit(ws: seq<World>, es: seq<Event>, i: nat)
    requires IsRun(ws, es) && i < |es|
    ensures Deficit(ws[i + 1]) == Deficit(ws[i]) + if DropsSubmission(ws[i], es[i]) then 1 else 0
  {
    assert ws[i + 1] == Next(ws[i], es[i]);
    StepDeficit(ws[i], es[i]);
  }

  lemma {:induction false} DeficitGrows(ws: seq<World>, es: seq<Event>, i: nat, n: nat)
    requires IsRun(ws, es) && i <= n < |ws|
    ensures Deficit(ws[i]) <= Deficit(ws[n])
    decreases n - i
  {
    if i < n {
      DeficitGrows(ws, es, i, n - 1);
      RunStepDeficit(ws, es, n - 1);
    }
  }

  lemma DropLeavesADeficit(ws: seq<World>, es: seq<Event>, i: nat, n: nat)
    requires IsRun(ws, es) && i < n < |ws| && DropsSubmission(ws[i], es[i])
    ensures Deficit(ws[n]) > 0
  {
    DeficitGrows(ws, es, 0, i);
    RunStepDeficit(ws, es, i);
    DeficitGrows(ws, es, i + 1, n);
  }

  /** In every run of any length, reconnects and request id wrap-arounds included: each
      submitted transaction is pending under one id or was answered once, to its own
      service, if and only if no accepted submission met a request id in use. */
  lemma RunAnswersExactlyOnceIff(ws: seq<World>, es: seq<Event>, n: nat)
    requires IsRun(ws, es) && n < |ws|
    ensures ExactlyOnce(ws[n]) <==> forall i :: 0 <= i < n ==> !DropsSubmission(ws[i], es[i])
  {
    if i :| 0 <= i < n && DropsSubmission(ws[i], es[i]) {
      DropLeavesADeficit(ws, es, i, n);
      ExactlyOnceHasNoDeficit(ws[n]);
    } else {
      RunWithoutDrops(ws, es, n);
    }
  }

  lemma ExactlyOnceHasNoDeficit(w: World)
    ensures ExactlyOnce(w) ==> Deficit(w) == 0
  {}

  lemma {:induction false} RunWithoutDrops(ws: seq<World>, es: seq<Event>, n: nat)
    requires IsRun(ws, es) && n < |ws| && forall i :: 0 <= i < n ==> !DropsSubmission(ws[i], es[i])
    ensures ExactlyOnce(ws[n])
  {
    if n == 0 {
      assert Elements<Transaction>([]) == {};
    } else {
      RunWithoutDrops(ws, es, n - 1);
      assert ws[n] == Next(ws[n - 1], es[n - 1]);
      StepKeepsExactlyOnce(ws[n - 1], es[n - 1]);
    }
  }

  lemma StepKeepsFreshIds(w: World, e: Event)
    requires FreshIds(w) && Next(w, e).sends < REQUEST_ID_RANGE
    ensures FreshIds(Next(w, e)) && !DropsSubmission(w, e)
  {
    RequestIdCountsSends(w.session, e);
    if !e.Submit? && !e.ServiceAnswer? && !e.RequestExpires? {
      OtherEventsKeepTheLedger(w.session, e);
    }
  }

  lemma {:induction false} RunKeepsFreshIds(ws: seq<World>, es: seq<Event>, n: nat)
    requires IsRun(ws, es) && n < |ws| && ws[n].sends < REQUEST_ID_RANGE
    ensures FreshIds(ws[n])
  {
    if n > 0 {
      SendsGrow(ws, es, n - 1, n);
      RunKeepsFreshIds(ws, es, n - 1);
      StepKeepsFreshIds(ws[n - 1], es[n - 1]);
    }
  }

  lemma {:induction false} SendsGrow(ws: seq<World>, es: seq<Event>, i: nat, n: nat)
    requires IsRun(ws, es) && i <= n < |ws|
    ensures ws[i].sends <= ws[n].sends
    ensures n == i + 1 ==> ws[n] == Next(ws[i], es[i])
    decreases n - i
  {
    if i < n {
      SendsGrow(ws, es, i, n - 1);
      assert ws[n] == Next(ws[n - 1], es[n - 1]);
    }
  }

  /** So it holds in every run with fewer than 2^32 sends. */
  lemma EveryRunAnswersExactlyOnce(ws: seq<World>, es: seq<Event>, n: nat)
    requires IsRun(ws, es) && n < |ws| && ws[n].sends < 0x1_0000_0000
    ensures ExactlyOnce(ws[n])
  {
    forall i | 0 <= i < n ensures !DropsSubmission(ws[i], es[i]) {
      SendsGrow(ws, es, i, i + 1);
      SendsGrow(ws, es, i + 1, n);
      RunKeepsFreshIds(ws, es, i);
      StepKeepsFreshIds(ws[i], es[i]);
    }
    RunAnswersExactlyOnceIff(ws, es, n);
  }

  lemma ExtendRun(ws: seq<World>, es: seq<Event>, e: Event)
    requires IsRun(ws, es) && Allowed(ws[|es|], e)
    ensures IsRun(ws + [Next(ws[|es|], e)], es + [e])
  {
    var ws', es' := ws + [Next(ws[|es|], e)], es + [e];
    forall i | 0 <= i < |es'| ensures Allowed(ws'[i], es'[i]) && ws'[i + 1] == Next(ws'[i], es'[i]) {
      if i < |es| {
        assert es'[i] == es[i] && ws'[i] == ws[i] && ws'[i + 1] == ws[i + 1];
      }
    }
  }

  /** Nothing but the request id and what was written differs. */
  ghost predicate SameButId(w: World, w': World, id: nat) {
    && w'.session == w.session.(requestId := id, wire := w'.session.wire)
    && w'.submitted == w.submitted
  }

  /** Any number of cancel requests advances the request id as often, around the end. */
  lemma {:induction false} CancelMany(ws: seq<World>, es: seq<Event>, n: nat)
    returns (ws': seq<World>, es': seq<Event>)
    requires IsRun(ws, es) && ws[|es|].session.state == Connected
    requires ws[|es|].session.mode == SecureChannelAndSession && ws[|es|].session.requestId < REQUEST_ID_RANGE
    ensures IsRun(ws', es')
    ensures SameButId(ws[|es|], ws'[|es'|], (ws[|es|].session.requestId + n) % REQUEST_ID_RANGE)
    decreases n
  {
    if n == 0 {
      ws', es' := ws, es;
    } else {
      ws', es' := CancelMany(ws, es, n - 1);
      var w := ws'[|es'|];
      ExtendRun(ws', es', UserCancel(0));
      NextIdIsModular(ws[|es|].session.requestId, n - 1);
      ws', es' := ws' + [Next(w, UserCancel(0))], es' + [UserCancel(0)];
    }
  }

  lemma NextIdIsModular(id: nat, n: nat)
    ensures NextId((id + n) % REQUEST_ID_RANGE) == (id + n + 1) % REQUEST_ID_RANGE
  {}

  lemma ChannelComesUp() returns (ws: seq<World>, es: seq<Event>)
    ensures IsRun(ws, es) && ws[|es|].submitted == [] && ws[|es|].channel == Open
    ensures var s := ws[|es|].session;
            && s.mode == SecureChannelAndSession && s.state == Connected && s.slot == None
            && s.requestId == 1 && s.pending == map[] && s.answers == []
  {
    var w0 := NewWorld(SecureChannelAndSession, false);
    ExtendRun([w0], [], UserConnect(None, true));
    ws, es := [w0] + [Next(w0, UserConnect(None, true))], [] + [UserConnect(None, true)];
    var w1 := ws[|es|];
    ExtendRun(ws, es, ChannelUp);
    ws, es := ws + [Next(w1, ChannelUp)], es + [ChannelUp];
  }

  lemma SessionIsActivated() returns (ws: seq<World>, es: seq<Event>)
    ensures IsRun(ws, es) && ws[|es|].submitted == []
    ensures var s := ws[|es|].session;
            && s.mode == SecureChannelAndSession && s.state == Connected && s.sessionConnect
            && s.requestId == 2 && s.pending == map[] && s.answers == []
  {
    ws, es := ChannelComesUp();
    var w := ws[|es|];
    ExtendRun(ws, es, CreateAnswer(0));
    ws, es := ws + [Next(w, CreateAnswer(0))], es + [CreateAnswer(0)];
    var w' := ws[|es|];
    ExtendRun(ws, es, ActivateAnswer);
    ws, es := ws + [Next(w', ActivateAnswer)], es + [ActivateAnswer];
  }

  /** An activated session with one transaction waiting under id 3. */
  lemma OneWaits(t: Transaction) returns (ws: seq<World>, es: seq<Event>)
    ensures IsRun(ws, es) && ws[|es|].submitted == [t] && ws[|es|].session.answers == []
    ensures var s := ws[|es|].session;
            && s.mode == SecureChannelAndSession && s.state == Connected && s.sessionConnect
            && s.requestId == 3 && s.pending == map[3 := t]
  {
    ws, es := SessionIsActivated();
    var w := ws[|es|];
    ExtendRun(ws, es, Submit(t));
    ws, es := ws + [Next(w, Submit(t))], es + [Submit(t)];
  }

  /** A run in which the request id comes round to one that is still waited for: the new
      transaction is written, but neither stored nor answered. */
  lemma WrapAroundDropsATransaction(t: Transaction, u: Transaction) returns (ws: seq<World>, es: seq<Event>)
    requires t != u && !IsDiscovery(u.requestType)
    ensures IsRun(ws, es)
    ensures var w := ws[|es|];
            u in w.submitted && u !in w.session.pending.Values && w.session.answers == [] && !ExactlyOnce(w)
  {
    ws, es := OneWaits(t);
    ws, es := CancelMany(ws, es, REQUEST_ID_RANGE - 1);
    var w := ws[|es|];
    ExtendRun(ws, es, Submit(u));
    ws, es := ws + [Next(w, Submit(u))], es + [Submit(u)];
    assert u in [t] + [u];
    assert u in Elements([t] + [u]);
    assert AnsweredSet([]) == {};
  }

  /** Each pending transaction was written under the id it is stored under. */
  ghost predicate PendingWritten(s: Session) {
    forall id :: id in s.pending ==> WrittenAs(s.wire, id, s.pending[id])
  }

  ghost predicate WrittenAs(wire: seq<Message>, id: nat, t: Transaction) {
    exists token :: ServiceRequest(id, token, t) in wire
  }

  lemma {:induction false} RunKeepsPendingWritten(ws: seq<World>, es: seq<Event>, i: nat)
    requires IsRun(ws, es) && i < |ws|
    ensures PendingWritten(ws[i].session)
  {
    if i > 0 {
      RunKeepsPendingWritten(ws, es, i - 1);
      assert ws[i] == Next(ws[i - 1], es[i - 1]);
      StepKeepsPendingWritten(ws[i - 1].session, es[i - 1]);
    }
  }

  lemma StepKeepsPendingWritten(s: Session, e: Event)
    requires PendingWritten(s)
    ensures PendingWritten(Handle(s, e))
  {
    var s' := Handle(s, e);
    StepWrites(s, e);
    forall id | id in s'.pending ensures WrittenAs(s'.wire, id, s'.pending[id]) {
      NewEntryIsWritten(s, e, id);
      if id in s.pending && s.pending[id] == s'.pending[id] {
        var token :| ServiceRequest(id, token, s.pending[id]) in s.wire;
        assert ServiceRequest(id, token, s.pending[id]) in s'.wire;
      }
    }
  }

  lemma NewEntryIsWritten(s: Session, e: Event, id: nat)
    requires id in Handle(s, e).pending
    ensures var s' := Handle(s, e);
            || (id in s.pending && s.pending[id] == s'.pending[id])
            || ServiceRequest(id, s.token, s'.pending[id]) in s'.wire
  {
    if !e.Submit? && !e.ServiceAnswer? && !e.RequestExpires? {
      OtherEventsKeepTheLedger(s, e);
    }
  }

  // ---------------------------------------------------------------------
  // Handshake safety
  // ---------------------------------------------------------------------

  /** (ServerUriError | SessionDisconnect | SessionConnect SessionDisconnect)*, where the
      last SessionDisconnect may still be missing. */
  predicate WellFormed(ns: seq<Notification>) {
    ns == []
    || (ns[0] != SessionConnect && WellFormed(ns[1..]))
    || (ns[0] == SessionConnect && (|ns| == 1 || (ns[1] == SessionDisconnect && WellFormed(ns[2..]))))
  }

  predicate OpenEnded(ns: seq<Notification>) {
    ns != [] && ns[|ns| - 1] == SessionConnect
  }

  lemma {:induction false} WellFormedAppend(ns: seq<Notification>, n: Notification)
    requires WellFormed(ns)
    requires n == SessionDisconnect || !OpenEnded(ns)
    ensures WellFormed(ns + [n])
    decreases |ns|
  {
    if |ns| == 0 {
    } else if ns[0] != SessionConnect {
      assert (ns + [n])[1..] == ns[1..] + [n];
      WellFormedAppend(ns[1..], n);
    } else if |ns| >= 2 {
      assert (ns + [n])[2..] == ns[2..] + [n];
      WellFormedAppend(ns[2..], n);
    }
  }

  /** The notifications so far, and whether the last connect is still open. */
  ghost predicate NoticesInv(w: World) {
    && WellFormed(w.session.notifications)
    && (OpenEnded(w.session.notifications) <==>
          if w.session.mode == SecureChannelOnly then w.channel == Open || w.channel == Closing(true)
          else w.handshake == Activated)
  }

  /** Activation, token and channel lifetime agree. */
  ghost predicate LifetimeInv(w: World) {
    var s := w.session;
    && (s.sessionConnect <==> w.handshake == Activated)
    && (s.mode == SecureChannelOnly ==> w.handshake == NoHandshake)
    && (w.handshake != NoHandshake ==> w.channel == Open || w.channel == Closing(true))
    && (w.handshake == ActivateSent || w.handshake == Activated ==> w.issuedToken == Some(s.token))
  }

  ghost predicate HandshakeInv(w: World) {
    NoticesInv(w) && LifetimeInv(w)
  }

  /** What a step tells the application. */
  ghost function Notice(w: World, e: Event): Option<Notification> {
    match e
    case UserConnect(_, good) => if w.channel == Closed && !good then Some(ServerUriError) else None
    case TimerFires(good) => if good then None else Some(ServerUriError)
    case ChannelUp => if w.session.mode == SecureChannelOnly then Some(SessionConnect) else None
    case ChannelDown => Some(SessionDisconnect)
    case ActivateAnswer => Some(SessionConnect)
    case _ => None
  }

  lemma StepNotifies(w: World, e: Event)
    requires StateInv(w)
    ensures Handle(w.session, e).notifications ==
            w.session.notifications + if Notice(w, e).Some? then [Notice(w, e).value] else []
    ensures Handle(w.session, e).sessionConnect ==
            (if e.ActivateAnswer? then true else if e.ChannelDown? then false else w.session.sessionConnect)
    ensures Handle(w.session, e).token == if e.CreateAnswer? then e.token else w.session.token
    ensures Handle(w.session, e).mode == w.session.mode
  {
    match e {
      case UserConnect(_, _) =>
      case UserDisconnect(_, _) =>
      case UserCancel(_) =>
      case TimerFires(_) =>
      case ChannelUp =>
      case ChannelDown =>
      case CreateAnswer(_) =>
      case ActivateAnswer =>
      case ServiceAnswer(_, _) =>
      case RequestExpires(_) =>
      case Submit(_) =>
    }
  }

  lemma StepKeepsNoticesInv(w: World, e: Event)
    requires StateInv(w) && HandshakeInv(w) && Allowed(w, e) && AnswersOnce(w, e)
    ensures NoticesInv(Next(w, e))
  {
    StepNotifies(w, e);
    if Notice(w, e).Some? {
      assert Notice(w, e).value == SessionDisconnect || !OpenEnded(w.session.notifications);
      WellFormedAppend(w.session.notifications, Notice(w, e).value);
    }
  }

  lemma StepKeepsLifetimeInv(w: World, e: Event)
    requires StateInv(w) && LifetimeInv(w) && Allowed(w, e) && AnswersOnce(w, e)
    ensures LifetimeInv(Next(w, e))
  {
    StepNotifies(w, e);
  }

  lemma StepKeepsHandshakeInv(w: World, e: Event)
    requires StateInv(w) && HandshakeInv(w) && Allowed(w, e) && AnswersOnce(w, e)
    ensures HandshakeInv(Next(w, e))
  {
    StepKeepsNoticesInv(w, e);
    StepKeepsLifetimeInv(w, e);
  }

  lemma {:induction false} RunKeepsHandshakeInv(ws: seq<World>, es: seq<Event>, i: nat)
    requires IsRun(ws, es) && HandshakeHonoured(ws, es) && i < |ws|
    ensures HandshakeInv(ws[i])
  {
    if i > 0 {
      RunKeepsHandshakeInv(ws, es, i - 1);
      RunKeepsStateInv(ws, es, i - 1);
      StepKeepsHandshakeInv(ws[i - 1], es[i - 1]);
    }
  }

  /** What a step writes: at most one message, a service request only for a submission. */
  ghost function Written(s: Session, e: Event): Option<Message> {
    var id := NextId(s.requestId);
    match e
    case UserDisconnect(_, del) =>
      if Advances(s, e) then Some(CloseSessionRequest(id, s.token, del)) else None
    case UserCancel(h) => if Advances(s, e) then Some(CancelRequest(id, s.token, h)) else None
    case ChannelUp => if Advances(s, e) then Some(CreateSessionRequest(id)) else None
    case CreateAnswer(token) => Some(ActivateSessionRequest(id, token))
    case Submit(t) =>
      if s.state == Connected && (s.sessionConnect || IsDiscovery(t.requestType))
      then Some(ServiceRequest(id, s.token, t)) else None
    case _ => None
  }

  lemma StepWrites(s: Session, e: Event)
    ensures Handle(s, e).wire == s.wire + if Written(s, e).Some? then [Written(s, e).value] else []
  {
    match e {
      case UserConnect(_, _) =>
      case UserDisconnect(_, _) =>
      case UserCancel(_) =>
      case TimerFires(_) =>
      case ChannelUp =>
      case ChannelDown =>
      case CreateAnswer(_) =>
      case ActivateAnswer =>
      case ServiceAnswer(_, _) =>
      case RequestExpires(_) =>
      case Submit(_) =>
    }
  }

  /** In every run a session-bound request goes out only on an open channel whose own
      session is activated, carrying the token the server issued in that channel's lifetime. */
  lemma RequestsUseTheActivatedSession(ws: seq<World>, es: seq<Event>, i: nat, id: nat, token: Token, t: Transaction)
    requires IsRun(ws, es) && HandshakeHonoured(ws, es) && i < |es|
    requires ws[i + 1].session.wire == ws[i].session.wire + [ServiceRequest(id, token, t)]
    requires !IsDiscovery(t.requestType)
    ensures ws[i].session.state == Connected && ws[i].channel == Open
    ensures ws[i].handshake == Activated && ws[i].issuedToken == Some(token)
  {
    RunKeepsHandshakeInv(ws, es, i);
    RunKeepsStateInv(ws, es, i);
    assert ws[i + 1] == Next(ws[i], es[i]);
    StepWrites(ws[i].session, es[i]);
    assert ws[i + 1].session.wire[|ws[i].session.wire|] == ServiceRequest(id, token, t);
  }

  /** In every run the notifications have the documented form. */
  lemma NotificationsAreWellFormed(ws: seq<World>, es: seq<Event>, i: nat)
    requires IsRun(ws, es) && HandshakeHonoured(ws, es) && i < |ws|
    ensures WellFormed(ws[i].session.notifications)
  {
    RunKeepsHandshakeInv(ws, es, i);
  }
}
