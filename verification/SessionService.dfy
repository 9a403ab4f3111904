/** The client session: channel state, reconnect timer, Create/Activate handshake, the
    single slot for a synchronous waiter and the table of pending requests. Every handler
    is a function on session values; the class at the end implements them in place. */
module SessionService {
  import opened OpcUaTypes

  datatype Mode = SecureChannelOnly | SecureChannelAndSession

  datatype ChannelState = Disconnected | DisconnectedWait | Connecting | Connected | Disconnecting

  datatype Operation = OpConnect | OpDisconnect

  datatype Waiter = Waiter(id: nat, operation: Operation)

  datatype Signal = Signal(waiter: Waiter, statusCode: StatusCode)

  datatype Notification = ServerUriError | SessionConnect | SessionDisconnect

  datatype RequestType = GetEndpoints | FindServers | RegisterServer | SessionBound(typeId: nat)

  /** A service transaction and the component its answer goes to. */
  datatype Transaction = Transaction(id: nat, service: nat, requestType: RequestType)

  datatype Answer = Answer(service: nat, transaction: Transaction, statusCode: StatusCode)

  type Token = nat

  /** Messages written to the secure channel. */
  datatype Message =
    | CreateSessionRequest(requestId: nat)
    | ActivateSessionRequest(requestId: nat, token: Token)
    | CloseSessionRequest(requestId: nat, token: Token, deleteSubscriptions: bool)
    | CancelRequest(requestId: nat, token: Token, requestHandle: nat)
    | ServiceRequest(requestId: nat, token: Token, transaction: Transaction)

  datatype Session = Session(
    mode: Mode,
    reconnects: bool,
    state: ChannelState,
    sessionConnect: bool,
    timerArmed: bool,
    slot: Option<Waiter>,
    requestId: nat,
    token: Token,
    pending: map<nat, Transaction>,
    signals: seq<Signal>,
    notifications: seq<Notification>,
    answers: seq<Answer>,
    wire: seq<Message>)

  const REQUEST_ID_RANGE := 0x1_0000_0000

  /** The 32-bit request id wraps around to 0. */
  function NextId(id: nat): nat {
    if id + 1 < REQUEST_ID_RANGE then id + 1 else 0
  }

  predicate IsDiscovery(t: RequestType) {
    t.GetEndpoints? || t.FindServers? || t.RegisterServer?
  }

  // ---------------------------------------------------------------------
  // Building blocks
  // ---------------------------------------------------------------------

  function Wake(s: Session, w: Option<Waiter>, statusCode: StatusCode): Session {
    if w.None? then s else s.(signals := s.signals + [Signal(w.value, statusCode)])
  }

  function Notify(s: Session, n: Notification): Session {
    s.(notifications := s.notifications + [n])
  }

  function Reply(s: Session, t: Transaction, statusCode: StatusCode): Session {
    s.(answers := s.answers + [Answer(t.service, t, statusCode)])
  }

  function Write(s: Session, m: Message): Session {
    s.(wire := s.wire + [m])
  }

  /** Session mode with a reconnect timeout waits instead of resting. */
  function Rest(s: Session): Session {
    if s.mode == SecureChannelAndSession && s.reconnects then s.(timerArmed := true, state := DisconnectedWait)
    else s.(state := Disconnected)
  }

  // ---------------------------------------------------------------------
  // Handlers
  // ---------------------------------------------------------------------

  function Connect(s: Session, w: Option<Waiter>, urlGood: bool): Session {
    var s1 := if s.state == DisconnectedWait then s.(timerArmed := false, state := Disconnected) else s;
    if s1.state != Disconnected then Wake(s1, w, BadInvalidState)
    else if !urlGood then Wake(Rest(Notify(s1, ServerUriError)), w, BadInvalidArgument)
    else s1.(slot := w, state := Connecting)
  }

  function ReconnectTimeout(s: Session, urlGood: bool): Session {
    Connect(s.(timerArmed := false, state := Disconnected), None, urlGood)
  }

  function Disconnect(s: Session, w: Option<Waiter>, deleteSubscriptions: bool): Session {
    if s.state == Disconnecting || s.state == Disconnected then Wake(s, w, BadInvalidState)
    else if s.state == DisconnectedWait then Wake(s.(timerArmed := false, state := Disconnected), w, Success)
    else
      var s1 := if s.state == Connecting then Wake(s, s.slot, BadSessionClosed) else s;
      var s2 := s1.(slot := w);
      var s3 :=
        if s.state == Connected && s.mode == SecureChannelAndSession then
          Write(s2.(requestId := NextId(s2.requestId)),
                CloseSessionRequest(NextId(s2.requestId), s2.token, deleteSubscriptions))
        else s2;
      s3.(state := Disconnecting)
  }

  function Cancel(s: Session, requestHandle: nat): Session {
    if s.state != Connected then s
    else
      var id := NextId(s.requestId);
      Write(s.(requestId := id), CancelRequest(id, s.token, requestHandle))
  }

  function HandleConnect(s: Session): Session {
    var s1 := s.(state := Connected);
    if s.mode == SecureChannelOnly then Wake(Notify(s1, SessionConnect), s.slot, Success)
    else
      var id := NextId(s.requestId);
      Write(s1.(requestId := id), CreateSessionRequest(id))
  }

  function HandleDisconnect(s: Session): Session {
    var s1 := Notify(Rest(s).(sessionConnect := false), SessionDisconnect);
    Wake(s1, s.slot, if s.slot.Some? && s.slot.value.operation == OpConnect then BadSessionClosed else Success)
  }

  function CreateSessionResponse(s: Session, token: Token): Session {
    var id := NextId(s.requestId);
    Write(s.(token := token, requestId := id), ActivateSessionRequest(id, token))
  }

  function ActivateSessionResponse(s: Session): Session {
    Wake(Notify(s.(sessionConnect := true), SessionConnect), s.slot, Success)
  }

  /** `pendingQueue_.insert` refuses an id that is in use; its result is ignored. */
  function Enqueue(pending: map<nat, Transaction>, id: nat, t: Transaction): map<nat, Transaction> {
    if id in pending then pending else pending[id := t]
  }

  function Receive(s: Session, t: Transaction): Session {
    var id := NextId(s.requestId);
    var s1 := s.(requestId := id);
    if !s.sessionConnect && !IsDiscovery(t.requestType) then Reply(s1, t, BadSessionClosed)
    else if s.state != Connected then Reply(s1, t, BadSecureChannelClosed)
    else Write(s1.(pending := Enqueue(s.pending, id, t)), ServiceRequest(id, s.token, t))
  }

  function Timeout(s: Session, id: nat): Session {
    if id !in s.pending then s
    else
      Reply(s.(pending := s.pending - {id}), s.pending[id], if s.sessionConnect then BadTimeout else BadSessionClosed)
  }

  function ServiceResponse(s: Session, id: nat, statusCode: StatusCode): Session {
    if id !in s.pending then s
    else Reply(s.(pending := s.pending - {id}), s.pending[id], statusCode)
  }

  /** The destructor stops the timer only in the waiting state. */
  function Destroyed(s: Session): Session {
    if s.state == DisconnectedWait then s.(timerArmed := false) else s
  }

  function Start(mode: Mode, reconnects: bool): Session {
    Session(mode, reconnects, Disconnected, false, false, None, 0, 0, map[], [], [], [], [])
  }

  // ---------------------------------------------------------------------
  // The object
  // ---------------------------------------------------------------------

  class SessionObject {
    const mode: Mode
    const reconnects: bool
    var state: ChannelState
    var sessionConnect: bool
    var timerArmed: bool
    var slot: Option<Waiter>
    var requestId: nat
    var token: Token
    var pending: map<nat, Transaction>
    // effects on the environment
    var signals: seq<Signal>
    var notifications: seq<Notification>
    var answers: seq<Answer>
    var wire: seq<Message>

    function View(): Session
      reads this
    {
      Session(mode, reconnects, state, sessionConnect, timerArmed, slot, requestId, token, pending,
              signals, notifications, answers, wire)
    }

    constructor (mode: Mode, reconnects: bool)
      ensures View() == Start(mode, reconnects)
    {
      this.mode, this.reconnects := mode, reconnects;
      state, sessionConnect, timerArmed, slot := Disconnected, false, false, None;
      requestId, token, pending := 0, 0, map[];
      signals, notifications, answers, wire := [], [], [], [];
    }

    method Destroy()
      modifies this`timerArmed
      ensures View() == Destroyed(old(View()))
    {
      if state == DisconnectedWait {
        timerArmed := false;
      }
    }

    method WakeWaiter(w: Option<Waiter>, statusCode: StatusCode)
      modifies this`signals
      ensures View() == Wake(old(View()), w, statusCode)
    {
      if w.Some? {
        signals := signals + [Signal(w.value, statusCode)];
      }
    }

    method StartReconnectTimer()
      modifies this`timerArmed, this`state
      ensures View() == Rest(old(View()))
    {
      state := Disconnected;
      if mode != SecureChannelOnly && reconnects {
        timerArmed := true;
        state := DisconnectedWait;
      }
    }

    method OnReconnectTimeout(urlGood: bool)
      modifies this
      ensures View() == ReconnectTimeout(old(View()), urlGood)
    {
      timerArmed := false;
      state := Disconnected;
      AsyncConnectInternal(None, urlGood);
    }

    method AsyncConnectInternal(w: Option<Waiter>, urlGood: bool)
      modifies this
      ensures View() == Connect(old(View()), w, urlGood)
    {
      if state == DisconnectedWait {
        timerArmed := false;
        state := Disconnected;
      }
      if state != Disconnected {
        WakeWaiter(w, BadInvalidState);
        return;
      }
      if !urlGood {
        notifications := notifications + [ServerUriError];
        StartReconnectTimer();
        WakeWaiter(w, BadInvalidArgument);
        return;
      }
      slot := w;
      state := Connecting;
    }

    method AsyncDisconnectInternal(w: Option<Waiter>, deleteSubscriptions: bool)
      modifies this
      ensures View() == Disconnect(old(View()), w, deleteSubscriptions)
    {
      if state == Disconnecting || state == Disconnected {
        WakeWaiter(w, BadInvalidState);
        return;
      }
      if state == DisconnectedWait {
        timerArmed := false;
        state := Disconnected;
        WakeWaiter(w, Success);
        return;
      }
      if state == Connecting {
        WakeWaiter(slot, BadSessionClosed);
      }
      slot := w;
      if state == Connected && mode == SecureChannelAndSession {
        requestId := NextId(requestId);
        wire := wire + [CloseSessionRequest(requestId, token, deleteSubscriptions)];
      }
      state := Disconnecting;
    }

    /** Without a session the source reads its missing session configuration here. */
    method AsyncCancelInternal(requestHandle: nat)
      requires state == Connected ==> mode == SecureChannelAndSession
      modifies this
      ensures View() == Cancel(old(View()), requestHandle)
    {
      if state == Connected {
        requestId := NextId(requestId);
        wire := wire + [CancelRequest(requestId, token, requestHandle)];
      }
    }

    method OnConnect()
      modifies this
      ensures View() == HandleConnect(old(View()))
    {
      state := Connected;
      if mode == SecureChannelOnly {
        notifications := notifications + [SessionConnect];
        WakeWaiter(slot, Success);
        return;
      }
      requestId := NextId(requestId);
      wire := wire + [CreateSessionRequest(requestId)];
    }

    method OnDisconnect()
      modifies this
      ensures View() == HandleDisconnect(old(View()))
    {
      StartReconnectTimer();
      sessionConnect := false;
      notifications := notifications + [SessionDisconnect];
      if slot.Some? {
        WakeWaiter(slot, if slot.value.operation == OpConnect then BadSessionClosed else Success);
      }
    }

    method RecvCreateSessionResponse(newToken: Token)
      modifies this
      ensures View() == CreateSessionResponse(old(View()), newToken)
    {
      token := newToken;
      requestId := NextId(requestId);
      wire := wire + [ActivateSessionRequest(requestId, token)];
    }

    method RecvActivateSessionResponse()
      modifies this
      ensures View() == ActivateSessionResponse(old(View()))
    {
      sessionConnect := true;
      notifications := notifications + [SessionConnect];
      WakeWaiter(slot, Success);
    }

    method OnReceive(t: Transaction)
      modifies this
      ensures View() == Receive(old(View()), t)
    {
      requestId := NextId(requestId);
      if !sessionConnect && !IsDiscovery(t.requestType) {
        answers := answers + [Answer(t.service, t, BadSessionClosed)];
        return;
      }
      if state != Connected {
        answers := answers + [Answer(t.service, t, BadSecureChannelClosed)];
        return;
      }
      if requestId !in pending {
        pending := pending[requestId := t];
      }
      wire := wire + [ServiceRequest(requestId, token, t)];
    }

    method PendingQueueTimeout(id: nat)
      modifies this
      ensures View() == Timeout(old(View()), id)
    {
      if id in pending {
        var t := pending[id];
        pending := pending - {id};
        answers := answers + [Answer(t.service, t, if sessionConnect then BadTimeout else BadSessionClosed)];
      }
    }

    method ReceiveMessage(id: nat, statusCode: StatusCode)
      modifies this
      ensures View() == ServiceResponse(old(View()), id, statusCode)
    {
      if id !in pending {
        return;
      }
      var t := pending[id];
      pending := pending - {id};
      answers := answers + [Answer(t.service, t, statusCode)];
    }
  }
}
