/** Synchronous callers of the client session: they share one slot, so some are never
    signalled and some twice. */
module SessionWaiters {
  import opened OpcUaTypes
  import opened SessionService
  import opened SessionRuns

  // ---------------------------------------------------------------------
  // Synchronous waiters
  // ---------------------------------------------------------------------

  ghost predicate Signalled(s: Session, c: Waiter) {
    exists x :: x in s.signals && x.waiter == c
  }

  /** A caller that waits for a signal nobody will send. */
  ghost predicate Lost(w: World, c: Waiter) {
    c in w.calls && !Signalled(w.session, c) && w.session.slot != Some(c)
  }

  ghost predicate NoneLost(w: World) {
    forall c :: !Lost(w, c)
  }

  /** A disconnect processed while the channel is up but the session of a synchronous
      connect is not activated yet. */
  ghost predicate OverwritesConnectWaiter(w: World, e: Event) {
    && e.UserDisconnect?
    && w.session.state == Connected && w.session.mode == SecureChannelAndSession
    && !w.session.sessionConnect && w.session.slot.Some?
  }

  /** The slot holds a call that was made, and it is known when that call has been told. */
  ghost predicate SlotInv(w: World) {
    CallsKnown(w) && SlotTold(w.session)
  }

  ghost predicate CallsKnown(w: World) {
    && (w.session.slot.Some? ==> w.session.slot.value in w.calls)
    && (forall x :: x in w.session.signals ==> x.waiter in w.calls)
  }

  /** The connect or disconnect operation is over. */
  predicate AtRest(s: Session) {
    || s.state == Disconnected || s.state == DisconnectedWait
    || (s.state == Connected && (s.sessionConnect || s.mode == SecureChannelOnly))
  }

  /** A waiter in the slot has been told when the client is at rest, and not before. */
  ghost predicate SlotTold(s: Session) {
    s.slot.Some? ==>
      && (AtRest(s) ==> Signalled(s, s.slot.value))
      && (Signalled(s, s.slot.value) ==> AtRest(s) || s.state == Disconnecting)
  }

  /** Which calls a step adds, which it signals, and what it leaves in the slot. */
  ghost function NewCall(e: Event): Option<Waiter> {
    if e.UserConnect? || e.UserDisconnect? then e.waiter else None
  }

  ghost function SignalTo(w: Option<Waiter>, code: StatusCode): Option<Signal> {
    if w.None? then None else Some(Signal(w.value, code))
  }

  ghost function Told(s: Session, e: Event): Option<Signal> {
    match e
    case UserConnect(c, good) =>
      if s.state != Disconnected && s.state != DisconnectedWait then SignalTo(c, BadInvalidState)
      else if good then None
      else SignalTo(c, BadInvalidArgument)
    case UserDisconnect(c, _) =>
      if s.state == Connecting then SignalTo(s.slot, BadSessionClosed)
      else if s.state == Connected then None
      else SignalTo(c, if s.state == DisconnectedWait then Success else BadInvalidState)
    case ChannelUp => if s.mode == SecureChannelOnly then SignalTo(s.slot, Success) else None
    case ChannelDown =>
      SignalTo(s.slot, if s.slot.Some? && s.slot.value.operation == OpConnect then BadSessionClosed else Success)
    case ActivateAnswer => SignalTo(s.slot, Success)
    case _ => None
  }

  ghost function NextSlot(s: Session, e: Event): Option<Waiter> {
    match e
    case UserConnect(c, good) =>
      if good && (s.state == Disconnected || s.state == DisconnectedWait) then c else s.slot
    case UserDisconnect(c, _) => if s.state == Connecting || s.state == Connected then c else s.slot
    case TimerFires(good) => if good then None else s.slot
    case _ => s.slot
  }

  lemma StepEffect(w: World, e: Event)
    requires StateInv(w) && Allowed(w, e)
    ensures var s, s' := w.session, Handle(w.session, e);
            && s'.slot == NextSlot(s, e)
            && s'.signals == s.signals + if Told(s, e).Some? then [Told(s, e).value] else []
  {
    match e {
      case UserConnect(_, _) =>
      case UserDisconnect(_, _) =>
      case UserCancel(_) =>
      case TimerFires(_) =>
      case ChannelUp =>
      case ChannelDown =>
      case CreateAnswer(_) =>
      case ActivateAnswer =>
      case ServiceAnswer(_, _) =>
      case RequestExpires(_) =>
      case Submit(_) =>
    }
  }

  lemma StepSignals(w: World, e: Event, x: Waiter)
    requires StateInv(w) && Allowed(w, e)
    ensures Signalled(Handle(w.session, e), x) <==>
            Signalled(w.session, x) || (Told(w.session, e).Some? && Told(w.session, e).value.waiter == x)
  {
    StepEffect(w, e);
    var s, s' := w.session, Handle(w.session, e);
    if Told(s, e).Some? {
      assert Told(s, e).value in s'.signals;
      assert forall y :: y in s.signals ==> y in s'.signals;
    }
  }

  lemma StepKeepsCallsKnown(w: World, e: Event)
    requires StateInv(w) && CallsKnown(w) && Allowed(w, e)
    ensures CallsKnown(Next(w, e))
  {
    StepEffect(w, e);
  }

  /** When the client is at rest after a step. */
  ghost predicate RestsAfter(s: Session, e: Event) {
    match e
    case UserConnect(_, good) => AtRest(s) && (s.state == Connected || !good)
    case UserDisconnect(_, _) => s.state == Disconnected || s.state == DisconnectedWait
    case TimerFires(good) => !good
    case ChannelUp => s.mode == SecureChannelOnly
    case ChannelDown => true
    case ActivateAnswer => AtRest(s) || s.state == Connected
    case _ => AtRest(s)
  }

  lemma StepRests(w: World, e: Event)
    requires StateInv(w) && Allowed(w, e)
    ensures AtRest(Handle(w.session, e)) <==> RestsAfter(w.session, e)
    ensures Handle(w.session, e).state == Disconnecting <==>
            if e.UserDisconnect? then w.session.state != Disconnected && w.session.state != DisconnectedWait
            else w.session.state == Disconnecting && !e.ChannelDown?
  {
    match e {
      case UserConnect(_, _) =>
      case UserDisconnect(_, _) =>
      case UserCancel(_) =>
      case TimerFires(_) =>
      case ChannelUp =>
      case ChannelDown =>
      case CreateAnswer(_) =>
      case ActivateAnswer =>
      case ServiceAnswer(_, _) =>
      case RequestExpires(_) =>
      case Submit(_) =>
    }
  }

  lemma StepKeepsSlotTold(w: World, e: Event)
    requires StateInv(w) && CallsKnown(w) && SlotTold(w.session) && Allowed(w, e)
    ensures SlotTold(Handle(w.session, e))
  {
    var s, s' := w.session, Handle(w.session, e);
    StepEffect(w, e);
    StepRests(w, e);
    if s'.slot.Some? {
      StepSignals(w, e, s'.slot.value);
      assert NewCall(e) == s'.slot ==> !Signalled(s, s'.slot.value);
    }
  }

  lemma StepKeepsSlotInv(w: World, e: Event)
    requires StateInv(w) && SlotInv(w) && Allowed(w, e)
    ensures SlotInv(Next(w, e))
  {
    StepKeepsCallsKnown(w, e);
    StepKeepsSlotTold(w, e);
  }

  /** A step loses a waiter exactly when it is the overwriting disconnect; what is lost
      stays lost. */
  lemma StepLosesIff(w: World, e: Event)
    requires StateInv(w) && SlotInv(w) && Allowed(w, e)
    ensures NoneLost(Next(w, e)) <==> NoneLost(w) && !OverwritesConnectWaiter(w, e)
  {
    var s, w' := w.session, Next(w, e);
    StepEffect(w, e);
    if OverwritesConnectWaiter(w, e) {
      StepSignals(w, e, s.slot.value);
      assert Lost(w', s.slot.value);
    }
    forall c ensures Lost(w', c) <==> Lost(w, c) || (OverwritesConnectWaiter(w, e) && s.slot == Some(c)) {
      StepSignals(w, e, c);
    }
    if !NoneLost(w) {
      var c :| Lost(w, c);
      assert Lost(w', c);
    }
  }

  lemma {:induction false} RunKeepsSlotInv(ws: seq<World>, es: seq<Event>, i: nat)
    requires IsRun(ws, es) && i < |ws|
    ensures SlotInv(ws[i])
  {
    if i > 0 {
      RunKeepsSlotInv(ws, es, i - 1);
      RunKeepsStateInv(ws, es, i - 1);
      StepKeepsSlotInv(ws[i - 1], es[i - 1]);
    }
  }

  /** In every run no synchronous call is lost if and only if no disconnect was processed
      in the window between the channel coming up and activation while such a call waits. */
  lemma {:induction false} NoWaiterIsLostIff(ws: seq<World>, es: seq<Event>, n: nat)
    requires IsRun(ws, es) && n < |ws|
    ensures NoneLost(ws[n]) <==> forall i :: 0 <= i < n ==> !OverwritesConnectWaiter(ws[i], es[i])
  {
    if n > 0 {
      NoWaiterIsLostIff(ws, es, n - 1);
      RunKeepsStateInv(ws, es, n - 1);
      RunKeepsSlotInv(ws, es, n - 1);
      StepLosesIff(ws[n - 1], es[n - 1]);
    }
  }

  lemma {:induction false} ModeIsFixed(ws: seq<World>, es: seq<Event>, i: nat)
    requires IsRun(ws, es) && i < |ws|
    ensures ws[i].session.mode == ws[0].session.mode
  {
    if i > 0 {
      ModeIsFixed(ws, es, i - 1);
      assert ws[i] == Next(ws[i - 1], es[i - 1]);
      RunKeepsStateInv(ws, es, i - 1);
      StepNotifies(ws[i - 1], es[i - 1]);
    }
  }

  /** A client without a session never loses a waiter. */
  lemma ChannelModeLosesNoWaiter(ws: seq<World>, es: seq<Event>, n: nat)
    requires IsRun(ws, es) && n < |ws| && ws[0].session.mode == SecureChannelOnly
    ensures NoneLost(ws[n])
  {
    forall i | 0 <= i < n ensures !OverwritesConnectWaiter(ws[i], es[i]) {
      ModeIsFixed(ws, es, i);
    }
    NoWaiterIsLostIff(ws, es, n);
  }

  /** The window is real: connect, channel up, disconnect leaves the first caller waiting. */
  lemma EarlyDisconnectLosesTheConnectWaiter(c: Waiter, d: Waiter)
    requires c.operation == OpConnect && d.operation == OpDisconnect
    ensures var w0 := NewWorld(SecureChannelAndSession, true);
            var w1 := Next(w0, UserConnect(Some(c), true));
            var w2 := Next(w1, ChannelUp);
            var w3 := Next(w2, UserDisconnect(Some(d), true));
            Lost(w3, c)
  {}

  // ---------------------------------------------------------------------
  // Second signals
  // ---------------------------------------------------------------------

  /** The step signals a caller that was signalled before. */
  ghost predicate SignalsAgain(s: Session, e: Event) {
    Told(s, e).Some? && Signalled(s, Told(s, e).value.waiter)
  }

  /** Every caller was signalled at most once. */
  ghost predicate OncePerWaiter(signals: seq<Signal>) {
    forall i, j :: 0 <= i < j < |signals| ==> signals[i].waiter != signals[j].waiter
  }

  /** A step signals a caller again if and only if the channel goes down or an activation is
      answered while the slot holds a caller that was signalled. */
  lemma StepSignalsAgainIff(w: World, e: Event)
    requires StateInv(w) && SlotInv(w) && Allowed(w, e)
    ensures SignalsAgain(w.session, e) <==>
            && (e.ChannelDown? || e.ActivateAnswer?)
            && w.session.slot.Some? && Signalled(w.session, w.session.slot.value)
  {}

  /** An activation was answered after the disconnect that is in progress. */
  ghost predicate LateActivation(ws: seq<World>, es: seq<Event>, i: nat)
    requires |ws| == |es| + 1 && i < |ws|
  {
    i > 0 &&
    if es[i - 1].ActivateAnswer? && ws[i - 1].session.state == Disconnecting then true
    else !es[i - 1].ChannelDown? && LateActivation(ws, es, i - 1)
  }

  lemma {:induction false} LateMeansDisconnecting(ws: seq<World>, es: seq<Event>, i: nat)
    requires IsRun(ws, es) && i < |ws| && LateActivation(ws, es, i)
    ensures ws[i].session.state == Disconnecting
  {
    var w, e := ws[i - 1], es[i - 1];
    RunKeepsStateInv(ws, es, i - 1);
    assert ws[i] == Next(w, e);
    StepRests(w, e);
    if !(e.ActivateAnswer? && w.session.state == Disconnecting) {
      LateMeansDisconnecting(ws, es, i - 1);
    }
  }

  /** While a disconnect is in progress its caller has been signalled exactly by a late
      activation. */
  lemma {:induction false} DisconnectCallerIsToldIff(ws: seq<World>, es: seq<Event>, i: nat)
    requires IsRun(ws, es) && i < |ws|
    requires ws[i].session.state == Disconnecting && ws[i].session.slot.Some?
    ensures Signalled(ws[i].session, ws[i].session.slot.value) <==> LateActivation(ws, es, i)
  {
    var w, e := ws[i - 1], es[i - 1];
    RunKeepsStateInv(ws, es, i - 1);
    RunKeepsSlotInv(ws, es, i - 1);
    assert ws[i] == Next(w, e) && Allowed(w, e);
    StepRests(w, e);
    StepEffect(w, e);
    StepSignals(w, e, ws[i].session.slot.value);
    if w.session.state == Disconnecting {
      DisconnectCallerIsToldIff(ws, es, i - 1);
      assert NewCall(e) != w.session.slot;
    } else {
      if LateActivation(ws, es, i - 1) {
        LateMeansDisconnecting(ws, es, i - 1);
      }
      assert NewCall(e) == ws[i].session.slot;
    }
  }

  /** The slot holds a caller whose operation is over, or who was told by a late
      activation. */
  ghost predicate SlotIsSpent(ws: seq<World>, es: seq<Event>, i: nat)
    requires |ws| == |es| + 1 && i < |ws|
  {
    ws[i].session.slot.Some? && (AtRest(ws[i].session) || LateActivation(ws, es, i))
  }

  ghost predicate TellsSpent(ws: seq<World>, es: seq<Event>, i: nat)
    requires |ws| == |es| + 1 && i < |es|
  {
    (es[i].ChannelDown? || es[i].ActivateAnswer?) && SlotIsSpent(ws, es, i)
  }

  /** In every run an event signals a caller again if and only if the channel goes down or an
      activation is answered while the slot is spent. */
  lemma RunSignalsAgainIff(ws: seq<World>, es: seq<Event>, i: nat)
    requires IsRun(ws, es) && i < |es|
    ensures SignalsAgain(ws[i].session, es[i]) <==> TellsSpent(ws, es, i)
  {
    RunKeepsStateInv(ws, es, i);
    RunKeepsSlotInv(ws, es, i);
    StepSignalsAgainIff(ws[i], es[i]);
    if LateActivation(ws, es, i) {
      LateMeansDisconnecting(ws, es, i);
    }
    if ws[i].session.state == Disconnecting && ws[i].session.slot.Some? {
      DisconnectCallerIsToldIff(ws, es, i);
    }
  }

  lemma StepKeepsOncePerWaiterIff(w: World, e: Event)
    requires StateInv(w) && Allowed(w, e)
    ensures OncePerWaiter(Handle(w.session, e).signals) <==>
            OncePerWaiter(w.session.signals) && !SignalsAgain(w.session, e)
  {
    StepEffect(w, e);
    var s, s' := w.session, Handle(w.session, e);
    assert forall i :: 0 <= i < |s.signals| ==> s'.signals[i] == s.signals[i];
    if SignalsAgain(s, e) {
      var x :| x in s.signals && x.waiter == Told(s, e).value.waiter;
      var i :| 0 <= i < |s.signals| && s.signals[i] == x;
      assert s'.signals[i].waiter == s'.signals[|s.signals|].waiter;
    } else if Told(s, e).Some? {
      assert forall i :: 0 <= i < |s.signals| ==> s.signals[i] in s.signals;
    }
  }

  /** In every run each caller is signalled at most once if and only if the channel never
      goes down, and no activation is answered, while the slot is spent. */
  lemma {:induction false} EveryCallerIsToldOnceIff(ws: seq<World>, es: seq<Event>, n: nat)
    requires IsRun(ws, es) && n < |ws|
    ensures OncePerWaiter(ws[n].session.signals) <==>
            forall i :: 0 <= i < n ==> !TellsSpent(ws, es, i)
  {
    if n > 0 {
      EveryCallerIsToldOnceIff(ws, es, n - 1);
      RunStepTellsOnceIff(ws, es, n - 1);
    }
  }

  lemma RunStepTellsOnceIff(ws: seq<World>, es: seq<Event>, i: nat)
    requires IsRun(ws, es) && i < |es|
    ensures OncePerWaiter(ws[i + 1].session.signals) <==>
            OncePerWaiter(ws[i].session.signals) && !TellsSpent(ws, es, i)
  {
    RunKeepsStateInv(ws, es, i);
    assert Allowed(ws[i], es[i]) && ws[i + 1] == Next(ws[i], es[i]);
    StepKeepsOncePerWaiterIff(ws[i], es[i]);
    RunSignalsAgainIff(ws, es, i);
  }

  /** If the server answers each handshake request once, only the channel going down signals
      a caller again. */
  lemma HonouredSignalsAgainIff(ws: seq<World>, es: seq<Event>, i: nat)
    requires IsRun(ws, es) && HandshakeHonoured(ws, es) && i < |es|
    ensures SignalsAgain(ws[i].session, es[i]) <==> es[i].ChannelDown? && SlotIsSpent(ws, es, i)
  {
    RunSignalsAgainIff(ws, es, i);
    if es[i].ActivateAnswer? {
      RunKeepsStateInv(ws, es, i);
      RunKeepsHandshakeInv(ws, es, i);
      assert AnswersOnce(ws[i], es[i]);
      if LateActivation(ws, es, i) {
        LateMeansActivated(ws, es, i);
      }
    }
  }

  lemma {:induction false} LateMeansActivated(ws: seq<World>, es: seq<Event>, i: nat)
    requires IsRun(ws, es) && HandshakeHonoured(ws, es) && i < |ws| && LateActivation(ws, es, i)
    ensures ws[i].handshake == Activated
  {
    var w, e := ws[i - 1], es[i - 1];
    assert ws[i] == Next(w, e) && Allowed(w, e) && AnswersOnce(w, e);
    if !(e.ActivateAnswer? && w.session.state == Disconnecting) {
      LateMeansActivated(ws, es, i - 1);
      LateMeansDisconnecting(ws, es, i - 1);
      RunKeepsStateInv(ws, es, i - 1);
    }
  }

  /** A waiter stays in the slot after it was signalled, so losing the channel of an
      activated session signals a finished connect call a second time. */
  lemma ConnectWaiterIsSignalledTwice(c: Waiter, t: Token)
    requires c.operation == OpConnect
    ensures var w0 := NewWorld(SecureChannelAndSession, true);
            var w2 := Next(Next(w0, UserConnect(Some(c), true)), ChannelUp);
            var w4 := Next(Next(w2, CreateAnswer(t)), ActivateAnswer);
            Next(w4, ChannelDown).session.signals == [Signal(c, Success), Signal(c, BadSessionClosed)]
  {}

  /** A disconnect between channel-up and activation puts its own caller into the slot, which
      the activation signals before the disconnect is over; the end of the channel signals
      it again. */
  lemma DisconnectWaiterIsSignalledTwice(c: Waiter, d: Waiter, t: Token)
    requires c.operation == OpConnect && d.operation == OpDisconnect
    ensures var w0 := NewWorld(SecureChannelAndSession, true);
            var w3 := Next(Next(Next(w0, UserConnect(Some(c), true)), ChannelUp), UserDisconnect(Some(d), true));
            var w5 := Next(Next(w3, CreateAnswer(t)), ActivateAnswer);
            && w5.session.state == Disconnecting && w5.session.signals == [Signal(d, Success)]
            && Next(w5, ChannelDown).session.signals == [Signal(d, Success), Signal(d, Success)]
  {}
}
