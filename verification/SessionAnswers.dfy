/** What becomes of a transaction handed to the session: rejected at once, or stored until
    the response with its request id, or its timeout, completes it. */
module SessionAnswers {
  import opened OpcUaTypes
  import opened SessionService
  import opened SessionRuns

  /** The submission is accepted: the channel is connected, and the session activated or not
      needed. */
  predicate Accepts(s: Session, t: Transaction) {
    s.state == Connected && (s.sessionConnect || IsDiscovery(t.requestType))
  }

  /** The event completes whatever waits under this id. */
  predicate Completes(e: Event, id: nat) {
    (e.ServiceAnswer? || e.RequestExpires?) && e.requestId == id
  }

  /** Read off the events alone: the transaction that waits under `id` after `n` of them is
      the last one accepted under it while nothing waited there, unless completed since. */
  ghost function WaitsUnder(ws: seq<World>, es: seq<Event>, n: nat, id: nat): Option<Transaction>
    requires |ws| == |es| + 1 && n <= |es|
  {
    if n == 0 then None
    else
      var before, w, e := WaitsUnder(ws, es, n - 1, id), ws[n - 1], es[n - 1];
      if Completes(e, id) then None
      else if before.None? && e.Submit? && Accepts(w.session, e.transaction) && NextId(w.session.requestId) == id
      then Some(e.transaction)
      else before
  }

  /** The entry of the table under an id. */
  function Entry(pending: map<nat, Transaction>, id: nat): Option<Transaction> {
    if id in pending then Some(pending[id]) else None
  }

  lemma StepEntry(w: World, e: Event, id: nat)
    ensures Entry(Handle(w.session, e).pending, id) ==
            if Completes(e, id) then None
            else if Entry(w.session.pending, id).None? && e.Submit? && Accepts(w.session, e.transaction)
                    && NextId(w.session.requestId) == id
            then Some(e.transaction)
            else Entry(w.session.pending, id)
  {
    if !e.Submit? && !e.ServiceAnswer? && !e.RequestExpires? {
      OtherEventsKeepTheLedger(w.session, e);
    }
  }

  /** In every run the table holds exactly the transactions that wait. */
  lemma {:induction false} TableHoldsTheWaiting(ws: seq<World>, es: seq<Event>, n: nat, id: nat)
    requires IsRun(ws, es) && n <= |es|
    ensures Entry(ws[n].session.pending, id) == WaitsUnder(ws, es, n, id)
  {
    if n > 0 {
      TableHoldsTheWaiting(ws, es, n - 1, id);
      assert ws[n] == Next(ws[n - 1], es[n - 1]);
      StepEntry(ws[n - 1], es[n - 1], id);
    }
  }

  /** `t` leaves the table from under `id` and is answered with this status; nothing else
      about the session changes. */
  ghost predicate Completed(s: Session, id: nat, t: Transaction, code: StatusCode, s': Session) {
    && s' == s.(pending := s'.pending, answers := s.answers + [Answer(t.service, t, code)])
    && id !in s'.pending
    && forall k :: k != id ==> Entry(s'.pending, k) == Entry(s.pending, k)
  }

  /** In every run a response changes nothing if and only if no transaction waits under its
      id; otherwise it completes exactly that transaction, with the status it carries, and
      the request of that transaction was written with this id. */
  lemma ResponsesCompleteIff(ws: seq<World>, es: seq<Event>, i: nat)
    requires IsRun(ws, es) && i < |es| && es[i].ServiceAnswer?
    ensures var s, s', id := ws[i].session, ws[i + 1].session, es[i].requestId;
            var waiting := WaitsUnder(ws, es, i, id);
            && (s' == s <==> waiting.None?)
            && (waiting.Some? ==>
                  Completed(s, id, waiting.value, es[i].statusCode, s') && WrittenAs(s.wire, id, waiting.value))
  {
    var s, s', id := ws[i].session, ws[i + 1].session, es[i].requestId;
    assert ws[i + 1] == Next(ws[i], es[i]);
    TableHoldsTheWaiting(ws, es, i, id);
    RunKeepsPendingWritten(ws, es, i);
    if id in s.pending {
      assert |s'.answers| == |s.answers| + 1;
    }
  }

  /** In every run a timeout completes exactly the transaction that waits under its id, with
      BadTimeout if the session is activated and with BadSessionClosed otherwise. */
  lemma TimeoutsComplete(ws: seq<World>, es: seq<Event>, i: nat)
    requires IsRun(ws, es) && i < |es| && es[i].RequestExpires?
    ensures var s, s', id := ws[i].session, ws[i + 1].session, es[i].requestId;
            var waiting := WaitsUnder(ws, es, i, id);
            && waiting.Some?
            && Completed(s, id, waiting.value, if s.sessionConnect then BadTimeout else BadSessionClosed, s')
  {
    assert Allowed(ws[i], es[i]) && ws[i + 1] == Next(ws[i], es[i]);
    TableHoldsTheWaiting(ws, es, i, es[i].requestId);
  }

  /** In every run a submission is answered at once if and only if it is not accepted, with
      BadSessionClosed if it needs a session that is not activated and BadSecureChannelClosed
      otherwise; if accepted it is written under the next id and waits there, provided
      nothing waits under that id already. */
  lemma SubmissionsAreAcceptedIff(ws: seq<World>, es: seq<Event>, i: nat)
    requires IsRun(ws, es) && i < |es| && es[i].Submit?
    ensures var s, s', t := ws[i].session, ws[i + 1].session, es[i].transaction;
            var id := NextId(s.requestId);
            if Accepts(s, t) then
              && s'.answers == s.answers && s'.wire == s.wire + [ServiceRequest(id, s.token, t)]
              && (forall k :: k != id ==> Entry(s'.pending, k) == Entry(s.pending, k))
              && (Entry(s'.pending, id) ==
                  if WaitsUnder(ws, es, i, id).None? then Some(t) else WaitsUnder(ws, es, i, id))
            else
              && s'.pending == s.pending && s'.wire == s.wire
              && s'.answers == s.answers + [Answer(t.service, t,
                   if s.sessionConnect || IsDiscovery(t.requestType) then BadSecureChannelClosed else BadSessionClosed)]
  {
    assert ws[i + 1] == Next(ws[i], es[i]);
    TableHoldsTheWaiting(ws, es, i, NextId(ws[i].session.requestId));
  }

  // ---------------------------------------------------------------------
  // The reconnect timer
  // ---------------------------------------------------------------------

  /** The client gives up a connection: the channel goes down, or a connect finds a bad
      url. */
  predicate GivesUp(s: Session, e: Event) {
    || e.ChannelDown?
    || (e.TimerFires? && !e.urlGood)
    || (e.UserConnect? && !e.urlGood && (s.state == Disconnected || s.state == DisconnectedWait))
  }

  /** Then it waits with an armed timer if and only if it has a session and a reconnect
      timeout, and otherwise rests disconnected; every other event leaves no timer armed
      that was not armed before. */
  lemma WaitsForReconnectIff(w: World, e: Event)
    requires StateInv(w) && Allowed(w, e)
    ensures var s, s' := w.session, Handle(w.session, e);
            if GivesUp(s, e) then
              && (s'.state == DisconnectedWait && s'.timerArmed <==> s.mode == SecureChannelAndSession && s.reconnects)
              && (s'.state == Disconnected && !s'.timerArmed <==> !(s.mode == SecureChannelAndSession && s.reconnects))
            else s'.timerArmed ==> s.timerArmed
  {
    match e {
      case UserConnect(_, _) =>
      case UserDisconnect(_, _) =>
      case UserCancel(_) =>
      case TimerFires(_) =>
      case ChannelUp =>
      case ChannelDown =>
      case CreateAnswer(_) =>
      case ActivateAnswer =>
      case ServiceAnswer(_, _) =>
      case RequestExpires(_) =>
      case Submit(_) =>
    }
  }
}
