/** Runs of the subscription service: the window counter, when the window is full, and
    the alternation of open and close notifications. */
module SubscriptionRuns {
  import opened OpcUaTypes
  import opened SubscriptionService

  datatype Event =
    | CreateAnswered(statusCode: StatusCode, id: nat)
    | DeleteSent(request: nat, ids: seq<nat>)
    | DeleteAnswered(request: nat, statusCode: StatusCode)
    | PublishAnswered(statusCode: StatusCode, order: seq<nat>)

  /** The service, the number of Publish answers received and the unanswered deletes. */
  datatype World = World(service: Service, answered: nat, deletes: map<nat, seq<nat>>)

  function Unanswered(w: World): int {
    w.service.published - w.answered
  }

  function Next(w: World, e: Event): World {
    match e
    case CreateAnswered(code, id) => w.(service := CreateResponse(w.service, code, id))
    case DeleteSent(req, ids) => w.(service := DeleteRequest(w.service, ids), deletes := w.deletes[req := ids])
    case DeleteAnswered(req, code) =>
      var ids := if req in w.deletes then w.deletes[req] else [];
      w.(service := DeleteResponse(w.service, code, ids), deletes := w.deletes - {req})
    case PublishAnswered(code, order) =>
      w.(service := PublishResponse(w.service, code, order), answered := w.answered + 1)
  }

  /** Only an unanswered request is answered. */
  ghost predicate Allowed(w: World, e: Event) {
    match e
    case CreateAnswered(_, _) => true
    case DeleteSent(req, _) => req !in w.deletes
    case DeleteAnswered(req, _) => req in w.deletes
    case PublishAnswered(_, order) => Unanswered(w) > 0 && Enumerates(order, w.service.subscriptions)
  }

  ghost predicate IsRun(ws: seq<World>, es: seq<Event>) {
    && |ws| == |es| + 1
    && ws[0] == World(Service(ws[0].service.publishCount, 0, {}, [], 0), 0, map[])
    && (forall i {:trigger es[i]} :: 0 <= i < |es| ==> Allowed(ws[i], es[i]) && ws[i + 1] == Next(ws[i], es[i]))
  }

  // ---------------------------------------------------------------------
  // What each event does
  // ---------------------------------------------------------------------

  /** `notes'` adds exactly one close notification for each of these ids, and nothing else. */
  ghost predicate ClosesEach(notes: seq<Note>, ids: set<nat>, notes': seq<Note>) {
    && |notes'| == |notes| + |ids| && notes <= notes'
    && (forall j :: |notes| <= j < |notes'| ==> notes'[j].Closed? && notes'[j].id in ids)
    && (forall i, j :: |notes| <= i < j < |notes'| ==> notes'[i] != notes'[j])
    && (forall id :: id in ids ==> exists j :: |notes| <= j < |notes'| && notes'[j] == Closed(id))
  }

  lemma {:induction false} CloseAllIs(notes: seq<Note>, ids: seq<nat>)
    ensures |CloseAll(notes, ids)| == |notes| + |ids| && notes <= CloseAll(notes, ids)
    ensures forall j :: 0 <= j < |ids| ==> CloseAll(notes, ids)[|notes| + j] == Closed(ids[j])
  {
    if ids != [] {
      CloseAllIs(notes, ids[..|ids| - 1]);
    }
  }

  lemma {:induction false} DistinctSize(ids: seq<nat>)
    requires Distinct(ids)
    ensures |Elements(ids)| == |ids|
  {
    if ids != [] {
      var front, last := ids[..|ids| - 1], ids[|ids| - 1];
      DistinctSize(front);
      assert Elements(ids) == Elements(front) + {last};
      assert last !in front;
    }
  }

  lemma CloseAllClosesEach(notes: seq<Note>, ids: seq<nat>)
    requires Distinct(ids)
    ensures ClosesEach(notes, Elements(ids), CloseAll(notes, ids))
  {
    CloseAllIs(notes, ids);
    DistinctSize(ids);
    var notes' := CloseAll(notes, ids);
    forall j | |notes| <= j < |notes'| ensures notes'[j] == Closed(ids[j - |notes|]) {
      var k := j - |notes|;
      assert notes'[|notes| + k] == Closed(ids[k]);
    }
    forall id | id in Elements(ids) ensures exists j :: |notes| <= j < |notes'| && notes'[j] == Closed(id) {
      var k :| 0 <= k < |ids| && ids[k] == id;
      assert notes'[|notes| + k] == Closed(id);
    }
  }

  /** A Publish answer that says the session is closed ends every subscription, each with one
      close notification, and sends nothing; any other one changes neither subscriptions nor
      notifications and sends what is missing in the window if a subscription exists. */
  lemma PublishAnswerEffect(w: World, code: StatusCode, order: seq<nat>)
    requires WindowInv(w) && Allowed(w, PublishAnswered(code, order))
    ensures var s, s' := w.service, Next(w, PublishAnswered(code, order)).service;
            && s'.publishCount == s.publishCount
            && if code == BadSessionClosed then
                 && s'.subscriptions == {} && ClosesEach(s.notes, s.subscriptions, s'.notes)
                 && s'.published == s.published && s'.actPublishCount == s.actPublishCount - 1
               else
                 && s'.subscriptions == s.subscriptions && s'.notes == s.notes
                 && if s.subscriptions == {} then
                      s'.published == s.published && s'.actPublishCount == s.actPublishCount - 1
                    else
                      && s'.actPublishCount == s.publishCount
                      && s'.published == s.published + s.publishCount - (s.actPublishCount - 1)
  {
    CloseAllClosesEach(w.service.notes, order);
  }

  /** A successful create of a new id adds it with one open notification, and fills the window
      if it is the only one; a failed one, or one for an id that exists, changes nothing. */
  lemma CreateAnswerEffect(w: World, code: StatusCode, id: nat)
    ensures var s, s' := w.service, Next(w, CreateAnswered(code, id)).service;
            if code == Success && id !in s.subscriptions then
              && s'.subscriptions == s.subscriptions + {id} && s'.notes == s.notes + [Opened(id)]
              && s'.published == s.published +
                   (if s.subscriptions == {} && s.actPublishCount < s.publishCount
                    then s.publishCount - s.actPublishCount else 0)
            else s' == s
  {
    if id !in w.service.subscriptions {
      SizeOne(w.service.subscriptions, id);
    }
  }

  /** A delete takes its ids out of the set when it is sent, closes each if it succeeds and
      puts all back without a notification if it fails. */
  lemma DeleteEffect(w: World, req: nat, ids: seq<nat>, code: StatusCode)
    requires req in w.deletes && Distinct(w.deletes[req])
    ensures Next(w, DeleteSent(req, ids)).service ==
            w.service.(subscriptions := w.service.subscriptions - Elements(ids))
    ensures var s, s' := w.service, Next(w, DeleteAnswered(req, code)).service;
            if code == Success then
              s'.subscriptions == s.subscriptions && ClosesEach(s.notes, Elements(w.deletes[req]), s'.notes)
            else
              s'.notes == s.notes && s'.subscriptions == s.subscriptions + Elements(w.deletes[req])
  {
    CloseAllClosesEach(w.service.notes, w.deletes[req]);
  }

  // ---------------------------------------------------------------------
  // The window
  // ---------------------------------------------------------------------

  /** The counter is the number of unanswered Publish requests and stays in the window. */
  ghost predicate WindowInv(w: World) {
    w.service.actPublishCount == Unanswered(w) && w.service.actPublishCount <= w.service.publishCount
  }

  ghost predicate Full(w: World) {
    w.service.subscriptions != {} ==> w.service.actPublishCount == w.service.publishCount
  }

  /** A failed delete that finds no subscription left and the window not full. */
  ghost predicate Starves(w: World, e: Event) {
    && e.DeleteAnswered? && e.statusCode != Success
    && w.service.subscriptions == {} && e.request in w.deletes && w.deletes[e.request] != []
    && w.service.actPublishCount < w.service.publishCount
  }

  lemma StepKeepsWindow(w: World, e: Event)
    requires WindowInv(w) && Allowed(w, e)
    ensures WindowInv(Next(w, e))
  {}

  lemma {:induction false} RunKeepsWindow(ws: seq<World>, es: seq<Event>, i: nat)
    requires IsRun(ws, es) && i < |ws|
    ensures WindowInv(ws[i])
  {
    if i > 0 {
      RunKeepsWindow(ws, es, i - 1);
      StepKeepsWindow(ws[i - 1], es[i - 1]);
    }
  }

  lemma SizeOne(s: set<nat>, id: nat)
    requires id !in s
    ensures |s + {id}| == 1 <==> s == {}
  {
    assert |s + {id}| == |s| + 1;
  }

  /** A full window stays full through every step except the starving delete. */
  lemma StepKeepsFullIff(w: World, e: Event)
    requires WindowInv(w) && Full(w) && Allowed(w, e)
    ensures Full(Next(w, e)) <==> !Starves(w, e)
  {
    match e {
      case CreateAnswered(_, id) =>
        if id !in w.service.subscriptions { SizeOne(w.service.subscriptions, id); }
      case DeleteSent(_, _) =>
      case DeleteAnswered(req, code) =>
        var ids := w.deletes[req];
        if ids != [] { assert ids[0] in Elements(ids); } else { assert Elements(ids) == {}; }
      case PublishAnswered(_, _) =>
    }
  }

  /** In a run without a starving delete, so in every run in which no delete fails, the
      window is full whenever a subscription exists. */
  lemma {:induction false} WindowIsFull(ws: seq<World>, es: seq<Event>, i: nat)
    requires IsRun(ws, es) && i < |ws|
    requires forall k :: 0 <= k < i ==> !Starves(ws[k], es[k])
    ensures Full(ws[i])
  {
    if i > 0 {
      WindowIsFull(ws, es, i - 1);
      RunKeepsWindow(ws, es, i - 1);
      StepKeepsFullIff(ws[i - 1], es[i - 1]);
    }
  }

  /** A starved service has subscriptions but no Publish under way. No Publish answer can
      come, and as long as a subscription is left no other event starts one either. */
  ghost predicate Starved(w: World) {
    w.service.subscriptions != {} && w.service.actPublishCount == 0 && w.service.publishCount > 0
  }

  lemma StarvedStaysStarved(w: World, e: Event)
    requires WindowInv(w) && Starved(w) && Allowed(w, e)
    requires Next(w, e).service.subscriptions != {}
    ensures !e.PublishAnswered? && Starved(Next(w, e))
  {
    if e.CreateAnswered? && e.id !in w.service.subscriptions {
      SizeOne(w.service.subscriptions, e.id);
    }
  }

  /** Deleting the last subscription, draining the window and failing the delete starves. */
  lemma FailedDeleteCanStarve(id: nat, code: StatusCode)
    requires code != Success
    ensures var w0 := World(Service(1, 0, {}, [], 0), 0, map[]);
            var w1 := Next(w0, CreateAnswered(Success, id));
            var w2 := Next(w1, DeleteSent(7, [id]));
            var w3 := Next(w2, PublishAnswered(Success, []));
            Starved(Next(w3, DeleteAnswered(7, code)))
  {
    var w0 := World(Service(1, 0, {}, [], 0), 0, map[]);
    SizeOne({}, id);
    var w1 := Next(w0, CreateAnswered(Success, id));
    assert Elements([id]) == {id};
    var w2 := Next(w1, DeleteSent(7, [id]));
    assert w2.service.subscriptions == {};
  }

  // ---------------------------------------------------------------------
  // Notifications
  // ---------------------------------------------------------------------

  /** The last notification for `id` opened it. */
  ghost predicate IsOpen(notes: seq<Note>, id: nat) {
    notes != [] &&
    var last := notes[|notes| - 1];
    if last.id == id then last.Opened? else IsOpen(notes[..|notes| - 1], id)
  }

  /** Each id is opened only when it is not open and closed only when it is. */
  ghost predicate Alternating(notes: seq<Note>) {
    notes != [] ==>
      var told, last := notes[..|notes| - 1], notes[|notes| - 1];
      Alternating(told) && (last.Opened? <==> !IsOpen(told, last.id))
  }

  /** `i` is the last position before `j` that speaks of `id`. */
  ghost predicate LastBefore(notes: seq<Note>, id: nat, i: nat, j: nat)
    requires j <= |notes|
  {
    i < j && notes[i].id == id && forall k :: i < k < j ==> notes[k].id != id
  }

  lemma {:induction false} OpenByLast(notes: seq<Note>, id: nat, i: nat)
    requires LastBefore(notes, id, i, |notes|)
    ensures IsOpen(notes, id) <==> notes[i].Opened?
    decreases |notes|
  {
    var told := notes[..|notes| - 1];
    if i < |told| {
      assert forall k :: i < k < |told| ==> told[k] == notes[k];
      OpenByLast(told, id, i);
    }
  }

  lemma {:induction false} AlternatingPrefix(notes: seq<Note>, j: nat)
    requires Alternating(notes) && j <= |notes|
    ensures Alternating(notes[..j])
    decreases |notes|
  {
    if j < |notes| {
      assert notes[..|notes| - 1][..j] == notes[..j];
      AlternatingPrefix(notes[..|notes| - 1], j);
    } else {
      assert notes[..j] == notes;
    }
  }

  /** Read position by position: consecutive notifications of one id differ. */
  lemma AlternatingAt(notes: seq<Note>, i: nat, j: nat)
    requires Alternating(notes) && j < |notes| && LastBefore(notes, notes[j].id, i, j)
    ensures notes[i].Opened? != notes[j].Opened?
  {
    AlternatingPrefix(notes, j + 1);
    assert notes[..j + 1][..j] == notes[..j];
    assert forall k :: i < k < j ==> notes[..j][k] == notes[k];
    OpenByLast(notes[..j], notes[j].id, i);
  }

  lemma AppendNote(notes: seq<Note>, n: Note)
    requires Alternating(notes) && (n.Opened? <==> !IsOpen(notes, n.id))
    ensures Alternating(notes + [n])
    ensures forall id :: IsOpen(notes + [n], id) <==> if id == n.id then n.Opened? else IsOpen(notes, id)
  {
    assert (notes + [n])[..|notes|] == notes;
  }

  lemma {:induction false} CloseAllAlternates(notes: seq<Note>, ids: seq<nat>)
    requires Alternating(notes) && Distinct(ids) && forall id :: id in ids ==> IsOpen(notes, id)
    ensures Alternating(CloseAll(notes, ids))
    ensures forall id :: IsOpen(CloseAll(notes, ids), id) <==> IsOpen(notes, id) && id !in ids
  {
    if ids != [] {
      var front, last := ids[..|ids| - 1], ids[|ids| - 1];
      CloseAllAlternates(notes, front);
      assert last !in front;
      assert ids == front + [last];
      AppendNote(CloseAll(notes, front), Closed(last));
    }
  }

  ghost predicate Deleting(deletes: map<nat, seq<nat>>, id: nat) {
    exists r :: r in deletes && id in deletes[r]
  }

  /** Users delete open subscriptions, each listed once; the server does not reuse an id
      whose delete is unanswered. */
  ghost predicate Orderly(w: World, e: Event) {
    && (e.DeleteSent? ==> Distinct(e.ids) && Elements(e.ids) <= w.service.subscriptions)
    && (e.CreateAnswered? && e.statusCode == Success ==> !Deleting(w.deletes, e.id))
  }

  /** An id is open exactly while it is subscribed or its delete is unanswered. */
  ghost predicate NoteInv(w: World) {
    && Alternating(w.service.notes)
    && (forall id :: IsOpen(w.service.notes, id) <==> id in w.service.subscriptions || Deleting(w.deletes, id))
    && DeletesInv(w)
  }

  ghost predicate DeletesInv(w: World) {
    && (forall r :: r in w.deletes ==> Distinct(w.deletes[r]))
    && (forall r, id :: r in w.deletes && id in w.deletes[r] ==> id !in w.service.subscriptions)
    && (forall r, q, id :: r in w.deletes && q in w.deletes && id in w.deletes[r] && id in w.deletes[q] ==> r == q)
  }

  lemma DeletingAfterSend(deletes: map<nat, seq<nat>>, req: nat, ids: seq<nat>, id: nat)
    requires req !in deletes
    ensures Deleting(deletes[req := ids], id) <==> Deleting(deletes, id) || id in ids
  {
    var d := deletes[req := ids];
    if id in ids { assert req in d && id in d[req]; }
    if r :| r in deletes && id in deletes[r] { assert r in d && id in d[r]; }
  }

  lemma DeletingAfterAnswer(deletes: map<nat, seq<nat>>, req: nat, id: nat)
    requires req in deletes
    requires forall r, q, x :: r in deletes && q in deletes && x in deletes[r] && x in deletes[q] ==> r == q
    ensures Deleting(deletes - {req}, id) <==> Deleting(deletes, id) && id !in deletes[req]
  {
    var d := deletes - {req};
    if Deleting(d, id) {
      var r :| r in d && id in d[r];
      assert r in deletes && id in deletes[r];
    }
    if Deleting(deletes, id) && id !in deletes[req] {
      var r :| r in deletes && id in deletes[r];
      assert r in d && id in d[r];
    }
  }

  lemma CreateKeepsNotes(w: World, code: StatusCode, id: nat)
    requires NoteInv(w) && Orderly(w, CreateAnswered(code, id))
    ensures NoteInv(Next(w, CreateAnswered(code, id)))
  {
    if code == Success && id !in w.service.subscriptions {
      AppendNote(w.service.notes, Opened(id));
      var w' := Next(w, CreateAnswered(code, id));
      assert w'.service.notes == w.service.notes + [Opened(id)];
      assert w'.service.subscriptions == w.service.subscriptions + {id};
      forall r, x | r in w.deletes && x in w.deletes[r] ensures x !in w'.service.subscriptions {
        assert Deleting(w.deletes, x);
      }
    }
  }

  lemma DeleteSentKeepsNotes(w: World, req: nat, ids: seq<nat>)
    requires NoteInv(w) && req !in w.deletes && Orderly(w, DeleteSent(req, ids))
    ensures NoteInv(Next(w, DeleteSent(req, ids)))
  {
    var w' := Next(w, DeleteSent(req, ids));
    forall id ensures IsOpen(w'.service.notes, id) <==> id in w'.service.subscriptions || Deleting(w'.deletes, id) {
      DeletingAfterSend(w.deletes, req, ids, id);
    }
    assert forall id :: id in ids ==> id in Elements(ids);
  }

  lemma DeleteAnsweredKeepsNotes(w: World, req: nat, code: StatusCode)
    requires NoteInv(w) && req in w.deletes
    ensures NoteInv(Next(w, DeleteAnswered(req, code)))
  {
    var w' := Next(w, DeleteAnswered(req, code));
    var ids := w.deletes[req];
    assert forall id :: id in ids ==> Deleting(w.deletes, id);
    if code == Success {
      CloseAllAlternates(w.service.notes, ids);
    }
    forall id ensures IsOpen(w'.service.notes, id) <==> id in w'.service.subscriptions || Deleting(w'.deletes, id) {
      DeletingAfterAnswer(w.deletes, req, id);
    }
  }

  lemma PublishKeepsNotes(w: World, code: StatusCode, order: seq<nat>)
    requires NoteInv(w) && Enumerates(order, w.service.subscriptions)
    ensures NoteInv(Next(w, PublishAnswered(code, order)))
  {
    assert forall id :: id in order <==> id in Elements(order);
    if code == BadSessionClosed {
      CloseAllAlternates(w.service.notes, order);
    }
    var w' := Next(w, PublishAnswered(code, order));
    forall id ensures IsOpen(w'.service.notes, id) <==> id in w'.service.subscriptions || Deleting(w'.deletes, id) {
      if Deleting(w.deletes, id) {
        var r :| r in w.deletes && id in w.deletes[r];
        assert id !in w.service.subscriptions;
      }
    }
  }

  lemma StepKeepsNotes(w: World, e: Event)
    requires NoteInv(w) && Allowed(w, e) && Orderly(w, e)
    ensures NoteInv(Next(w, e))
  {
    match e {
      case CreateAnswered(code, id) => CreateKeepsNotes(w, code, id);
      case DeleteSent(req, ids) => DeleteSentKeepsNotes(w, req, ids);
      case DeleteAnswered(req, code) => DeleteAnsweredKeepsNotes(w, req, code);
      case PublishAnswered(code, order) => PublishKeepsNotes(w, code, order);
    }
  }

  /** In every orderly run, failed deletes and closed sessions included, the open and close
      notifications of each subscription alternate, starting with open. */
  lemma {:induction false} NotificationsAlternate(ws: seq<World>, es: seq<Event>, i: nat)
    requires IsRun(ws, es) && i < |ws|
    requires forall k {:trigger es[k]} :: 0 <= k < |es| ==> Orderly(ws[k], es[k])
    ensures NoteInv(ws[i])
  {
    if i > 0 {
      NotificationsAlternate(ws, es, i - 1);
      StepKeepsNotes(ws[i - 1], es[i - 1]);
    }
  }
}
