/** The publish window of the subscription service and its open/close notifications. */
module SubscriptionService {
  import opened OpcUaTypes

  datatype Note = Opened(id: nat) | Closed(id: nat)

  /** `published` counts the Publish requests sent so far. */
  datatype Service = Service(
    publishCount: nat,
    actPublishCount: nat,
    subscriptions: set<nat>,
    notes: seq<Note>,
    published: nat)

  const UINT32_MAX := 0xFFFF_FFFF

  /** `sendPublishRequests` tops the window up while a subscription exists. */
  function Fill(s: Service): Service {
    if s.subscriptions == {} || s.actPublishCount >= s.publishCount then s
    else s.(actPublishCount := s.publishCount, published := s.published + s.publishCount - s.actPublishCount)
  }

  function Create(s: Service, id: nat): Service {
    if id in s.subscriptions then s
    else
      var s1 := s.(subscriptions := s.subscriptions + {id}, notes := s.notes + [Opened(id)]);
      if |s1.subscriptions| != 1 then s1 else Fill(s1)
  }

  function CreateResponse(s: Service, statusCode: StatusCode, id: nat): Service {
    if statusCode == Success then Create(s, id) else s
  }

  function DeleteRequest(s: Service, ids: seq<nat>): Service {
    s.(subscriptions := s.subscriptions - Elements(ids))
  }

  function CloseAll(notes: seq<Note>, ids: seq<nat>): seq<Note> {
    if ids == [] then notes else CloseAll(notes, ids[..|ids| - 1]) + [Closed(ids[|ids| - 1])]
  }

  /** A failed delete puts the ids back without topping up the window. */
  function DeleteResponse(s: Service, statusCode: StatusCode, ids: seq<nat>): Service {
    if statusCode != Success then s.(subscriptions := s.subscriptions + Elements(ids))
    else s.(notes := CloseAll(s.notes, ids))
  }

  ghost predicate Enumerates(order: seq<nat>, ids: set<nat>) {
    Distinct(order) && Elements(order) == ids
  }

  /** `order` is the order in which a closed session's subscriptions are deleted. */
  function PublishResponse(s: Service, statusCode: StatusCode, order: seq<nat>): Service {
    var s1 := s.(actPublishCount := if s.actPublishCount == 0 then UINT32_MAX else s.actPublishCount - 1);
    var s2 :=
      if statusCode == BadSessionClosed then s1.(subscriptions := {}, notes := CloseAll(s1.notes, order)) else s1;
    Fill(s2)
  }

  class ServiceObject {
    const publishCount: nat
    var actPublishCount: nat
    var subscriptions: set<nat>
    var notes: seq<Note>
    var published: nat

    function View(): Service
      reads this
    {
      Service(publishCount, actPublishCount, subscriptions, notes, published)
    }

    constructor (publishCount: nat)
      ensures View() == Service(publishCount, 0, {}, [], 0)
    {
      this.publishCount := publishCount;
      actPublishCount, subscriptions, notes, published := 0, {}, [], 0;
    }

    method SendPublishRequests()
      modifies this`actPublishCount, this`published
      ensures View() == Fill(old(View()))
    {
      if |subscriptions| == 0 {
        return;
      }
      while actPublishCount < publishCount
        invariant published - actPublishCount == old(published) - old(actPublishCount)
        invariant actPublishCount == old(actPublishCount) || old(actPublishCount) <= actPublishCount <= publishCount
      {
        published := published + 1;
        actPublishCount := actPublishCount + 1;
      }
    }

    method OnCreateSubscriptionResponse(statusCode: StatusCode, id: nat)
      modifies this
      ensures View() == CreateResponse(old(View()), statusCode, id)
    {
      if statusCode != Success || id in subscriptions {
        return;
      }
      subscriptions := subscriptions + {id};
      notes := notes + [Opened(id)];
      if |subscriptions| != 1 {
        return;
      }
      SendPublishRequests();
    }

    method SendDeleteSubscriptions(ids: seq<nat>)
      modifies this`subscriptions
      ensures View() == DeleteRequest(old(View()), ids)
    {
      for pos := 0 to |ids|
        invariant subscriptions == old(subscriptions) - Elements(ids[..pos])
      {
        assert ids[..pos + 1] == ids[..pos] + [ids[pos]];
        subscriptions := subscriptions - {ids[pos]};
      }
      assert ids[..|ids|] == ids;
    }

    method OnDeleteSubscriptionsResponse(statusCode: StatusCode, ids: seq<nat>)
      modifies this
      ensures View() == DeleteResponse(old(View()), statusCode, ids)
    {
      if statusCode != Success {
        for pos := 0 to |ids|
          modifies this`subscriptions
          invariant subscriptions == old(subscriptions) + Elements(ids[..pos])
        {
          assert ids[..pos + 1] == ids[..pos] + [ids[pos]];
          subscriptions := subscriptions + {ids[pos]};
        }
        assert ids[..|ids|] == ids;
        return;
      }
      CloseEach(ids);
    }

    method CloseEach(ids: seq<nat>)
      modifies this`notes
      ensures View() == old(View()).(notes := CloseAll(old(notes), ids))
    {
      for pos := 0 to |ids|
        invariant notes == CloseAll(old(notes), ids[..pos])
      {
        assert ids[..pos + 1][..pos] == ids[..pos];
        notes := notes + [Closed(ids[pos])];
      }
      assert ids[..|ids|] == ids;
    }

    method OnPublishResponse(statusCode: StatusCode) returns (ghost order: seq<nat>)
      modifies this
      ensures Enumerates(order, old(subscriptions))
      ensures View() == PublishResponse(old(View()), statusCode, order)
    {
      actPublishCount := if actPublishCount == 0 then UINT32_MAX else actPublishCount - 1;
      var ids := Listing();
      order := ids;
      if statusCode == BadSessionClosed {
        for pos := 0 to |ids|
          modifies this`subscriptions, this`notes
          invariant subscriptions == old(subscriptions) - Elements(ids[..pos])
          invariant notes == CloseAll(old(notes), ids[..pos])
        {
          assert ids[..pos + 1] == ids[..pos] + [ids[pos]];
          assert ids[..pos + 1][..pos] == ids[..pos];
          subscriptions := subscriptions - {ids[pos]};
          notes := notes + [Closed(ids[pos])];
        }
        assert ids[..|ids|] == ids;
      }
      SendPublishRequests();
    }

    /** A copy of the subscription set as a list. */
    method Listing() returns (ids: seq<nat>)
      ensures Enumerates(ids, subscriptions)
    {
      ids := [];
      var rest := subscriptions;
      while rest != {}
        invariant rest <= subscriptions && Enumerates(ids, subscriptions - rest)
        decreases rest
      {
        var id :| id in rest;
        assert id !in Elements(ids);
        assert Elements(ids + [id]) == Elements(ids) + {id};
        ids, rest := ids + [id], rest - {id};
      }
    }
  }
}
