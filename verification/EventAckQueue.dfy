/** The queue of event acknowledgements: a few run at a time, the rest wait. */
module EventAcks {
  import opened Paths

  type EventId = nat

  const MAX_PARALLEL_ACKS := 5

  class EventAckQueue {
    var pendingAckEventIds: seq<EventId>
    var runningAckEventIds: set<EventId>
    var ackPending: bool
    /** Tasks handed to the executor and not yet run. */
    ghost var tasks: nat
    /** Since the last reset: ids that were taken in, ids sent in calls, ids whose confirmation counted. */
    ghost var accepted: seq<EventId>
    ghost var dispatched: seq<EventId>
    ghost var confirmed: seq<EventId>

    ghost predicate Valid()
      reads this
    {
      && |runningAckEventIds| <= MAX_PARALLEL_ACKS
      && Distinct(pendingAckEventIds) && (forall id :: id in pendingAckEventIds ==> id !in runningAckEventIds)
      && dispatched + pendingAckEventIds == accepted
      && multiset(dispatched) == multiset(runningAckEventIds) + multiset(confirmed)
      && tasks == (if ackPending then 1 else 0)
      && (ackPending ==>
           |runningAckEventIds| < MAX_PARALLEL_ACKS && (pendingAckEventIds != [] || runningAckEventIds == {}))
      && NoStall()
    }

    /** Whatever waits while there is room has a task on its way. */
    ghost predicate NoStall()
      reads this`pendingAckEventIds, this`runningAckEventIds, this`ackPending
    {
      pendingAckEventIds != [] && |runningAckEventIds| < MAX_PARALLEL_ACKS ==> ackPending
    }

    /** No accepted id is lost or doubled: it waits, runs or was confirmed. */
    lemma Accounts()
      requires Valid()
      ensures multiset(accepted) == multiset(pendingAckEventIds) + multiset(runningAckEventIds) + multiset(confirmed)
      ensures pendingAckEventIds != [] ==> |runningAckEventIds| == MAX_PARALLEL_ACKS || tasks == 1
    {
      assert multiset(accepted) == multiset(dispatched) + multiset(pendingAckEventIds);
    }

    constructor ()
      ensures Valid() && accepted == [] && !IsAcking()
    {
      pendingAckEventIds, runningAckEventIds, ackPending := [], {}, false;
      tasks, accepted, dispatched, confirmed := 0, [], [], [];
    }

    predicate IsAcking()
      reads this`pendingAckEventIds, this`runningAckEventIds
    {
      pendingAckEventIds != [] || runningAckEventIds != {}
    }

    /** The check in the first branch does not fire where this may be called. */
    method PostAckPendingEvents()
      requires tasks == (if ackPending then 1 else 0)
      requires |runningAckEventIds| >= MAX_PARALLEL_ACKS || pendingAckEventIds == [] ==> !ackPending
      modifies this`ackPending, this`tasks
      ensures tasks == (if ackPending then 1 else 0) && NoStall()
      ensures ackPending <==> |runningAckEventIds| < MAX_PARALLEL_ACKS && pendingAckEventIds != []
    {
      if |runningAckEventIds| >= MAX_PARALLEL_ACKS || pendingAckEventIds == [] {
        assert !ackPending;
        return;
      }
      if !ackPending {
        ackPending := true;
        tasks := tasks + 1;
      }
    }

    /** Moves the oldest waiting ids over while there is room. */
    method TakeBatch() returns (eventIds: seq<EventId>)
      requires |runningAckEventIds| <= MAX_PARALLEL_ACKS
      requires Distinct(pendingAckEventIds) && forall id :: id in pendingAckEventIds ==> id !in runningAckEventIds
      modifies this`pendingAckEventIds, this`runningAckEventIds
      ensures eventIds + pendingAckEventIds == old(pendingAckEventIds)
      ensures |runningAckEventIds| <= MAX_PARALLEL_ACKS
      ensures Distinct(pendingAckEventIds) && forall id :: id in pendingAckEventIds ==> id !in runningAckEventIds
      ensures multiset(runningAckEventIds) == multiset(old(runningAckEventIds)) + multiset(eventIds)
      ensures pendingAckEventIds == [] || |runningAckEventIds| == MAX_PARALLEL_ACKS
    {
      eventIds := [];
      while |runningAckEventIds| < MAX_PARALLEL_ACKS && pendingAckEventIds != []
        invariant |runningAckEventIds| <= MAX_PARALLEL_ACKS
        invariant eventIds + pendingAckEventIds == old(pendingAckEventIds)
        invariant Distinct(pendingAckEventIds) && forall id :: id in pendingAckEventIds ==> id !in runningAckEventIds
        invariant multiset(runningAckEventIds) == multiset(old(runningAckEventIds)) + multiset(eventIds)
        decreases |pendingAckEventIds|
      {
        var ackId := pendingAckEventIds[0];
        assert pendingAckEventIds == [ackId] + pendingAckEventIds[1..];
        FirstIsNew(pendingAckEventIds);
        assert ackId in pendingAckEventIds;
        OneMore(runningAckEventIds, old(runningAckEventIds), eventIds, ackId);
        pendingAckEventIds := pendingAckEventIds[1..];
        eventIds := eventIds + [ackId];
        runningAckEventIds := runningAckEventIds + {ackId};
      }
    }

    /** Run by the executor: sends the oldest waiting ids in one call, as many as there is room for. */
    method AckPendingEvents() returns (eventIds: seq<EventId>)
      requires Valid() && tasks > 0
      modifies this
      ensures Valid() && accepted == old(accepted) && confirmed == old(confirmed)
      ensures dispatched == old(dispatched) + eventIds && eventIds + pendingAckEventIds == old(pendingAckEventIds)
      ensures pendingAckEventIds == [] || |runningAckEventIds| == MAX_PARALLEL_ACKS
      ensures !ackPending
    {
      hide Distinct;
      assert ackPending;
      tasks := tasks - 1;
      ackPending := false;
      eventIds := TakeBatch();
      Sent(dispatched, old(runningAckEventIds), confirmed, eventIds, runningAckEventIds);
      dispatched := dispatched + eventIds;
      PostAckPendingEvents();
    }

    /** An id that waits or runs already is ignored. */
    method Ack(ackId: EventId)
      requires Valid()
      modifies this
      ensures Valid() && runningAckEventIds == old(runningAckEventIds)
      ensures dispatched == old(dispatched) && confirmed == old(confirmed)
      ensures var known := ackId in old(runningAckEventIds) || ackId in old(pendingAckEventIds);
        accepted == old(accepted) + (if known then [] else [ackId])
      ensures ackId in runningAckEventIds || ackId in pendingAckEventIds
    {
      if ackId in runningAckEventIds || ackId in pendingAckEventIds {
        return;
      }
      pendingAckEventIds := pendingAckEventIds + [ackId];
      accepted := accepted + [ackId];
      PostAckPendingEvents();
    }

    /** Only the confirmation of an id that runs counts. */
    method OnAcked(acknowledgeId: EventId)
      requires Valid()
      modifies this
      ensures Valid() && runningAckEventIds == old(runningAckEventIds) - {acknowledgeId}
      ensures pendingAckEventIds == old(pendingAckEventIds)
      ensures accepted == old(accepted) && dispatched == old(dispatched)
      ensures confirmed == old(confirmed) + (if acknowledgeId in old(runningAckEventIds) then [acknowledgeId] else [])
    {
      if acknowledgeId in runningAckEventIds {
        runningAckEventIds := runningAckEventIds - {acknowledgeId};
        confirmed := confirmed + [acknowledgeId];
        PostAckPendingEvents();
      }
    }

    /** A task on its way stays on its way. */
    method Reset()
      requires Valid()
      modifies this
      ensures Valid() && !IsAcking() && ackPending == old(ackPending) && accepted == []
    {
      runningAckEventIds := {};
      pendingAckEventIds := [];
      accepted, dispatched, confirmed := [], [], [];
    }
  }

  lemma FirstIsNew(waiting: seq<EventId>)
    requires Distinct(waiting) && waiting != []
    ensures waiting[0] !in waiting[1..] && Distinct(waiting[1..])
  {
  }

  lemma OneMore(running: set<EventId>, was: set<EventId>, sent: seq<EventId>, id: EventId)
    requires id !in running && multiset(running) == multiset(was) + multiset(sent)
    ensures multiset(running + {id}) == multiset(was) + multiset(sent + [id])
  {
    assert multiset(running + {id}) == multiset(running) + multiset{id};
    assert multiset(sent + [id]) == multiset(sent) + multiset{id};
  }

  lemma Sent(dispatched: seq<EventId>, was: set<EventId>, confirmed: seq<EventId>, ids: seq<EventId>,
             running: set<EventId>)
    requires multiset(dispatched) == multiset(was) + multiset(confirmed)
    requires multiset(running) == multiset(was) + multiset(ids)
    ensures multiset(dispatched + ids) == multiset(running) + multiset(confirmed)
  {
    assert multiset(dispatched + ids) == multiset(dispatched) + multiset(ids);
  }
}
