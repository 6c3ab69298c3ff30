/**
 An endpoint (PublisherImpl or SubscriptionImpl) with the state its events
 update in place under event_mutex. Every method is one critical section; its
 contract ties the state of the section's event type to the section's function
 in EventSlot, which is what the protocol steps are made of, and says that no
 other event type of the endpoint is touched.
 */
module EventEndpoint {
  import opened Options
  import opened EventStatus
  import opened EventSlot

  const EVENT_TYPES: nat := 9

  function Index(t: EventType): (i: nat)
    ensures i < EVENT_TYPES
  {
    match t
    case PublicationMatched => 0
    case LivelinessLost => 1
    case OfferedDeadlineMissed => 2
    case OfferedQosIncompatible => 3
    case SubscriptionMatched => 4
    case LivelinessChanged => 5
    case RequestedDeadlineMissed => 6
    case RequestedQosIncompatible => 7
    case MessageLost => 8
  }

  class Endpoint {
    const guards: array<Guard>
    const callbacks: array<Option<Callback>>
    const counts: array<nat>
    const reported: array<nat>
    /** The stored status of every event type; the source has one field each. */
    const statuses: array<Status>

    ghost predicate Valid()
      reads statuses
    {
      && guards.Length == callbacks.Length == counts.Length == reported.Length == EVENT_TYPES
      && statuses.Length == EVENT_TYPES
      && counts != reported
      && forall t: EventType :: statuses[Index(t)].Kind() == KindOf(t)
    }

    ghost function SlotOf(t: EventType): (slot: Slot)
      reads guards, callbacks, counts, reported, statuses
      requires Valid()
      ensures slot.stored.Kind() == KindOf(t)
    {
      var i := Index(t);
      Slot(guards[i], callbacks[i], counts[i], reported[i], statuses[i])
    }

    constructor ()
      ensures Valid() && fresh(guards) && fresh(callbacks) && fresh(counts) && fresh(reported) && fresh(statuses)
      ensures forall t: EventType :: SlotOf(t) == Fresh(KindOf(t))
    {
      guards := new Guard[EVENT_TYPES](_ => NoGuard);
      callbacks := new Option<Callback>[EVENT_TYPES](_ => None);
      counts := new nat[EVENT_TYPES](_ => 0);
      reported := new nat[EVENT_TYPES](_ => 0);
      statuses := new Status[EVENT_TYPES](i =>
        Zero(if i == 0 || i == 4 then Matching else if i == 5 then Liveness
             else if i == 1 || i == 8 then Counting else CountingLast));
      new;
      forall t: EventType ensures statuses[Index(t)] == Zero(KindOf(t)) {
        match t
        case PublicationMatched | SubscriptionMatched =>
        case LivelinessChanged =>
        case LivelinessLost | MessageLost =>
        case OfferedDeadlineMissed | RequestedDeadlineMissed =>
        case OfferedQosIncompatible | RequestedQosIncompatible =>
      }
    }

    /** The types other than t keep their whole state. */
    twostate predicate OnlyTouches(t: EventType)
      reads this, guards, callbacks, counts, reported, statuses
      requires old(Valid()) && Valid()
    {
      forall u: EventType | u != t :: SlotOf(u) == old(SlotOf(u))
    }

    method ReadStatus(t: EventType, reply: Option<Status>) returns (ok: bool)
      requires Valid() && (reply.Some? ==> reply.value.Kind() == KindOf(t))
      modifies statuses
      ensures Valid() && ok == reply.Some?
      ensures SlotOf(t) == EventSlot.ReadStatus(old(SlotOf(t)), reply)
      ensures OnlyTouches(t)
    {
      if reply.None? {
        return false;
      }
      statuses[Index(t)] := AddChanges(statuses[Index(t)], reply.value);
      return true;
    }

    method SetTrigger(t: EventType, value: bool)
      requires Valid()
      modifies guards
      ensures guards[Index(t)] == EventSlot.SetTrigger(old(guards[Index(t)]), value)
      ensures forall i | 0 <= i < guards.Length && i != Index(t) :: guards[i] == old(guards[i])
    {
      if guards[Index(t)].GuardCondition? {
        guards[Index(t)] := GuardCondition(value);
      }
    }

    method CountEventsLocked(t: EventType, added: nat) returns (telling: Telling)
      requires Valid()
      modifies guards, counts, reported
      ensures (SlotOf(t), telling) == CountEvents(old(SlotOf(t)), added)
      ensures OnlyTouches(t)
    {
      var i := Index(t);
      counts[i] := SizeT(counts[i] + added);
      SetTrigger(t, true);
      if callbacks[i].None? {
        return Silent;
      }
      reported[i] := SizeT(reported[i] + added);
      return Tell(callbacks[i].value, added);
    }

    /** What has to be added for the count to include everything untaken; a count
        that is ahead of the stored status stays. */
    method UncountedEvents(t: EventType) returns (added: nat)
      requires Valid()
      ensures var slot := SlotOf(t);
              slot.count + added == if UntakenEvents(slot.stored) > slot.count then UntakenEvents(slot.stored)
                                    else slot.count
    {
      var untaken := UntakenEvents(statuses[Index(t)]);
      added := if untaken > counts[Index(t)] then untaken - counts[Index(t)] else 0;
    }

    method OnStatus(t: EventType, reply: Option<Status>, passed: Pair) returns (telling: Telling)
      requires Valid() && (reply.Some? ==> reply.value.Kind() == KindOf(t))
      modifies guards, counts, reported, statuses
      ensures Valid()
      ensures (SlotOf(t), telling) == OnListener(old(SlotOf(t)), reply, passed)
      ensures OnlyTouches(t)
    {
      var _ := ReadStatus(t, reply);
      var added: nat;
      if t != LivelinessChanged {
        added := UncountedEvents(t);
      } else {
        var stored := statuses[Index(t)];
        var changed := passed.first != stored.alive - stored.aliveChange
                    || passed.second != stored.notAlive - stored.notAliveChange;
        added := if changed then 1 else 0;
      }
      if added == 0 {
        return Silent;
      }
      telling := CountEventsLocked(t, added);
    }

    method ReadMatchedCount(t: EventType, reply: Option<Status>)
      returns (count: Option<nat>, telling: Telling)
      requires Valid() && KindOf(t) == Matching
      requires reply.Some? ==> reply.value.Kind() == Matching
      modifies guards, counts, reported, statuses
      ensures Valid()
      ensures (SlotOf(t), telling) == OnMatchedQuery(old(SlotOf(t)), reply)
      ensures count == if reply.None? then None else Some(MatchedCount(SlotOf(t).stored))
      ensures OnlyTouches(t)
    {
      var ok := ReadStatus(t, reply);
      if !ok {
        return None, Silent;
      }
      var stored := statuses[Index(t)];
      count := Some(if stored.current < 0 then 0 else SizeT(stored.current));
      if guards[Index(t)].NoGuard? {
        return count, Silent;
      }
      var added := UncountedEvents(t);
      if added == 0 {
        return count, Silent;
      }
      telling := CountEventsLocked(t, added);
    }

    method SetCallback(t: EventType, callback: Option<Callback>)
      requires Valid()
      modifies callbacks
      ensures SlotOf(t) == OnSetCallback(old(SlotOf(t)), callback)
      ensures SlotOf(t) == old(SlotOf(t)).(callback := callback)
      ensures OnlyTouches(t)
    {
      callbacks[Index(t)] := callback;
    }

    method AfterSetCallback(t: EventType) returns (telling: Telling)
      requires Valid()
      modifies reported
      ensures (SlotOf(t), telling) == OnAfterSetCallback(old(SlotOf(t)))
      ensures OnlyTouches(t)
    {
      var i := Index(t);
      telling := Silent;
      if callbacks[i].Some? {
        var count: int, told: int := counts[i], reported[i];
        var unreported := SizeT(count - told);
        reported[i] := counts[i];
        if unreported != 0 {
          telling := Tell(callbacks[i].value, unreported);
        }
      }
    }

    /** The first section of initialize_event; `created` is whether zzdds can
        create a guard condition. */
    method CreateGuard(t: EventType, created: bool) returns (ok: bool)
      requires Valid()
      modifies guards
      ensures ok <==> created || old(SlotOf(t)).guard.GuardCondition?
      ensures SlotOf(t) == if ok then OnCreateGuard(old(SlotOf(t))) else old(SlotOf(t))
      ensures OnlyTouches(t)
    {
      if guards[Index(t)].NoGuard? && created {
        guards[Index(t)] := GuardCondition(false);
      }
      ok := guards[Index(t)].GuardCondition?;
    }

    /** The mask of the listener to install: the status of every event type in
        `types` that has a guard. */
    method ListenerMask(types: seq<EventType>) returns (mask: set<EventType>)
      requires Valid()
      ensures forall t: EventType :: t in mask <==> t in types && SlotOf(t).guard.GuardCondition?
    {
      mask := {};
      for n := 0 to |types|
        invariant forall t: EventType :: t in mask <==> t in types[..n] && SlotOf(t).guard.GuardCondition?
      {
        assert types[..n + 1] == types[..n] + [types[n]];
        if guards[Index(types[n])].GuardCondition? {
          mask := mask + {types[n]};
        }
      }
      assert types[..|types|] == types;
    }

    /** The last section of initialize_event. */
    method FinishInit(t: EventType, reply: Option<Status>)
      requires Valid() && (reply.Some? ==> reply.value.Kind() == KindOf(t))
      modifies guards, counts, statuses
      ensures Valid()
      ensures SlotOf(t) == OnFinishInit(old(SlotOf(t)), reply)
      ensures OnlyTouches(t)
    {
      var i := Index(t);
      var _ := ReadStatus(t, reply);
      if counts[i] == 0 {
        counts[i] := UntakenEvents(statuses[i]);
      }
      SetTrigger(t, counts[i] != 0);
    }

    method TakeEvent(t: EventType, reply: Option<Status>) returns (output: Option<Status>)
      requires Valid() && (reply.Some? ==> reply.value.Kind() == KindOf(t))
      modifies guards, counts, reported, statuses
      ensures Valid()
      ensures (SlotOf(t), output) == OnTake(old(SlotOf(t)), reply)
      ensures OnlyTouches(t)
    {
      var ok := ReadStatus(t, reply);
      if !ok {
        return None;
      }
      var i := Index(t);
      match statuses[i] {
        case MatchedStatus(total, totalChange, current, currentChange, last) =>
          output := Some(MatchedStatus(SizeT(total), SizeT(totalChange), SizeT(current), currentChange, last));
          statuses[i] := MatchedStatus(total, 0, current, 0, last);
        case LivelinessStatus(alive, _, notAlive, _, last) =>
          output := Some(statuses[i]);
          statuses[i] := LivelinessStatus(alive, 0, notAlive, 0, last);
        case CountStatus(total, totalChange) =>
          output := Some(CountStatus(SizeT(total), SizeT(totalChange)));
          statuses[i] := CountStatus(total, 0);
        case CountLastStatus(total, _, last) =>
          output := Some(statuses[i]);
          statuses[i] := CountLastStatus(total, 0, last);
      }
      counts[i] := 0;
      reported[i] := 0;
      SetTrigger(t, false);
    }
  }
}
