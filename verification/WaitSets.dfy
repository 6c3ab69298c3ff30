/**
 rmw_wait: attaches the conditions of five arrays to a native wait set, waits,
 detaches them all, and leaves in the arrays the entries whose condition was
 active.
 */
module WaitSets {
  import opened Options
  import opened ReturnCodes
  import opened Durations

  class Condition {
    var trigger: bool
  }

  /** What an array of rmw_wait points to: the context the entity belongs to, if
      it is usable at all, and the condition that says it is ready. */
  datatype Entry = Entry(context: Option<int>, condition: Condition)

  type Entries = array<Option<Entry>>

  /** The zzdds wait set. Attaching an attached condition again has no effect,
      section 2.2.2.1.6 of OMG DDS 1.4; `refused` are the conditions that zzdds
      fails to attach. */
  class NativeWaitSet {
    const refused: set<Condition>
    var attached: set<Condition>

    method Attach(condition: Condition) returns (ok: bool)
      modifies this
      ensures ok <==> condition !in refused
      ensures attached == old(attached) + if ok then {condition} else {}
    {
      ok := condition !in refused;
      if ok {
        attached := attached + {condition};
      }
    }

    method Detach(condition: Condition)
      modifies this
      ensures attached == old(attached) - {condition}
    {
      attached := attached - {condition};
    }
  }

  class WaitSet {
    const context: int
    const native: NativeWaitSet
    const maxConditions: nat

    constructor (context: int, native: NativeWaitSet, maxConditions: nat)
      ensures this.context == context && this.native == native && this.maxConditions == maxConditions
    {
      this.context, this.native, this.maxConditions := context, native, maxConditions;
    }

    ghost predicate Refuses(entry: Entry) {
      entry.context != Some(context) || entry.condition in native.refused
    }
  }

  ghost predicate AllPresent(entries: seq<Option<Entry>>) {
    forall i | 0 <= i < |entries| :: entries[i].Some?
  }

  /** The conditions of the entries. */
  ghost function Conditions(entries: seq<Option<Entry>>): (conditions: set<Condition>) {
    set i | 0 <= i < |entries| && entries[i].Some? :: entries[i].value.condition
  }

  function ToSet(conditions: seq<Condition>): set<Condition> {
    set c | c in conditions
  }

  /** The error for the first of the entries that cannot be attached. */
  ghost function Refusal(waitSet: WaitSet, entries: seq<Option<Entry>>, events: bool): (code: Option<RmwCode>)
    requires AllPresent(entries)
    ensures code.None? <==> forall i | 0 <= i < |entries| :: !waitSet.Refuses(entries[i].value)
    ensures code.Some? ==> code.value.RmwInvalidArgument? || code.value.RmwError?
  {
    if entries == [] then None
    else if !waitSet.Refuses(entries[0].value) then Refusal(waitSet, entries[1..], events)
    else Some(if events || entries[0].value.context != Some(waitSet.context) then RmwInvalidArgument else RmwError)
  }

  lemma {:induction false} RefusalAt(waitSet: WaitSet, entries: seq<Option<Entry>>, events: bool, i: nat)
    requires AllPresent(entries) && i < |entries|
    requires forall k | 0 <= k < i :: !waitSet.Refuses(entries[k].value)
    requires waitSet.Refuses(entries[i].value)
    ensures Refusal(waitSet, entries, events)
         == Some(if events || entries[i].value.context != Some(waitSet.context) then RmwInvalidArgument else RmwError)
  {
    if i > 0 {
      assert entries[1..][i - 1] == entries[i];
      RefusalAt(waitSet, entries[1..], events, i - 1);
    }
  }

  lemma ConditionsGrow(entries: seq<Option<Entry>>, i: nat)
    requires AllPresent(entries) && i < |entries|
    ensures entries[..i + 1] == entries[..i] + [entries[i]]
    ensures Conditions(entries[..i + 1]) == Conditions(entries[..i]) + {entries[i].value.condition}
  {
    var grown := entries[..i + 1];
    forall c | c in Conditions(grown) ensures c in Conditions(entries[..i]) + {entries[i].value.condition} {
      var k :| 0 <= k < |grown| && grown[k].value.condition == c;
      assert k < i ==> entries[..i][k] == grown[k];
    }
    forall c | c in Conditions(entries[..i]) ensures c in Conditions(grown) {
      var k :| 0 <= k < i && entries[..i][k].value.condition == c;
      assert grown[k] == entries[..i][k];
    }
    assert grown[i] == entries[i];
  }

  lemma ConditionsWithin(entries: seq<Option<Entry>>, i: nat)
    requires i <= |entries|
    ensures Conditions(entries[..i]) <= Conditions(entries)
  {
    forall c | c in Conditions(entries[..i]) ensures c in Conditions(entries) {
      var k :| 0 <= k < i && entries[..i][k].Some? && entries[..i][k].value.condition == c;
      assert entries[k] == entries[..i][k];
    }
  }

  /** One of the five attach loops; `attached` grows by what it attaches. */
  method AttachAll(waitSet: WaitSet, entries: Entries, events: bool, before: seq<Condition>)
    returns (refusal: Option<RmwCode>, attached: seq<Condition>)
    requires AllPresent(entries[..]) && ToSet(before) <= waitSet.native.attached
    modifies waitSet.native
    ensures refusal == Refusal(waitSet, entries[..], events)
    ensures waitSet.native.attached == old(waitSet.native.attached) + ToSet(attached)
    ensures ToSet(before) <= ToSet(attached) <= ToSet(before) + Conditions(entries[..])
    ensures refusal.None? ==> ToSet(attached) == ToSet(before) + Conditions(entries[..])
  {
    attached := before;
    for i := 0 to entries.Length
      invariant forall k | 0 <= k < i :: !waitSet.Refuses(entries[k].value)
      invariant waitSet.native.attached == old(waitSet.native.attached) + ToSet(attached)
      invariant ToSet(attached) == ToSet(before) + Conditions(entries[..i])
    {
      var entry := entries[i].value;
      ConditionsGrow(entries[..], i);
      var ok := entry.context == Some(waitSet.context);
      if ok {
        ok := waitSet.native.Attach(entry.condition);
      }
      if !ok {
        RefusalAt(waitSet, entries[..], events, i);
        ConditionsWithin(entries[..], i);
        var code := if events || entry.context != Some(waitSet.context) then RmwInvalidArgument else RmwError;
        return Some(code), attached;
      }
      ghost var earlier := attached;
      attached := attached + [entry.condition];
      assert ToSet(attached) == ToSet(earlier) + {entry.condition};
    }
    assert entries[..entries.Length] == entries[..];
    return None, attached;
  }

  /** The loop that detaches everything that was attached. */
  method DetachAll(waitSet: WaitSet, attached: seq<Condition>)
    modifies waitSet.native
    ensures waitSet.native.attached == old(waitSet.native.attached) - ToSet(attached)
  {
    for i := 0 to |attached|
      invariant waitSet.native.attached == old(waitSet.native.attached) - ToSet(attached[..i])
    {
      waitSet.native.Detach(attached[i]);
      assert attached[..i + 1] == attached[..i] + [attached[i]];
    }
    assert attached[..|attached|] == attached;
  }

  /** The entries that a wait leaves: those whose condition was active. */
  ghost function Kept(entries: seq<Option<Entry>>, active: seq<Condition>): (kept: seq<Option<Entry>>)
    requires AllPresent(entries)
    ensures |kept| == |entries|
    ensures forall i | 0 <= i < |entries| ::
              kept[i] == if entries[i].value.condition in active then entries[i] else None
  {
    seq(|entries|, i requires 0 <= i < |entries| =>
      if entries[i].value.condition in active then entries[i] else None)
  }

  method Contains(active: seq<Condition>, condition: Condition) returns (found: bool)
    ensures found <==> condition in active
  {
    for i := 0 to |active|
      invariant condition !in active[..i]
    {
      if active[i] == condition {
        return true;
      }
      assert active[..i + 1] == active[..i] + [active[i]];
    }
    assert active[..|active|] == active;
    return false;
  }

  /** The result loop of the subscriptions, services, clients and events. */
  method KeepActive(entries: Entries, active: seq<Condition>)
    requires AllPresent(entries[..])
    modifies entries
    ensures entries[..] == Kept(old(entries[..]), active)
  {
    for i := 0 to entries.Length
      invariant forall k | 0 <= k < i :: entries[k] == Kept(old(entries[..]), active)[k]
      invariant forall k | i <= k < entries.Length :: entries[k] == old(entries[k])
    {
      var found := Contains(active, entries[i].value.condition);
      if !found {
        entries[i] := None;
      }
    }
  }

  /** The result loop of the guard conditions, which clears those that fired. */
  method KeepFired(guards: Entries, active: seq<Condition>)
    requires AllPresent(guards[..])
    modifies guards, Conditions(guards[..])`trigger
    ensures guards[..] == Kept(old(guards[..]), active)
    ensures forall c | c in Conditions(old(guards[..])) ::
              c.trigger == (old(c.trigger) && c !in active)
  {
    ghost var before, conditions := guards[..], Conditions(guards[..]);
    for i := 0 to guards.Length
      invariant forall k | 0 <= k < i :: guards[k] == Kept(before, active)[k]
      invariant forall k | i <= k < guards.Length :: guards[k] == before[k]
      invariant forall c | c in conditions ::
                  c.trigger == (old(c.trigger) && !(c in active && c in Conditions(before[..i])))
    {
      var condition := guards[i].value.condition;
      assert before[i].value.condition in conditions;
      ConditionsGrow(before, i);
      var found := Contains(active, condition);
      if found {
        condition.trigger := false;
      } else {
        guards[i] := None;
      }
    }
    assert before[..guards.Length] == before;
  }

  datatype WaitResult = WaitResult(code: DdsCode, active: seq<Condition>)

  /** The arrays of a call; absent ones are empty. */
  datatype Arrays = Arrays(
    subscriptions: Entries, guards: Entries, services: Entries, clients: Entries, events: Entries)
  {
    ghost predicate Distinct() {
      |{subscriptions, guards, services, clients, events}| == 5
    }

    ghost predicate Present()
      reads subscriptions, guards, services, clients, events
    {
      && AllPresent(subscriptions[..]) && AllPresent(guards[..]) && AllPresent(services[..])
      && AllPresent(clients[..]) && AllPresent(events[..])
    }

    function Count(): nat {
      subscriptions.Length + guards.Length + services.Length + clients.Length + events.Length
    }

    /** The conditions of all entries. */
    ghost function Watched(): set<Condition>
      reads subscriptions, guards, services, clients, events
    {
      Conditions(subscriptions[..]) + Conditions(guards[..]) + Conditions(services[..])
      + Conditions(clients[..]) + Conditions(events[..])
    }

    /** The error of the first entry that cannot be attached. */
    ghost function FirstRefusal(waitSet: WaitSet): (code: Option<RmwCode>)
      reads subscriptions, guards, services, clients, events
      requires Present()
      ensures code.Some? ==> code.value.RmwInvalidArgument? || code.value.RmwError?
    {
      var s, g := Refusal(waitSet, subscriptions[..], false), Refusal(waitSet, guards[..], false);
      var v, c := Refusal(waitSet, services[..], false), Refusal(waitSet, clients[..], false);
      if s.Some? then s else if g.Some? then g else if v.Some? then v else if c.Some? then c
      else Refusal(waitSet, events[..], true)
    }
  }

  method ValidateArray(entries: Entries) returns (ok: bool)
    ensures ok <==> AllPresent(entries[..])
    ensures ok <==> None !in entries[..]
  {
    for i := 0 to entries.Length
      invariant AllPresent(entries[..i])
    {
      if entries[i].None? {
        assert entries[..][i].None?;
        return false;
      }
      assert entries[..i + 1] == entries[..i] + [entries[i]];
    }
    assert entries[..entries.Length] == entries[..];
    return true;
  }

  /** The five attach loops, up to the first entry that cannot be attached. */
  method AttachArrays(waitSet: WaitSet, arrays: Arrays) returns (refusal: Option<RmwCode>, attached: seq<Condition>)
    requires arrays.Present()
    modifies waitSet.native
    ensures refusal == arrays.FirstRefusal(waitSet)
    ensures waitSet.native.attached == old(waitSet.native.attached) + ToSet(attached)
    ensures refusal.None? ==> ToSet(attached) == arrays.Watched()
    ensures ToSet(attached) <= arrays.Watched()
  {
    hide Refusal, Conditions, AllPresent;
    refusal, attached := AttachAll(waitSet, arrays.subscriptions, false, []);
    if refusal.Some? { return; }
    refusal, attached := AttachAll(waitSet, arrays.guards, false, attached);
    if refusal.Some? { return; }
    refusal, attached := AttachAll(waitSet, arrays.services, false, attached);
    if refusal.Some? { return; }
    refusal, attached := AttachAll(waitSet, arrays.clients, false, attached);
    if refusal.Some? { return; }
    refusal, attached := AttachAll(waitSet, arrays.events, true, attached);
  }

  /** The five result loops. */
  method KeepArrays(arrays: Arrays, active: seq<Condition>)
    requires arrays.Present() && arrays.Distinct()
    modifies arrays.subscriptions, arrays.guards, arrays.services, arrays.clients, arrays.events
    modifies Conditions(arrays.guards[..])`trigger
    ensures arrays.subscriptions[..] == Kept(old(arrays.subscriptions[..]), active)
    ensures arrays.guards[..] == Kept(old(arrays.guards[..]), active)
    ensures arrays.services[..] == Kept(old(arrays.services[..]), active)
    ensures arrays.clients[..] == Kept(old(arrays.clients[..]), active)
    ensures arrays.events[..] == Kept(old(arrays.events[..]), active)
    ensures forall c | c in Conditions(old(arrays.guards[..])) :: c.trigger == (old(c.trigger) && c !in active)
  {
    KeepActive(arrays.subscriptions, active);
    KeepFired(arrays.guards, active);
    KeepActive(arrays.services, active);
    KeepActive(arrays.clients, active);
    KeepActive(arrays.events, active);
  }

  method ValidateArrays(arrays: Arrays) returns (ok: bool)
    ensures ok <==> arrays.Present()
    ensures ok <==> && None !in arrays.subscriptions[..] && None !in arrays.guards[..] && None !in arrays.services[..]
                    && None !in arrays.clients[..] && None !in arrays.events[..]
  {
    ok := ValidateArray(arrays.subscriptions);
    if !ok { return; }
    ok := ValidateArray(arrays.guards);
    if !ok { return; }
    ok := ValidateArray(arrays.services);
    if !ok { return; }
    ok := ValidateArray(arrays.clients);
    if !ok { return; }
    ok := ValidateArray(arrays.events);
  }

  lemma NoneRefused(waitSet: WaitSet, entries: seq<Option<Entry>>, events: bool)
    requires AllPresent(entries)
    ensures Refusal(waitSet, entries, events).None? <==>
              forall k | 0 <= k < |entries| ::
                && entries[k].value.context == Some(waitSet.context)
                && entries[k].value.condition !in waitSet.native.refused
  {
    hide Refusal;
    assert forall k | 0 <= k < |entries| ::
        waitSet.Refuses(entries[k].value) <==>
          || entries[k].value.context != Some(waitSet.context)
          || entries[k].value.condition in waitSet.native.refused;
  }

  lemma InOrder(waitSet: WaitSet, arrays: Arrays, parts: seq<seq<Option<Entry>>>)
    requires arrays.Present()
    requires parts == [arrays.subscriptions[..], arrays.guards[..], arrays.services[..], arrays.clients[..],
                       arrays.events[..]]
    ensures forall p | 0 <= p < 5 :: AllPresent(parts[p])
    ensures arrays.FirstRefusal(waitSet) ==
              if Refusal(waitSet, parts[0], false).Some? then Refusal(waitSet, parts[0], false)
              else if Refusal(waitSet, parts[1], false).Some? then Refusal(waitSet, parts[1], false)
              else if Refusal(waitSet, parts[2], false).Some? then Refusal(waitSet, parts[2], false)
              else if Refusal(waitSet, parts[3], false).Some? then Refusal(waitSet, parts[3], false)
              else Refusal(waitSet, parts[4], true)
  {
    hide Refusal;
  }

  /** The arrays are gone through in this order: the error is that of the first
      entry, in the first array that has one, of another context or with a
      condition that zzdds refuses. */
  lemma FirstRefusalAt(waitSet: WaitSet, arrays: Arrays, parts: seq<seq<Option<Entry>>>, part: nat, i: nat)
    requires arrays.Present()
    requires parts == [arrays.subscriptions[..], arrays.guards[..], arrays.services[..], arrays.clients[..],
                       arrays.events[..]]
    requires part < 5 && i < |parts[part]|
    requires forall p, k | 0 <= p < 5 && 0 <= k < |parts[p]| && (p < part || (p == part && k < i)) ::
               && parts[p][k].value.context == Some(waitSet.context)
               && parts[p][k].value.condition !in waitSet.native.refused
    requires || parts[part][i].value.context != Some(waitSet.context)
             || parts[part][i].value.condition in waitSet.native.refused
    ensures arrays.FirstRefusal(waitSet)
         == Some(if part == 4 || parts[part][i].value.context != Some(waitSet.context)
                 then RmwInvalidArgument else RmwError)
  {
    hide Refusal;
    forall p | 0 <= p < part ensures Refusal(waitSet, parts[p], false).None? {
      NoneRefused(waitSet, parts[p], false);
    }
    RefusalAt(waitSet, parts[part], part == 4, i);
    InOrder(waitSet, arrays, parts);
  }

  lemma NoRefusal(waitSet: WaitSet, arrays: Arrays, parts: seq<seq<Option<Entry>>>)
    requires arrays.Present()
    requires parts == [arrays.subscriptions[..], arrays.guards[..], arrays.services[..], arrays.clients[..],
                       arrays.events[..]]
    ensures arrays.FirstRefusal(waitSet).None? <==>
              forall p, k | 0 <= p < 5 && 0 <= k < |parts[p]| ::
                && parts[p][k].value.context == Some(waitSet.context)
                && parts[p][k].value.condition !in waitSet.native.refused
  {
    hide Refusal;
    forall p | 0 <= p < 5
      ensures Refusal(waitSet, parts[p], p == 4).None? <==>
                forall k | 0 <= k < |parts[p]| ::
                  && parts[p][k].value.context == Some(waitSet.context)
                  && parts[p][k].value.condition !in waitSet.native.refused
    {
      NoneRefused(waitSet, parts[p], p == 4);
    }
    InOrder(waitSet, arrays, parts);
  }

  /**
   rmw_wait. Whatever happens, no condition stays attached that was not before.
   If the wait was carried out, an entry stays exactly when its condition was
   active, and of all triggers only those of guard conditions that fired are
   cleared. Otherwise nothing changes.
   */
  method Wait(waitSet: WaitSet, arrays: Arrays, timeout: Option<Time>, reserved: bool, result: WaitResult)
    returns (code: RmwCode)
    requires arrays.Distinct()
    modifies waitSet.native
    modifies arrays.subscriptions, arrays.guards, arrays.services, arrays.clients, arrays.events
    modifies Conditions(arrays.guards[..])`trigger
    ensures waitSet.native.attached <= old(waitSet.native.attached)
    ensures old(waitSet.native.attached) - old(arrays.Watched()) <= waitSet.native.attached
    ensures code ==
              if || None in old(arrays.subscriptions[..]) || None in old(arrays.guards[..])
                 || None in old(arrays.services[..]) || None in old(arrays.clients[..])
                 || None in old(arrays.events[..]) then RmwInvalidArgument
              else if waitSet.maxConditions != 0
                      && arrays.subscriptions.Length + arrays.guards.Length + arrays.services.Length
                         + arrays.clients.Length + arrays.events.Length > waitSet.maxConditions then RmwInvalidArgument
              else if timeout.Some?
                      && timeout.value.sec * 1_000_000_000 + timeout.value.nsec >= 2147483648 * 1_000_000_000
                   then RmwInvalidArgument
              else if !reserved then RmwBadAlloc
              else match old(arrays.FirstRefusal(waitSet))
                   case Some(refusal) => refusal
                   case None =>
                     if result.code.DdsOk? then RmwOk else if result.code.DdsTimeout? then RmwTimeout else RmwError
    ensures code.RmwOk? || code.RmwTimeout? ==>
              && arrays.subscriptions[..] == Kept(old(arrays.subscriptions[..]), result.active)
              && arrays.guards[..] == Kept(old(arrays.guards[..]), result.active)
              && arrays.services[..] == Kept(old(arrays.services[..]), result.active)
              && arrays.clients[..] == Kept(old(arrays.clients[..]), result.active)
              && arrays.events[..] == Kept(old(arrays.events[..]), result.active)
    ensures code.RmwOk? || code.RmwTimeout? ==>
              forall c | c in Conditions(old(arrays.guards[..])) :: c.trigger == (old(c.trigger) && c !in result.active)
    ensures !code.RmwOk? && !code.RmwTimeout? ==>
              && arrays.subscriptions[..] == old(arrays.subscriptions[..])
              && arrays.guards[..] == old(arrays.guards[..])
              && arrays.services[..] == old(arrays.services[..])
              && arrays.clients[..] == old(arrays.clients[..])
              && arrays.events[..] == old(arrays.events[..])
              && forall c | c in Conditions(old(arrays.guards[..])) :: c.trigger == old(c.trigger)
  {
    hide AllPresent, Kept, Refusal;
    var valid := ValidateArrays(arrays);
    if !valid {
      return RmwInvalidArgument;
    }
    if waitSet.maxConditions != 0 && arrays.Count() > waitSet.maxConditions {
      return RmwInvalidArgument;
    }
    var duration := ToDdsDuration(timeout);
    if duration.None? {
      return RmwInvalidArgument;
    }
    if !reserved {
      return RmwBadAlloc;
    }
    var refusal, attached := AttachArrays(waitSet, arrays);
    if refusal.Some? {
      DetachAll(waitSet, attached);
      return refusal.value;
    }
    DetachAll(waitSet, attached);
    if !result.code.DdsOk? && !result.code.DdsTimeout? {
      return RmwError;
    }
    KeepArrays(arrays, result.active);
    return if result.code.DdsTimeout? then RmwTimeout else RmwOk;
  }
}
