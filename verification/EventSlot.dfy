/**
 The critical sections of rmw_zzdds's event accounting, as functions of the part
 of an endpoint's state that belongs to one event type. `reply` is what the
 zzdds status getter returned inside the section, None when it failed.
 */
module EventSlot {
  import opened Options
  import opened EventStatus

  /** A registered callback together with its user data. */
  datatype Callback = Callback(code: nat, userData: nat)

  datatype Guard = NoGuard | GuardCondition(trigger: bool)

  datatype Slot = Slot(
    guard: Guard,
    callback: Option<Callback>,
    count: nat,       // size_t event_count
    reported: nat,    // size_t event_reported
    stored: Status)

  /** The callback invocation that follows a section, after the mutex is released. */
  datatype Telling = Silent | Tell(callback: Callback, events: nat)

  function Fresh(k: Kind): Slot {
    Slot(NoGuard, None, 0, 0, Zero(k))
  }

  predicate Fits(reply: Option<Status>, slot: Slot) {
    reply.Some? ==> reply.value.Kind() == slot.stored.Kind()
  }

  function ReadStatus(slot: Slot, reply: Option<Status>): (r: Slot)
    requires Fits(reply, slot)
    ensures r.stored.Kind() == slot.stored.Kind()
  {
    if reply.None? then slot else slot.(stored := AddChanges(slot.stored, reply.value))
  }

  /** Setting the trigger of a guard condition that does not exist is an ignored
      error. */
  function SetTrigger(guard: Guard, value: bool): Guard {
    if guard.NoGuard? then NoGuard else GuardCondition(value)
  }

  function CountEvents(slot: Slot, added: nat): (Slot, Telling) {
    var counted := slot.(
      count := SizeT(slot.count + added),
      guard := SetTrigger(slot.guard, true));
    match slot.callback
    case None => (counted, Silent)
    case Some(callback) =>
      (counted.(reported := SizeT(slot.reported + added)), Tell(callback, added))
  }

  /** The untaken events not counted yet. */
  function Uncounted(slot: Slot): nat {
    var untaken := UntakenEvents(slot.stored);
    if untaken > slot.count then untaken - slot.count else 0
  }

  /** A listener of an exact status fired. */
  function OnCountedStatus(slot: Slot, reply: Option<Status>): (Slot, Telling)
    requires Fits(reply, slot)
  {
    var read := ReadStatus(slot, reply);
    var added := Uncounted(read);
    if added == 0 then (read, Silent) else CountEvents(read, added)
  }

  /** The liveliness-changed listener fired, with `passed` the alive and not
      alive counts of the status zzdds handed to it. */
  function OnLivelinessChanged(slot: Slot, reply: Option<Status>, passed: Pair): (Slot, Telling)
    requires Fits(reply, slot)
  {
    var read := ReadStatus(slot, reply);
    if passed == read.stored.Counts().Minus(read.stored.Changes()) then (read, Silent)
    else CountEvents(read, 1)
  }

  function OnListener(slot: Slot, reply: Option<Status>, passed: Pair): (Slot, Telling)
    requires Fits(reply, slot)
  {
    if Exact(slot.stored.Kind()) then OnCountedStatus(slot, reply)
    else OnLivelinessChanged(slot, reply, passed)
  }

  /** A matched count is queried. */
  function OnMatchedQuery(slot: Slot, reply: Option<Status>): (Slot, Telling)
    requires Fits(reply, slot)
  {
    if reply.None? then (slot, Silent) else
    var read := ReadStatus(slot, reply);
    if read.guard.NoGuard? then (read, Silent) else
    var added := Uncounted(read);
    if added == 0 then (read, Silent) else CountEvents(read, added)
  }

  function MatchedCount(s: Status): nat
    requires s.MatchedStatus?
  {
    if s.current < 0 then 0 else SizeT(s.current)
  }

  /** The first section of registering or clearing a callback. */
  function OnSetCallback(slot: Slot, callback: Option<Callback>): Slot {
    slot.(callback := callback)
  }

  /** The second section: a registered callback is told about the events no
      callback has been told about yet. The subtraction is that of size_t. */
  function OnAfterSetCallback(slot: Slot): (Slot, Telling) {
    match slot.callback
    case None => (slot, Silent)
    case Some(callback) =>
      var unreported := SizeT(slot.count - slot.reported);
      (slot.(reported := slot.count),
       if unreported != 0 then Tell(callback, unreported) else Silent)
  }

  /** The first section of initialising an event. */
  function OnCreateGuard(slot: Slot): Slot {
    if slot.guard.NoGuard? then slot.(guard := GuardCondition(false)) else slot
  }

  /** The last section of initialising an event, after its listener has been
      installed. */
  function OnFinishInit(slot: Slot, reply: Option<Status>): Slot
    requires Fits(reply, slot)
  {
    var read := ReadStatus(slot, reply);
    var count := if read.count == 0 then UntakenEvents(read.stored) else read.count;
    read.(count := count, guard := SetTrigger(read.guard, count != 0))
  }

  /** What a take hands out. Only the matched and message-lost statuses convert
      their counts to size_t; current_count_change stays signed. */
  function Handed(s: Status): (r: Status)
    ensures r.Kind() == s.Kind()
  {
    match s
    case MatchedStatus(t, tc, c, cc, l) => MatchedStatus(SizeT(t), SizeT(tc), SizeT(c), cc, l)
    case LivelinessStatus(_, _, _, _, _) => s
    case CountStatus(t, tc) => CountStatus(SizeT(t), SizeT(tc))
    case CountLastStatus(_, _, _) => s
  }

  /** A take; without a reply it fails and hands out nothing. */
  function OnTake(slot: Slot, reply: Option<Status>): (Slot, Option<Status>)
    requires Fits(reply, slot)
  {
    if reply.None? then (slot, None) else
    var read := ReadStatus(slot, reply);
    (read.(stored := read.stored.WithoutChanges(), count := 0, reported := 0,
           guard := SetTrigger(read.guard, false)),
     Some(Handed(read.stored)))
  }

  /** Neither count is negative or too large for size_t. */
  predicate InRange(p: Pair) {
    0 <= p.first < SIZE_LIMIT && 0 <= p.second < SIZE_LIMIT
  }

  // ---------------------------------------------------------------------------
  // What the sections leave behind, written out

  /** A successful reading takes over the counts and adds what changed. */
  lemma ReadingAdds(slot: Slot, reply: Option<Status>)
    requires Fits(reply, slot)
    ensures var t := ReadStatus(slot, reply);
            && t == slot.(stored := t.stored)
            && (reply.None? ==> t == slot)
            && (reply.Some? ==>
                  && t.stored.Counts() == reply.value.Counts()
                  && t.stored.Changes() == slot.stored.Changes().Plus(reply.value.Counts().Minus(slot.stored.Counts())))
  {
  }

  /** Counting triggers the guard, and tells a callback what it counts. */
  lemma CountingTriggers(slot: Slot, added: nat)
    requires slot.count + added < SIZE_LIMIT && slot.reported + added < SIZE_LIMIT
    ensures var (t, telling) := CountEvents(slot, added);
            && telling == (if slot.callback.Some? then Tell(slot.callback.value, added) else Silent)
            && t == slot.(count := slot.count + added,
                          reported := if slot.callback.Some? then slot.reported + added else slot.reported,
                          guard := if slot.guard.NoGuard? then NoGuard else GuardCondition(true))
  {
  }

  /** The count and the telling that a section leaves when it finds `added` more
      events. */
  predicate Adds(slot: Slot, added: nat, t: Slot, telling: Telling) {
    && t == slot.(stored := t.stored,
                  count := slot.count + added,
                  reported := if slot.callback.Some? then slot.reported + added else slot.reported,
                  guard := if slot.guard.NoGuard? || added == 0 then slot.guard else GuardCondition(true))
    && telling == if added == 0 || slot.callback.None? then Silent else Tell(slot.callback.value, added)
  }

  /** A listener, whether or not its reading succeeds, brings the count up to the
      untaken events of an exact status; for liveliness it counts one event unless
      the counts passed are those of the last take. A matched-count query with a
      successful reading does the first, if the event has a guard. */
  lemma ListeningCounts(slot: Slot, reply: Option<Status>, passed: Pair)
    requires Fits(reply, slot)
    requires slot.reported <= slot.count < SIZE_LIMIT - 1
    ensures var read := ReadStatus(slot, reply).stored;
            var untaken := UntakenEvents(read);
            var missing := if untaken > slot.count then untaken - slot.count else 0;
            var (t, telling) := OnListener(slot, reply, passed);
            && t.stored == read
            && (!read.LivelinessStatus? ==> Adds(slot, missing, t, telling))
            && (read.LivelinessStatus? ==>
                  var same := && passed.first == read.alive - read.aliveChange
                              && passed.second == read.notAlive - read.notAliveChange;
                  Adds(slot, if same then 0 else 1, t, telling))
            && var (u, told) := OnMatchedQuery(slot, reply);
               && u.stored == read
               && Adds(slot, if reply.None? || slot.guard.NoGuard? then 0 else missing, u, told)
  {
  }

  /** The second section of a registration tells a callback what no callback was
      told. */
  lemma RegistrationTells(slot: Slot)
    requires slot.reported <= slot.count < SIZE_LIMIT
    ensures var (t, telling) := OnAfterSetCallback(slot);
            && (slot.callback.None? ==> t == slot && telling == Silent)
            && (slot.callback.Some? ==>
                  && t == slot.(reported := slot.count)
                  && telling == if slot.reported == slot.count then Silent
                                else Tell(slot.callback.value, slot.count - slot.reported))
  {
  }

  /** An initialisation creates a missing guard untriggered, and at its end fills in
      a zero count and sets the trigger accordingly. */
  lemma InitialisationFills(slot: Slot, reply: Option<Status>)
    requires Fits(reply, slot)
    ensures OnCreateGuard(slot) == slot.(guard := if slot.guard.NoGuard? then GuardCondition(false) else slot.guard)
    ensures var t := OnFinishInit(slot, reply);
            && t == slot.(stored := t.stored, count := t.count, guard := t.guard)
            && t.stored == ReadStatus(slot, reply).stored
            && t.count == (if slot.count == 0 then UntakenEvents(t.stored) else slot.count)
            && t.guard == (if slot.guard.NoGuard? then NoGuard else GuardCondition(t.count != 0))
  {
  }

  /** A take that fails changes nothing; one that succeeds hands out a status with the
      counts zzdds reports and all changes, of which none is left, and forgets the
      count, the reported count and the trigger. Only counts and a total change that
      size_t cannot hold come out different. */
  lemma TakeResets(slot: Slot, reply: Option<Status>)
    requires Fits(reply, slot)
    ensures reply.None? ==> OnTake(slot, reply) == (slot, None)
    ensures reply.Some? ==>
              var (t, output) := OnTake(slot, reply);
              && t == slot.(stored := t.stored, count := 0, reported := 0,
                            guard := if slot.guard.NoGuard? then NoGuard else GuardCondition(false))
              && t.stored.Counts() == reply.value.Counts() && t.stored.Changes() == Pair(0, 0)
              && output.Some? && output.value.Kind() == slot.stored.Kind()
    ensures reply.Some? && InRange(reply.value.Counts())
            && 0 <= ReadStatus(slot, reply).stored.Changes().first < SIZE_LIMIT ==>
              OnTake(slot, reply).1 == Some(ReadStatus(slot, reply).stored)
  {
  }
}
