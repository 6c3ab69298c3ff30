/**
 The event accounting as a concurrent protocol. zzdds makes transitions; once a
 listener is installed for the status, each transition leaves a listener run
 that happens some time later, in any order. Applications interleave takes,
 matched-count queries, callback registration (two sections) and event
 initialisation (guard, listener mask, installation, final count). Other event
 types of the same endpoint install listeners for the whole endpoint, so their
 installations are steps here too.

 A System is one (endpoint, event type) with its zzdds history; the fields from
 `read` on only record what happened.
 */
module EventProtocol {
  import opened Options
  import opened EventStatus
  import opened EventSlot

  /** A listener mask computed under event_mutex and not installed yet: whether
      it was computed by an initialisation of this very event type, and whether
      it includes the type's status. */
  datatype Mask = Mask(own: bool, includes: bool)

  datatype System = System(
    kind: Kind,
    history: History,
    pending: multiset<nat>,  // listener runs, each by the transitions made when zzdds started it
    installed: bool,         // the installed listener covers this status
    entered: nat,            // initialisations that have created the guard only
    masks: multiset<Mask>,
    finishing: nat,          // initialisations with only their last section to run
    initialised: bool,       // some initialisation has succeeded
    registering: nat,        // callback registrations with only their second section to run
    slot: Slot,
    read: nat,               // transitions read by the latest successful getter call
    taken: nat,              // transitions read by the last take
    tellings: seq<Telling>,  // the callback invocations, with the events told
    outputs: seq<Status>)    // statuses handed out by takes

  function Start(k: Kind): System {
    System(k, [], multiset{}, false, 0, multiset{}, 0, false, 0, Fresh(k), 0, 0, [], [])
  }

  datatype Step =
    | Transition(change: Change)
    | Listener(run: nat, reply: Option<Status>)
    | MatchedQuery(reply: Option<Status>)
    | Take(reply: Option<Status>)
    | SetCallback(callback: Option<Callback>)
    | AfterSetCallback
    | CreateGuard
    | ComputeMask(own: bool)
    | Install(mask: Mask, ok: bool)
    | FinishInit(reply: Option<Status>)

  predicate Truthful(s: System, reply: Option<Status>) {
    reply.Some? ==> Reports(reply.value, s.kind, s.history)
  }

  /** Which steps can happen in s. Counts stay within int32; only an initialised
      event can be taken or given a callback. */
  predicate Enabled(s: System, step: Step) {
    match step
    case Transition(change) =>
      && change.IsOf(s.kind)
      && |s.history| + 1 < INT32_LIMIT
      && var p := CountsAt(s.history, |s.history|).Plus(change.Delta()); p.first >= 0 && p.second >= 0
    case Listener(run, reply) => run in s.pending && Truthful(s, reply)
    case MatchedQuery(reply) => s.kind == Matching && Truthful(s, reply)
    case Take(reply) => s.initialised && Truthful(s, reply)
    case SetCallback(_) => s.initialised
    case AfterSetCallback => s.registering > 0
    case CreateGuard => true
    case ComputeMask(own) => own ==> s.entered > 0
    case Install(mask, _) => mask in s.masks
    case FinishInit(reply) => s.finishing > 0 && Truthful(s, reply)
  }

  function Told(tellings: seq<Telling>, telling: Telling): seq<Telling> {
    if telling.Tell? then tellings + [telling] else tellings
  }

  function ReadUpTo(s: System, reply: Option<Status>): nat {
    if reply.Some? then |s.history| else s.read
  }

  function Next(s: System, step: Step): (t: System)
    requires s.slot.stored.Kind() == s.kind && Enabled(s, step)
    requires step.Listener? ==> step.run <= |s.history|
  {
    match step
    case Transition(change) =>
      var history := s.history + [change];
      s.(history := history,
         pending := if s.installed then s.pending + multiset{|history|} else s.pending)
    case Listener(run, reply) =>
      var (slot, telling) := OnListener(s.slot, reply, CountsAt(s.history, run));
      s.(pending := s.pending - multiset{run}, slot := slot, read := ReadUpTo(s, reply),
         tellings := Told(s.tellings, telling))
    case MatchedQuery(reply) =>
      var (slot, telling) := OnMatchedQuery(s.slot, reply);
      s.(slot := slot, read := ReadUpTo(s, reply), tellings := Told(s.tellings, telling))
    case Take(reply) =>
      var (slot, output) := OnTake(s.slot, reply);
      s.(slot := slot, read := ReadUpTo(s, reply),
         taken := if reply.Some? then |s.history| else s.taken,
         outputs := if output.Some? then s.outputs + [output.value] else s.outputs)
    case SetCallback(callback) =>
      s.(slot := OnSetCallback(s.slot, callback), registering := s.registering + 1)
    case AfterSetCallback =>
      var (slot, telling) := OnAfterSetCallback(s.slot);
      s.(slot := slot, registering := s.registering - 1, tellings := Told(s.tellings, telling))
    case CreateGuard =>
      s.(slot := OnCreateGuard(s.slot), entered := s.entered + 1)
    case ComputeMask(own) =>
      s.(masks := s.masks + multiset{Mask(own, s.slot.guard.GuardCondition?)},
         entered := if own then s.entered - 1 else s.entered)
    case Install(mask, ok) =>
      s.(masks := s.masks - multiset{mask},
         installed := if ok then mask.includes else s.installed,
         finishing := if ok && mask.own then s.finishing + 1 else s.finishing)
    case FinishInit(reply) =>
      s.(slot := OnFinishInit(s.slot, reply), read := ReadUpTo(s, reply),
         finishing := s.finishing - 1, initialised := true)
  }

  // ---------------------------------------------------------------------------
  // Sums over a run

  function EventsOf(telling: Telling): nat {
    if telling.Tell? then telling.events else 0
  }

  /** The events told, over all callbacks. */
  function Sum(tellings: seq<Telling>): nat {
    if tellings == [] then 0 else Sum(tellings[..|tellings| - 1]) + EventsOf(tellings[|tellings| - 1])
  }

  function SumOfChanges(outputs: seq<Status>): Pair {
    if outputs == [] then Pair(0, 0)
    else SumOfChanges(outputs[..|outputs| - 1]).Plus(outputs[|outputs| - 1].Changes())
  }

  lemma SumAppends(tellings: seq<Telling>, telling: Telling)
    ensures Sum(tellings + [telling]) == Sum(tellings) + EventsOf(telling)
  {
    assert (tellings + [telling])[..|tellings|] == tellings;
  }

  lemma SumOfChangesAppends(outputs: seq<Status>, output: Status)
    ensures SumOfChanges(outputs + [output]) == SumOfChanges(outputs).Plus(output.Changes())
  {
    assert (outputs + [output])[..|outputs|] == outputs;
  }

  // ---------------------------------------------------------------------------
  // The invariant of every interleaving

  /** The stored status is the fold of a prefix of the history. */
  predicate Faithful(s: System) {
    && OfKind(s.kind, s.history) && NonNegative(s.history) && |s.history| < INT32_LIMIT
    && s.taken <= s.read <= |s.history|
    && s.slot.stored == StatusBetween(s.kind, s.history, s.taken, s.read)
  }

  /** Nothing is counted, pending or installed for an event without a guard. */
  predicate Guarded(s: System) {
    && (s.slot.guard.NoGuard? ==>
          && s.slot.count == s.slot.reported == 0 && |s.pending| == 0 && !s.installed
          && s.entered == s.finishing == s.registering == 0 && !s.initialised)
    && (forall m | m in s.masks :: (m.own ==> m.includes) && (m.includes ==> s.slot.guard.GuardCondition?))
    && (forall run | run in s.pending :: run <= |s.history|)
    && |s.pending| <= |s.history|
  }

  /** Being ready to wait on the event means having counted untaken events. */
  predicate TriggerMeansCounted(s: System) {
    s.slot.guard.GuardCondition? ==> (s.slot.guard.trigger <==> s.slot.count > 0)
  }

  predicate Ordered(s: System) {
    && s.slot.reported <= s.slot.count
    && (Exact(s.kind) ==> s.slot.count <= s.read - s.taken)
    && (!Exact(s.kind) ==> s.slot.count + |s.pending| <= 2 * |s.history|)
  }

  predicate Conserved(s: System) {
    && s.taken <= |s.history|
    && SumOfChanges(s.outputs) == CountsAt(s.history, s.taken)
    && (Exact(s.kind) ==> Sum(s.tellings) <= s.taken + s.slot.reported)
  }

  predicate Inv(s: System) {
    Faithful(s) && Guarded(s) && TriggerMeansCounted(s) && Ordered(s) && Conserved(s)
  }

  lemma StartInv(k: Kind)
    ensures Inv(Start(k))
  {
  }

  /** What a getter call leaves in the slot. */
  lemma ReadAdvances(s: System, reply: Option<Status>)
    requires Faithful(s) && Truthful(s, reply)
    ensures Fits(reply, s.slot)
    ensures ReadStatus(s.slot, reply).stored
         == StatusBetween(s.kind, s.history, s.taken, ReadUpTo(s, reply))
  {
    hide CountsAt;
    if reply.Some? {
      AddChangesCatchesUp(s.kind, s.history, s.taken, s.read, reply.value);
    }
  }

  /** Counting below the size_t limit does not wrap. */
  lemma CountEventsPlain(slot: Slot, added: nat)
    requires slot.reported <= slot.count && slot.count + added < SIZE_LIMIT
    ensures var (t, telling) := CountEvents(slot, added);
            && t.stored == slot.stored && t.callback == slot.callback
            && t.count == slot.count + added
            && t.guard == SetTrigger(slot.guard, true)
            && match slot.callback
               case None => t.reported == slot.reported && telling == Silent
               case Some(callback) => t.reported == slot.reported + added && telling == Tell(callback, added)
  {
  }

  /** The state a counting section of an exact status leaves behind. */
  predicate CountedAll(slot: Slot, t: Slot, telling: Telling, untaken: nat) {
    && t.callback == slot.callback
    && t.count == untaken
    && slot.count <= untaken
    && (untaken == slot.count ==> telling == Silent && t.reported == slot.reported && t.guard == slot.guard)
    && (untaken > slot.count ==>
          && t.guard == SetTrigger(slot.guard, true)
          && (slot.callback.None? ==> t.reported == slot.reported && telling == Silent)
          && (slot.callback.Some? ==>
                && t.reported == slot.reported + (untaken - slot.count)
                && telling == Tell(slot.callback.value, untaken - slot.count)))
  }

  lemma CountsWhatIsMissing(slot: Slot, reply: Option<Status>)
    requires Fits(reply, slot)
    requires slot.reported <= slot.count <= UntakenEvents(ReadStatus(slot, reply).stored)
    ensures var (t, telling) := OnCountedStatus(slot, reply);
            && CountedAll(slot, t, telling, UntakenEvents(ReadStatus(slot, reply).stored))
            && t.stored == ReadStatus(slot, reply).stored
  {
    var read := ReadStatus(slot, reply);
    assert UntakenEvents(read.stored) < SIZE_LIMIT;
    CountEventsPlain(read, Uncounted(read));
  }

  /** For an exact status a listener counts whatever the reading found and
      `count` did not include yet; nothing wraps. */
  lemma CountingExact(s: System, reply: Option<Status>)
    requires Faithful(s) && Ordered(s) && Exact(s.kind) && Truthful(s, reply)
    ensures Fits(reply, s.slot)
    ensures var untaken := ReadUpTo(s, reply) - s.taken;
            var (t, telling) := OnCountedStatus(s.slot, reply);
            && UntakenEvents(ReadStatus(s.slot, reply).stored) == untaken
            && CountedAll(s.slot, t, telling, untaken)
            && t.stored == StatusBetween(s.kind, s.history, s.taken, ReadUpTo(s, reply))
  {
    hide CountsAt;
    ReadAdvances(s, reply);
    UntakenExact(s.kind, s.history, s.taken, ReadUpTo(s, reply));
    CountsWhatIsMissing(s.slot, reply);
  }

  lemma QueryIsListener(slot: Slot, reply: Option<Status>)
    requires Fits(reply, slot) && reply.Some? && slot.guard.GuardCondition?
    ensures OnMatchedQuery(slot, reply) == OnCountedStatus(slot, reply)
  {
  }

  lemma TransitionKeepsInv(s: System, change: Change)
    requires Inv(s) && Enabled(s, Transition(change))
    ensures Inv(Next(s, Transition(change)))
  {
    hide CountsAt;
    StatusIgnoresFuture(s.kind, s.history, change, s.taken, s.read);
    NonNegativeExtends(s.history, change);
    CountsIgnoreFuture(s.history, change, s.taken);
  }

  /** Counting keeps the told events within the reported ones. */
  lemma TellingConserved(s: System, t: Slot, telling: Telling)
    requires Sum(s.tellings) <= s.taken + s.slot.reported
    requires t.reported == s.slot.reported + (if telling.Tell? then telling.events else 0)
    ensures Sum(Told(s.tellings, telling)) <= s.taken + t.reported
  {
    if telling.Tell? {
      SumAppends(s.tellings, telling);
    }
  }

  lemma ExactListenerKeepsInv(s: System, run: nat, reply: Option<Status>)
    requires Inv(s) && Enabled(s, Listener(run, reply)) && Exact(s.kind)
    ensures Inv(Next(s, Listener(run, reply)))
  {
    hide CountsAt, AddChanges, UntakenEvents, StatusBetween, SumOfChanges, NonNegative, Sum, Reports;
    ReadAdvances(s, reply);
    var (t, telling) := OnListener(s.slot, reply, CountsAt(s.history, run));
    CountingExact(s, reply);
    TellingConserved(s, t, telling);
  }

  lemma LivenessListenerKeepsInv(s: System, run: nat, reply: Option<Status>)
    requires Inv(s) && Enabled(s, Listener(run, reply)) && !Exact(s.kind)
    ensures Inv(Next(s, Listener(run, reply)))
  {
    hide CountsAt, AddChanges, UntakenEvents, StatusBetween, SumOfChanges, NonNegative, Sum, Reports;
    ReadAdvances(s, reply);
    CountEventsPlain(ReadStatus(s.slot, reply), 1);
  }

  lemma ListenerKeepsInv(s: System, run: nat, reply: Option<Status>)
    requires Inv(s) && Enabled(s, Listener(run, reply))
    ensures Inv(Next(s, Listener(run, reply)))
  {
    hide Inv, Next, Enabled;
    if Exact(s.kind) {
      ExactListenerKeepsInv(s, run, reply);
    } else {
      LivenessListenerKeepsInv(s, run, reply);
    }
  }

  lemma MatchedQueryKeepsInv(s: System, reply: Option<Status>)
    requires Inv(s) && Enabled(s, MatchedQuery(reply))
    ensures Inv(Next(s, MatchedQuery(reply)))
  {
    hide CountsAt;
    ReadAdvances(s, reply);
    if reply.Some? && s.slot.guard.GuardCondition? {
      QueryIsListener(s.slot, reply);
      CountingExact(s, reply);
      var (t, telling) := OnMatchedQuery(s.slot, reply);
      TellingConserved(s, t, telling);
    }
  }

  /** The conversions to size_t of a take lose nothing. */
  lemma HandedExact(k: Kind, h: History, taken: nat)
    requires OfKind(k, h) && NonNegative(h) && taken <= |h| < INT32_LIMIT
    ensures Handed(StatusBetween(k, h, taken, |h|)) == StatusBetween(k, h, taken, |h|)
  {
    assert CountsAt(h, 0) == Pair(0, 0);
    hide CountsAt;
    if Exact(k) {
      UntakenExact(k, h, taken, |h|);
    }
    CountsMoveSlowly(h, 0, |h|);
    assert CountsAt(h, |h|).first >= 0 && CountsAt(h, |h|).second >= 0;
  }

  /** A successful take hands out the changes since the previous one and leaves
      a status with nothing untaken. */
  lemma TakeSettles(s: System, reply: Option<Status>)
    requires Faithful(s) && Truthful(s, reply) && reply.Some?
    ensures Fits(reply, s.slot)
    ensures var (t, output) := OnTake(s.slot, reply);
            && output == Some(StatusBetween(s.kind, s.history, s.taken, |s.history|))
            && t == Slot(SetTrigger(s.slot.guard, false), s.slot.callback, 0, 0,
                         StatusBetween(s.kind, s.history, |s.history|, |s.history|))
  {
    hide CountsAt;
    ReadAdvances(s, reply);
    HandedExact(s.kind, s.history, s.taken);
    TakenStatus(s.kind, s.history, s.taken, |s.history|);
  }

  lemma TakeKeepsInv(s: System, reply: Option<Status>)
    requires Inv(s) && Enabled(s, Take(reply))
    ensures Inv(Next(s, Take(reply)))
  {
    hide CountsAt, AddChanges, UntakenEvents, StatusBetween, SumOfChanges, Sum, Reports, NonNegative, OfKind;
    if reply.Some? {
      TakeSettles(s, reply);
      var output := StatusBetween(s.kind, s.history, s.taken, |s.history|);
      SumOfChangesAppends(s.outputs, output);
      ChangesAreDifferences(s.kind, s.history, s.taken, |s.history|);
    }
  }

  /** The size_t subtraction of a callback registration never wraps. */
  lemma AfterSetCallbackPlain(s: System)
    requires Inv(s)
    ensures SizeT(s.slot.count - s.slot.reported) == s.slot.count - s.slot.reported
  {
  }

  lemma AfterSetCallbackKeepsInv(s: System)
    requires Inv(s) && Enabled(s, AfterSetCallback)
    ensures Inv(Next(s, AfterSetCallback))
  {
    hide CountsAt, StatusBetween, SumOfChanges, NonNegative, Sum, OfKind;
    AfterSetCallbackPlain(s);
    var (t, telling) := OnAfterSetCallback(s.slot);
    if Exact(s.kind) {
      TellingConserved(s, t, telling);
    }
  }

  lemma CreateGuardKeepsInv(s: System)
    requires Inv(s) && Enabled(s, CreateGuard)
    ensures Inv(Next(s, CreateGuard))
  {
    hide CountsAt, StatusBetween, SumOfChanges, NonNegative, Sum, OfKind;
  }

  lemma ComputeMaskKeepsInv(s: System, own: bool)
    requires Inv(s) && Enabled(s, ComputeMask(own))
    ensures Inv(Next(s, ComputeMask(own)))
  {
    hide CountsAt, StatusBetween, SumOfChanges, NonNegative, Sum, OfKind;
  }

  lemma InstallKeepsInv(s: System, mask: Mask, ok: bool)
    requires Inv(s) && Enabled(s, Install(mask, ok))
    ensures Inv(Next(s, Install(mask, ok)))
  {
    hide CountsAt, StatusBetween, SumOfChanges, NonNegative, Sum, OfKind;
  }

  /** What the last section of an initialisation leaves in the count. */
  lemma FinishInitCount(s: System, reply: Option<Status>)
    requires Faithful(s) && Ordered(s) && Truthful(s, reply)
    ensures Fits(reply, s.slot)
    ensures var count := OnFinishInit(s.slot, reply).count;
            && (s.slot.count > 0 ==> count == s.slot.count)
            && (s.slot.count == 0 && Exact(s.kind) ==> count == ReadUpTo(s, reply) - s.taken)
            && (s.slot.count == 0 && !Exact(s.kind) ==> count <= |s.history|)
  {
    hide CountsAt, AddChanges, StatusBetween, NonNegative, Reports;
    ReadAdvances(s, reply);
    hide UntakenEvents;
    if Exact(s.kind) {
      CountingExact(s, reply);
    } else {
      EstimateBounded(s.history, s.taken, ReadUpTo(s, reply));
    }
  }

  lemma FinishInitKeepsInv(s: System, reply: Option<Status>)
    requires Inv(s) && Enabled(s, FinishInit(reply))
    ensures Inv(Next(s, FinishInit(reply)))
  {
    hide CountsAt, AddChanges, UntakenEvents, StatusBetween, SumOfChanges, NonNegative, Sum, Reports, OfKind;
    ReadAdvances(s, reply);
    FinishInitCount(s, reply);
  }

  lemma InitKeepsInv(s: System, step: Step)
    requires Inv(s) && Enabled(s, step)
    requires step.CreateGuard? || step.ComputeMask? || step.Install? || step.FinishInit?
    ensures Inv(Next(s, step))
  {
    hide Inv, Enabled, Next;
    match step
    case CreateGuard => CreateGuardKeepsInv(s);
    case ComputeMask(own) => ComputeMaskKeepsInv(s, own);
    case Install(mask, ok) => InstallKeepsInv(s, mask, ok);
    case FinishInit(reply) => FinishInitKeepsInv(s, reply);
  }

  lemma StepKeepsInv(s: System, step: Step)
    requires Inv(s) && Enabled(s, step)
    ensures step.Listener? ==> step.run <= |s.history|
    ensures Inv(Next(s, step))
  {
    hide CountsAt, StatusBetween, SumOfChanges, NonNegative, Sum;
    match step
    case Transition(change) => TransitionKeepsInv(s, change);
    case Listener(run, reply) => ListenerKeepsInv(s, run, reply);
    case MatchedQuery(reply) => MatchedQueryKeepsInv(s, reply);
    case Take(reply) => TakeKeepsInv(s, reply);
    case AfterSetCallback => AfterSetCallbackKeepsInv(s);
    case SetCallback(_) =>
    case CreateGuard | ComputeMask(_) | Install(_, _) | FinishInit(_) => InitKeepsInv(s, step);
  }
}
