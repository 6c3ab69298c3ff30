/**
 Theorems about whole runs of the event accounting, for every interleaving.
 */
module EventRuns {
  import opened Options
  import opened EventStatus
  import opened EventSlot
  import opened EventProtocol

  predicate Happens(s: System, step: Step, t: System) {
    && s.slot.stored.Kind() == s.kind && Enabled(s, step)
    && (step.Listener? ==> step.run <= |s.history|)
    && t == Next(s, step)
  }

  predicate IsRun(states: seq<System>, steps: seq<Step>) {
    && |states| == |steps| + 1
    && states[0] == Start(states[0].kind)
    && forall i | 0 <= i < |steps| :: Happens(states[i], steps[i], states[i + 1])
  }

  lemma {:induction false} RunKeepsInv(states: seq<System>, steps: seq<Step>, n: nat)
    requires IsRun(states, steps) && n <= |steps|
    ensures Inv(states[n])
  {
    hide Inv, Next, Enabled, Reports;
    if n == 0 {
      StartInv(states[0].kind);
    } else {
      RunKeepsInv(states, steps, n - 1);
      assert Happens(states[n - 1], steps[n - 1], states[n]);
      StepKeepsInv(states[n - 1], steps[n - 1]);
    }
  }

  /** Conservation: the changes handed out by takes plus the untaken change are
      the stored counts, which are zzdds's counts at the latest read. */
  lemma Conservation(states: seq<System>, steps: seq<Step>, n: nat)
    requires IsRun(states, steps) && n <= |steps|
    ensures var s := states[n];
            && s.read <= |s.history|
            && SumOfChanges(s.outputs).Plus(s.slot.stored.Changes()) == s.slot.stored.Counts()
            && s.slot.stored.Counts() == CountsAt(s.history, s.read)
  {
    hide Happens, CountsAt;
    RunKeepsInv(states, steps, n);
    var s := states[n];
    ChangesAreDifferences(s.kind, s.history, s.taken, s.read);
  }

  predicate Grows(s: System, t: System) {
    s.kind == t.kind && s.history <= t.history && s.read <= t.read && s.taken <= t.taken
  }

  lemma StepGrows(s: System, step: Step, t: System)
    requires Inv(s) && Happens(s, step, t)
    ensures Grows(s, t)
  {
  }

  lemma GrowsTransitive(s: System, t: System, u: System)
    requires Grows(s, t) && Grows(t, u)
    ensures Grows(s, u)
  {
  }

  /** The n-th step of a run, without the rest of the run. */
  lemma RunStep(states: seq<System>, steps: seq<Step>, n: nat)
    requires IsRun(states, steps) && n < |steps|
    ensures Happens(states[n], steps[n], states[n + 1])
  {
  }

  lemma {:induction false} RunGrows(states: seq<System>, steps: seq<Step>, i: nat, j: nat)
    requires IsRun(states, steps) && i <= j <= |steps|
    ensures Grows(states[i], states[j])
    decreases j
  {
    hide Happens, Inv;
    if i < j {
      RunGrows(states, steps, i, j - 1);
      RunKeepsInv(states, steps, j - 1);
      StepGrows(states[j - 1], steps[j - 1], states[j - 1 + 1]);
      GrowsTransitive(states[i], states[j - 1], states[j]);
    }
  }

  /** The stored status is the fold of a prefix of zzdds's history, and that
      prefix and the taken part of it only grow. */
  lemma PrefixGrows(states: seq<System>, steps: seq<Step>, i: nat, j: nat)
    requires IsRun(states, steps) && i <= j <= |steps|
    ensures Grows(states[i], states[j])
    ensures var t := states[j];
            && t.taken <= t.read <= |t.history|
            && t.slot.stored == StatusBetween(t.kind, t.history, t.taken, t.read)
  {
    hide Happens, CountsAt, Grows;
    RunGrows(states, steps, i, j);
    RunKeepsInv(states, steps, j);
  }

  /** No wrap-around: reported <= counted <= untaken at every mutex release. For
      liveliness changed the first half holds. */
  lemma ReportedCountedUntaken(states: seq<System>, steps: seq<Step>, n: nat)
    requires IsRun(states, steps) && n <= |steps|
    ensures var slot := states[n].slot;
            && slot.reported <= slot.count < SIZE_LIMIT
            && SizeT(slot.count - slot.reported) == slot.count - slot.reported
            && (Exact(states[n].kind) ==> slot.count <= UntakenEvents(slot.stored))
            && (slot.guard.GuardCondition? ==> (slot.guard.trigger <==> slot.count > 0))
  {
    hide Happens, CountsAt;
    RunKeepsInv(states, steps, n);
    var s := states[n];
    if Exact(s.kind) {
      UntakenExact(s.kind, s.history, s.taken, s.read);
    }
  }

  /** Over a whole run, callbacks are never told about more events than zzdds
      made transitions. */
  lemma NeverOvertold(states: seq<System>, steps: seq<Step>, n: nat)
    requires IsRun(states, steps) && n <= |steps| && Exact(states[0].kind)
    ensures Sum(states[n].tellings) <= |states[n].history|
  {
    hide Happens, CountsAt;
    RunKeepsInv(states, steps, n);
    PrefixGrows(states, steps, 0, n);
  }

  lemma {:induction false} CurrentBounded(h: History, n: nat)
    requires n <= |h| && NonNegative(h) && OfKind(Matching, h)
    ensures 0 <= CountsAt(h, n).second <= n
  {
    if n > 0 {
      CurrentBounded(h, n - 1);
      assert h[n - 1].IsOf(Matching);
    }
  }

  /** A matched-count query that succeeds answers with the endpoints matched at
      that moment: zzdds's matches minus its unmatches. */
  lemma MatchedCountExact(states: seq<System>, steps: seq<Step>, n: nat)
    requires IsRun(states, steps) && n < |steps| && steps[n].MatchedQuery? && steps[n].reply.Some?
    ensures states[n + 1].history == states[n].history
    ensures states[n + 1].slot.stored.MatchedStatus?
    ensures MatchedCount(states[n + 1].slot.stored) == CountsAt(states[n].history, |states[n].history|).second
  {
    RunStep(states, steps, n);
    RunKeepsInv(states, steps, n + 1);
    Conservation(states, steps, n + 1);
    hide CountsAt;
    CurrentBounded(states[n].history, |states[n].history|);
  }

  lemma LivelinessListenerCounts(s: System, run: nat, reply: Option<Status>)
    requires Inv(s) && s.kind == Liveness && Enabled(s, Listener(run, reply)) && run <= |s.history|
    ensures Next(s, Listener(run, reply)).slot.count == s.slot.count +
              (if CountsAt(s.history, run) == CountsAt(s.history, s.taken) then 0 else 1)
  {
    hide CountsAt;
    ReadAdvances(s, reply);
    BaselineIsLastTake(s.kind, s.history, s.taken, ReadUpTo(s, reply));
    CountEventsPlain(ReadStatus(s.slot, reply), 1);
  }

  /** A liveliness listener counts one event exactly when the status zzdds
      passed to it differs from the one at the last take, however late it runs. */
  lemma LivelinessBaseline(states: seq<System>, steps: seq<Step>, n: nat)
    requires IsRun(states, steps) && n < |steps|
    requires states[n].kind == Liveness && steps[n].Listener?
    ensures var s := states[n];
            && steps[n].run <= |s.history| && s.taken <= |s.history|
            && states[n + 1].slot.count == s.slot.count +
                 (if CountsAt(s.history, steps[n].run) == CountsAt(s.history, s.taken) then 0 else 1)
  {
    hide CountsAt;
    RunKeepsInv(states, steps, n);
    var s := states[n];
    assert Happens(s, steps[n], states[n + 1]);
    LivelinessListenerCounts(s, steps[n].run, steps[n].reply);
  }

  // ---------------------------------------------------------------------------
  // What callbacks are told

  /** The events told until the last successful take, over all callbacks. */
  function ToldUntilTake(states: seq<System>, steps: seq<Step>, n: nat): nat
    requires n <= |steps| && |states| == |steps| + 1
  {
    if n == 0 then 0
    else if steps[n - 1].Take? && steps[n - 1].reply.Some? then Sum(states[n].tellings)
    else ToldUntilTake(states, steps, n - 1)
  }

  /** A section other than a take tells exactly what it adds to `reported`. */
  predicate TellsReported(s: System, t: System) {
    Sum(t.tellings) - Sum(s.tellings) == t.slot.reported - s.slot.reported
  }

  lemma ToldAdds(s: System, t: System, telling: Telling)
    requires t.tellings == Told(s.tellings, telling)
    requires t.slot.reported == s.slot.reported + (if telling.Tell? then telling.events else 0)
    ensures TellsReported(s, t)
  {
    if telling.Tell? {
      SumAppends(s.tellings, telling);
    }
  }

  lemma ListenerTellsReported(s: System, run: nat, reply: Option<Status>)
    requires Inv(s) && Enabled(s, Listener(run, reply)) && run <= |s.history|
    ensures TellsReported(s, Next(s, Listener(run, reply)))
  {
    hide CountsAt, AddChanges, UntakenEvents, StatusBetween, SumOfChanges, Sum, Reports, NonNegative;
    ReadAdvances(s, reply);
    var t := Next(s, Listener(run, reply));
    var (slot, telling) := OnListener(s.slot, reply, CountsAt(s.history, run));
    if Exact(s.kind) {
      CountingExact(s, reply);
    } else {
      CountEventsPlain(ReadStatus(s.slot, reply), 1);
    }
    ToldAdds(s, t, telling);
  }

  lemma MatchedQueryTellsReported(s: System, reply: Option<Status>)
    requires Inv(s) && Enabled(s, MatchedQuery(reply))
    ensures TellsReported(s, Next(s, MatchedQuery(reply)))
  {
    hide CountsAt, AddChanges, UntakenEvents, StatusBetween, SumOfChanges, Sum, Reports, NonNegative;
    ReadAdvances(s, reply);
    var t := Next(s, MatchedQuery(reply));
    var (slot, telling) := OnMatchedQuery(s.slot, reply);
    if reply.Some? && s.slot.guard.GuardCondition? {
      QueryIsListener(s.slot, reply);
      CountingExact(s, reply);
    }
    ToldAdds(s, t, telling);
  }

  lemma AfterSetCallbackTellsReported(s: System)
    requires Inv(s) && Enabled(s, AfterSetCallback)
    ensures TellsReported(s, Next(s, AfterSetCallback))
  {
    hide CountsAt, AddChanges, UntakenEvents, StatusBetween, SumOfChanges, Sum, Reports, NonNegative;
    AfterSetCallbackPlain(s);
    var (slot, telling) := OnAfterSetCallback(s.slot);
    ToldAdds(s, Next(s, AfterSetCallback), telling);
  }

  lemma OtherStepTellsReported(s: System, step: Step)
    requires Inv(s) && Enabled(s, step)
    requires !step.Listener? && !step.MatchedQuery? && !step.AfterSetCallback? && !(step.Take? && step.reply.Some?)
    ensures TellsReported(s, Next(s, step))
  {
    hide CountsAt, AddChanges, UntakenEvents, StatusBetween, SumOfChanges, Sum, Reports, NonNegative;
  }

  lemma TakeTellsNothing(s: System, reply: Option<Status>)
    requires Inv(s) && Enabled(s, Take(reply)) && reply.Some?
    ensures var t := Next(s, Take(reply)); t.tellings == s.tellings && t.slot.reported == 0
  {
    hide CountsAt, AddChanges, StatusBetween, SumOfChanges, Sum, Reports, NonNegative;
    ReadAdvances(s, reply);
  }

  lemma StepTellsReported(s: System, step: Step, t: System)
    requires Inv(s) && Happens(s, step, t)
    ensures if step.Take? && step.reply.Some? then t.tellings == s.tellings && t.slot.reported == 0
            else TellsReported(s, t)
  {
    assert Enabled(s, step) && t == Next(s, step);
    hide Inv, Enabled, Next, TellsReported;
    match step
    case Listener(run, reply) => ListenerTellsReported(s, run, reply);
    case MatchedQuery(reply) => MatchedQueryTellsReported(s, reply);
    case AfterSetCallback => AfterSetCallbackTellsReported(s);
    case Take(reply) =>
      if reply.Some? {
        TakeTellsNothing(s, reply);
      } else {
        OtherStepTellsReported(s, step);
      }
    case _ => OtherStepTellsReported(s, step);
  }

  /** `event_reported` is exactly what callbacks were told since the last take. */
  lemma {:induction false} ReportedWasTold(states: seq<System>, steps: seq<Step>, n: nat)
    requires IsRun(states, steps) && n <= |steps|
    ensures Sum(states[n].tellings) == ToldUntilTake(states, steps, n) + states[n].slot.reported
  {
    hide Happens, Inv;
    if n > 0 {
      ReportedWasTold(states, steps, n - 1);
      RunKeepsInv(states, steps, n - 1);
      assert Happens(states[n - 1], steps[n - 1], states[n - 1 + 1]);
      StepTellsReported(states[n - 1], steps[n - 1], states[n]);
    }
  }

  /** The callback that the newest registration before step n set, if it did not
      clear it. */
  function NewestCallback(steps: seq<Step>, n: nat): (newest: Option<Callback>)
    requires n <= |steps|
    ensures newest.Some? ==> exists i | 0 <= i < n :: steps[i] == SetCallback(newest)
  {
    if n == 0 then None
    else if steps[n - 1].SetCallback? then steps[n - 1].callback
    else NewestCallback(steps, n - 1)
  }

  lemma SectionsKeepCallback(slot: Slot, reply: Option<Status>, passed: Pair)
    requires Fits(reply, slot)
    ensures OnListener(slot, reply, passed).0.callback == slot.callback
    ensures OnMatchedQuery(slot, reply).0.callback == slot.callback
    ensures OnTake(slot, reply).0.callback == slot.callback
    ensures OnFinishInit(slot, reply).callback == slot.callback
  {
    hide AddChanges, UntakenEvents, Handed, SizeT;
  }

  lemma StepKeepsCallback(s: System, step: Step, t: System)
    requires Inv(s) && Happens(s, step, t)
    ensures t.slot.callback == if step.SetCallback? then step.callback else s.slot.callback
  {
    hide Inv, CountsAt, Told, OnListener, OnMatchedQuery, OnTake, OnFinishInit;
    match step
    case Listener(run, reply) => SectionsKeepCallback(s.slot, reply, CountsAt(s.history, run));
    case MatchedQuery(reply) => SectionsKeepCallback(s.slot, reply, Pair(0, 0));
    case Take(reply) => SectionsKeepCallback(s.slot, reply, Pair(0, 0));
    case FinishInit(reply) => SectionsKeepCallback(s.slot, reply, Pair(0, 0));
    case _ =>
  }

  /** The registered callback, with its user data, is the newest one; a cleared one
      is gone. */
  lemma {:induction false} CallbackIsNewest(states: seq<System>, steps: seq<Step>, n: nat)
    requires IsRun(states, steps) && n <= |steps|
    ensures states[n].slot.callback == NewestCallback(steps, n)
  {
    hide Inv, Happens;
    if n > 0 {
      CallbackIsNewest(states, steps, n - 1);
      RunKeepsInv(states, steps, n - 1);
      RunStep(states, steps, n - 1);
      StepKeepsCallback(states[n - 1], steps[n - 1], states[n]);
    }
  }

  /** Nothing is told, or the registered callback is told what `reported` grows
      by. */
  predicate TellsRegistered(s: System, t: System) {
    || t.tellings == s.tellings
    || (&& s.slot.callback.Some? && t.slot.reported > s.slot.reported
        && t.tellings == s.tellings + [Tell(s.slot.callback.value, t.slot.reported - s.slot.reported)])
  }

  lemma ListenerTellsRegistered(s: System, run: nat, reply: Option<Status>)
    requires Inv(s) && Enabled(s, Listener(run, reply)) && run <= |s.history|
    ensures TellsRegistered(s, Next(s, Listener(run, reply)))
  {
    hide CountsAt, AddChanges, UntakenEvents, StatusBetween, SumOfChanges, Sum, Reports, NonNegative;
    if Exact(s.kind) {
      CountingExact(s, reply);
    } else {
      ReadAdvances(s, reply);
      CountEventsPlain(ReadStatus(s.slot, reply), 1);
    }
  }

  lemma MatchedQueryTellsRegistered(s: System, reply: Option<Status>)
    requires Inv(s) && Enabled(s, MatchedQuery(reply))
    ensures TellsRegistered(s, Next(s, MatchedQuery(reply)))
  {
    hide CountsAt, AddChanges, UntakenEvents, StatusBetween, SumOfChanges, Sum, Reports, NonNegative;
    ReadAdvances(s, reply);
    if reply.Some? && s.slot.guard.GuardCondition? {
      QueryIsListener(s.slot, reply);
      CountingExact(s, reply);
    }
  }

  lemma AfterSetCallbackTellsRegistered(s: System)
    requires Inv(s) && Enabled(s, AfterSetCallback)
    ensures TellsRegistered(s, Next(s, AfterSetCallback))
  {
    hide CountsAt, AddChanges, UntakenEvents, StatusBetween, SumOfChanges, Sum, Reports, NonNegative;
    AfterSetCallbackPlain(s);
  }

  lemma OtherStepTellsNothing(s: System, step: Step)
    requires Inv(s) && Enabled(s, step)
    requires !step.Listener? && !step.MatchedQuery? && !step.AfterSetCallback?
    ensures Next(s, step).tellings == s.tellings
  {
    hide CountsAt, AddChanges, UntakenEvents, StatusBetween, SumOfChanges, Sum, Reports, NonNegative;
  }

  lemma StepTellsRegistered(s: System, step: Step, t: System)
    requires Inv(s) && Happens(s, step, t)
    ensures TellsRegistered(s, t)
    ensures step.SetCallback? ==> t.tellings == s.tellings
  {
    assert Enabled(s, step) && t == Next(s, step);
    hide Inv, Enabled, Next;
    match step
    case Listener(run, reply) => ListenerTellsRegistered(s, run, reply);
    case MatchedQuery(reply) => MatchedQueryTellsRegistered(s, reply);
    case AfterSetCallback => AfterSetCallbackTellsRegistered(s);
    case _ => OtherStepTellsNothing(s, step);
  }

  /** Every telling goes to the callback of the newest registration, and tells it at
      least one event. */
  lemma TellsNewest(states: seq<System>, steps: seq<Step>, n: nat)
    requires IsRun(states, steps) && n < |steps|
    ensures var told := states[n].tellings;
            || states[n + 1].tellings == told
            || exists events: nat | events > 0 ::
                 && NewestCallback(steps, n).Some?
                 && states[n + 1].tellings == told + [Tell(NewestCallback(steps, n).value, events)]
  {
    hide Inv, Happens, NewestCallback;
    CallbackIsNewest(states, steps, n);
    RunKeepsInv(states, steps, n);
    RunStep(states, steps, n);
    StepTellsRegistered(states[n], steps[n], states[n + 1]);
  }

  /** Once a callback is cleared, nothing is told until one is registered. */
  lemma {:induction false} ClearedIsSilent(states: seq<System>, steps: seq<Step>, i: nat, n: nat)
    requires IsRun(states, steps) && i < n <= |steps| && steps[i] == SetCallback(None)
    requires forall j | i < j < n :: steps[j].SetCallback? ==> steps[j].callback.None?
    ensures states[n].tellings == states[i].tellings
    ensures NewestCallback(steps, n).None?
  {
    hide Inv, Happens;
    RunKeepsInv(states, steps, n - 1);
    RunStep(states, steps, n - 1);
    if n == i + 1 {
      StepTellsRegistered(states[i], steps[i], states[n]);
    } else {
      ClearedIsSilent(states, steps, i, n - 1);
      TellsNewest(states, steps, n - 1);
    }
  }
}
