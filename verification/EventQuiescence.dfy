/**
 When every change is counted exactly once, and when every counted change is
 told. A transition that is not yet counted stays so exactly until the next
 section that counts; so at quiescence, with no listener run pending, one is
 missed exactly when the newest transition happened while no listener was
 installed and no section has counted since. A discipline that excludes this is
 the condition of NothingMissed.
 */
module EventQuiescence {
  import opened Options
  import opened EventStatus
  import opened EventSlot
  import opened EventProtocol
  import opened EventRuns

  /** Some transition has not been counted. */
  predicate HasUncounted(s: System) {
    s.taken + s.slot.count < |s.history|
  }

  /** The step is a section that counts everything. A listener run and the end of
      an initialisation count even if their getter call fails, but only what was
      read before. */
  predicate Counts(s: System, step: Step) {
    match step
    case Listener(_, reply) => ReadUpTo(s, reply) == |s.history|
    case MatchedQuery(reply) => reply.Some? && s.slot.guard.GuardCondition?
    case Take(reply) => reply.Some?
    case FinishInit(reply) => s.slot.count == 0 && ReadUpTo(s, reply) == |s.history|
    case _ => false
  }

  predicate IsExactRun(states: seq<System>, steps: seq<Step>) {
    IsRun(states, steps) && Exact(states[0].kind)
  }

  // ---------------------------------------------------------------------------
  // One step

  lemma ListenerCounts(s: System, run: nat, reply: Option<Status>)
    requires Inv(s) && Exact(s.kind) && Enabled(s, Listener(run, reply)) && run <= |s.history|
    ensures HasUncounted(Next(s, Listener(run, reply))) <==> ReadUpTo(s, reply) < |s.history|
    ensures ReadUpTo(s, reply) < |s.history| ==> HasUncounted(s)
  {
    hide CountsAt, AddChanges, UntakenEvents, StatusBetween, SumOfChanges, Sum, Reports, NonNegative;
    CountingExact(s, reply);
  }

  lemma MatchedQueryCounts(s: System, reply: Option<Status>)
    requires Inv(s) && Enabled(s, MatchedQuery(reply))
    ensures var t := Next(s, MatchedQuery(reply));
            if Counts(s, MatchedQuery(reply)) then !HasUncounted(t) else t.slot.count == s.slot.count
  {
    hide CountsAt, AddChanges, UntakenEvents, StatusBetween, SumOfChanges, Sum, Reports, NonNegative;
    ReadAdvances(s, reply);
    if Counts(s, MatchedQuery(reply)) {
      QueryIsListener(s.slot, reply);
      CountingExact(s, reply);
    }
  }

  lemma FinishInitCounts(s: System, reply: Option<Status>)
    requires Inv(s) && Exact(s.kind) && Enabled(s, FinishInit(reply))
    ensures var t := Next(s, FinishInit(reply));
            if s.slot.count == 0 then HasUncounted(t) <==> ReadUpTo(s, reply) < |s.history|
            else t.slot.count == s.slot.count
    ensures ReadUpTo(s, reply) < |s.history| ==> HasUncounted(s)
  {
    hide CountsAt, AddChanges, UntakenEvents, StatusBetween, SumOfChanges, Sum, Reports, NonNegative;
    FinishInitCount(s, reply);
  }

  lemma TakeCounts(s: System, reply: Option<Status>)
    requires Inv(s) && Enabled(s, Take(reply))
    ensures var t := Next(s, Take(reply)); if reply.Some? then !HasUncounted(t) else t == s
  {
    hide CountsAt, AddChanges, UntakenEvents, StatusBetween, SumOfChanges, Sum, Reports, NonNegative;
    ReadAdvances(s, reply);
  }

  lemma TransitionUncounted(s: System, change: Change)
    requires Inv(s) && Exact(s.kind) && Enabled(s, Transition(change))
    ensures HasUncounted(Next(s, Transition(change)))
  {
    hide CountsAt, StatusBetween, SumOfChanges, Sum, NonNegative;
  }

  /** The other steps count nothing. */
  lemma OtherStepCounts(s: System, step: Step)
    requires Inv(s) && Enabled(s, step)
    requires step.SetCallback? || step.AfterSetCallback? || step.CreateGuard? || step.ComputeMask? || step.Install?
    ensures var t := Next(s, step); t.slot.count == s.slot.count && t.taken == s.taken && t.history == s.history
  {
    hide CountsAt, StatusBetween, SumOfChanges, Sum, NonNegative;
  }

  lemma StepKeepsHistory(s: System, step: Step)
    requires Inv(s) && Enabled(s, step)
    ensures step.Listener? ==> step.run <= |s.history|
    ensures !step.Transition? ==> Next(s, step).history == s.history
    ensures !step.Take? ==> Next(s, step).taken == s.taken
  {
    hide CountsAt, AddChanges, UntakenEvents, StatusBetween, SumOfChanges, Sum, Reports, NonNegative;
  }

  /** What a step does to the uncounted transitions. */
  lemma StepCounts(s: System, step: Step, t: System)
    requires Inv(s) && Exact(s.kind) && Happens(s, step, t)
    ensures step.Transition? ==> HasUncounted(t)
    ensures Counts(s, step) ==> !HasUncounted(t)
    ensures !step.Transition? && !Counts(s, step) ==> HasUncounted(t) == HasUncounted(s)
  {
    assert Enabled(s, step) && t == Next(s, step);
    StepKeepsHistory(s, step);
    hide Inv, Enabled, Next;
    match step
    case Transition(change) => TransitionUncounted(s, change);
    case Listener(run, reply) => ListenerCounts(s, run, reply);
    case MatchedQuery(reply) => MatchedQueryCounts(s, reply);
    case Take(reply) => TakeCounts(s, reply);
    case FinishInit(reply) => FinishInitCounts(s, reply);
    case _ => OtherStepCounts(s, step);
  }

  // ---------------------------------------------------------------------------
  // Whole runs

  /** Step i is the newest transition before n, and no step since has counted. */
  predicate NewestUncounted(states: seq<System>, steps: seq<Step>, i: nat, n: nat)
    requires n <= |steps| && |states| == |steps| + 1
  {
    && i < n && steps[i].Transition?
    && forall j | i < j < n :: !steps[j].Transition? && !Counts(states[j], steps[j])
  }

  /** No section has counted since the newest transition. */
  predicate AwaitsCounting(states: seq<System>, steps: seq<Step>, n: nat)
    requires n <= |steps| && |states| == |steps| + 1
  {
    exists i: nat | i < n :: NewestUncounted(states, steps, i, n)
  }

  /** A step that neither is a transition nor counts changes nothing about the
      newest uncounted transition. */
  lemma NewestStays(states: seq<System>, steps: seq<Step>, n: nat)
    requires 0 < n <= |steps| && |states| == |steps| + 1
    requires !steps[n - 1].Transition? && !Counts(states[n - 1], steps[n - 1])
    ensures AwaitsCounting(states, steps, n) <==> AwaitsCounting(states, steps, n - 1)
  {
    hide Counts;
    var m := n - 1;
    if i: nat :| i < n && NewestUncounted(states, steps, i, n) {
      assert NewestUncounted(states, steps, i, m);
    }
    if i: nat :| i < m && NewestUncounted(states, steps, i, m) {
      assert NewestUncounted(states, steps, i, n);
    }
  }

  lemma StartCounts(k: Kind)
    ensures !HasUncounted(Start(k))
  {
  }

  /** In every run a transition is uncounted exactly as long as no section has
      counted since the newest transition. */
  lemma {:induction false} UncountedUntilCounted(states: seq<System>, steps: seq<Step>, n: nat)
    requires IsExactRun(states, steps) && n <= |steps|
    ensures HasUncounted(states[n]) <==> AwaitsCounting(states, steps, n)
  {
    hide Happens, Inv, HasUncounted, Counts;
    if n == 0 {
      StartCounts(states[0].kind);
    } else {
      UncountedUntilCounted(states, steps, n - 1);
      RunKeepsInv(states, steps, n - 1);
      PrefixGrows(states, steps, 0, n - 1);
      assert Happens(states[n - 1], steps[n - 1], states[n - 1 + 1]);
      StepCounts(states[n - 1], steps[n - 1], states[n]);
      if steps[n - 1].Transition? {
        assert NewestUncounted(states, steps, n - 1, n);
      } else if Counts(states[n - 1], steps[n - 1]) {
        assert !AwaitsCounting(states, steps, n);
      } else {
        NewestStays(states, steps, n);
      }
    }
  }

  /** A listener run stays pending until it happens. */
  lemma {:induction false} PendingStays(states: seq<System>, steps: seq<Step>, i: nat, n: nat)
    requires IsRun(states, steps) && i < n <= |steps|
    requires steps[i].Transition? && states[i].installed
    requires forall j | i < j < n :: !steps[j].Listener?
    ensures |states[n].pending| > 0
  {
    assert Happens(states[n - 1], steps[n - 1], states[n - 1 + 1]);
    if n == i + 1 {
      assert |states[i + 1].history| in states[i + 1].pending;
    } else {
      PendingStays(states, steps, i, n - 1);
    }
  }

  /** The newest transition happened while no listener was installed for it, and
      nothing has counted since. */
  predicate Unwatched(states: seq<System>, steps: seq<Step>, n: nat)
    requires n <= |steps| && |states| == |steps| + 1
  {
    exists i | 0 <= i < n :: NewestUncounted(states, steps, i, n) && !states[i].installed
  }

  /** At quiescence, if the getter calls of listeners succeed, a transition is
      missed exactly when the newest one went unwatched. */
  lemma MissedIffUnwatched(states: seq<System>, steps: seq<Step>, n: nat)
    requires IsExactRun(states, steps) && n <= |steps| && |states[n].pending| == 0
    requires forall i | 0 <= i < n && steps[i].Listener? :: steps[i].reply.Some?
    ensures HasUncounted(states[n]) <==> Unwatched(states, steps, n)
  {
    hide Happens, HasUncounted;
    UncountedUntilCounted(states, steps, n);
    if i: nat :| i < n && NewestUncounted(states, steps, i, n) {
      if states[i].installed {
        forall j | i < j < n ensures !steps[j].Listener? {
          assert !Counts(states[j], steps[j]);
        }
        PendingStays(states, steps, i, n);
      }
    }
  }

  lemma StepStaysUnwatched(s: System, step: Step, t: System)
    requires Happens(s, step, t) && !s.installed && |s.pending| == 0
    requires !(step.Install? && step.ok && step.mask.includes)
    ensures !t.installed && |t.pending| == 0 && !step.Listener?
  {
    hide CountsAt, AddChanges, UntakenEvents, StatusBetween;
  }

  /** Without an installed listener and a pending run, no listener runs until a
      mask that includes the status is installed: only takes, matched-count
      queries and initialisations can count what happens. */
  lemma {:induction false} UnwatchedUntilInstalled(states: seq<System>, steps: seq<Step>, i: nat, n: nat)
    requires IsRun(states, steps) && i <= n <= |steps|
    requires !states[i].installed && |states[i].pending| == 0
    requires forall j | i <= j < n :: !(steps[j].Install? && steps[j].ok && steps[j].mask.includes)
    ensures !states[n].installed && |states[n].pending| == 0
    ensures forall j | i <= j < n :: !steps[j].Listener?
    decreases n - i
  {
    hide Happens;
    if i < n {
      UnwatchedUntilInstalled(states, steps, i, n - 1);
      assert Happens(states[n - 1], steps[n - 1], states[n - 1 + 1]);
      StepStaysUnwatched(states[n - 1], steps[n - 1], states[n]);
    }
  }

  // ---------------------------------------------------------------------------
  // A discipline under which nothing is missed

  /** The getter calls of listeners and of the end of an initialisation succeed. */
  predicate Succeeds(step: Step) {
    match step
    case Listener(_, reply) => reply.Some?
    case FinishInit(reply) => reply.Some?
    case _ => true
  }

  /** The getter calls that count succeed; a matched-count query between the
      creation of the event's guard and the installation of its listener finds
      nothing; and a mask that includes the status is installed only when no
      older mask is still to be installed. */
  predicate Disciplined(s: System, step: Step) {
    && Succeeds(step)
    && (step.MatchedQuery? && step.reply.Some? ==> s.slot.guard.NoGuard? || s.installed || !HasUncounted(s))
    && (step.Install? && step.ok && step.mask.includes ==> forall m | m in s.masks :: m.includes)
  }

  predicate IsDisciplinedRun(states: seq<System>, steps: seq<Step>) {
    && IsRun(states, steps) && Exact(states[0].kind)
    && forall i | 0 <= i < |steps| :: Disciplined(states[i], steps[i])
  }

  /** An event about to be initialised has a listener, and before it has one
      nothing is counted. */
  predicate Watched(s: System) {
    && (s.installed ==> forall m | m in s.masks :: m.includes)
    && (s.finishing > 0 || s.initialised ==> s.installed)
    && (!s.installed ==> s.slot.count == 0 && |s.pending| == 0)
  }

  lemma CountGrowsWithHistory(s: System, reply: Option<Status>)
    requires Inv(s) && Enabled(s, MatchedQuery(reply)) && Counts(s, MatchedQuery(reply))
    ensures Next(s, MatchedQuery(reply)).slot.count == |s.history| - s.taken
  {
    hide CountsAt, AddChanges, UntakenEvents, StatusBetween, SumOfChanges, Sum, Reports, NonNegative;
    ReadAdvances(s, reply);
    QueryIsListener(s.slot, reply);
    CountingExact(s, reply);
  }

  lemma QueryKeepsWatched(s: System, reply: Option<Status>)
    requires Inv(s) && Watched(s) && Enabled(s, MatchedQuery(reply)) && Disciplined(s, MatchedQuery(reply))
    ensures Watched(Next(s, MatchedQuery(reply)))
  {
    MatchedQueryCounts(s, reply);
    hide CountsAt, AddChanges, UntakenEvents, StatusBetween, SumOfChanges, Sum, Reports, NonNegative, OnMatchedQuery;
    if !s.installed && Counts(s, MatchedQuery(reply)) {
      CountGrowsWithHistory(s, reply);
    }
  }

  lemma OtherStepKeepsWatched(s: System, step: Step)
    requires Inv(s) && Watched(s) && Enabled(s, step) && Disciplined(s, step) && !step.MatchedQuery?
    ensures Watched(Next(s, step))
  {
    hide CountsAt, AddChanges, UntakenEvents, StatusBetween, SumOfChanges, Sum, Reports, NonNegative, Conserved;
  }

  lemma StepKeepsWatched(s: System, step: Step, t: System)
    requires Inv(s) && Watched(s) && Happens(s, step, t) && Disciplined(s, step)
    ensures Watched(t)
  {
    assert Enabled(s, step) && t == Next(s, step);
    hide Inv, Watched, Next, Enabled, Disciplined;
    if step.MatchedQuery? {
      QueryKeepsWatched(s, step.reply);
    } else {
      OtherStepKeepsWatched(s, step);
    }
  }

  lemma StartWatched(k: Kind)
    ensures Watched(Start(k))
  {
  }

  lemma {:induction false} DisciplinedRunWatched(states: seq<System>, steps: seq<Step>, n: nat)
    requires IsDisciplinedRun(states, steps) && n <= |steps|
    ensures Watched(states[n])
  {
    hide Inv, Watched, Happens, Disciplined, Start;
    if n == 0 {
      StartWatched(states[0].kind);
    } else {
      DisciplinedRunWatched(states, steps, n - 1);
      RunKeepsInv(states, steps, n - 1);
      assert Happens(states[n - 1], steps[n - 1], states[n - 1 + 1]);
      StepKeepsWatched(states[n - 1], steps[n - 1], states[n]);
    }
  }

  lemma StepStaysUninitialised(s: System, step: Step, t: System)
    requires Inv(s) && Exact(s.kind) && Happens(s, step, t) && Succeeds(step)
    requires !s.initialised && s.slot.count == 0 && !Counts(s, step)
    ensures !t.initialised && t.slot.count == 0
  {
    assert Enabled(s, step) && t == Next(s, step);
    match step
    case MatchedQuery(reply) => MatchedQueryCounts(s, reply);
    case _ =>
  }

  /** An event that becomes initialised with nothing counted counts at the end
      of its initialisation. */
  lemma {:induction false} StaysUninitialised(states: seq<System>, steps: seq<Step>, i: nat, n: nat)
    requires IsExactRun(states, steps) && i <= n <= |steps|
    requires !states[i].initialised && states[i].slot.count == 0
    requires forall j | i <= j < n :: !Counts(states[j], steps[j]) && Succeeds(steps[j])
    ensures !states[n].initialised && states[n].slot.count == 0
    decreases n - i
  {
    hide Happens, Inv, Counts;
    if i < n {
      StaysUninitialised(states, steps, i, n - 1);
      RunKeepsInv(states, steps, n - 1);
      PrefixGrows(states, steps, 0, n - 1);
      assert Happens(states[n - 1], steps[n - 1], states[n - 1 + 1]);
      StepStaysUninitialised(states[n - 1], steps[n - 1], states[n]);
    }
  }

  lemma TransitionsDoNotCount(s: System, step: Step)
    requires step.Transition?
    ensures !Counts(s, step)
  {
  }

  lemma SucceedsIfDisciplined(s: System, step: Step)
    requires Disciplined(s, step)
    ensures Succeeds(step)
    ensures step.Listener? ==> step.reply.Some?
  {
  }

  lemma NeverUnwatched(states: seq<System>, steps: seq<Step>, n: nat)
    requires IsDisciplinedRun(states, steps) && n <= |steps| && states[n].initialised
    ensures !Unwatched(states, steps, n)
  {
    hide Happens, Disciplined, Counts;
    if i :| 0 <= i < n && NewestUncounted(states, steps, i, n) && !states[i].installed {
      DisciplinedRunWatched(states, steps, i);
      forall j | i <= j < n ensures Succeeds(steps[j]) {
        SucceedsIfDisciplined(states[j], steps[j]);
      }
      assert !Counts(states[i], steps[i]) by { TransitionsDoNotCount(states[i], steps[i]); }
      StaysUninitialised(states, steps, i, n);
    }
  }

  /** Nothing is missed: once the event is initialised and no listener run is
      pending, the counted events are all transitions since the last take, and
      the stored status has seen all of them. */
  lemma NothingMissed(states: seq<System>, steps: seq<Step>, n: nat)
    requires IsDisciplinedRun(states, steps) && n <= |steps|
    requires states[n].initialised && |states[n].pending| == 0
    ensures states[n].slot.count == |states[n].history| - states[n].taken
    ensures states[n].read == |states[n].history|
    ensures UntakenEvents(states[n].slot.stored) == states[n].slot.count
  {
    hide Happens, CountsAt, Disciplined, Unwatched;
    NeverUnwatched(states, steps, n);
    forall i | 0 <= i < n && steps[i].Listener? ensures steps[i].reply.Some? {
      SucceedsIfDisciplined(states[i], steps[i]);
    }
    MissedIffUnwatched(states, steps, n);
    RunKeepsInv(states, steps, n);
    PrefixGrows(states, steps, 0, n);
    var s := states[n];
    UntakenExact(s.kind, s.history, s.taken, s.read);
  }

  // ---------------------------------------------------------------------------
  // Nothing is told late forever

  /** A callback is registered, and no registration has its second section to
      run. */
  predicate Registered(s: System) {
    s.slot.callback.Some? && s.registering == 0
  }

  /** A registered callback knows all counted events, except while a
      registration still has its second section to run. */
  predicate CaughtUp(s: System) {
    Registered(s) ==> s.slot.reported == s.slot.count
  }

  /** The last section of an initialisation, which counts without telling, finds
      no callback or adds nothing to the count. */
  predicate DisciplinedTelling(s: System, step: Step) {
    step.FinishInit? && Fits(step.reply, s.slot) ==>
      || s.slot.callback.None? || s.slot.count > 0
      || UntakenEvents(ReadStatus(s.slot, step.reply).stored) == 0
  }

  /** The step brings a callback up to date, or leaves nothing to tell. */
  predicate CatchesUp(s: System, step: Step) {
    (step.AfterSetCallback? && s.slot.callback.Some?) || (step.Take? && step.reply.Some?)
  }

  lemma ListenerTells(s: System, run: nat, reply: Option<Status>)
    requires Inv(s) && Enabled(s, Listener(run, reply)) && run <= |s.history|
    requires s.slot.callback.Some?
    ensures var t := Next(s, Listener(run, reply));
            t.slot.count - t.slot.reported == s.slot.count - s.slot.reported
  {
    hide CountsAt, AddChanges, UntakenEvents, StatusBetween, SumOfChanges, Sum, Reports, NonNegative;
    if Exact(s.kind) {
      CountingExact(s, reply);
    } else {
      ReadAdvances(s, reply);
      CountEventsPlain(ReadStatus(s.slot, reply), 1);
    }
  }

  lemma MatchedQueryTells(s: System, reply: Option<Status>)
    requires Inv(s) && Enabled(s, MatchedQuery(reply)) && s.slot.callback.Some?
    ensures var t := Next(s, MatchedQuery(reply));
            t.slot.count - t.slot.reported == s.slot.count - s.slot.reported
  {
    hide CountsAt, AddChanges, UntakenEvents, StatusBetween, SumOfChanges, Sum, Reports, NonNegative;
    ReadAdvances(s, reply);
    if reply.Some? && s.slot.guard.GuardCondition? {
      QueryIsListener(s.slot, reply);
      CountingExact(s, reply);
    }
  }

  lemma FinishInitTellsNothing(s: System, reply: Option<Status>)
    requires Inv(s) && Enabled(s, FinishInit(reply)) && s.slot.callback.Some?
    ensures var t := Next(s, FinishInit(reply));
            && t.slot.reported == s.slot.reported <= s.slot.count <= t.slot.count
            && (t.slot.count > s.slot.count <==> !DisciplinedTelling(s, FinishInit(reply)))
            && (t.slot.count > s.slot.count ==> s.slot.count == 0)
  {
    hide CountsAt, AddChanges, UntakenEvents, StatusBetween, SumOfChanges, Sum, Reports, NonNegative;
    ReadAdvances(s, reply);
  }

  lemma OtherStepTells(s: System, step: Step)
    requires Inv(s) && Enabled(s, step) && Registered(Next(s, step))
    requires !step.Listener? && !step.MatchedQuery? && !step.FinishInit?
    ensures var t := Next(s, step);
            if CatchesUp(s, step) then t.slot.reported == t.slot.count
            else Registered(s) && t.slot.reported == s.slot.reported && t.slot.count == s.slot.count
  {
    hide CountsAt, AddChanges, UntakenEvents, StatusBetween, SumOfChanges, Sum, Reports, NonNegative;
    if step.Take? {
      ReadAdvances(s, step.reply);
    }
  }

  lemma ReadingKeepsRegistered(s: System, step: Step)
    requires Inv(s) && Enabled(s, step) && (step.Listener? ==> step.run <= |s.history|)
    requires step.Listener? || step.MatchedQuery? || step.FinishInit?
    ensures Registered(Next(s, step)) <==> Registered(s)
  {
    hide CountsAt, AddChanges, UntakenEvents, StatusBetween, SumOfChanges, Sum, Reports, NonNegative;
    ReadAdvances(s, step.reply);
  }

  /** What a step does to the difference between counted and told events. */
  lemma StepTells(s: System, step: Step, t: System)
    requires Inv(s) && Happens(s, step, t) && Registered(t)
    ensures CatchesUp(s, step) ==> t.slot.reported == t.slot.count && DisciplinedTelling(s, step)
    ensures !CatchesUp(s, step) ==> Registered(s)
    ensures !DisciplinedTelling(s, step) ==> t.slot.reported < t.slot.count
    ensures !CatchesUp(s, step) && DisciplinedTelling(s, step) ==>
              (t.slot.reported < t.slot.count <==> s.slot.reported < s.slot.count)
  {
    assert Enabled(s, step) && t == Next(s, step);
    StepKeepsHistory(s, step);
    hide Inv, Enabled, Next;
    if step.Listener? || step.MatchedQuery? || step.FinishInit? {
      ReadingKeepsRegistered(s, step);
    }
    match step
    case Listener(run, reply) => ListenerTells(s, run, reply);
    case MatchedQuery(reply) => MatchedQueryTells(s, reply);
    case FinishInit(reply) => FinishInitTellsNothing(s, reply);
    case _ => OtherStepTells(s, step);
  }

  /** Step i counted something without telling the registered callback, and no
      step since, before n, has caught up. */
  predicate LeftBehind(states: seq<System>, steps: seq<Step>, i: nat, n: nat)
    requires n <= |steps| && |states| == |steps| + 1
  {
    && i < n && !DisciplinedTelling(states[i], steps[i])
    && forall j | i < j < n :: !CatchesUp(states[j], steps[j])
  }

  predicate TellsLate(states: seq<System>, steps: seq<Step>, n: nat)
    requires n <= |steps| && |states| == |steps| + 1
  {
    exists i: nat | i < n :: LeftBehind(states, steps, i, n)
  }

  lemma TellsLateStays(states: seq<System>, steps: seq<Step>, n: nat)
    requires 0 < n <= |steps| && |states| == |steps| + 1
    requires DisciplinedTelling(states[n - 1], steps[n - 1]) && !CatchesUp(states[n - 1], steps[n - 1])
    ensures TellsLate(states, steps, n) <==> TellsLate(states, steps, n - 1)
  {
    hide DisciplinedTelling, CatchesUp;
    var m := n - 1;
    if i: nat :| i < n && LeftBehind(states, steps, i, n) {
      assert LeftBehind(states, steps, i, m);
    }
    if i: nat :| i < m && LeftBehind(states, steps, i, m) {
      assert LeftBehind(states, steps, i, n);
    }
  }

  lemma StartUntold(k: Kind)
    ensures !Registered(Start(k))
  {
  }

  /** In every run a registered callback has not been told everything counted
      exactly when an initialisation counted something without telling it and
      neither a registration nor a take has caught up since. */
  lemma {:induction false} LateIffLeftBehind(states: seq<System>, steps: seq<Step>, n: nat)
    requires IsRun(states, steps) && n <= |steps| && Registered(states[n])
    ensures states[n].slot.reported < states[n].slot.count <==> TellsLate(states, steps, n)
  {
    hide Happens, Inv, DisciplinedTelling, CatchesUp, Registered;
    if n == 0 {
      StartUntold(states[0].kind);
    } else {
      RunKeepsInv(states, steps, n - 1);
      assert Happens(states[n - 1], steps[n - 1], states[n - 1 + 1]);
      StepTells(states[n - 1], steps[n - 1], states[n]);
      if CatchesUp(states[n - 1], steps[n - 1]) {
        assert !TellsLate(states, steps, n);
      } else if DisciplinedTelling(states[n - 1], steps[n - 1]) {
        LateIffLeftBehind(states, steps, n - 1);
        TellsLateStays(states, steps, n);
      } else {
        assert LeftBehind(states, steps, n - 1, n);
      }
    }
  }

  /** At quiescence, if the getter calls of listeners succeed, the events that
      callbacks were told since the last take are every transition since then
      exactly when the newest one did not go unwatched and no initialisation left
      the registered callback behind. */
  lemma EverythingToldIff(states: seq<System>, steps: seq<Step>, n: nat)
    requires IsExactRun(states, steps) && n <= |steps| && |states[n].pending| == 0
    requires forall i | 0 <= i < n && steps[i].Listener? :: steps[i].reply.Some?
    requires Registered(states[n])
    ensures Sum(states[n].tellings) - ToldUntilTake(states, steps, n) == |states[n].history| - states[n].taken
       <==> !Unwatched(states, steps, n) && !TellsLate(states, steps, n)
  {
    hide Happens, CountsAt, ToldUntilTake, Sum, Unwatched, TellsLate;
    MissedIffUnwatched(states, steps, n);
    LateIffLeftBehind(states, steps, n);
    ReportedWasTold(states, steps, n);
    RunKeepsInv(states, steps, n);
    PrefixGrows(states, steps, 0, n);
  }

  /** Nothing is told late forever: at the quiescence of a disciplined run the
      events that callbacks were told since the last take are every transition
      since then, unless an initialisation left the callback behind. */
  lemma EverythingTold(states: seq<System>, steps: seq<Step>, n: nat)
    requires IsDisciplinedRun(states, steps) && n <= |steps|
    requires states[n].initialised && |states[n].pending| == 0 && Registered(states[n])
    ensures Sum(states[n].tellings) - ToldUntilTake(states, steps, n) == |states[n].history| - states[n].taken
       <==> !TellsLate(states, steps, n)
    ensures states[n].slot.reported == |states[n].history| - states[n].taken <==> !TellsLate(states, steps, n)
  {
    hide Happens, CountsAt, Disciplined, ToldUntilTake, Sum, Unwatched, TellsLate;
    NeverUnwatched(states, steps, n);
    forall i | 0 <= i < n && steps[i].Listener? ensures steps[i].reply.Some? {
      SucceedsIfDisciplined(states[i], steps[i]);
    }
    EverythingToldIff(states, steps, n);
    ReportedWasTold(states, steps, n);
  }
}
