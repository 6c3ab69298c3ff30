/**
 Where the event accounting falls short of counting and telling every change:
 the exact condition of each failing section, and runs of the code, from the
 start, that end with a transition nobody has counted or told.
 */
module EventFailures {
  import opened Options
  import opened EventStatus
  import opened EventSlot
  import opened EventProtocol
  import opened EventRuns
  import opened EventQuiescence

  /** The last section of an initialisation fills in only a zero count: it leaves
      something uncounted exactly when the count is not zero and less than what
      its reading finds. */
  lemma FinishInitMisses(s: System, reply: Option<Status>)
    requires Inv(s) && Exact(s.kind) && Enabled(s, FinishInit(reply)) && reply.Some?
    ensures Fits(reply, s.slot)
    ensures HasUncounted(Next(s, FinishInit(reply)))
       <==> 0 < s.slot.count < UntakenEvents(ReadStatus(s.slot, reply).stored)
  {
    hide CountsAt, AddChanges, UntakenEvents, StatusBetween, SumOfChanges, Sum, Reports, NonNegative;
    FinishInitCount(s, reply);
    CountingExact(s, reply);
  }

  /** It leaves a registered callback behind exactly when nothing had been counted
      and its reading finds something. */
  lemma FinishInitTells(s: System, reply: Option<Status>)
    requires Inv(s) && Exact(s.kind) && Enabled(s, FinishInit(reply)) && reply.Some?
    requires CaughtUp(s) && s.slot.callback.Some? && s.registering == 0
    ensures CaughtUp(Next(s, FinishInit(reply))) <==> DisciplinedTelling(s, FinishInit(reply))
    ensures CaughtUp(Next(s, FinishInit(reply))) <==> !(s.slot.count == 0 && HasUncounted(s))
  {
    hide CountsAt, AddChanges, UntakenEvents, StatusBetween, SumOfChanges, Sum, Reports, NonNegative;
    FinishInitCount(s, reply);
    CountingExact(s, reply);
  }

  lemma QueryCountsAll(s: System, query: Status)
    requires Inv(s) && Enabled(s, MatchedQuery(Some(query))) && s.slot.guard.GuardCondition?
    ensures var t := Next(s, MatchedQuery(Some(query)));
            && Inv(t) && t.slot.count == |s.history| - s.taken
            && t == s.(slot := t.slot, read := |s.history|, tellings := t.tellings)
  {
    hide CountsAt;
    MatchedQueryKeepsInv(s, Some(query));
    QueryIsListener(s.slot, Some(query));
    CountingExact(s, Some(query));
  }

  /** The steps of QueryDuringInit: a matched-count query and a transition happen
      after an initialisation has computed its mask and before it installs it. */
  ghost predicate QueryDuringInit(s: System, query: Status, change: Change, final: Status, t: System) {
    exists a, b, c ::
      && Happens(s, MatchedQuery(Some(query)), a) && Happens(a, Transition(change), b)
      && Happens(b, Install(Mask(true, true), true), c) && Happens(c, FinishInit(Some(final)), t)
  }

  /** The initialisation then ends without having counted the transition, with no
      listener run to count it, exactly when the query found something. */
  lemma QueryDuringInitLosesEvents(s: System, query: Status, change: Change, final: Status)
    returns (t: System)
    requires Inv(s) && s.kind == Matching && !s.installed && |s.pending| == 0
    requires Mask(true, true) in s.masks
    requires Enabled(s, MatchedQuery(Some(query))) && Enabled(s, Transition(change))
    requires Reports(final, s.kind, s.history + [change])
    ensures QueryDuringInit(s, query, change, final, t)
    ensures t.initialised && |t.pending| == 0
    ensures HasUncounted(t) <==> |s.history| > s.taken
    ensures t.kind == s.kind && t.masks == s.masks - multiset{Mask(true, true)}
  {
    hide CountsAt, AddChanges, UntakenEvents, StatusBetween, SumOfChanges;
    var a := Next(s, MatchedQuery(Some(query)));
    QueryCountsAll(s, query);
    var b := Next(a, Transition(change));
    TransitionKeepsInv(a, change);
    var c := Next(b, Install(Mask(true, true), true));
    InitKeepsInv(b, Install(Mask(true, true), true));
    t := Next(c, FinishInit(Some(final)));
    FinishInitCounts(c, Some(final));
    assert Happens(s, MatchedQuery(Some(query)), a) && Happens(a, Transition(change), b)
        && Happens(b, Install(Mask(true, true), true), c) && Happens(c, FinishInit(Some(final)), t);
  }

  /** After an installation the next transition has a listener run exactly when
      the installed mask includes the status. A mask computed before the event's
      guard existed does not: its installation uninstalls the event's listener. */
  lemma StaleMaskLosesEvents(s: System, mask: Mask, ok: bool, change: Change)
    requires Inv(s) && |s.pending| == 0 && Exact(s.kind)
    requires mask in s.masks && Enabled(s, Transition(change))
    ensures var t := Next(s, Install(mask, ok));
            && Happens(s, Install(mask, ok), t)
            && Enabled(t, Transition(change)) && t.slot.stored.Kind() == t.kind
            && var u := Next(t, Transition(change));
               HasUncounted(u) && (|u.pending| > 0 <==> if ok then mask.includes else s.installed)
  {
    hide CountsAt, AddChanges, UntakenEvents, StatusBetween, SumOfChanges, Sum, NonNegative;
    var t := Next(s, Install(mask, ok));
    InitKeepsInv(s, Install(mask, ok));
    TransitionUncounted(t, change);
  }

  // ---------------------------------------------------------------------------
  // Steps of the runs below

  lemma Extended(states: seq<System>, steps: seq<Step>, step: Step, t: System)
    returns (longer: seq<System>, more: seq<Step>)
    requires IsRun(states, steps) && |states| == |steps| + 1 && Happens(states[|steps|], step, t)
    ensures IsRun(longer, more) && |longer| == |more| + 1 && longer[|more|] == t
  {
    hide Happens;
    longer, more := states + [t], steps + [step];
    forall i | 0 <= i < |more| ensures Happens(longer[i], more[i], longer[i + 1]) {
      if i < |steps| {
        assert longer[i] == states[i] && longer[i + 1] == states[i + 1];
      }
    }
  }

  lemma MaskHappens(s: System, own: bool)
    requires s.slot.stored.Kind() == s.kind && (own ==> s.entered > 0)
    ensures Happens(s, ComputeMask(own), s.(
              masks := s.masks + multiset{Mask(own, s.slot.guard.GuardCondition?)},
              entered := if own then s.entered - 1 else s.entered))
  {
  }

  lemma GuardHappens(s: System)
    requires s.slot.stored.Kind() == s.kind
    ensures Happens(s, CreateGuard, s.(slot := OnCreateGuard(s.slot), entered := s.entered + 1))
  {
  }

  lemma InstallHappens(s: System, mask: Mask)
    requires s.slot.stored.Kind() == s.kind && mask in s.masks
    ensures Happens(s, Install(mask, true), s.(
              masks := s.masks - multiset{mask}, installed := mask.includes,
              finishing := if mask.own then s.finishing + 1 else s.finishing))
  {
  }

  /** The first transition of a status without negative changes. */
  lemma FirstTransitionHappens(s: System, change: Change)
    requires s.slot.stored.Kind() == s.kind && s.history == []
    requires change.IsOf(s.kind) && change.Delta().first >= 0 && change.Delta().second >= 0
    ensures Happens(s, Transition(change), s.(
              history := s.history + [change],
              pending := if s.installed then s.pending + multiset{1} else s.pending))
  {
    assert CountsAt(s.history, 0) == Pair(0, 0);
    hide CountsAt, AddChanges, UntakenEvents, StatusBetween, NonNegative;
    var history := s.history + [change];
    assert |history| == 1;
  }

  lemma FinishInitOfNothing(s: System)
    requires s.slot == Slot(GuardCondition(false), None, 0, 0, Zero(s.kind))
    requires s.history == [] && s.read == 0 && s.finishing > 0
    ensures Happens(s, FinishInit(Some(Zero(s.kind))), s.(finishing := s.finishing - 1, initialised := true))
  {
  }

  lemma RegistrationHappens(s: System, callback: Callback)
    requires s.slot.stored.Kind() == s.kind && s.initialised && s.slot.count == s.slot.reported == 0
    requires s.registering == 0
    ensures var t := s.(slot := s.slot.(callback := Some(callback)), registering := 1);
            && Happens(s, SetCallback(Some(callback)), t)
            && Happens(t, AfterSetCallback, t.(registering := 0))
  {
    hide CountsAt, AddChanges, UntakenEvents, StatusBetween;
  }

  /** A change that raises an exact status. */
  predicate Raises(k: Kind, change: Change) {
    Exact(k) && if k == Matching then change.Match? else change.Occurrence?
  }

  /** An initialised event, with masks of other initialisations still to be
      installed. */
  function Initialised(k: Kind, masks: multiset<Mask>): System {
    Start(k).(slot := Fresh(k).(guard := GuardCondition(false)), masks := masks,
              installed := true, initialised := true)
  }

  lemma InitRunFrom(k: Kind, masks: multiset<Mask>, states: seq<System>, steps: seq<Step>)
    returns (longer: seq<System>, more: seq<Step>)
    requires IsRun(states, steps) && |states| == |steps| + 1
    requires states[|steps|] == Start(k).(
               slot := Fresh(k).(guard := GuardCondition(false)), masks := masks, entered := 1)
    ensures IsRun(longer, more) && |longer| == |more| + 1 && longer[|more|] == Initialised(k, masks)
  {
    hide Happens, IsRun, AddChanges;
    var s := states[|steps|];
    var own := multiset{Mask(true, true)};
    MaskHappens(s, true);
    s := s.(masks := masks + own, entered := 0);
    longer, more := Extended(states, steps, ComputeMask(true), s);
    InstallHappens(s, Mask(true, true));
    assert masks + own - own == masks;
    s := s.(masks := masks, installed := true, finishing := 1);
    longer, more := Extended(longer, more, Install(Mask(true, true), true), s);
    FinishInitOfNothing(s);
    s := s.(finishing := 0, initialised := true);
    longer, more := Extended(longer, more, FinishInit(Some(Zero(k))), s);
  }

  /** The run of an initialisation, started after another event type of the
      endpoint has computed `stale` masks, of which none is installed yet. */
  lemma InitRun(k: Kind, stale: bool) returns (states: seq<System>, steps: seq<Step>)
    ensures IsRun(states, steps) && |states| == |steps| + 1
    ensures states[|steps|] == Initialised(k, if stale then multiset{Mask(false, false)} else multiset{})
  {
    hide Happens, AddChanges;
    var masks := if stale then multiset{Mask(false, false)} else multiset{};
    var s := Start(k);
    states, steps := [s], [];
    if stale {
      MaskHappens(s, false);
      s := s.(masks := masks);
      assert multiset{} + masks == masks;
      states, steps := Extended(states, steps, ComputeMask(false), s);
    }
    GuardHappens(s);
    s := s.(slot := Fresh(k).(guard := GuardCondition(false)), entered := 1);
    states, steps := Extended(states, steps, CreateGuard, s);
    states, steps := InitRunFrom(k, masks, states, steps);
  }

  // ---------------------------------------------------------------------------
  // Runs that end with something missed

  /** Two initialisations on one endpoint end with a transition that no listener
      run will count, and none will run until a mask that includes the status is
      installed (UnwatchedUntilInstalled); no mask is left to be. */
  lemma StaleMaskRun(k: Kind, change: Change) returns (states: seq<System>, steps: seq<Step>)
    requires Raises(k, change)
    ensures IsRun(states, steps) && |states| == |steps| + 1
    ensures var t := states[|steps|];
            && t.kind == k && t.initialised && t.masks == multiset{} && t.entered == 0
            && !t.installed && |t.pending| == 0 && HasUncounted(t)
  {
    hide Happens, IsRun;
    states, steps := InitRun(k, true);
    var s := Initialised(k, multiset{Mask(false, false)});
    InstallHappens(s, Mask(false, false));
    assert s.masks - multiset{Mask(false, false)} == multiset{};
    s := s.(masks := multiset{}, installed := false);
    states, steps := Extended(states, steps, Install(Mask(false, false), true), s);
    FirstTransitionHappens(s, change);
    s := s.(history := s.history + [change]);
    states, steps := Extended(states, steps, Transition(change), s);
  }

  /** The steps of an initialisation up to the computation of its mask, with a
      match in between. */
  lemma MatchedBeforeInstall(change: Change) returns (states: seq<System>, steps: seq<Step>)
    requires change.Match?
    ensures IsRun(states, steps) && |states| == |steps| + 1
    ensures states[|steps|] == Start(Matching).(
              slot := Fresh(Matching).(guard := GuardCondition(false)), masks := multiset{Mask(true, true)},
              history := [change])
  {
    hide Happens;
    var s := Start(Matching);
    states, steps := [s], [];
    GuardHappens(s);
    s := s.(slot := OnCreateGuard(s.slot), entered := 1);
    states, steps := Extended(states, steps, CreateGuard, s);
    MaskHappens(s, true);
    assert s.masks + multiset{Mask(true, true)} == multiset{Mask(true, true)};
    s := s.(masks := multiset{Mask(true, true)}, entered := 0);
    states, steps := Extended(states, steps, ComputeMask(true), s);
    FirstTransitionHappens(s, change);
    assert [] + [change] == [change];
    s := s.(history := [change]);
    states, steps := Extended(states, steps, Transition(change), s);
  }

  lemma {:induction false} MatchCounts(h: History, n: nat)
    requires n <= |h| && forall i | 0 <= i < |h| :: h[i].Match?
    ensures CountsAt(h, n) == Pair(n, n)
  {
    if n > 0 {
      MatchCounts(h, n - 1);
    }
  }

  /** What zzdds reports after nothing but matches. */
  function AllMatches(h: History): Status {
    MatchedStatus(|h|, 0, |h|, 0, LastAt(h, |h|))
  }

  lemma MatchesReport(h: History)
    requires forall i | 0 <= i < |h| :: h[i].Match?
    ensures Reports(AllMatches(h), Matching, h)
  {
    MatchCounts(h, |h|);
    hide CountsAt;
  }

  lemma QuerySetUp(s: System, change: Change)
    requires change.Match? && s.kind == Matching && |s.history| == 1 && s.history[0] == change
    requires !s.initialised && s.taken == 0 && s.slot.count == 0 && s.slot.stored.Kind() == Matching
    ensures Enabled(s, MatchedQuery(Some(AllMatches(s.history)))) && Enabled(s, Transition(change))
    ensures Reports(AllMatches(s.history + [change]), Matching, s.history + [change])
  {
    hide CountsAt, Reports, AllMatches;
    var more := s.history + [change];
    forall i | 0 <= i < |more| ensures more[i].Match? {
      assert more[i] == change;
    }
    MatchesReport(s.history);
    MatchesReport(more);
    MatchCounts(s.history, |s.history|);
  }

  lemma QueryStepsExtend(
    states: seq<System>, steps: seq<Step>, change: Change, query: Status, final: Status, t: System)
    returns (longer: seq<System>, more: seq<Step>)
    requires IsRun(states, steps) && |states| == |steps| + 1
    requires QueryDuringInit(states[|steps|], query, change, final, t)
    ensures IsRun(longer, more) && |longer| == |more| + 1 && longer[|more|] == t
  {
    var s := states[|steps|];
    hide Happens, IsRun;
    var a, b, c :| && Happens(s, MatchedQuery(Some(query)), a) && Happens(a, Transition(change), b)
                   && Happens(b, Install(Mask(true, true), true), c) && Happens(c, FinishInit(Some(final)), t);
    longer, more := Extended(states, steps, MatchedQuery(Some(query)), a);
    longer, more := Extended(longer, more, Transition(change), b);
    longer, more := Extended(longer, more, Install(Mask(true, true), true), c);
    longer, more := Extended(longer, more, FinishInit(Some(final)), t);
  }

  /** One initialisation with a matched-count query in it ends with a transition
      that no pending listener run will count. */
  lemma QueryDuringInitRun(change: Change) returns (states: seq<System>, steps: seq<Step>)
    requires change.Match?
    ensures IsRun(states, steps) && |states| == |steps| + 1
    ensures var t := states[|steps|];
            t.kind == Matching && t.initialised && t.masks == multiset{} && |t.pending| == 0 && HasUncounted(t)
  {
    states, steps := MatchedBeforeInstall(change);
    var s := states[|steps|];
    RunKeepsInv(states, steps, |steps|);
    assert s.masks - multiset{Mask(true, true)} == multiset{};
    hide Happens, Inv, Next, IsRun, Enabled, Reports, HasUncounted, AllMatches, QueryDuringInit;
    QuerySetUp(s, change);
    var query, final := AllMatches(s.history), AllMatches(s.history + [change]);
    var t := QueryDuringInitLosesEvents(s, query, change, final);
    states, steps := QueryStepsExtend(states, steps, change, query, final, t);
  }

  // ---------------------------------------------------------------------------
  // A run that ends with something counted and not told

  /** An initialised event with a callback is initialised again, and a transition
      happens just before the last section. */
  function Reinitialising(k: Kind, callback: Callback, change: Change): System {
    Initialised(k, multiset{}).(
      slot := Fresh(k).(guard := GuardCondition(false), callback := Some(callback)),
      finishing := 1, history := [change], pending := multiset{1})
  }

  lemma ReinitialisingRun(k: Kind, callback: Callback, change: Change)
    returns (states: seq<System>, steps: seq<Step>)
    requires Raises(k, change)
    ensures IsRun(states, steps) && |states| == |steps| + 1
    ensures states[|steps|] == Reinitialising(k, callback, change)
  {
    hide Happens, IsRun, AddChanges;
    states, steps := InitRun(k, false);
    var s := Initialised(k, multiset{});
    RegistrationHappens(s, callback);
    s := s.(slot := s.slot.(callback := Some(callback)), registering := 1);
    states, steps := Extended(states, steps, SetCallback(Some(callback)), s);
    s := s.(registering := 0);
    states, steps := Extended(states, steps, AfterSetCallback, s);
    GuardHappens(s);
    s := s.(entered := 1);
    states, steps := Extended(states, steps, CreateGuard, s);
    MaskHappens(s, true);
    assert multiset{} + multiset{Mask(true, true)} == multiset{Mask(true, true)};
    s := s.(masks := multiset{Mask(true, true)}, entered := 0);
    states, steps := Extended(states, steps, ComputeMask(true), s);
    InstallHappens(s, Mask(true, true));
    assert s.masks - multiset{Mask(true, true)} == multiset{};
    s := s.(masks := multiset{}, finishing := 1);
    states, steps := Extended(states, steps, Install(Mask(true, true), true), s);
    FirstTransitionHappens(s, change);
    assert [] + [change] == [change] && multiset{} + multiset{1} == multiset{1};
    s := s.(history := [change], pending := multiset{1});
    states, steps := Extended(states, steps, Transition(change), s);
  }

  /** The last section counts the transition without telling, and the listener run
      finds nothing left to count. */
  lemma LastSectionTellsNothing(s: System, reply: Status) returns (t: System, u: System)
    requires Inv(s) && Exact(s.kind) && s.slot.count == 0 && HasUncounted(s)
    requires s.slot.callback.Some? && s.registering == 0 && s.pending == multiset{1}
    requires Enabled(s, FinishInit(Some(reply))) && |s.history| == 1
    ensures Happens(s, FinishInit(Some(reply)), t) && Happens(t, Listener(1, Some(reply)), u)
    ensures !CaughtUp(u) && |u.pending| == 0 && u.initialised && u.tellings == s.tellings
    ensures u.slot.callback == s.slot.callback && u.registering == 0
    ensures u.slot.count == |u.history| - u.taken > 0
  {
    hide CountsAt, AddChanges, UntakenEvents, StatusBetween, SumOfChanges, Sum, Reports, NonNegative;
    ReadAdvances(s, Some(reply));
    FinishInitCount(s, Some(reply));
    FinishInitKeepsInv(s, Some(reply));
    t := Next(s, FinishInit(Some(reply)));
    CountingExact(t, Some(reply));
    u := Next(t, Listener(1, Some(reply)));
  }

  lemma ReinitialisingReady(k: Kind, callback: Callback, change: Change) returns (reply: Status)
    requires Raises(k, change)
    ensures var s := Reinitialising(k, callback, change);
            && s.kind == k && s.slot.count == 0 && HasUncounted(s) && s.tellings == []
            && s.slot.callback == Some(callback) && s.registering == 0 && s.pending == multiset{1}
            && Enabled(s, FinishInit(Some(reply))) && |s.history| == 1
  {
    hide CountsAt;
    reply := StatusBetween(k, [change], 1, 1);
  }

  /** Nothing is pending, a callback is registered and the transition is counted,
      but no callback was ever told. */
  lemma ReinitialisedRun(k: Kind, callback: Callback, change: Change)
    returns (states: seq<System>, steps: seq<Step>)
    requires Raises(k, change)
    ensures IsRun(states, steps) && |states| == |steps| + 1
    ensures var t := states[|steps|];
            && t.initialised && |t.pending| == 0 && t.registering == 0 && t.slot.callback == Some(callback)
            && t.slot.count == |t.history| - t.taken > 0 && !CaughtUp(t) && t.tellings == []
  {
    hide Happens, Inv, IsRun, Enabled, HasUncounted, Reinitialising, CaughtUp;
    states, steps := ReinitialisingRun(k, callback, change);
    RunKeepsInv(states, steps, |steps|);
    var reply := ReinitialisingReady(k, callback, change);
    var t, u := LastSectionTellsNothing(states[|steps|], reply);
    states, steps := Extended(states, steps, FinishInit(Some(reply)), t);
    states, steps := Extended(states, steps, Listener(1, Some(reply)), u);
  }
}
