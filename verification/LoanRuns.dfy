/**
 Runs of the loan functions in several threads. The set of an endpoint is
 changed under the context's mutex, but messages are created and destroyed
 outside it, so a call goes through phases: it has created a message that no
 set holds yet, it has listed one that it has not handed out yet, or it has
 taken one out of the set that it is about to destroy.
 */
module LoanRuns {
  import opened Loans

  type EndpointId = nat
  type Call = nat

  datatype Phase =
    | Created(endpoint: EndpointId, message: Message)
    | Listed(endpoint: EndpointId, message: Message)
    | Removed(endpoint: EndpointId, message: Message)

  datatype State = State(live: set<Message>, loans: map<EndpointId, set<Message>>, calls: map<Call, Phase>)

  datatype Step =
    | Open(endpoint: EndpointId)
    /** A borrow or a take of a loan creates its message. */
    | Create(call: Call, endpoint: EndpointId, message: Message)
    /** It fails, or finds no sample, and destroys the message. */
    | Abandon(call: Call)
    | List(call: Call)
    | HandOut(call: Call)
    /** The publisher of the sample is unknown: take the message off the list. */
    | Withdraw(call: Call)
    /** A return or a publication of `message`, which may be any address. */
    | GiveBack(call: Call, endpoint: EndpointId, message: Message)
    | Destroy(call: Call)
    /** The endpoint is destroyed, with what it has lent out. */
    | Close(endpoint: EndpointId)

  /** Callers use only endpoints that exist, close one only when no call is at
      work on it, and give back no address they have not been given: not that of
      a message listed but not handed out. */
  ghost predicate Enabled(state: State, step: Step) {
    match step
    case Open(endpoint) => endpoint !in state.loans
    case Create(call, endpoint, message) =>
      call !in state.calls && endpoint in state.loans && message !in state.live
    case Abandon(call) => call in state.calls && state.calls[call].Created?
    case List(call) => call in state.calls && state.calls[call].Created? && state.calls[call].endpoint in state.loans
    case HandOut(call) => call in state.calls && state.calls[call].Listed?
    case Withdraw(call) => call in state.calls && state.calls[call].Listed? && state.calls[call].endpoint in state.loans
    case GiveBack(call, endpoint, message) =>
      && call !in state.calls && endpoint in state.loans
      && forall c | c in state.calls :: state.calls[c].Listed? ==> state.calls[c].message != message
    case Destroy(call) => call in state.calls && state.calls[call].Removed?
    case Close(endpoint) =>
      endpoint in state.loans && forall c | c in state.calls :: state.calls[c].endpoint != endpoint
  }

  function Next(state: State, step: Step): State
    requires Enabled(state, step)
  {
    match step
    case Open(endpoint) => state.(loans := state.loans[endpoint := {}])
    case Create(call, endpoint, message) =>
      state.(live := state.live + {message}, calls := state.calls[call := Created(endpoint, message)])
    case Abandon(call) =>
      state.(live := state.live - {state.calls[call].message}, calls := state.calls - {call})
    case List(call) =>
      var phase := state.calls[call];
      state.(loans := state.loans[phase.endpoint := state.loans[phase.endpoint] + {phase.message}],
             calls := state.calls[call := Listed(phase.endpoint, phase.message)])
    case HandOut(call) => state.(calls := state.calls - {call})
    case Withdraw(call) =>
      var phase := state.calls[call];
      state.(loans := state.loans[phase.endpoint := state.loans[phase.endpoint] - {phase.message}],
             calls := state.calls[call := Removed(phase.endpoint, phase.message)])
    case GiveBack(call, endpoint, message) =>
      if message in state.loans[endpoint] then
        state.(loans := state.loans[endpoint := state.loans[endpoint] - {message}],
               calls := state.calls[call := Removed(endpoint, message)])
      else state
    case Destroy(call) =>
      state.(live := state.live - {state.calls[call].message}, calls := state.calls - {call})
    case Close(endpoint) =>
      state.(live := state.live - state.loans[endpoint], loans := state.loans - {endpoint})
  }

  const START := State({}, map[], map[])

  ghost predicate IsRun(steps: seq<Step>, states: seq<State>) {
    && |states| == |steps| + 1 && states[0] == START
    && forall n | 0 <= n < |steps| :: Enabled(states[n], steps[n]) && states[n + 1] == Next(states[n], steps[n])
  }

  /** The endpoint has lent out the message. */
  predicate Lent(state: State, endpoint: EndpointId, message: Message) {
    endpoint in state.loans && message in state.loans[endpoint]
  }

  /** The call alone has the message. */
  predicate Carries(state: State, call: Call, message: Message) {
    call in state.calls && !state.calls[call].Listed? && state.calls[call].message == message
  }

  ghost predicate Held(state: State, message: Message) {
    (exists e :: Lent(state, e, message)) || (exists c :: Carries(state, c, message))
  }

  /** The messages of different calls differ. */
  ghost predicate Apart(state: State) {
    forall c, d | c in state.calls && d in state.calls && c != d :: state.calls[c].message != state.calls[d].message
  }

  /** Every message alive is lent out by one endpoint or carried by one call,
      and by no more than one of them. */
  ghost predicate Inv(state: State) {
    && (forall e, m | Lent(state, e, m) :: m in state.live)
    && (forall e, f, m | Lent(state, e, m) && Lent(state, f, m) :: e == f)
    && (forall c, m | Carries(state, c, m) :: m in state.live)
    && (forall c, d, m | Carries(state, c, m) && Carries(state, d, m) :: c == d)
    && (forall c, e, m | Carries(state, c, m) :: !Lent(state, e, m))
    && (forall c | c in state.calls :: state.calls[c].endpoint in state.loans)
    && (forall c | c in state.calls && state.calls[c].Listed? ::
          Lent(state, state.calls[c].endpoint, state.calls[c].message))
    && Apart(state)
    && (forall m | m in state.live :: Held(state, m))
  }

  lemma StepKeepsHeld(state: State, step: Step, m: Message)
    requires Inv(state) && Enabled(state, step) && m in Next(state, step).live
    ensures Held(Next(state, step), m)
  {
    var next := Next(state, step);
    if step.Create? && m == step.message {
      assert Carries(next, step.call, m);
    } else if e :| Lent(state, e, m) {
      var withdrawn := step.Withdraw? && m == state.calls[step.call].message;
      if withdrawn || (step.GiveBack? && step.message == m && step.endpoint == e) {
        assert Carries(next, step.call, m);
      } else {
        assert Lent(next, e, m);
      }
    } else {
      var c :| Carries(state, c, m);
      if step == List(c) {
        assert Lent(next, state.calls[c].endpoint, m);
      } else {
        assert Carries(next, c, m);
      }
    }
  }

  /** Whom a step lets have a message who did not have it. */
  lemma NewHolders(state: State, step: Step)
    requires Enabled(state, step)
    ensures forall e, m | Lent(Next(state, step), e, m) ::
              || Lent(state, e, m)
              || (step.List? && Carries(state, step.call, m) && state.calls[step.call].endpoint == e)
    ensures forall c, m | Carries(Next(state, step), c, m) ::
              || Carries(state, c, m)
              || (step.Create? && step.call == c && step.message == m)
              || (step.Withdraw? && step.call == c && state.calls[c].message == m)
              || (step.GiveBack? && step.call == c && step.message == m && Lent(state, step.endpoint, m))
  {
  }

  /** A step destroys only messages that its call carries or its endpoint has
      lent out, and those lose their holder. */
  lemma OnlyHoldersDestroy(state: State, step: Step, m: Message)
    requires Enabled(state, step) && m in state.live && m !in Next(state, step).live
    ensures || ((step.Abandon? || step.Destroy?)
                && Carries(state, step.call, m) && !Carries(Next(state, step), step.call, m))
            || (step.Close? && Lent(state, step.endpoint, m) && !Lent(Next(state, step), step.endpoint, m))
  {
  }

  lemma StepKeepsApart(state: State, step: Step)
    requires Inv(state) && Enabled(state, step)
    ensures Apart(Next(state, step))
  {
    forall c | c in state.calls ensures state.calls[c].message in state.live {
      assert Carries(state, c, state.calls[c].message) || Lent(state, state.calls[c].endpoint, state.calls[c].message);
    }
    if step.GiveBack? && Lent(state, step.endpoint, step.message) {
      forall c | c in state.calls ensures state.calls[c].message != step.message {
        assert state.calls[c].message == step.message ==> Carries(state, c, step.message);
      }
    }
  }

  lemma StepKeepsHoldersLive(state: State, step: Step)
    requires Inv(state) && Enabled(state, step)
    ensures forall e, m | Lent(Next(state, step), e, m) :: m in Next(state, step).live
    ensures forall c, m | Carries(Next(state, step), c, m) :: m in Next(state, step).live
  {
    var next := Next(state, step);
    NewHolders(state, step);
    forall m | m in state.live && m !in next.live ensures !exists e :: Lent(next, e, m) {
      OnlyHoldersDestroy(state, step, m);
    }
    forall m | m in state.live && m !in next.live ensures !exists c :: Carries(next, c, m) {
      OnlyHoldersDestroy(state, step, m);
    }
  }

  lemma StepKeepsInv(state: State, step: Step)
    requires Inv(state) && Enabled(state, step)
    ensures Inv(Next(state, step))
  {
    var next := Next(state, step);
    NewHolders(state, step);
    StepKeepsApart(state, step);
    StepKeepsHoldersLive(state, step);
    forall m | m in next.live ensures Held(next, m) {
      StepKeepsHeld(state, step, m);
    }
  }

  lemma {:induction false} RunKeepsInv(steps: seq<Step>, states: seq<State>, n: nat)
    requires IsRun(steps, states) && n <= |steps|
    ensures Inv(states[n])
  {
    if n > 0 {
      RunKeepsInv(steps, states, n - 1);
      StepKeepsInv(states[n - 1], steps[n - 1]);
    }
  }

  /** Every message alive has exactly one holder, whichever it is. */
  lemma OneHolder(steps: seq<Step>, states: seq<State>, n: nat, m: Message)
    requires IsRun(steps, states) && n <= |steps|
    ensures m in states[n].live <==> Held(states[n], m)
    ensures forall e, f | Lent(states[n], e, m) && Lent(states[n], f, m) :: e == f
    ensures forall c, d | Carries(states[n], c, m) && Carries(states[n], d, m) :: c == d
    ensures forall c, e | Carries(states[n], c, m) :: !Lent(states[n], e, m)
  {
    RunKeepsInv(steps, states, n);
  }

  /** The calls of create_ros_message and destroy_ros_message in the first n
      steps. */
  function CreatedIn(steps: seq<Step>, n: nat): nat
    requires n <= |steps|
  {
    if n == 0 then 0 else CreatedIn(steps, n - 1) + if steps[n - 1].Create? then 1 else 0
  }

  function Destroys(state: State, step: Step): nat {
    if step.Abandon? || step.Destroy? then 1
    else if step.Close? && step.endpoint in state.loans then |state.loans[step.endpoint]|
    else 0
  }

  function DestroyedIn(steps: seq<Step>, states: seq<State>, n: nat): nat
    requires n <= |steps| && n <= |states|
  {
    if n == 0 then 0 else DestroyedIn(steps, states, n - 1) + Destroys(states[n - 1], steps[n - 1])
  }

  /** A step's destructions are of messages that are alive, each once. */
  lemma StepDestroysAlive(state: State, step: Step)
    requires Inv(state) && Enabled(state, step)
    ensures |Next(state, step).live| + Destroys(state, step) == |state.live| + if step.Create? then 1 else 0
  {
    if step.Close? {
      forall m | m in state.loans[step.endpoint] ensures m in state.live {
        assert Lent(state, step.endpoint, m);
      }
      var lent, next := state.loans[step.endpoint], Next(state, step);
      assert next.live + lent == state.live && next.live !! lent;
    } else if step.Abandon? || step.Destroy? {
      assert Carries(state, step.call, state.calls[step.call].message);
      var next := Next(state, step);
      assert next.live + {state.calls[step.call].message} == state.live;
    }
  }

  /** Every created message is alive or has been destroyed, and none twice. */
  lemma {:induction false} Conservation(steps: seq<Step>, states: seq<State>, n: nat)
    requires IsRun(steps, states) && n <= |steps|
    ensures CreatedIn(steps, n) == DestroyedIn(steps, states, n) + |states[n].live|
  {
    if n > 0 {
      Conservation(steps, states, n - 1);
      RunKeepsInv(steps, states, n - 1);
      StepDestroysAlive(states[n - 1], steps[n - 1]);
    }
  }

  /** Once no call is at work and all endpoints are destroyed, no message is left
      and every created one has been destroyed. */
  lemma NothingLeft(steps: seq<Step>, states: seq<State>)
    requires IsRun(steps, states)
    requires states[|steps|].loans == map[] && states[|steps|].calls == map[]
    ensures states[|steps|].live == {}
    ensures CreatedIn(steps, |steps|) == DestroyedIn(steps, states, |steps|)
  {
    RunKeepsInv(steps, states, |steps|);
    Conservation(steps, states, |steps|);
    var last := states[|steps|];
    assert forall m | m in last.live :: Held(last, m);
    assert last.live == {};
  }

  /** The step lists the message with the endpoint. */
  predicate Lists(state: State, step: Step, endpoint: EndpointId, message: Message) {
    step.List? && Carries(state, step.call, message) && state.calls[step.call].endpoint == endpoint
  }

  lemma {:induction false} StaysGivenBack(steps: seq<Step>, states: seq<State>, i: nat, k: nat)
    requires IsRun(steps, states) && i < k < |steps| && steps[i].GiveBack?
    requires forall l | i < l < k :: !Lists(states[l], steps[l], steps[i].endpoint, steps[i].message)
    ensures !Lent(states[k], steps[i].endpoint, steps[i].message)
  {
    if k == i + 1 {
    } else {
      StaysGivenBack(steps, states, i, k - 1);
      NewHolders(states[k - 1], steps[k - 1]);
    }
  }

  /** After a message was given back, giving it back again fails and changes
      nothing, until the endpoint lends that address out anew. */
  lemma {:induction false} SecondGiveBackFails(steps: seq<Step>, states: seq<State>, i: nat, j: nat)
    requires IsRun(steps, states) && i < j < |steps|
    requires steps[i].GiveBack? && steps[j].GiveBack?
    requires steps[i].endpoint == steps[j].endpoint && steps[i].message == steps[j].message
    requires forall k | i < k < j :: !Lists(states[k], steps[k], steps[i].endpoint, steps[i].message)
    ensures states[j + 1] == states[j]
  {
    StaysGivenBack(steps, states, i, j);
  }

  // ---------------------------------------------------------------------------
  // The methods of Loans.Endpoint as steps

  /** The steps lead from one state to the other. */
  ghost predicate Leads(from: State, steps: seq<Step>, to: State)
    decreases |steps|
  {
    if steps == [] then from == to
    else Enabled(from, steps[0]) && Leads(Next(from, steps[0]), steps[1..], to)
  }

  lemma LeadsOne(state: State, step: Step)
    requires Enabled(state, step)
    ensures Leads(state, [step], Next(state, step))
  {
  }

  lemma LeadsMore(state: State, step: Step, rest: seq<Step>, to: State)
    requires Enabled(state, step) && Leads(Next(state, step), rest, to)
    ensures Leads(state, [step] + rest, to)
  {
    assert ([step] + rest)[1..] == rest;
  }

  /** Borrowing, or taking a loan: a call that ends with the message handed out
      does what Endpoint.Borrow and Endpoint.TakeLoan do when they lend one, and a
      call that fails in any phase does nothing. */
  lemma LendingSteps(state: State, call: Call, endpoint: EndpointId, message: Message)
    requires Inv(state) && call !in state.calls && endpoint in state.loans && message !in state.live
    ensures var create := Create(call, endpoint, message);
            && Leads(state, [create, List(call), HandOut(call)],
                     state.(live := state.live + {message},
                            loans := state.loans[endpoint := state.loans[endpoint] + {message}]))
            && Leads(state, [create, Abandon(call)], state)
            && Leads(state, [create, List(call), Withdraw(call), Destroy(call)], state)
  {
    assert message !in state.loans[endpoint] by {
      assert Lent(state, endpoint, message) ==> message in state.live;
    }
    var created := Next(state, Create(call, endpoint, message));
    assert created.calls - {call} == state.calls && created.live - {message} == state.live;
    assert Leads(created, [Abandon(call)], state) by { LeadsOne(created, Abandon(call)); }
    var listed := Next(created, List(call));
    assert listed.calls - {call} == state.calls;
    assert Leads(listed, [HandOut(call)], Next(listed, HandOut(call))) by { LeadsOne(listed, HandOut(call)); }
    var withdrawn := Next(listed, Withdraw(call));
    assert withdrawn.loans[endpoint] == state.loans[endpoint];
    assert withdrawn.loans == state.loans;
    assert withdrawn.calls - {call} == state.calls && withdrawn.live - {message} == state.live;
    assert Leads(withdrawn, [Destroy(call)], state) by { LeadsOne(withdrawn, Destroy(call)); }
    LeadsMore(listed, Withdraw(call), [Destroy(call)], state);
    LeadsMore(created, List(call), [Withdraw(call), Destroy(call)], state);
    LeadsMore(state, Create(call, endpoint, message), [List(call), Withdraw(call), Destroy(call)], state);
    LeadsMore(created, List(call), [HandOut(call)], Next(listed, HandOut(call)));
    LeadsMore(state, Create(call, endpoint, message), [List(call), HandOut(call)], Next(listed, HandOut(call)));
    LeadsMore(state, Create(call, endpoint, message), [Abandon(call)], state);
  }

  /** Giving back or publishing a message that is lent out does
      what Endpoint.Return does; for any other message it does nothing. */
  lemma GivingBackSteps(state: State, call: Call, endpoint: EndpointId, message: Message)
    requires Enabled(state, GiveBack(call, endpoint, message))
    ensures if Lent(state, endpoint, message) then
              Leads(state, [GiveBack(call, endpoint, message), Destroy(call)],
                    state.(live := state.live - {message},
                           loans := state.loans[endpoint := state.loans[endpoint] - {message}]))
            else Leads(state, [GiveBack(call, endpoint, message)], state)
  {
    if Lent(state, endpoint, message) {
      var removed := Next(state, GiveBack(call, endpoint, message));
      assert removed.calls - {call} == state.calls;
      LeadsOne(removed, Destroy(call));
      LeadsMore(state, GiveBack(call, endpoint, message), [Destroy(call)], Next(removed, Destroy(call)));
    } else {
      LeadsOne(state, GiveBack(call, endpoint, message));
    }
  }
}
