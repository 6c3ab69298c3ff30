/**
 The reader half of the type-support generator: the statements it emits for a
 type, numbering their locals with a counter, and what running them does to the
 message they fill in.
 */
module CdrReader {
  import opened Options
  import opened Bytes
  import opened CdrTypes
  import opened CdrNames
  import opened CdrObjects

  datatype Statement =
    | ReadScalar(number: nat, p: Primitive, e: Expr)  // declares, reads and assigns value_N
    | ReadText(number: nat)                           // declares and reads string_data_N, string_size_N
    | ReadWide(number: nat)
    | CheckText(number: nat, limit: nat)              // if (string_size_N > limit) { return false; }
    | CheckWide(number: nat, limit: nat)
    | AssignText(e: Expr, number: nat)
    | AssignWide(e: Expr, number: nat)
    | CallDeserialize(body: seq<Statement>, e: Expr)
    | ForElement(e: Expr, body: seq<Statement>)       // for (auto & element : e)
    | ReadSize(number: nat)                           // declares and reads sequence_size_N
    | CheckRemaining(number: nat)                     // if (sequence_size_N > remaining) { return false; }
    | CheckSize(number: nat, limit: nat)
    | Resize(e: Expr, number: nat, elem: Type)        // e.resize(sequence_size_N)
    | Reinitialise(e: Expr, number: nat, elem: Type)  // fini(&e); init(&e, sequence_size_N)
    | ForCount(index: Name, number: nat, body: seq<Statement>)

  // ---------------------------------------------------------------------------
  // The generator

  /** The emitted statements and the counter after them. */
  datatype Emitted = Emitted(body: seq<Statement>, counter: nat)

  function CheckBound(check: Statement, bound: Option<nat>): seq<Statement> {
    if bound.Some? then [check] else []
  }

  function BoundOr(bound: Option<nat>): nat {
    if bound.Some? then bound.value else 0
  }

  /** What _read_value and _c_read_value emit, where they do not raise. */
  function ReadValue(b: Backend, t: Type, e: Expr, counter: nat): (r: Emitted)
    requires Generates(b, t)
    ensures r.counter > counter
    decreases t, 0
  {
    var n, next := counter, counter + 1;
    match t
    case Basic(p) => Emitted([ReadScalar(n, p, e)], next)
    case Text(bound) =>
      Emitted([ReadText(n)] + CheckBound(CheckText(n, BoundOr(bound)), bound) + [AssignText(e, n)], next)
    case WideText(bound) =>
      Emitted([ReadWide(n)] + CheckBound(CheckWide(n, BoundOr(bound)), bound) + [AssignWide(e, n)], next)
    case Named(members) => Emitted([CallDeserialize(DeserializeMembers(b, members, 0, 0).body, e)], next)
    case Array(elem, _) =>
      var inner := ReadValue(b, elem, Var(Element), next);
      Emitted([ForElement(e, inner.body)], inner.counter)
    case Sequence(elem, bound) =>
      var index := if b == Cpp then IndexVar(n) else I;
      var inner := ReadValue(b, elem, Elem(e, index), next);
      Emitted(
        [ReadSize(n), CheckRemaining(n)] + CheckBound(CheckSize(n, BoundOr(bound)), bound)
        + [if b == Cpp then Resize(e, n, elem) else Reinitialise(e, n, elem), ForCount(index, n, inner.body)],
        inner.counter)
  }

  /** deserialize_members and c_deserialize_members, from member k on. */
  function DeserializeMembers(b: Backend, members: seq<Type>, k: nat, counter: nat): (r: Emitted)
    requires k <= |members| && forall m | m in members :: Generates(b, m)
    ensures r.counter >= counter
    decreases members, |members| - k
  {
    if k == |members| then Emitted([], counter) else
    var first := ReadValue(b, members[k], Field(Var(Message), k), counter);
    var rest := DeserializeMembers(b, members, k + 1, first.counter);
    Emitted(first.body + rest.body, rest.counter)
  }

  // ---------------------------------------------------------------------------
  // Running the statements

  datatype Binding = Ref(path: Path) | Num(n: nat) | Bytes(bytes: seq<Byte>) | Units(units: seq<nat>)

  type Scope = map<Name, Binding>

  /** The message being filled in and the reader's position. */
  datatype State = State(message: Value, position: nat)

  datatype Frame = Frame(scope: Scope, state: State)

  /** The object an expression refers to. */
  function Resolve(scope: Scope, e: Expr): Option<Path> {
    match e
    case Var(name) => if name in scope && scope[name].Ref? then Some(scope[name].path) else None
    case Field(record, k) =>
      (match Resolve(scope, record)
       case None => None
       case Some(path) => Some(path + [k]))
    case Elem(container, index) =>
      match Resolve(scope, container)
      case None => None
      case Some(path) =>
        if index in scope && scope[index].Num? then Some(path + [scope[index].n]) else None
  }

  function Declare(scope: Scope, name: Name, binding: Binding, state: State): Outcome<Frame> {
    if name in scope then Stuck else Running(Frame(scope[name := binding], state))
  }

  function Assign(scope: Scope, state: State, e: Expr, v: Value): Outcome<State> {
    match Resolve(scope, e)
    case None => Stuck
    case Some(path) =>
      if At(state.message, path).Some? then Running(state.(message := Replace(state.message, path, v))) else Stuck
  }

  function Keeping(scope: Scope, r: Outcome<State>): Outcome<Frame> {
    match r
    case Running(state) => Running(Frame(scope, state))
    case Rejected => Rejected
    case Stuck => Stuck
  }

  predicate HasNum(scope: Scope, name: Name) {
    name in scope && scope[name].Num?
  }

  /** A sequence gets the size read for it. A size beyond the remaining bytes is
      the allocation the generated code must never make: it counts as stuck. */
  function Allocate(
    buffer: seq<Byte>, scope: Scope, state: State, e: Expr, n: nat, elem: Type, keep: bool): Outcome<Frame>
  {
    if !HasNum(scope, SizeVar(n)) || Resolve(scope, e).None? then Stuck else
    var size, path := scope[SizeVar(n)].n, Resolve(scope, e).value;
    match At(state.message, path)
    case Some(List(elems)) =>
      if size > |buffer| - state.position then Stuck
      else
        var v := List(Resized(if keep then elems else [], size, elem));
        Keeping(scope, Assign(scope, state, e, v))
    case _ => Stuck
  }

  function Leaving(scope: Scope, r: Outcome<Frame>): Outcome<Frame> {
    match r
    case Running(frame) => Running(Frame(scope, frame.state))
    case Rejected => Rejected
    case Stuck => Stuck
  }

  function Run(order: Order, buffer: seq<Byte>, s: Statement, scope: Scope, state: State): Outcome<Frame>
    decreases s, 0
  {
    if state.position > |buffer| then Stuck else
    match s
    case ReadScalar(n, p, e) =>
      (match GetScalar(order, p, buffer, state.position)
       case None => Rejected
       case Some(Got(bits, next)) =>
         match Declare(scope, ValueVar(n), Num(bits), state.(position := next))
         case Running(frame) => Keeping(frame.scope, Assign(frame.scope, frame.state, e, Scalar(bits)))
         case Rejected => Rejected
         case Stuck => Stuck)
    case ReadText(n) =>
      (match GetText(order, buffer, state.position)
       case None => Rejected
       case Some(Got(bytes, next)) => Declare(scope, TextVar(n), Bytes(bytes), state.(position := next)))
    case ReadWide(n) =>
      (match GetWide(order, buffer, state.position)
       case None => Rejected
       case Some(Got(units, next)) => Declare(scope, WideVar(n), Units(units), state.(position := next)))
    case CheckText(n, limit) =>
      if TextVar(n) !in scope || !scope[TextVar(n)].Bytes? then Stuck
      else if |scope[TextVar(n)].bytes| > limit then Rejected else Running(Frame(scope, state))
    case CheckWide(n, limit) =>
      if WideVar(n) !in scope || !scope[WideVar(n)].Units? then Stuck
      else if |scope[WideVar(n)].units| > limit then Rejected else Running(Frame(scope, state))
    case AssignText(e, n) =>
      if TextVar(n) !in scope || !scope[TextVar(n)].Bytes? then Stuck
      else Keeping(scope, Assign(scope, state, e, Chars(scope[TextVar(n)].bytes)))
    case AssignWide(e, n) =>
      if WideVar(n) !in scope || !scope[WideVar(n)].Units? then Stuck
      else Keeping(scope, Assign(scope, state, e, WideChars(scope[WideVar(n)].units)))
    case CallDeserialize(body, e) =>
      (match Resolve(scope, e)
       case None => Stuck
       case Some(path) => Leaving(scope, RunAll(order, buffer, body, map[Message := Ref(path)], state)))
    case ForElement(e, body) =>
      (match Resolve(scope, e)
       case None => Stuck
       case Some(path) =>
         match At(state.message, path)
         case Some(List(elems)) =>
           Keeping(scope, Loop(order, buffer, Element, Some(path), 0, |elems|, body, scope, state))
         case _ => Stuck)
    case ReadSize(n) =>
      (match Get(order, 4, buffer, state.position)
       case None => Rejected
       case Some(Got(size, next)) => Declare(scope, SizeVar(n), Num(size), state.(position := next)))
    case CheckRemaining(n) =>
      if !HasNum(scope, SizeVar(n)) then Stuck
      else if scope[SizeVar(n)].n > |buffer| - state.position then Rejected else Running(Frame(scope, state))
    case CheckSize(n, limit) =>
      if !HasNum(scope, SizeVar(n)) then Stuck
      else if scope[SizeVar(n)].n > limit then Rejected else Running(Frame(scope, state))
    case Resize(e, n, elem) => Allocate(buffer, scope, state, e, n, elem, true)
    case Reinitialise(e, n, elem) => Allocate(buffer, scope, state, e, n, elem, false)
    case ForCount(index, n, body) =>
      if !HasNum(scope, SizeVar(n)) || (index.Numbered() && index in scope) then Stuck
      else Keeping(scope, Loop(order, buffer, index, None, 0, scope[SizeVar(n)].n, body, scope, state))
  }

  function RunAll(order: Order, buffer: seq<Byte>, body: seq<Statement>, scope: Scope, state: State): Outcome<Frame>
    decreases body, 0
  {
    if body == [] then Running(Frame(scope, state)) else
    match Run(order, buffer, body[0], scope, state)
    case Running(frame) => RunAll(order, buffer, body[1..], frame.scope, frame.state)
    case Rejected => Rejected
    case Stuck => Stuck
  }

  function Variable(base: Option<Path>, k: nat): Binding {
    if base.Some? then Ref(base.value + [k]) else Num(k)
  }

  /** Iterations k to n of a loop whose variable is a reference to the k-th part
      of `base`, or without `base` the number k. */
  function Loop(
    order: Order, buffer: seq<Byte>, name: Name, base: Option<Path>, k: nat, n: nat, body: seq<Statement>,
    scope: Scope, state: State): Outcome<State>
    decreases body, if k < n then n - k else 0
  {
    if k >= n then Running(state) else
    match RunAll(order, buffer, body, scope[name := Variable(base, k)], state)
    case Running(frame) => Loop(order, buffer, name, base, k + 1, n, body, scope, frame.state)
    case Rejected => Rejected
    case Stuck => Stuck
  }
}
