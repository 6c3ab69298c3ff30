/**
 What the two back ends' generated code shares: the names and the expressions
 that the generator builds, and the outcome of running statements.
 */
module CdrNames {
  import opened CdrTypes

  /** The back end for C++ messages and the one for C messages. */
  datatype Backend = Cpp | C

  /** Names of the generated code. A numbered local carries the generator's
      counter; `element` and `i` are the fixed names of loop variables. */
  datatype Name =
    | Message
    | Element
    | I
    | ValueVar(number: nat)
    | TextVar(number: nat)
    | WideVar(number: nat)
    | SizeVar(number: nat)
    | IndexVar(number: nat)
  {
    predicate Numbered() { !Message? && !Element? && !I? }
  }

  /** A variable, a member of a message, or an indexed element. */
  datatype Expr =
    | Var(name: Name)
    | Field(record: Expr, member: nat)
    | Elem(container: Expr, index: Name)
  {
    predicate Mentions(name: Name) {
      match this
      case Var(n) => n == name
      case Field(record, _) => record.Mentions(name)
      case Elem(container, index) => index == name || container.Mentions(name)
    }
  }

  /** Running statements goes on, returns false, or gets stuck: an undeclared or
      redeclared local, an access out of bounds, or an object of another shape. */
  datatype Outcome<+S> = Running(state: S) | Rejected | Stuck

  /** _c_sequence_functions knows the functions that allocate a sequence of t. */
  predicate HasSequenceFunctions(t: Type) {
    !t.Array? && !t.Sequence?
  }

  /** The back end generates code for t and for the messages in it: C++ always, and
      C when no sequence directly holds an array or a sequence. */
  predicate Generates(b: Backend, t: Type) {
    match t
    case Named(members) => forall m | m in members :: Generates(b, m)
    case Array(elem, _) => Generates(b, elem)
    case Sequence(elem, _) => (b == C ==> HasSequenceFunctions(elem)) && Generates(b, elem)
    case _ => true
  }

  /** The loops that the back end's writer puts out do not clash for t: always for
      C++, and for C when no sequence is directly an element of a sequence. */
  predicate Supported(b: Backend, t: Type) {
    match t
    case Named(members) => forall m | m in members :: Supported(b, m)
    case Array(elem, _) => Supported(b, elem)
    case Sequence(elem, _) => (b == C ==> !elem.Sequence?) && Supported(b, elem)
    case _ => true
  }

  /** Where code is generated, the writer's loops do not clash. */
  lemma {:induction false} GeneratedSupported(b: Backend, t: Type)
    requires Generates(b, t)
    ensures Supported(b, t)
  {
    match t
    case Named(members) => forall m | m in members ensures Supported(b, m) { GeneratedSupported(b, m); }
    case Array(elem, _) => GeneratedSupported(b, elem);
    case Sequence(elem, _) => GeneratedSupported(b, elem);
    case _ =>
  }

  lemma {:induction false} CppGenerates(t: Type)
    ensures Generates(Cpp, t)
  {
    match t
    case Named(members) => forall m | m in members ensures Generates(Cpp, m) { CppGenerates(m); }
    case Array(elem, _) => CppGenerates(elem);
    case Sequence(elem, _) => CppGenerates(elem);
    case _ =>
  }

  /** Both back ends generate code for every rosidl type. */
  lemma {:induction false} WellFormedGenerated(b: Backend, t: Type)
    requires WellFormed(t)
    ensures Generates(b, t)
  {
    match t
    case Named(members) => forall m | m in members ensures Generates(b, m) { WellFormedGenerated(b, m); }
    case Array(elem, _) => WellFormedGenerated(b, elem);
    case Sequence(elem, _) => WellFormedGenerated(b, elem);
    case _ =>
  }
}
