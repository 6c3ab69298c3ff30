/**
 The generated reader decodes: the statements emitted for a type make the same
 decision as the checked decoder on every input, and fill in the same value.
 */
module CdrReaderCorrect {
  import opened Options
  import opened Bytes
  import opened CdrTypes
  import opened CdrNames
  import opened CdrObjects
  import opened CdrReader

  lemma {:induction false} RunAllConcat(
    order: Order, buffer: seq<Byte>, s: seq<Statement>, t: seq<Statement>, scope: Scope, state: State)
    ensures RunAll(order, buffer, s + t, scope, state) ==
              match RunAll(order, buffer, s, scope, state)
              case Running(frame) => RunAll(order, buffer, t, frame.scope, frame.state)
              case Rejected => Rejected
              case Stuck => Stuck
  {
    if s == [] {
      assert s + t == t;
    } else {
      assert (s + t)[0] == s[0] && (s + t)[1..] == s[1..] + t;
      match Run(order, buffer, s[0], scope, state)
      case Running(frame) => RunAllConcat(order, buffer, s[1..], t, frame.scope, frame.state);
      case _ =>
    }
  }

  lemma RunFirst(order: Order, buffer: seq<Byte>, s: Statement, t: seq<Statement>, scope: Scope, state: State)
    ensures RunAll(order, buffer, [s] + t, scope, state) ==
              match Run(order, buffer, s, scope, state)
              case Running(frame) => RunAll(order, buffer, t, frame.scope, frame.state)
              case Rejected => Rejected
              case Stuck => Stuck
  {
    assert ([s] + t)[1..] == t;
  }

  lemma RunOne(order: Order, buffer: seq<Byte>, s: Statement, scope: Scope, state: State)
    ensures RunAll(order, buffer, [s], scope, state) == Run(order, buffer, s, scope, state)
  {
    RunFirst(order, buffer, s, [], scope, state);
    assert [s] + [] == [s];
  }

  /** The numbers from n on have not been used for a local yet. */
  predicate FreshFrom(scope: Scope, n: nat) {
    forall x | x in scope && x.Numbered() :: x.number < n
  }

  /** A later scope of the same block: what was declared is still there. */
  predicate Extends(scope: Scope, later: Scope, n: nat) {
    (forall x | x in scope :: x in later && later[x] == scope[x]) && FreshFrom(later, n)
  }

  lemma {:induction false} ResolveExtends(scope: Scope, later: Scope, n: nat, e: Expr)
    requires Extends(scope, later, n) && Resolve(scope, e).Some?
    ensures Resolve(later, e) == Resolve(scope, e)
  {
    match e
    case Var(_) =>
    case Field(record, _) => ResolveExtends(scope, later, n, record);
    case Elem(container, _) => ResolveExtends(scope, later, n, container);
  }

  lemma {:induction false} ResolveIgnores(scope: Scope, name: Name, binding: Binding, e: Expr)
    requires !e.Mentions(name)
    ensures Resolve(scope[name := binding], e) == Resolve(scope, e)
  {
    match e
    case Var(_) =>
    case Field(record, _) => ResolveIgnores(scope, name, binding, record);
    case Elem(container, _) => ResolveIgnores(scope, name, binding, container);
  }

  lemma {:induction false} ResolvedMentions(scope: Scope, name: Name, e: Expr)
    requires Resolve(scope, e).Some? && name !in scope
    ensures !e.Mentions(name)
  {
    match e
    case Var(_) =>
    case Field(record, _) => ResolvedMentions(scope, name, record);
    case Elem(container, _) => ResolvedMentions(scope, name, container);
  }

  /** Running r fills in the object at `path` with the value a decoder got, and
      ends where the decoder did; it returns false when the decoder failed. */
  predicate Fills(
    r: Outcome<Frame>, got: Option<Got<Value>>, scope: Scope, state: State, path: Path, counter: nat)
  {
    match got
    case None => r == Rejected
    case Some(Got(v, next)) =>
      && r.Running?
      && r.state.state == State(Replace(state.message, path, v), next)
      && Extends(scope, r.state.scope, counter)
  }

  lemma AssignFills(scope: Scope, state: State, e: Expr, path: Path, v: Value, first: Scope, counter: nat)
    requires Resolve(first, e) == Some(path) && At(state.message, path).Some?
    requires Extends(first, scope, counter)
    ensures Keeping(scope, Assign(scope, state, e, v))
         == Running(Frame(scope, state.(message := Replace(state.message, path, v))))
  {
    ResolveExtends(first, scope, counter, e);
  }

  lemma ScalarFills(
    b: Backend, order: Order, p: Primitive, e: Expr, n: nat, buffer: seq<Byte>, scope: Scope, state: State, path: Path)
    requires FreshFrom(scope, n) && Resolve(scope, e) == Some(path)
    requires At(state.message, path).Some? && state.position <= |buffer|
    ensures var emitted := ReadValue(b, Basic(p), e, n);
            Fills(RunAll(order, buffer, emitted.body, scope, state),
                  Decode(true, order, Basic(p), buffer, state.position), scope, state, path, emitted.counter)
  {
    RunOne(order, buffer, ReadScalar(n, p, e), scope, state);
    match GetScalar(order, p, buffer, state.position) {
      case None =>
      case Some(Got(bits, next)) =>
        assert ValueVar(n) !in scope;
        var inner := scope[ValueVar(n) := Num(bits)];
        AssignFills(inner, state.(position := next), e, path, Scalar(bits), scope, n + 1);
    }
  }

  lemma TextFills(
    b: Backend, order: Order, bound: Option<nat>, e: Expr, n: nat, buffer: seq<Byte>, scope: Scope, state: State,
    path: Path)
    requires FreshFrom(scope, n) && Resolve(scope, e) == Some(path)
    requires At(state.message, path).Some? && state.position <= |buffer|
    ensures var emitted := ReadValue(b, Text(bound), e, n);
            Fills(RunAll(order, buffer, emitted.body, scope, state),
                  Decode(true, order, Text(bound), buffer, state.position), scope, state, path, emitted.counter)
  {
    hide GetText, HasShape, Replace, RunAll, Resolve, At;
    var check := CheckBound(CheckText(n, BoundOr(bound)), bound);
    assert [ReadText(n)] + check + [AssignText(e, n)] == [ReadText(n)] + (check + [AssignText(e, n)]);
    RunFirst(order, buffer, ReadText(n), check + [AssignText(e, n)], scope, state);
    match GetText(order, buffer, state.position) {
      case None =>
      case Some(Got(bytes, next)) =>
        assert TextVar(n) !in scope;
        var inner := scope[TextVar(n) := Bytes(bytes)];
        var later := state.(position := next);
        if bound.Some? {
          RunFirst(order, buffer, CheckText(n, bound.value), [AssignText(e, n)], inner, later);
        } else {
          assert check + [AssignText(e, n)] == [AssignText(e, n)];
        }
        RunOne(order, buffer, AssignText(e, n), inner, later);
        AssignFills(inner, later, e, path, Chars(bytes), scope, n + 1);
    }
  }

  lemma WideFills(
    b: Backend, order: Order, bound: Option<nat>, e: Expr, n: nat, buffer: seq<Byte>, scope: Scope, state: State,
    path: Path)
    requires FreshFrom(scope, n) && Resolve(scope, e) == Some(path)
    requires At(state.message, path).Some? && state.position <= |buffer|
    ensures var emitted := ReadValue(b, WideText(bound), e, n);
            Fills(RunAll(order, buffer, emitted.body, scope, state),
                  Decode(true, order, WideText(bound), buffer, state.position), scope, state, path, emitted.counter)
  {
    hide GetWide, HasShape, Replace, RunAll, Resolve, At;
    var check := CheckBound(CheckWide(n, BoundOr(bound)), bound);
    assert [ReadWide(n)] + check + [AssignWide(e, n)] == [ReadWide(n)] + (check + [AssignWide(e, n)]);
    RunFirst(order, buffer, ReadWide(n), check + [AssignWide(e, n)], scope, state);
    match GetWide(order, buffer, state.position) {
      case None =>
      case Some(Got(units, next)) =>
        assert WideVar(n) !in scope;
        var inner := scope[WideVar(n) := Units(units)];
        var later := state.(position := next);
        if bound.Some? {
          RunFirst(order, buffer, CheckWide(n, bound.value), [AssignWide(e, n)], inner, later);
        } else {
          assert check + [AssignWide(e, n)] == [AssignWide(e, n)];
        }
        RunOne(order, buffer, AssignWide(e, n), inner, later);
        AssignFills(inner, later, e, path, WideChars(units), scope, n + 1);
    }
  }

  lemma LeafFills(
    b: Backend, order: Order, t: Type, e: Expr, counter: nat, buffer: seq<Byte>, scope: Scope, state: State, path: Path)
    requires t.Basic? || t.Text? || t.WideText?
    requires FreshFrom(scope, counter) && Resolve(scope, e) == Some(path)
    requires At(state.message, path).Some? && state.position <= |buffer|
    ensures var emitted := ReadValue(b, t, e, counter);
            Fills(RunAll(order, buffer, emitted.body, scope, state), Decode(true, order, t, buffer, state.position),
                  scope, state, path, emitted.counter)
  {
    match t
    case Basic(p) => ScalarFills(b, order, p, e, counter, buffer, scope, state, path);
    case Text(bound) => TextFills(b, order, bound, e, counter, buffer, scope, state, path);
    case WideText(bound) => WideFills(b, order, bound, e, counter, buffer, scope, state, path);
  }

  /** Running what the generator emits for a type is decoding it with the
      up-front length checks: the same decision on every input, the same value
      and the same end. It never gets stuck, whatever the bytes are and whatever
      the object held before. */
  lemma {:induction false} ReaderCorrect(
    b: Backend, order: Order, t: Type, e: Expr, counter: nat, buffer: seq<Byte>, scope: Scope, state: State,
    path: Path)
    requires Generates(b, t) && FreshFrom(scope, counter) && Resolve(scope, e) == Some(path)
    requires At(state.message, path).Some? && HasShape(t, At(state.message, path).value)
    requires state.position <= |buffer|
    requires b == C && t.Sequence? ==> !e.Mentions(I)
    ensures var emitted := ReadValue(b, t, e, counter);
            Fills(RunAll(order, buffer, emitted.body, scope, state), Decode(true, order, t, buffer, state.position),
                  scope, state, path, emitted.counter)
    decreases t, 0, 0
  {
    match t
    case Named(members) => NamedFills(b, order, members, e, counter, buffer, scope, state, path);
    case Array(elem, size) => ArrayFills(b, order, elem, size, e, counter, buffer, scope, state, path);
    case Sequence(elem, bound) => SequenceFills(b, order, elem, bound, e, counter, buffer, scope, state, path);
    case _ => LeafFills(b, order, t, e, counter, buffer, scope, state, path);
  }

  lemma {:induction false} NamedFills(
    b: Backend, order: Order, members: seq<Type>, e: Expr, counter: nat, buffer: seq<Byte>, scope: Scope,
    state: State, path: Path)
    requires Generates(b, Named(members)) && FreshFrom(scope, counter) && Resolve(scope, e) == Some(path)
    requires At(state.message, path).Some? && HasShape(Named(members), At(state.message, path).value)
    requires state.position <= |buffer|
    ensures var emitted := ReadValue(b, Named(members), e, counter);
            Fills(RunAll(order, buffer, emitted.body, scope, state),
                  Decode(true, order, Named(members), buffer, state.position), scope, state, path, emitted.counter)
    decreases members, |members| + 1, 0
  {
    hide DecodeMembers, Replace, DeserializeMembers;
    var body := DeserializeMembers(b, members, 0, 0).body;
    RunOne(order, buffer, CallDeserialize(body, e), scope, state);
    var fields := At(state.message, path).value.fields;
    assert members[0..] == members && fields[0..] == fields;
    MembersFill(b, order, members, 0, 0, buffer, map[Message := Ref(path)], state, path, fields);
    match DecodeMembers(true, order, members, buffer, state.position) {
      case None =>
      case Some(Got(values, _)) => assert fields[..0] + values == values;
    }
  }

  lemma {:induction false} ArrayFills(
    b: Backend, order: Order, elem: Type, size: nat, e: Expr, counter: nat, buffer: seq<Byte>, scope: Scope,
    state: State, path: Path)
    requires Generates(b, elem) && FreshFrom(scope, counter) && Resolve(scope, e) == Some(path)
    requires At(state.message, path).Some? && HasShape(Array(elem, size), At(state.message, path).value)
    requires state.position <= |buffer|
    ensures var emitted := ReadValue(b, Array(elem, size), e, counter);
            Fills(RunAll(order, buffer, emitted.body, scope, state),
                  Decode(true, order, Array(elem, size), buffer, state.position), scope, state, path, emitted.counter)
    decreases elem, 2, 0
  {
    hide DecodeElements, Loop, Replace;
    var inner := ReadValue(b, elem, Var(Element), counter + 1);
    RunOne(order, buffer, ForElement(e, inner.body), scope, state);
    var elems := At(state.message, path).value.elems;
    assert elems[0..] == elems;
    LoopFills(b, order, elem, Var(Element), Element, Some(path), 0, counter + 1, buffer, scope, state, path, elems);
    match DecodeElements(true, order, elem, size, buffer, state.position) {
      case None =>
      case Some(Got(values, _)) => assert elems[..0] + values == values;
    }
  }

  lemma ExtendsTransitive(scope: Scope, middle: Scope, n: nat, m: nat)
    requires Extends(scope, middle, n)
    ensures forall later :: Extends(middle, later, m) ==> Extends(scope, later, m)
  {
  }

  lemma DecodesFirst(order: Order, t: Type, types: seq<Type>, buffer: seq<Byte>, position: nat)
    requires position <= |buffer|
    ensures var first, all := Decode(true, order, t, buffer, position),
                              DecodeMembers(true, order, [t] + types, buffer, position);
            && (first.None? ==> all == None)
            && (first.Some? ==>
                  var rest := DecodeMembers(true, order, types, buffer, first.value.position);
                  all == if rest.None? then None
                         else Some(Got([first.value.value] + rest.value.value, rest.value.position)))
  {
    assert ([t] + types)[1..] == types;
  }

  /** Members k on of the message at `path`. */
  lemma {:induction false} MembersFill(
    b: Backend, order: Order, members: seq<Type>, k: nat, counter: nat, buffer: seq<Byte>, scope: Scope, state: State,
    path: Path, fields: seq<Value>)
    requires k <= |members| == |fields| && HaveShapes(members[k..], fields[k..])
    requires forall m | m in members :: Generates(b, m)
    requires FreshFrom(scope, counter) && Resolve(scope, Var(Message)) == Some(path)
    requires At(state.message, path) == Some(Record(fields)) && state.position <= |buffer|
    ensures var emitted := DeserializeMembers(b, members, k, counter);
            var r := RunAll(order, buffer, emitted.body, scope, state);
            match DecodeMembers(true, order, members[k..], buffer, state.position)
            case None => r == Rejected
            case Some(Got(values, next)) =>
              Fills(r, Some(Got(Record(fields[..k] + values), next)), scope, state, path, emitted.counter)
    decreases members, |members| - k, 0
  {
    hide Decode, HasShape, ReadValue, Run;
    if k == |members| {
      assert fields[..k] + [] == fields;
      ReplaceSame(state.message, path);
    } else {
      var t, e := members[k], Field(Var(Message), k);
      var first := ReadValue(b, t, e, counter);
      var rest := DeserializeMembers(b, members, k + 1, first.counter);
      assert members[k..] == [t] + members[k + 1..] && fields[k..] == [fields[k]] + fields[k + 1..];
      assert HasShape(t, fields[k]) && HaveShapes(members[k + 1..], fields[k + 1..]) by {
        assert HasShape(members[k..][0], fields[k..][0]);
      }
      AtPart(state.message, path, k);
      RunAllConcat(order, buffer, first.body, rest.body, scope, state);
      ReaderCorrect(b, order, t, e, counter, buffer, scope, state, path + [k]);
      DecodesFirst(order, t, members[k + 1..], buffer, state.position);
      match Decode(true, order, t, buffer, state.position) {
        case None =>
        case Some(Got(v, next)) =>
          var frame := RunAll(order, buffer, first.body, scope, state).state;
          ResolveExtends(scope, frame.scope, first.counter, Var(Message));
          RestFills(b, order, members, k, first.counter, buffer, frame.scope, frame.state, path, fields,
                    state.message, v);
          ExtendsTransitive(scope, frame.scope, first.counter, rest.counter);
      }
    }
  }

  /** Members after k, when member k of the original message has just been filled
      in with v. */
  lemma {:induction false} RestFills(
    b: Backend, order: Order, members: seq<Type>, k: nat, counter: nat, buffer: seq<Byte>, scope: Scope, state: State,
    path: Path, fields: seq<Value>, original: Value, v: Value)
    requires k < |members| == |fields| && HaveShapes(members[k + 1..], fields[k + 1..])
    requires forall m | m in members :: Generates(b, m)
    requires FreshFrom(scope, counter) && Resolve(scope, Var(Message)) == Some(path)
    requires At(original, path) == Some(Record(fields)) && state.message == Replace(original, path + [k], v)
    requires state.position <= |buffer|
    ensures var emitted := DeserializeMembers(b, members, k + 1, counter);
            var r := RunAll(order, buffer, emitted.body, scope, state);
            match DecodeMembers(true, order, members[k + 1..], buffer, state.position)
            case None => r == Rejected
            case Some(Got(values, next)) =>
              Fills(r, Some(Got(Record(fields[..k] + ([v] + values)), next)), scope, state.(message := original),
                    path, emitted.counter)
    decreases members, |members| - k - 1, 1
  {
    hide Decode, DecodeMembers, RunAll, DeserializeMembers, HasShape;
    var filled := fields[k := v];
    PartFilled(original, path, k, v);
    assert filled[k + 1..] == fields[k + 1..];
    MembersFill(b, order, members, k + 1, counter, buffer, scope, state, path, filled);
    match DecodeMembers(true, order, members[k + 1..], buffer, state.position) {
      case None =>
      case Some(Got(values, end)) =>
        PartThenWhole(original, path, k, v, Record(filled[..k + 1] + values));
        assert filled[..k + 1] + values == fields[..k] + ([v] + values);
    }
  }

  /** In a loop over the parts of the object at `path`, e refers to the current one. */
  predicate LoopVariable(scope: Scope, name: Name, base: Option<Path>, e: Expr, path: Path) {
    if base.Some? then base.value == path && e == Var(name)
    else e.Elem? && e.index == name && !e.container.Mentions(name) && Resolve(scope, e.container) == Some(path)
  }

  lemma LoopVariableResolves(scope: Scope, name: Name, base: Option<Path>, e: Expr, path: Path, k: nat)
    requires LoopVariable(scope, name, base, e, path)
    ensures Resolve(scope[name := Variable(base, k)], e) == Some(path + [k])
  {
    if base.None? {
      ResolveIgnores(scope, name, Variable(base, k), e.container);
    }
  }

  /** Iterations k on of a loop over the elements of the container at `path`. */
  lemma {:induction false} LoopFills(
    b: Backend, order: Order, t: Type, e: Expr, name: Name, base: Option<Path>, k: nat, counter: nat,
    buffer: seq<Byte>, scope: Scope, state: State, path: Path, elems: seq<Value>)
    requires Generates(b, t) && (b == C && t.Sequence? ==> !e.Mentions(I))
    requires LoopVariable(scope, name, base, e, path)
    requires FreshFrom(scope, counter) && (name.Numbered() ==> name.number < counter)
    requires k <= |elems| && AllHaveShape(t, elems[k..])
    requires At(state.message, path) == Some(List(elems)) && state.position <= |buffer|
    ensures var r := Loop(order, buffer, name, base, k, |elems|, ReadValue(b, t, e, counter).body, scope, state);
            match DecodeElements(true, order, t, |elems| - k, buffer, state.position)
            case None => r == Rejected
            case Some(Got(values, next)) =>
              r == Running(State(Replace(state.message, path, List(elems[..k] + values)), next))
    decreases t, 0, |elems| - k + 1, 0
  {
    hide Decode, ReadValue, RunAll, HasShape;
    if k == |elems| {
      assert elems[..k] + [] == elems;
      ReplaceSame(state.message, path);
    } else {
      var inner := scope[name := Variable(base, k)];
      LoopVariableResolves(scope, name, base, e, path, k);
      assert elems[k..] == [elems[k]] + elems[k + 1..];
      AtPart(state.message, path, k);
      ReaderCorrect(b, order, t, e, counter, buffer, inner, state, path + [k]);
      match Decode(true, order, t, buffer, state.position) {
        case None =>
        case Some(Got(v, next)) =>
          var later := State(Replace(state.message, path + [k], v), next);
          LoopRest(b, order, t, e, name, base, k, counter, buffer, scope, later, path, elems, state.message, v);
      }
    }
  }

  /** Iterations after k, when element k of the original container has just been
      filled in with v. */
  lemma {:induction false} LoopRest(
    b: Backend, order: Order, t: Type, e: Expr, name: Name, base: Option<Path>, k: nat, counter: nat,
    buffer: seq<Byte>, scope: Scope, state: State, path: Path, elems: seq<Value>, original: Value, v: Value)
    requires Generates(b, t) && (b == C && t.Sequence? ==> !e.Mentions(I))
    requires LoopVariable(scope, name, base, e, path)
    requires FreshFrom(scope, counter) && (name.Numbered() ==> name.number < counter)
    requires k < |elems| && AllHaveShape(t, elems[k + 1..])
    requires At(original, path) == Some(List(elems)) && state.message == Replace(original, path + [k], v)
    requires state.position <= |buffer|
    ensures var r := Loop(order, buffer, name, base, k + 1, |elems|, ReadValue(b, t, e, counter).body, scope, state);
            match DecodeElements(true, order, t, |elems| - k - 1, buffer, state.position)
            case None => r == Rejected
            case Some(Got(values, next)) =>
              r == Running(State(Replace(original, path, List(elems[..k] + ([v] + values))), next))
    decreases t, 0, |elems| - k, 1
  {
    hide Decode, DecodeElements, ReadValue, Loop, HasShape;
    var filled := elems[k := v];
    PartFilled(original, path, k, v);
    assert filled[k + 1..] == elems[k + 1..];
    LoopFills(b, order, t, e, name, base, k + 1, counter, buffer, scope, state, path, filled);
    match DecodeElements(true, order, t, |elems| - k - 1, buffer, state.position) {
      case None =>
      case Some(Got(values, end)) =>
        ElementThenRest(original, path, elems, k, v, values);
    }
  }

  /** Reading a sequence's size and checking it. */
  lemma SizeIsChecked(
    order: Order, n: nat, bound: Option<nat>, rest: seq<Statement>, buffer: seq<Byte>, scope: Scope, state: State)
    requires FreshFrom(scope, n) && state.position <= |buffer|
    ensures var check := CheckBound(CheckSize(n, BoundOr(bound)), bound);
            var r := RunAll(order, buffer, [ReadSize(n), CheckRemaining(n)] + check + rest, scope, state);
            match Get(order, 4, buffer, state.position)
            case None => r == Rejected
            case Some(Got(size, start)) =>
              if size > |buffer| - start || !Within(size, bound) then r == Rejected
              else r == RunAll(order, buffer, rest, scope[SizeVar(n) := Num(size)], state.(position := start))
  {
    var check := CheckBound(CheckSize(n, BoundOr(bound)), bound);
    assert [ReadSize(n), CheckRemaining(n)] + check + rest == [ReadSize(n)] + ([CheckRemaining(n)] + (check + rest));
    RunFirst(order, buffer, ReadSize(n), [CheckRemaining(n)] + (check + rest), scope, state);
    match Get(order, 4, buffer, state.position) {
      case None =>
      case Some(Got(size, start)) =>
        assert SizeVar(n) !in scope;
        var inner, later := scope[SizeVar(n) := Num(size)], state.(position := start);
        RunFirst(order, buffer, CheckRemaining(n), check + rest, inner, later);
        if bound.Some? {
          RunFirst(order, buffer, CheckSize(n, bound.value), rest, inner, later);
        } else {
          assert check + rest == rest;
        }
    }
  }

  lemma {:induction false} SequenceFills(
    b: Backend, order: Order, elem: Type, bound: Option<nat>, e: Expr, n: nat, buffer: seq<Byte>, scope: Scope,
    state: State, path: Path)
    requires Generates(b, Sequence(elem, bound)) && FreshFrom(scope, n) && Resolve(scope, e) == Some(path)
    requires At(state.message, path).Some? && HasShape(Sequence(elem, bound), At(state.message, path).value)
    requires state.position <= |buffer| && (b == C ==> !e.Mentions(I))
    ensures var emitted := ReadValue(b, Sequence(elem, bound), e, n);
            Fills(RunAll(order, buffer, emitted.body, scope, state),
                  Decode(true, order, Sequence(elem, bound), buffer, state.position),
                  scope, state, path, emitted.counter)
    decreases elem, 2, 0
  {
    var index := if b == Cpp then IndexVar(n) else I;
    var inner := ReadValue(b, elem, Elem(e, index), n + 1);
    var allocate := if b == Cpp then Resize(e, n, elem) else Reinitialise(e, n, elem);
    var loop := ForCount(index, n, inner.body);
    SizeIsChecked(order, n, bound, [allocate, loop], buffer, scope, state);
    match Get(order, 4, buffer, state.position) {
      case None =>
      case Some(Got(size, start)) =>
        if size <= |buffer| - start && Within(size, bound) {
          AllocateAndLoop(b, order, elem, bound, e, n, size, buffer, scope, state.(position := start), path);
        }
    }
  }

  /** Allocating the elements of a sequence: the size has been checked, so the
      allocation is within the remaining bytes. */
  lemma AllocateRuns(
    b: Backend, order: Order, elem: Type, e: Expr, n: nat, size: nat, buffer: seq<Byte>, scope: Scope, state: State,
    path: Path, before: seq<Value>)
    requires Resolve(scope, e) == Some(path) && At(state.message, path) == Some(List(before))
    requires state.position <= |buffer| && size <= |buffer| - state.position
    requires SizeVar(n) in scope && scope[SizeVar(n)] == Num(size)
    ensures var allocate := if b == Cpp then Resize(e, n, elem) else Reinitialise(e, n, elem);
            var elems := Resized(if b == Cpp then before else [], size, elem);
            Run(order, buffer, allocate, scope, state)
              == Running(Frame(scope, state.(message := Replace(state.message, path, List(elems)))))
  {
    hide Resized, Replace;
  }

  /** Allocating the elements, then filling them in. */
  lemma {:induction false} AllocateAndLoop(
    b: Backend, order: Order, elem: Type, bound: Option<nat>, e: Expr, n: nat, size: nat, buffer: seq<Byte>,
    scope: Scope, state: State, path: Path)
    requires Generates(b, Sequence(elem, bound)) && FreshFrom(scope, n) && Resolve(scope, e) == Some(path)
    requires At(state.message, path).Some? && HasShape(Sequence(elem, bound), At(state.message, path).value)
    requires state.position <= |buffer| && size <= |buffer| - state.position
    requires b == C ==> !e.Mentions(I)
    ensures var index := if b == Cpp then IndexVar(n) else I;
            var inner := ReadValue(b, elem, Elem(e, index), n + 1);
            var allocate := if b == Cpp then Resize(e, n, elem) else Reinitialise(e, n, elem);
            var r := RunAll(order, buffer, [allocate, ForCount(index, n, inner.body)],
                            scope[SizeVar(n) := Num(size)], state);
            match DecodeElements(true, order, elem, size, buffer, state.position)
            case None => r == Rejected
            case Some(Got(values, next)) =>
              Fills(r, Some(Got(List(values), next)), scope, state, path, inner.counter)
    decreases elem, 1, 1
  {
    hide Decode, DecodeElements, Loop, ReadValue, RunAll, Run, Resized, Replace;
    var index := if b == Cpp then IndexVar(n) else I;
    var inner := ReadValue(b, elem, Elem(e, index), n + 1);
    var allocate := if b == Cpp then Resize(e, n, elem) else Reinitialise(e, n, elem);
    var loop := ForCount(index, n, inner.body);
    var declared := scope[SizeVar(n) := Num(size)];
    ResolveExtends(scope, declared, n + 1, e);
    var before := At(state.message, path).value.elems;
    var elems := Resized(if b == Cpp then before else [], size, elem);
    ResizedHasShape(if b == Cpp then before else [], size, elem);
    AllocateRuns(b, order, elem, e, n, size, buffer, declared, state, path, before);
    RunFirst(order, buffer, allocate, [loop], declared, state);
    assert [allocate] + [loop] == [allocate, loop];
    if b == Cpp {
      ResolvedMentions(scope, IndexVar(n), e);
    }
    CountingLoopFills(b, order, elem, e, n, size, buffer, declared, state, path, elems);
  }

  /** The loop over the elements just filledIn in the original object. */
  lemma {:induction false} CountingLoopFills(
    b: Backend, order: Order, elem: Type, e: Expr, n: nat, size: nat, buffer: seq<Byte>,
    scope: Scope, state: State, path: Path, elems: seq<Value>)
    requires Generates(b, elem) && (b == C ==> !elem.Sequence? && !e.Mentions(I))
    requires b == Cpp ==> !e.Mentions(IndexVar(n))
    requires FreshFrom(scope, n + 1) && Resolve(scope, e) == Some(path) && IndexVar(n) !in scope
    requires SizeVar(n) in scope && scope[SizeVar(n)] == Num(size)
    requires At(state.message, path).Some? && state.position <= |buffer|
    requires |elems| == size && AllHaveShape(elem, elems)
    ensures var index := if b == Cpp then IndexVar(n) else I;
            var inner := ReadValue(b, elem, Elem(e, index), n + 1);
            var filledIn := state.(message := Replace(state.message, path, List(elems)));
            var r := RunAll(order, buffer, [ForCount(index, n, inner.body)], scope, filledIn);
            match DecodeElements(true, order, elem, size, buffer, state.position)
            case None => r == Rejected
            case Some(Got(values, next)) =>
              r == Running(Frame(scope, State(Replace(state.message, path, List(values)), next)))
    decreases elem, 1, 0
  {
    hide Decode, DecodeElements, Loop, ReadValue, HasShape;
    var index := if b == Cpp then IndexVar(n) else I;
    var inner := ReadValue(b, elem, Elem(e, index), n + 1);
    var filledIn := state.(message := Replace(state.message, path, List(elems)));
    RunOne(order, buffer, ForCount(index, n, inner.body), scope, filledIn);
    ReplaceThenAt(state.message, path, List(elems));
    assert elems[0..] == elems;
    LoopFills(b, order, elem, Elem(e, index), index, None, 0, n + 1, buffer, scope, filledIn, path, elems);
    match DecodeElements(true, order, elem, size, buffer, state.position) {
      case None =>
      case Some(Got(values, next)) =>
        assert elems[..0] + values == values;
        ReplaceAgain(state.message, path, List(elems), List(values));
    }
  }
}
