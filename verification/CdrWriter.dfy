/**
 The writer half of the type-support generator: the statements it emits for a
 type, and what running them writes. Statements stand for lines of generated
 text; a call of another message's cdr_serialize carries that function's body.
 */
module CdrWriter {
  import opened Options
  import opened Bytes
  import opened CdrTypes
  import opened CdrNames

  datatype Statement =
    | CheckSize(e: Expr, limit: nat)      // if (e.size() > limit) { return false; }
    | WriteScalar(p: Primitive, e: Expr)
    | WriteText(e: Expr)
    | WriteWide(e: Expr)
    | WriteSize(e: Expr)                  // zidl_cdr_write_u32(e.size())
    | CallSerialize(body: seq<Statement>, e: Expr)
    | ForElement(e: Expr, body: seq<Statement>)  // for (const auto & element : e)
    | ForIndex(e: Expr, body: seq<Statement>)    // for (size_t i = 0; i < e.size; ++i)

  // ---------------------------------------------------------------------------
  // The generator

  function CheckBound(e: Expr, bound: Option<nat>): seq<Statement> {
    [CheckSize(e, UINT32_MAX)] + if bound.Some? then [CheckSize(e, bound.value)] else []
  }

  function Every(n: nat): (keep: seq<bool>)
    ensures |keep| == n && forall i | 0 <= i < n :: keep[i]
  {
    seq(n, _ => true)
  }

  /** _write_value and _c_write_value. */
  function WriteValue(b: Backend, t: Type, e: Expr): seq<Statement>
    decreases t, 1
  {
    match t
    case Basic(p) => [WriteScalar(p, e)]
    case Text(bound) => CheckBound(e, bound) + [WriteText(e)]
    case WideText(bound) => CheckBound(e, bound) + [WriteWide(e)]
    case Named(members) => [CallSerialize(SerializeMembers(b, members, Every(|members|), 0), e)]
    case Array(elem, _) => [ForElement(e, WriteValue(b, elem, Var(Element)))]
    case Sequence(elem, bound) => CheckBound(e, bound) + [WriteSize(e), WriteLoop(b, elem, e)]
  }

  function WriteLoop(b: Backend, elem: Type, e: Expr): Statement
    decreases elem, 2
  {
    match b
    case Cpp => ForElement(e, WriteValue(b, elem, Var(Element)))
    case C => ForIndex(e, WriteValue(b, elem, Elem(e, I)))
  }

  /** serialize_members and c_serialize_members, from member k on: the statements
      of the members to keep, in order. */
  function SerializeMembers(b: Backend, members: seq<Type>, keep: seq<bool>, k: nat): seq<Statement>
    requires |keep| == |members| && k <= |members|
    decreases members, |members| - k
  {
    if k == |members| then []
    else
      (if keep[k] then WriteValue(b, members[k], Field(Var(Message), k)) else [])
      + SerializeMembers(b, members, keep, k + 1)
  }

  // ---------------------------------------------------------------------------
  // Running the statements

  const SIZE_LIMIT: nat := 0x1_0000_0000_0000_0000

  datatype Binding = Object(value: Value) | Index(n: nat)

  type Scope = map<Name, Binding>

  function Eval(scope: Scope, e: Expr): Option<Value> {
    match e
    case Var(name) =>
      if name in scope && scope[name].Object? then Some(scope[name].value) else None
    case Field(record, k) =>
      (match Eval(scope, record)
       case Some(Record(fields)) => if k < |fields| then Some(fields[k]) else None
       case _ => None)
    case Elem(container, index) =>
      match Eval(scope, container)
      case Some(List(elems)) =>
        if index in scope && scope[index].Index? && scope[index].n < |elems|
        then Some(elems[scope[index].n]) else None
      case _ => None
  }

  /** e.size() of a string or a container. */
  function SizeOf(v: Value): Option<nat> {
    match v
    case Chars(bytes) => Some(|bytes|)
    case WideChars(units) => Some(|units|)
    case List(elems) => Some(|elems|)
    case _ => None
  }

  function Size(scope: Scope, e: Expr): Option<nat> {
    var v := Eval(scope, e);
    if v.None? then None else SizeOf(v.value)
  }

  /** Runs one statement; `out` is what the writer holds after its header. The
      zidl string writers refuse a length that does not fit in 32 bits. */
  function Run(order: Order, s: Statement, scope: Scope, out: seq<Byte>): Outcome<seq<Byte>>
    decreases s, 0
  {
    match s
    case CheckSize(e, limit) =>
      (match Size(scope, e)
       case None => Stuck
       case Some(size) => if size > limit then Rejected else Running(out))
    case WriteScalar(p, e) =>
      (match Eval(scope, e)
       case Some(Scalar(bits)) => Running(out + Put(order, bits, Width(p), |out|))
       case _ => Stuck)
    case WriteText(e) =>
      (match Eval(scope, e)
       case Some(Chars(bytes)) =>
         if |bytes| + 1 > UINT32_MAX then Rejected else Running(out + PutText(order, bytes, |out|))
       case _ => Stuck)
    case WriteWide(e) =>
      (match Eval(scope, e)
       case Some(WideChars(units)) =>
         if 2 * |units| > UINT32_MAX then Rejected else Running(out + PutWide(order, units, |out|))
       case _ => Stuck)
    case WriteSize(e) =>
      (match Size(scope, e)
       case None => Stuck
       case Some(size) => Running(out + Put(order, size, 4, |out|)))
    case CallSerialize(body, e) =>
      (match Eval(scope, e)
       case None => Stuck
       case Some(v) => RunAll(order, body, map[Message := Object(v)], out))
    case ForElement(e, body) =>
      (match Eval(scope, e)
       case Some(List(elems)) => RunElements(order, elems, body, scope, out)
       case _ => Stuck)
    case ForIndex(e, body) => RunIndices(order, e, 0, body, scope, out)
  }

  function RunAll(order: Order, body: seq<Statement>, scope: Scope, out: seq<Byte>): Outcome<seq<Byte>>
    decreases body, 0
  {
    if body == [] then Running(out) else
    match Run(order, body[0], scope, out)
    case Running(next) => RunAll(order, body[1..], scope, next)
    case Rejected => Rejected
    case Stuck => Stuck
  }

  function RunElements(order: Order, elems: seq<Value>, body: seq<Statement>, scope: Scope, out: seq<Byte>):
    Outcome<seq<Byte>>
    decreases body, |elems| + 1
  {
    if elems == [] then Running(out) else
    match RunAll(order, body, scope[Element := Object(elems[0])], out)
    case Running(next) => RunElements(order, elems[1..], body, scope, next)
    case Rejected => Rejected
    case Stuck => Stuck
  }

  /** The loop condition is evaluated where `i` is the loop's own variable. */
  function RunIndices(order: Order, e: Expr, i: nat, body: seq<Statement>, scope: Scope, out: seq<Byte>):
    Outcome<seq<Byte>>
    decreases body, if i < SIZE_LIMIT then SIZE_LIMIT - i else 0
  {
    var inner := scope[I := Index(i)];
    match Size(inner, e)
    case None => Stuck
    case Some(size) =>
      if size >= SIZE_LIMIT then Stuck
      else if i >= size then Running(out)
      else
        match RunAll(order, body, inner, out)
        case Running(next) => RunIndices(order, e, i + 1, body, scope, next)
        case Rejected => Rejected
        case Stuck => Stuck
  }

  // ---------------------------------------------------------------------------
  // The generated writer writes the direct encoding

  lemma {:induction false} RunAllConcat(
    order: Order, s: seq<Statement>, t: seq<Statement>, scope: Scope, out: seq<Byte>)
    ensures RunAll(order, s + t, scope, out) ==
              match RunAll(order, s, scope, out)
              case Running(next) => RunAll(order, t, scope, next)
              case Rejected => Rejected
              case Stuck => Stuck
  {
    if s == [] {
      assert s + t == t;
    } else {
      assert (s + t)[0] == s[0] && (s + t)[1..] == s[1..] + t;
      match Run(order, s[0], scope, out)
      case Running(next) => RunAllConcat(order, s[1..], t, scope, next);
      case _ =>
    }
  }

  lemma RunOne(order: Order, s: Statement, scope: Scope, out: seq<Byte>)
    ensures RunAll(order, [s], scope, out) == Run(order, s, scope, out)
  {
  }

  /** Binding a name that an expression does not mention does not change it. */
  lemma {:induction false} EvalIgnores(scope: Scope, name: Name, binding: Binding, e: Expr)
    requires !e.Mentions(name)
    ensures Eval(scope[name := binding], e) == Eval(scope, e)
  {
    match e
    case Var(_) =>
    case Field(record, _) => EvalIgnores(scope, name, binding, record);
    case Elem(container, _) => EvalIgnores(scope, name, binding, container);
  }

  lemma BoundChecked(order: Order, e: Expr, bound: Option<nat>, rest: seq<Statement>, scope: Scope, out: seq<Byte>)
    requires Size(scope, e).Some?
    ensures var n := Size(scope, e).value;
            RunAll(order, CheckBound(e, bound) + rest, scope, out) ==
              if n <= UINT32_MAX && Within(n, bound) then RunAll(order, rest, scope, out) else Rejected
  {
    var first := CheckSize(e, UINT32_MAX);
    RunAllConcat(order, CheckBound(e, bound), rest, scope, out);
    if bound.Some? {
      RunAllConcat(order, [first], [CheckSize(e, bound.value)], scope, out);
      RunOne(order, CheckSize(e, bound.value), scope, out);
    }
    RunOne(order, first, scope, out);
  }

  /** What a writer must do with the value v of type t: append its encoding, or
      return false when v is out of bounds. */
  function Written(order: Order, t: Type, v: Value, out: seq<Byte>): Outcome<seq<Byte>>
    requires HasShape(t, v)
  {
    if InBounds(t, v) then Running(out + Encode(order, t, v, |out|)) else Rejected
  }

  /** The entries of s that are kept, in order. */
  function Kept<T>(s: seq<T>, keep: seq<bool>): seq<T>
    requires |keep| == |s|
  {
    if s == [] then [] else (if keep[0] then [s[0]] else []) + Kept(s[1..], keep[1..])
  }

  lemma {:induction false} KeptAll<T>(s: seq<T>, keep: seq<bool>)
    requires |keep| == |s| && forall i | 0 <= i < |keep| :: keep[i]
    ensures Kept(s, keep) == s
  {
    if s != [] {
      KeptAll(s[1..], keep[1..]);
    }
  }

  lemma {:induction false} KeptAppends<T>(s: seq<T>, keep: seq<bool>, last: T, kept: bool)
    requires |keep| == |s|
    ensures Kept<T>([], []) == []
    ensures Kept(s + [last], keep + [kept]) == if kept then Kept(s, keep) + [last] else Kept(s, keep)
  {
    if s == [] {
      assert s + [last] == [last] && keep + [kept] == [kept];
    } else {
      KeptAppends(s[1..], keep[1..], last, kept);
      assert (s + [last])[1..] == s[1..] + [last] && (keep + [kept])[1..] == keep[1..] + [kept];
      var first, rest := if keep[0] then [s[0]] else [], Kept(s[1..], keep[1..]);
      assert first + (rest + [last]) == first + rest + [last];
    }
  }

  lemma {:induction false} KeptShapes(types: seq<Type>, values: seq<Value>, keep: seq<bool>)
    requires |keep| == |types| && HaveShapes(types, values)
    ensures HaveShapes(Kept(types, keep), Kept(values, keep))
  {
    if types != [] {
      KeptShapes(types[1..], values[1..], keep[1..]);
    }
  }

  function WrittenMembers(order: Order, types: seq<Type>, values: seq<Value>, out: seq<Byte>): Outcome<seq<Byte>>
    requires HaveShapes(types, values)
  {
    if AreInBounds(types, values) then Running(out + EncodeMembers(order, types, values, |out|)) else Rejected
  }

  lemma LeafCorrect(b: Backend, order: Order, t: Type, e: Expr, scope: Scope, v: Value, out: seq<Byte>)
    requires t.Basic? || t.Text? || t.WideText?
    requires HasShape(t, v) && Eval(scope, e) == Some(v)
    ensures RunAll(order, WriteValue(b, t, e), scope, out) == Written(order, t, v, out)
  {
    match t
    case Basic(p) => RunOne(order, WriteScalar(p, e), scope, out);
    case Text(bound) =>
      BoundChecked(order, e, bound, [WriteText(e)], scope, out);
      RunOne(order, WriteText(e), scope, out);
    case WideText(bound) =>
      BoundChecked(order, e, bound, [WriteWide(e)], scope, out);
      RunOne(order, WriteWide(e), scope, out);
  }

  /** Running what the generator emits for a value is writing it. */
  lemma {:induction false} WriterCorrect(
    b: Backend, order: Order, t: Type, e: Expr, scope: Scope, v: Value, out: seq<Byte>)
    requires Supported(b, t) && HasShape(t, v) && Eval(scope, e) == Some(v)
    requires b == C && t.Sequence? ==> !e.Mentions(I)
    ensures RunAll(order, WriteValue(b, t, e), scope, out) == Written(order, t, v, out)
    decreases t, 0
  {
    hide EncodeMembers, EncodeElements, Put, PutText, PutWide, RunElements, RunIndices, SerializeMembers, WriteLoop;
    hide CheckBound;
    match t
    case Named(members) =>
      var body := SerializeMembers(b, members, Every(|members|), 0);
      RunOne(order, CallSerialize(body, e), scope, out);
      assert v == Record(v.fields);
      MembersCorrect(b, order, members, Every(|members|), v.fields, 0, map[Message := Object(v)], out);
      assert members[0..] == members && v.fields[0..] == v.fields && Every(|members|)[0..] == Every(|members|);
      KeptAll(members, Every(|members|));
      KeptAll(v.fields, Every(|members|));
    case Array(elem, _) =>
      RunOne(order, ForElement(e, WriteValue(b, elem, Var(Element))), scope, out);
      ElementsCorrect(b, order, elem, v.elems, scope, out);
    case Sequence(elem, bound) => SequenceCorrect(b, order, elem, bound, e, scope, v.elems, out);
    case _ => LeafCorrect(b, order, t, e, scope, v, out);
  }

  lemma Associates<T>(a: seq<T>, b: seq<T>, c: seq<T>)
    ensures (a + b) + c == a + (b + c) && |a + b| == |a| + |b|
  {
  }

  function WrittenElements(order: Order, t: Type, values: seq<Value>, out: seq<Byte>): Outcome<seq<Byte>>
    requires AllHaveShape(t, values)
  {
    if AllInBounds(t, values) then Running(out + EncodeElements(order, t, values, |out|)) else Rejected
  }

  lemma ThenElements(order: Order, t: Type, values: seq<Value>, out: seq<Byte>, size: seq<Byte>)
    requires AllHaveShape(t, values) && AllInBounds(t, values)
    ensures WrittenElements(order, t, values, out + size)
         == Running(out + (size + EncodeElements(order, t, values, |out| + |size|)))
  {
    Associates(out, size, EncodeElements(order, t, values, |out| + |size|));
  }

  lemma SequenceEncoding(order: Order, elem: Type, bound: Option<nat>, values: seq<Value>, position: nat)
    requires AllHaveShape(elem, values)
    ensures var size := Put(order, |values|, 4, position);
            Encode(order, Sequence(elem, bound), List(values), position)
              == size + EncodeElements(order, elem, values, position + |size|)
    ensures InBounds(Sequence(elem, bound), List(values)) <==>
              |values| <= UINT32_MAX && Within(|values|, bound) && AllInBounds(elem, values)
  {
    hide Put, EncodeElements, AllInBounds, AllHaveShape;
  }

  lemma SizeThenElements(order: Order, elem: Type, bound: Option<nat>, values: seq<Value>, out: seq<Byte>)
    requires AllHaveShape(elem, values)
    ensures Written(order, Sequence(elem, bound), List(values), out) ==
              if |values| <= UINT32_MAX && Within(|values|, bound)
              then WrittenElements(order, elem, values, out + Put(order, |values|, 4, |out|)) else Rejected
  {
    hide Put, EncodeElements, Encode, AllInBounds;
    SequenceEncoding(order, elem, bound, values, |out|);
    if AllInBounds(elem, values) {
      ThenElements(order, elem, values, out, Put(order, |values|, 4, |out|));
    }
  }

  lemma {:induction false} SequenceCorrect(
    b: Backend, order: Order, elem: Type, bound: Option<nat>, e: Expr, scope: Scope, values: seq<Value>,
    out: seq<Byte>)
    requires Supported(b, Sequence(elem, bound)) && AllHaveShape(elem, values)
    requires Eval(scope, e) == Some(List(values)) && (b == C ==> !e.Mentions(I))
    ensures RunAll(order, WriteValue(b, Sequence(elem, bound), e), scope, out)
         == Written(order, Sequence(elem, bound), List(values), out)
    decreases elem, |values| + 3
  {
    var loop := WriteLoop(b, elem, e);
    var size := Put(order, |values|, 4, |out|);
    BoundChecked(order, e, bound, [WriteSize(e), loop], scope, out);
    SizeThenElements(order, elem, bound, values, out);
    if |values| <= UINT32_MAX {
      RunAllConcat(order, [WriteSize(e)], [loop], scope, out);
      RunOne(order, WriteSize(e), scope, out);
      RunOne(order, loop, scope, out + size);
      LoopCorrect(b, order, elem, e, scope, values, out + size);
      assert [WriteSize(e)] + [loop] == [WriteSize(e), loop];
    }
  }

  lemma {:induction false} LoopCorrect(
    b: Backend, order: Order, elem: Type, e: Expr, scope: Scope, values: seq<Value>, out: seq<Byte>)
    requires Supported(b, elem) && AllHaveShape(elem, values) && |values| < SIZE_LIMIT
    requires Eval(scope, e) == Some(List(values)) && (b == C ==> !e.Mentions(I) && !elem.Sequence?)
    ensures Run(order, WriteLoop(b, elem, e), scope, out) == WrittenElements(order, elem, values, out)
    decreases elem, |values| + 2
  {
    hide EncodeElements, WriteValue, RunElements, RunIndices;
    if b == Cpp {
      ElementsCorrect(b, order, elem, values, scope, out);
    } else {
      IndicesCorrect(order, elem, e, values, 0, scope, out);
      assert values[0..] == values;
    }
  }

  lemma FirstElement(order: Order, t: Type, v: Value, values: seq<Value>, out: seq<Byte>)
    requires HasShape(t, v) && AllHaveShape(t, values)
    ensures AllHaveShape(t, [v] + values)
    ensures WrittenElements(order, t, [v] + values, out) ==
              match Written(order, t, v, out)
              case Running(next) => WrittenElements(order, t, values, next)
              case Rejected => Rejected
              case Stuck => Stuck
  {
    hide Encode, InBounds, HasShape;
    var vs := [v] + values;
    assert vs[1..] == values;
    if AllInBounds(t, vs) {
      assert InBounds(t, vs[0]);
      forall i | 0 <= i < |values| ensures InBounds(t, values[i]) {
        assert InBounds(t, vs[i + 1]);
      }
    }
    if InBounds(t, v) {
      var first := Encode(order, t, v, |out|);
      var rest := EncodeElements(order, t, values, |out + first|);
      assert out + first + rest == out + (first + rest);
    }
  }

  /** The body of a range-based loop, over all elements. */
  lemma {:induction false} ElementsCorrect(
    b: Backend, order: Order, t: Type, values: seq<Value>, scope: Scope, out: seq<Byte>)
    requires Supported(b, t) && AllHaveShape(t, values)
    ensures RunElements(order, values, WriteValue(b, t, Var(Element)), scope, out)
         == WrittenElements(order, t, values, out)
    decreases t, |values| + 1
  {
    hide Encode, InBounds, HasShape, WriteValue, RunAll;
    if values == [] {
      assert out + [] == out;
    } else {
      assert values == [values[0]] + values[1..];
      WriterCorrect(b, order, t, Var(Element), scope[Element := Object(values[0])], values[0], out);
      FirstElement(order, t, values[0], values[1..], out);
      if InBounds(t, values[0]) {
        ElementsCorrect(b, order, t, values[1..], scope, out + Encode(order, t, values[0], |out|));
      }
    }
  }

  /** The body of an index loop of the C back end, from index i on. */
  lemma {:induction false} IndicesCorrect(
    order: Order, t: Type, e: Expr, values: seq<Value>, i: nat, scope: Scope, out: seq<Byte>)
    requires Supported(C, t) && !t.Sequence? && AllHaveShape(t, values)
    requires Eval(scope, e) == Some(List(values)) && !e.Mentions(I)
    requires i <= |values| < SIZE_LIMIT
    ensures AllHaveShape(t, values[i..])
    ensures RunIndices(order, e, i, WriteValue(C, t, Elem(e, I)), scope, out)
         == WrittenElements(order, t, values[i..], out)
    decreases t, |values| - i + 1
  {
    hide Encode, InBounds, HasShape, WriteValue, RunAll;
    var inner := scope[I := Index(i)];
    EvalIgnores(scope, I, Index(i), e);
    if i == |values| {
      assert out + [] == out;
    } else {
      assert values[i..] == [values[i]] + values[i + 1..];
      WriterCorrect(C, order, t, Elem(e, I), inner, values[i], out);
      FirstElement(order, t, values[i], values[i + 1..], out);
      if InBounds(t, values[i]) {
        IndicesCorrect(order, t, e, values, i + 1, scope, out + Encode(order, t, values[i], |out|));
      }
    }
  }

  lemma FirstMember(order: Order, t: Type, v: Value, types: seq<Type>, values: seq<Value>, out: seq<Byte>)
    requires HasShape(t, v) && HaveShapes(types, values)
    ensures HaveShapes([t] + types, [v] + values)
    ensures WrittenMembers(order, [t] + types, [v] + values, out) ==
              match Written(order, t, v, out)
              case Running(next) => WrittenMembers(order, types, values, next)
              case Rejected => Rejected
              case Stuck => Stuck
  {
    hide Encode, InBounds, HasShape;
    var ts, vs := [t] + types, [v] + values;
    assert ts[1..] == types && vs[1..] == values;
    assert AreInBounds(ts, vs) <==> InBounds(t, v) && AreInBounds(types, values) by {
      if InBounds(t, v) && AreInBounds(types, values) {
        forall i | 0 <= i < |ts| ensures InBounds(ts[i], vs[i]) {
          if i > 0 {
            assert ts[i] == types[i - 1] && vs[i] == values[i - 1];
          }
        }
      }
      if AreInBounds(ts, vs) {
        assert InBounds(ts[0], vs[0]);
        forall i | 0 <= i < |types| ensures InBounds(types[i], values[i]) {
          assert InBounds(ts[i + 1], vs[i + 1]);
        }
      }
    }
    if InBounds(t, v) {
      var first := Encode(order, t, v, |out|);
      var rest := EncodeMembers(order, types, values, |out + first|);
      assert out + first + rest == out + (first + rest);
    }
  }

  /** Members k on of a message: the kept ones are written. */
  lemma {:induction false} MembersCorrect(
    b: Backend, order: Order, members: seq<Type>, keep: seq<bool>, fields: seq<Value>, k: nat, scope: Scope,
    out: seq<Byte>)
    requires |keep| == |members| && k <= |members| && HaveShapes(members, fields)
    requires forall m | m in members :: Supported(b, m)
    requires Eval(scope, Var(Message)) == Some(Record(fields))
    ensures HaveShapes(Kept(members[k..], keep[k..]), Kept(fields[k..], keep[k..]))
    ensures RunAll(order, SerializeMembers(b, members, keep, k), scope, out)
         == WrittenMembers(order, Kept(members[k..], keep[k..]), Kept(fields[k..], keep[k..]), out)
    decreases members, |members| - k
  {
    hide Encode, InBounds, HasShape, WriteValue, Run;
    KeptShapes(members[k..], fields[k..], keep[k..]);
    if k == |members| {
      assert out + [] == out;
    } else {
      assert members[k..][1..] == members[k + 1..] && fields[k..][1..] == fields[k + 1..];
      assert keep[k..][1..] == keep[k + 1..];
      if keep[k] {
        var e := Field(Var(Message), k);
        RunAllConcat(order, WriteValue(b, members[k], e), SerializeMembers(b, members, keep, k + 1), scope, out);
        WriterCorrect(b, order, members[k], e, scope, fields[k], out);
        var types, values := Kept(members[k + 1..], keep[k + 1..]), Kept(fields[k + 1..], keep[k + 1..]);
        KeptShapes(members[k + 1..], fields[k + 1..], keep[k + 1..]);
        FirstMember(order, members[k], fields[k], types, values, out);
        if InBounds(members[k], fields[k]) {
          MembersCorrect(b, order, members, keep, fields, k + 1, scope,
                         out + Encode(order, members[k], fields[k], |out|));
        }
      } else {
        MembersCorrect(b, order, members, keep, fields, k + 1, scope, out);
        assert Kept(members[k..], keep[k..]) == Kept(members[k + 1..], keep[k + 1..]);
        assert Kept(fields[k..], keep[k..]) == Kept(fields[k + 1..], keep[k + 1..]);
        assert [] + SerializeMembers(b, members, keep, k + 1) == SerializeMembers(b, members, keep, k + 1);
      }
    }
  }
}
