/**
 What the text of _c_write_value alone would do. Its loops all use the variable
 `i`: in a sequence of sequences the inner loop declares another one, which its
 own condition and body then use for both levels, so it runs past the end of the
 outer sequence. The text is correct for exactly the types without such
 sequences. No C file is ever generated for the others, because _c_read_value
 raises for them (CdrNames.GeneratedSupported).
 */
module CdrNesting {
  import opened Options
  import opened Bytes
  import opened CdrTypes
  import opened CdrNames
  import opened CdrWriter

  /** Arrays have elements and sequences may have some. */
  predicate Sized(t: Type) {
    match t
    case Named(members) => forall m | m in members :: Sized(m)
    case Array(elem, size) => size > 0 && Sized(elem)
    case Sequence(elem, bound) => bound != Some(0) && Sized(elem)
    case _ => true
  }

  /** A value of type t in which every sequence has one element. */
  function Filled(t: Type): (v: Value)
    decreases t
  {
    match t
    case Basic(_) => Scalar(0)
    case Text(_) => Chars([])
    case WideText(_) => WideChars([])
    case Named(members) => Record(seq(|members|, i requires 0 <= i < |members| => Filled(members[i])))
    case Array(elem, size) => List(seq(size, _ => Filled(elem)))
    case Sequence(elem, _) => List([Filled(elem)])
  }

  lemma LimitPositive(p: Primitive)
    ensures Limit(p) > 0
  {
  }

  lemma {:induction false} FilledFits(t: Type)
    requires Sized(t)
    ensures HasShape(t, Filled(t)) && InBounds(t, Filled(t))
  {
    match t
    case Named(members) =>
      forall i | 0 <= i < |members|
        ensures HasShape(members[i], Filled(members[i])) && InBounds(members[i], Filled(members[i]))
      {
        assert members[i] in members;
        FilledFits(members[i]);
      }
    case Array(elem, _) => FilledFits(elem);
    case Sequence(elem, _) => FilledFits(elem);
    case Basic(p) => LimitPositive(p);
    case _ =>
  }

  /** Writing a sequence with one element: the size, then the loop. */
  lemma SequenceRuns(order: Order, elem: Type, bound: Option<nat>, e: Expr, scope: Scope, out: seq<Byte>)
    requires bound != Some(0) && Eval(scope, e) == Some(Filled(Sequence(elem, bound)))
    ensures RunAll(order, WriteValue(C, Sequence(elem, bound), e), scope, out)
         == RunIndices(order, e, 0, WriteValue(C, elem, Elem(e, I)), scope, out + Put(order, 1, 4, |out|))
  {
    hide RunIndices, Put;
    var loop := ForIndex(e, WriteValue(C, elem, Elem(e, I)));
    assert Size(scope, e) == Some(1);
    BoundChecked(order, e, bound, [WriteSize(e), loop], scope, out);
    RunAllConcat(order, [WriteSize(e)], [loop], scope, out);
    RunOne(order, WriteSize(e), scope, out);
    RunOne(order, loop, scope, out + Put(order, 1, 4, |out|));
    assert [WriteSize(e)] + [loop] == [WriteSize(e), loop];
  }

  /** An index loop whose first iteration gets stuck, or goes on to an index for
      which its condition cannot be evaluated. */
  lemma LoopStuck(order: Order, e: Expr, body: seq<Statement>, scope: Scope, out: seq<Byte>)
    requires Size(scope[I := Index(0)], e) == Some(1)
    requires var r := RunAll(order, body, scope[I := Index(0)], out);
             r.Stuck? || (r.Running? && Size(scope[I := Index(1)], e) == None)
    ensures RunIndices(order, e, 0, body, scope, out) == Stuck
  {
    match RunAll(order, body, scope[I := Index(0)], out)
    case Running(next) => assert RunIndices(order, e, 1, body, scope, next) == Stuck;
    case _ =>
  }

  /** A sequence that is itself the element of a sequence, so that its expression
      depends on `i`. */
  lemma {:induction false} NestedOverruns(
    order: Order, elem: Type, bound: Option<nat>, e: Expr, scope: Scope, out: seq<Byte>)
    requires Sized(Sequence(elem, bound))
    requires Eval(scope, e) == Eval(scope[I := Index(0)], e) == Some(Filled(Sequence(elem, bound)))
    requires Eval(scope[I := Index(1)], e) == None
    ensures RunAll(order, WriteValue(C, Sequence(elem, bound), e), scope, out) == Stuck
    decreases elem, 1
  {
    hide RunAll, RunIndices, WriteValue, Put;
    var first, next := scope[I := Index(0)], out + Put(order, 1, 4, |out|);
    var body := WriteValue(C, elem, Elem(e, I));
    SequenceRuns(order, elem, bound, e, scope, out);
    assert Eval(first, Elem(e, I)) == Some(Filled(elem));
    if elem.Sequence? {
      assert first[I := Index(0)] == first && first[I := Index(1)] == scope[I := Index(1)];
      NestedOverruns(order, elem.elem, elem.bound, Elem(e, I), first, next);
    } else if Supported(C, elem) {
      FilledFits(elem);
      WriterCorrect(C, order, elem, Elem(e, I), first, Filled(elem), next);
    } else {
      Overruns(order, elem, Elem(e, I), first, next);
    }
    LoopStuck(order, e, body, scope, next);
  }

  /** For every other type the text gets stuck on some value. */
  lemma {:induction false} Overruns(order: Order, t: Type, e: Expr, scope: Scope, out: seq<Byte>)
    requires Sized(t) && !Supported(C, t) && Eval(scope, e) == Some(Filled(t))
    requires t.Sequence? ==> !e.Mentions(I)
    ensures RunAll(order, WriteValue(C, t, e), scope, out) == Stuck
    decreases t, 0
  {
    hide RunIndices, Put;
    match t
    case Named(members) =>
      var body := SerializeMembers(C, members, Every(|members|), 0);
      RunOne(order, CallSerialize(body, e), scope, out);
      MembersOverrun(order, members, 0, map[Message := Object(Filled(t))], out);
    case Array(elem, size) =>
      var body := WriteValue(C, elem, Var(Element));
      RunOne(order, ForElement(e, body), scope, out);
      Overruns(order, elem, Var(Element), scope[Element := Object(Filled(elem))], out);
    case Sequence(elem, bound) =>
      var first, next := scope[I := Index(0)], out + Put(order, 1, 4, |out|);
      SequenceRuns(order, elem, bound, e, scope, out);
      EvalIgnores(scope, I, Index(0), e);
      EvalIgnores(scope, I, Index(1), e);
      assert first[I := Index(0)] == first && first[I := Index(1)] == scope[I := Index(1)];
      if elem.Sequence? {
        NestedOverruns(order, elem.elem, elem.bound, Elem(e, I), first, next);
      } else {
        Overruns(order, elem, Elem(e, I), first, next);
      }
      LoopStuck(order, e, WriteValue(C, elem, Elem(e, I)), scope, next);
  }

  /** Members k on of a message, one of which is not supported. */
  lemma {:induction false} MembersOverrun(order: Order, members: seq<Type>, k: nat, scope: Scope, out: seq<Byte>)
    requires Sized(Named(members)) && k <= |members|
    requires Eval(scope, Var(Message)) == Some(Filled(Named(members)))
    requires exists i | k <= i < |members| :: !Supported(C, members[i])
    ensures RunAll(order, SerializeMembers(C, members, Every(|members|), k), scope, out) == Stuck
    decreases members, |members| - k
  {
    hide WriteValue, Run;
    var e, rest := Field(Var(Message), k), SerializeMembers(C, members, Every(|members|), k + 1);
    assert Eval(scope, e) == Some(Filled(members[k])) && members[k] in members;
    RunAllConcat(order, WriteValue(C, members[k], e), rest, scope, out);
    if Supported(C, members[k]) {
      FilledFits(members[k]);
      WriterCorrect(C, order, members[k], e, scope, Filled(members[k]), out);
      MembersOverrun(order, members, k + 1, scope, out + Encode(order, members[k], Filled(members[k]), |out|));
    } else {
      Overruns(order, members[k], e, scope, out);
    }
  }

  /** The text of the C writer does what a writer must do with every value. */
  ghost predicate WritesCorrectly(t: Type) {
    forall order, v, out | HasShape(t, v) ::
      RunAll(order, WriteValue(C, t, Var(Message)), map[Message := Object(v)], out) == Written(order, t, v, out)
  }

  /** It is correct for a type exactly when no sequence in it is directly an
      element of a sequence. */
  lemma CorrectIffSupported(t: Type)
    requires Sized(t)
    ensures WritesCorrectly(t) <==> Supported(C, t)
  {
    if Supported(C, t) {
      forall order, v, out | HasShape(t, v)
        ensures RunAll(order, WriteValue(C, t, Var(Message)), map[Message := Object(v)], out)
             == Written(order, t, v, out)
      {
        WriterCorrect(C, order, t, Var(Message), map[Message := Object(v)], v, out);
      }
    } else {
      FilledFits(t);
      Overruns(LittleEndian, t, Var(Message), map[Message := Object(Filled(t))], []);
      assert Written(LittleEndian, t, Filled(t), []).Running?;
    }
  }

  /** The smallest case: one octet in a sequence in a sequence. */
  lemma NestedSequenceMiswritten()
    ensures var t := Sequence(Sequence(Basic(Octet), None), None);
            var v := List([List([Scalar(0)])]);
            && HasShape(t, v) && InBounds(t, v)
            && RunAll(LittleEndian, WriteValue(C, t, Var(Message)), map[Message := Object(v)], []) == Stuck
  {
    var t := Sequence(Sequence(Basic(Octet), None), None);
    FilledFits(t);
    Overruns(LittleEndian, t, Var(Message), map[Message := Object(Filled(t))], []);
  }
}
