/**
 Whole generated messages: the code the two back ends generate for a message
 type, from the loops that generate it to what serializing, deserializing and
 hashing the key of a message do.
 */
module CdrMessages {
  import opened Options
  import opened Bytes
  import opened CdrTypes
  import opened CdrWire
  import opened CdrNames
  import opened CdrObjects
  import W = CdrWriter
  import R = CdrReader
  import RC = CdrReaderCorrect

  datatype Member = Member(fieldType: Type, key: bool)

  function Types(message: seq<Member>): (types: seq<Type>)
    ensures |types| == |message| && forall i | 0 <= i < |message| :: types[i] == message[i].fieldType
  {
    seq(|message|, i requires 0 <= i < |message| => message[i].fieldType)
  }

  /** The members that serialize_members emits: all, or the @key ones. */
  function Keep(message: seq<Member>, keysOnly: bool): (keep: seq<bool>)
    ensures |keep| == |message| && forall i | 0 <= i < |message| :: keep[i] == (!keysOnly || message[i].key)
  {
    seq(|message|, i requires 0 <= i < |message| => !keysOnly || message[i].key)
  }

  // ---------------------------------------------------------------------------
  // Generating

  /** The back end generates code for the message and the messages in it. */
  predicate Generated(b: Backend, message: seq<Member>) {
    Generates(b, Named(Types(message)))
  }

  lemma GeneratedMembers(b: Backend, message: seq<Member>)
    ensures Generated(b, message) <==> forall m | m in Types(message) :: Generates(b, m)
    ensures Generated(b, message) <==> forall i | 0 <= i < |message| :: Generates(b, Types(message)[i])
  {
  }

  /** The counter[0] that _read_value and its recursive calls share. */
  class Counter {
    var next: nat
    constructor ()
      ensures next == 0
    {
      next := 0;
    }
  }

  /** _c_sequence_functions, which raises for what it does not know. */
  method SequenceFunctions(t: Type) returns (known: bool)
    ensures known <==> HasSequenceFunctions(t)
    ensures known <==> t.Basic? || t.Text? || t.WideText? || t.Named?
  {
    match t
    case Basic(_) | Text(_) | WideText(_) | Named(_) => known := true;
    case Array(_, _) | Sequence(_, _) => known := false;
  }

  /** _read_value and _c_read_value; None if they raise, or if the code of a nested
      message that they call cannot be generated. */
  method ReadValue(b: Backend, t: Type, e: Expr, counter: Counter) returns (code: Option<seq<R.Statement>>)
    modifies counter
    ensures code.Some? <==> Generates(b, t)
    ensures code.Some? ==> R.Emitted(code.value, counter.next) == R.ReadValue(b, t, e, old(counter.next))
    decreases t
  {
    var n := counter.next;
    counter.next := counter.next + 1;
    match t {
      case Basic(p) => return Some([R.ReadScalar(n, p, e)]);
      case Text(bound) =>
        var check := if bound.Some? then [R.CheckText(n, bound.value)] else [];
        return Some([R.ReadText(n)] + check + [R.AssignText(e, n)]);
      case WideText(bound) =>
        var check := if bound.Some? then [R.CheckWide(n, bound.value)] else [];
        return Some([R.ReadWide(n)] + check + [R.AssignWide(e, n)]);
      case Named(members) =>
        if exists m | m in members :: !Generates(b, m) {
          return None;
        }
        return Some([R.CallDeserialize(R.DeserializeMembers(b, members, 0, 0).body, e)]);
      case Array(elem, _) =>
        var inner := ReadValue(b, elem, Var(Element), counter);
        return if inner.None? then None else Some([R.ForElement(e, inner.value)]);
      case Sequence(elem, bound) =>
        if b == C {
          var known := SequenceFunctions(elem);
          if !known {
            return None;
          }
        }
        var check := if bound.Some? then [R.CheckSize(n, bound.value)] else [];
        var index := if b == Cpp then IndexVar(n) else I;
        var allocate := if b == Cpp then R.Resize(e, n, elem) else R.Reinitialise(e, n, elem);
        var inner := ReadValue(b, elem, Elem(e, index), counter);
        if inner.None? {
          return None;
        }
        return Some([R.ReadSize(n), R.CheckRemaining(n)] + check + [allocate, R.ForCount(index, n, inner.value)]);
    }
  }

  method DeserializeMembers(b: Backend, message: seq<Member>) returns (lines: Option<seq<R.Statement>>)
    ensures lines.Some? <==> Generated(b, message)
    ensures lines.Some? ==> lines.value == R.DeserializeMembers(b, Types(message), 0, 0).body
  {
    hide R.ReadValue, Generates;
    var body, types := [], Types(message);
    var counter := new Counter();
    GeneratedMembers(b, message);
    for k := 0 to |message|
      invariant forall i | 0 <= i < k :: Generates(b, types[i])
      invariant Generated(b, message) ==>
                  body + R.DeserializeMembers(b, types, k, counter.next).body
                    == R.DeserializeMembers(b, types, 0, 0).body
    {
      ghost var before := counter.next;
      var first := ReadValue(b, message[k].fieldType, Field(Var(Message), k), counter);
      if first.None? {
        return None;
      }
      if Generated(b, message) {
        ghost var rest := R.DeserializeMembers(b, types, k + 1, counter.next).body;
        assert R.DeserializeMembers(b, types, k, before).body == first.value + rest;
        assert body + first.value + rest == body + (first.value + rest);
      }
      body := body + first.value;
    }
    assert body + [] == body;
    return Some(body);
  }

  method SerializeMembers(b: Backend, message: seq<Member>, keysOnly: bool) returns (lines: seq<W.Statement>)
    ensures lines == W.SerializeMembers(b, Types(message), Keep(message, keysOnly), 0)
  {
    hide W.WriteValue;
    lines := [];
    var types, keep := Types(message), Keep(message, keysOnly);
    for k := 0 to |message|
      invariant lines + W.SerializeMembers(b, types, keep, k) == W.SerializeMembers(b, types, keep, 0)
    {
      ghost var rest := W.SerializeMembers(b, types, keep, k + 1);
      if keysOnly && !message[k].key {
        assert [] + rest == rest;
        continue;
      }
      var first := W.WriteValue(b, message[k].fieldType, Field(Var(Message), k));
      assert lines + first + rest == lines + (first + rest);
      lines := lines + first;
    }
    assert lines + [] == lines;
  }

  /** The functions in the file of a message. */
  datatype Code = Code(writer: seq<W.Statement>, reader: seq<R.Statement>, keys: seq<W.Statement>)

  /** Expanding the template of a message: no file results if a generator raises. */
  method GenerateFile(b: Backend, message: seq<Member>) returns (code: Option<Code>)
    ensures code.Some? <==> Generated(b, message)
    ensures code.Some? ==>
              code.value == Code(W.SerializeMembers(b, Types(message), Keep(message, false), 0),
                                 R.DeserializeMembers(b, Types(message), 0, 0).body,
                                 W.SerializeMembers(b, Types(message), Keep(message, true), 0))
  {
    hide Generates;
    GeneratedMembers(b, message);
    var writer := SerializeMembers(b, message, false);
    var reader := DeserializeMembers(b, message);
    if reader.None? {
      return None;
    }
    var keys := SerializeMembers(b, message, true);
    return Some(Code(writer, reader.value, keys));
  }

  // ---------------------------------------------------------------------------
  // Running

  /** The encapsulation header of little-endian XCDR1. */
  const HEADER: seq<Byte> := [0, 1, 0, 0]

  /** cdr_serialize run on a message, without the header. */
  function Body(b: Backend, order: Order, message: seq<Member>, keysOnly: bool, v: Value): Outcome<seq<Byte>> {
    W.RunAll(order, W.SerializeMembers(b, Types(message), Keep(message, keysOnly), 0),
             map[Message := W.Object(v)], [])
  }

  function Serialize(b: Backend, message: seq<Member>, v: Value): Outcome<seq<Byte>> {
    match Body(b, LittleEndian, message, false, v)
    case Running(body) => Running(HEADER + body)
    case Rejected => Rejected
    case Stuck => Stuck
  }

  /** What compute_key_hash hashes: the key members in big endian, no header. */
  function KeyBytes(b: Backend, message: seq<Member>, v: Value): Outcome<seq<Byte>> {
    Body(b, BigEndian, message, true, v)
  }

  /** The byte order of an XCDR1 payload; None for any other encapsulation. */
  function PayloadOrder(payload: seq<Byte>): Option<Order> {
    if |payload| < 4 || payload[0] != 0 then None
    else if payload[1] == 0 then Some(BigEndian)
    else if payload[1] == 1 then Some(LittleEndian)
    else None
  }

  /** Deserializes into an existing object; the result carries the position,
      after the header, where reading ended. */
  function Deserialize(b: Backend, message: seq<Member>, payload: seq<Byte>, target: Value): Outcome<Got<Value>>
    requires Generated(b, message)
  {
    match PayloadOrder(payload)
    case None => Rejected
    case Some(order) =>
      match R.RunAll(order, payload[4..], R.DeserializeMembers(b, Types(message), 0, 0).body,
                     map[Message := R.Ref([])], R.State(target, 0))
      case Running(frame) => Running(Got(frame.state.message, frame.state.position))
      case Rejected => Rejected
      case Stuck => Stuck
  }

  /** Decoding a payload directly, without any up-front check. */
  function DirectDecode(message: seq<Member>, payload: seq<Byte>): Outcome<Got<Value>> {
    match PayloadOrder(payload)
    case None => Rejected
    case Some(order) =>
      match DecodeMembers(false, order, Types(message), payload[4..], 0)
      case None => Rejected
      case Some(Got(fields, end)) => Running(Got(Record(fields), end))
  }

  /** The elements of every sequence in the message take at least one byte. */
  predicate Occupied(message: seq<Member>) {
    SequencesOccupy(Named(Types(message)))
  }

  /** For rosidl's messages both back ends generate code, and sequence elements
      take room. */
  lemma WellFormedMessages(message: seq<Member>)
    requires WellFormed(Named(Types(message)))
    ensures Generated(Cpp, message) && Generated(C, message) && Occupied(message)
  {
    WellFormedGenerated(Cpp, Named(Types(message)));
    WellFormedGenerated(C, Named(Types(message)));
    WellFormedSequencesOccupy(Named(Types(message)));
  }

  /** The C++ or C object of the message type can hold v. */
  predicate IsInstance(message: seq<Member>, v: Value)
    ensures IsInstance(message, v) ==> HasShape(Named(Types(message)), v) && |v.fields| == |message|
  {
    v.Record? && HaveShapes(Types(message), v.fields)
  }

  lemma NamedEncoding(types: seq<Type>, v: Value)
    requires HasShape(Named(types), v)
    ensures HaveShapes(types, v.fields)
    ensures InBounds(Named(types), v) <==> AreInBounds(types, v.fields)
    ensures Encode(LittleEndian, Named(types), v, 0) == [] + EncodeMembers(LittleEndian, types, v.fields, 0)
  {
  }

  lemma BodyEncodes(b: Backend, order: Order, message: seq<Member>, keysOnly: bool, v: Value)
    requires Generated(b, message) && IsInstance(message, v)
    ensures var keep := Keep(message, keysOnly);
            && HaveShapes(W.Kept(Types(message), keep), W.Kept(v.fields, keep))
            && Body(b, order, message, keysOnly, v)
                 == W.WrittenMembers(order, W.Kept(Types(message), keep), W.Kept(v.fields, keep), [])
  {
    var types, keep := Types(message), Keep(message, keysOnly);
    GeneratedSupported(b, Named(types));
    assert v == Record(v.fields);
    assert types[0..] == types && keep[0..] == keep && v.fields[0..] == v.fields;
    W.MembersCorrect(b, order, types, keep, v.fields, 0, map[Message := W.Object(v)], []);
  }

  /** The serializer that a back end generates writes the direct encoding, and
      returns false exactly for values out of bounds. */
  lemma SerializeEncodes(b: Backend, message: seq<Member>, v: Value)
    requires Generated(b, message) && IsInstance(message, v)
    ensures Serialize(b, message, v) ==
              if InBounds(Named(Types(message)), v)
              then Running(HEADER + Encode(LittleEndian, Named(Types(message)), v, 0)) else Rejected
  {
    hide Encode, HasShape;
    var types, keep := Types(message), Keep(message, false);
    BodyEncodes(b, LittleEndian, message, false, v);
    W.KeptAll(types, keep);
    W.KeptAll(v.fields, keep);
    NamedEncoding(types, v);
  }

  /** The deserializer that a back end generates decodes: on every payload, and
      whatever the object held before, it has the decision, the value and the end
      of the direct decoder. It never gets stuck. */
  lemma DeserializeDecodes(b: Backend, message: seq<Member>, payload: seq<Byte>, target: Value)
    requires Generated(b, message) && Occupied(message) && IsInstance(message, target)
    ensures Deserialize(b, message, payload, target) == DirectDecode(message, payload)
  {
    match PayloadOrder(payload)
    case None =>
    case Some(order) =>
      var types, buffer, scope := Types(message), payload[4..], map[Message := R.Ref([])];
      GeneratedMembers(b, message);
      CheckIsHarmless(order, Named(types), buffer, 0);
      assert types[0..] == types && target.fields[0..] == target.fields && target == Record(target.fields);
      RC.MembersFill(b, order, types, 0, 0, buffer, scope, R.State(target, 0), [], target.fields);
      CheckIsHarmlessMembers(order, types, buffer, 0);
      match DecodeMembers(true, order, types, buffer, 0) {
        case None =>
        case Some(Got(fields, _)) => assert target.fields[..0] + fields == fields;
      }
  }

  /** What either back end wrote, followed by anything, either back end reads
      back, up to the end of what was written. */
  lemma RoundTrip(
    writer: Backend, reader: Backend, message: seq<Member>, v: Value, suffix: seq<Byte>, target: Value)
    requires Generated(writer, message) && Generated(reader, message) && Occupied(message)
    requires IsInstance(message, v) && IsInstance(message, target)
    requires InBounds(Named(Types(message)), v)
    ensures Serialize(writer, message, v).Running?
    ensures var payload := Serialize(writer, message, v).state;
            Deserialize(reader, message, payload + suffix, target) == Running(Got(v, |payload| - 4))
  {
    SerializeEncodes(writer, message, v);
    var t := Named(Types(message));
    var body := Encode(LittleEndian, t, v, 0);
    var payload := HEADER + body + suffix;
    assert payload[4..] == body + suffix;
    assert (body + suffix)[0..|body|] == body;
    DecodeInvertsEncode(LittleEndian, t, v, payload[4..], 0);
    DeserializeDecodes(reader, message, payload, target);
  }

  /** Any other header than those of big-endian and little-endian XCDR1, or none,
      is refused. */
  lemma OtherHeadersRefused(b: Backend, message: seq<Member>, payload: seq<Byte>, target: Value)
    requires Generated(b, message)
    requires |payload| < 4 || payload[0] != 0 || payload[1] > 1
    ensures Deserialize(b, message, payload, target) == Rejected
  {
  }

  /** The header names the byte order: a payload that starts with 0 and 0 is read
      as big endian, one that starts with 0 and 1 as little endian, whatever its
      two bytes of options. */
  lemma HeaderNamesOrder(
    b: Backend, message: seq<Member>, order: Order, options: seq<Byte>, v: Value, suffix: seq<Byte>, target: Value)
    requires Generated(b, message) && Occupied(message)
    requires IsInstance(message, v) && IsInstance(message, target) && InBounds(Named(Types(message)), v)
    requires |options| == 2
    ensures var body := Encode(order, Named(Types(message)), v, 0);
            Deserialize(b, message, [0, if order == BigEndian then 0 else 1] + options + body + suffix, target)
              == Running(Got(v, |body|))
  {
    hide Encode, HasShape, InBounds;
    var t := Named(Types(message));
    var body := Encode(order, t, v, 0);
    var header := [0, if order == BigEndian then 0 else 1] + options;
    assert (header + body + suffix)[4..] == body + suffix;
    assert (body + suffix)[0..|body|] == body;
    DecodeInvertsEncode(order, t, v, body + suffix, 0);
    DeserializeDecodes(b, message, header + body + suffix, target);
  }

  /** Where both back ends generate code, they agree on every input, even into
      objects that differ. */
  lemma BackendsAgree(message: seq<Member>, v: Value, payload: seq<Byte>, first: Value, second: Value)
    requires Generated(Cpp, message) && Generated(C, message) && Occupied(message)
    requires IsInstance(message, v) && IsInstance(message, first) && IsInstance(message, second)
    ensures Serialize(Cpp, message, v) == Serialize(C, message, v)
    ensures KeyBytes(Cpp, message, v) == KeyBytes(C, message, v)
    ensures Deserialize(Cpp, message, payload, first) == Deserialize(C, message, payload, second)
  {
    SerializeEncodes(Cpp, message, v);
    SerializeEncodes(C, message, v);
    BodyEncodes(Cpp, BigEndian, message, true, v);
    BodyEncodes(C, BigEndian, message, true, v);
    DeserializeDecodes(Cpp, message, payload, first);
    DeserializeDecodes(C, message, payload, second);
  }

  /** A deserialized message can be serialized again. */
  lemma DeserializedIsWritable(b: Backend, message: seq<Member>, payload: seq<Byte>, target: Value)
    requires Generated(b, message) && Occupied(message) && IsInstance(message, target)
    ensures var r := Deserialize(b, message, payload, target);
            r.Running? ==> IsInstance(message, r.state.value) && Serialize(b, message, r.state.value).Running?
  {
    DeserializeDecodes(b, message, payload, target);
    match PayloadOrder(payload)
    case None =>
    case Some(order) =>
      DecodedInBounds(false, order, Named(Types(message)), payload[4..], 0);
      var r := DirectDecode(message, payload);
      if r.Running? {
        SerializeEncodes(b, message, r.state.value);
      }
  }

  // ---------------------------------------------------------------------------
  // Keys

  function Keys(message: seq<Member>, v: Value): seq<Value>
    requires IsInstance(message, v)
  {
    W.Kept(v.fields, Keep(message, true))
  }

  /** What is hashed is the big-endian encoding of the message of the key members
      alone, and nothing is if one of them is out of bounds. */
  lemma KeyBytesEncode(b: Backend, message: seq<Member>, v: Value)
    requires Generated(b, message) && IsInstance(message, v)
    ensures var key := Named(W.Kept(Types(message), Keep(message, true)));
            && HasShape(key, Record(Keys(message, v)))
            && KeyBytes(b, message, v) ==
                 if InBounds(key, Record(Keys(message, v)))
                 then Running(Encode(BigEndian, key, Record(Keys(message, v)), 0)) else Rejected
  {
    BodyEncodes(b, BigEndian, message, true, v);
    var types := W.Kept(Types(message), Keep(message, true));
    var bytes := EncodeMembers(BigEndian, types, Keys(message, v), 0);
    assert [] + bytes == bytes;
  }

  lemma KeysDecode(types: seq<Type>, values: seq<Value>)
    requires HaveShapes(types, values) && AreInBounds(types, values)
    ensures var bytes := EncodeMembers(BigEndian, types, values, 0);
            && [] + bytes == bytes
            && DecodeMembers(false, BigEndian, types, bytes, 0) == Some(Got(values, |bytes|))
  {
    hide EncodeMembers, DecodeMembers, HaveShapes, AreInBounds;
    var bytes := EncodeMembers(BigEndian, types, values, 0);
    assert bytes[0..|bytes|] == bytes;
    MembersRoundTrip(BigEndian, types, values, bytes, 0);
  }

  /** Key bytes are self-delimiting: for messages whose keys are in bounds, they
      are equal exactly when the key members are. Other members do not matter. */
  lemma KeyBytesIdentifyKeys(b: Backend, message: seq<Member>, v: Value, w: Value)
    requires Generated(b, message) && IsInstance(message, v) && IsInstance(message, w)
    requires KeyBytes(b, message, v).Running? && KeyBytes(b, message, w).Running?
    ensures KeyBytes(b, message, v) == KeyBytes(b, message, w) <==> Keys(message, v) == Keys(message, w)
  {
    BodyEncodes(b, BigEndian, message, true, v);
    BodyEncodes(b, BigEndian, message, true, w);
    var types := W.Kept(Types(message), Keep(message, true));
    KeysDecode(types, Keys(message, v));
    KeysDecode(types, Keys(message, w));
  }
}
