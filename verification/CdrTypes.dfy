/**
 ROS IDL field types, their values, and the XCDR1 wire format of DDS-XTypes 1.3
 (section 7.4.1) as a direct encoder and decoder. Positions count from the end
 of the 4-byte encapsulation header, which is what alignment is relative to.
 */
module CdrTypes {
  import opened Options
  import opened Bytes

  const UINT32_MAX: nat := 0xFFFF_FFFF

  datatype Primitive =
    | Boolean | Octet | Char | WChar | Float | Double
    | Int8 | Uint8 | Int16 | Uint16 | Int32 | Uint32 | Int64 | Uint64

  function Width(p: Primitive): (width: nat)
    ensures IsWidth(width)
  {
    match p
    case Boolean | Octet | Char | Int8 | Uint8 => 1
    case WChar | Int16 | Uint16 => 2
    case Float | Int32 | Uint32 => 4
    case Double | Int64 | Uint64 => 8
  }

  /** `Named` is a message type, given by the types of its members. */
  datatype Type =
    | Basic(primitive: Primitive)
    | Text(bound: Option<nat>)
    | WideText(bound: Option<nat>)
    | Named(members: seq<Type>)
    | Array(elem: Type, size: nat)
    | Sequence(elem: Type, bound: Option<nat>)

  /** rosidl's types: messages have members, arrays have elements, and arrays and
      sequences do not nest directly. */
  predicate WellFormed(t: Type) {
    match t
    case Basic(_) | Text(_) | WideText(_) => true
    case Named(members) => members != [] && forall m | m in members :: WellFormed(m)
    case Array(elem, size) => size > 0 && !elem.Array? && !elem.Sequence? && WellFormed(elem)
    case Sequence(elem, _) => !elem.Array? && !elem.Sequence? && WellFormed(elem)
  }

  /** Scalars are bit patterns: two's complement for signed integers, IEEE 754
      for floating-point numbers. */
  datatype Value =
    | Scalar(bits: nat)
    | Chars(bytes: seq<Byte>)
    | WideChars(units: seq<nat>)
    | Record(fields: seq<Value>)
    | List(elems: seq<Value>)

  function Limit(p: Primitive): nat {
    if p == Boolean then 2 else Range(Width(p))
  }

  predicate UnitsInRange(units: seq<nat>) {
    forall i | 0 <= i < |units| :: units[i] < Range(2)
  }

  /** The C++ or C object of type t can hold v. */
  predicate HasShape(t: Type, v: Value)
    decreases t, 0
  {
    match t
    case Basic(p) => v.Scalar? && v.bits < Limit(p)
    case Text(_) => v.Chars?
    case WideText(_) => v.WideChars? && UnitsInRange(v.units)
    case Named(members) => v.Record? && HaveShapes(members, v.fields)
    case Array(elem, size) => v.List? && |v.elems| == size && AllHaveShape(elem, v.elems)
    case Sequence(elem, _) => v.List? && AllHaveShape(elem, v.elems)
  }

  predicate HaveShapes(types: seq<Type>, values: seq<Value>)
    decreases types, 0
  {
    |types| == |values| && forall i | 0 <= i < |types| :: HasShape(types[i], values[i])
  }

  predicate AllHaveShape(t: Type, values: seq<Value>)
    decreases t, 1
  {
    forall i | 0 <= i < |values| :: HasShape(t, values[i])
  }

  predicate Within(n: nat, bound: Option<nat>) {
    bound.Some? ==> n <= bound.value
  }

  /** The strings and sequences of v respect their bounds and have a length the
      wire can carry. */
  predicate InBounds(t: Type, v: Value)
    requires HasShape(t, v)
    decreases t, 0
  {
    match t
    case Basic(_) => true
    case Text(bound) => |v.bytes| + 1 <= UINT32_MAX && Within(|v.bytes|, bound)
    case WideText(bound) => 2 * |v.units| <= UINT32_MAX && Within(|v.units|, bound)
    case Named(members) => AreInBounds(members, v.fields)
    case Array(elem, _) => AllInBounds(elem, v.elems)
    case Sequence(elem, bound) =>
      |v.elems| <= UINT32_MAX && Within(|v.elems|, bound) && AllInBounds(elem, v.elems)
  }

  predicate AreInBounds(types: seq<Type>, values: seq<Value>)
    requires HaveShapes(types, values)
    decreases types, 0
  {
    forall i | 0 <= i < |types| :: InBounds(types[i], values[i])
  }

  predicate AllInBounds(t: Type, values: seq<Value>)
    requires AllHaveShape(t, values)
    decreases t, 1
  {
    forall i | 0 <= i < |values| :: InBounds(t, values[i])
  }

  // ---------------------------------------------------------------------------
  // Encoding

  function Padding(position: nat, alignment: nat): (r: nat)
    requires IsWidth(alignment)
    ensures r < alignment && (position + r) % alignment == 0
  {
    var over := position % alignment;
    if over == 0 then 0 else alignment - over
  }

  function Zeros(n: nat): (s: seq<Byte>)
    ensures |s| == n
  {
    seq(n, _ => 0)
  }

  /** The zidl write primitives: alignment, then the bytes. */
  function Put(order: Order, n: nat, width: nat, position: nat): seq<Byte>
    requires IsWidth(width)
  {
    Zeros(Padding(position, width)) + ToBytes(order, n, width)
  }

  /** A narrow string travels with its length, counting a final NUL. */
  function PutText(order: Order, bytes: seq<Byte>, position: nat): seq<Byte> {
    Put(order, |bytes| + 1, 4, position) + bytes + [0]
  }

  function UnitBytes(order: Order, units: seq<nat>): (s: seq<Byte>)
    ensures |s| == 2 * |units|
  {
    if units == [] then [] else ToBytes(order, units[0], 2) + UnitBytes(order, units[1..])
  }

  /** A wide string travels with its length in bytes and no NUL. */
  function PutWide(order: Order, units: seq<nat>, position: nat): seq<Byte> {
    Put(order, 2 * |units|, 4, position) + UnitBytes(order, units)
  }

  function Encode(order: Order, t: Type, v: Value, position: nat): seq<Byte>
    requires HasShape(t, v)
    decreases t, 0
  {
    match t
    case Basic(p) => Put(order, v.bits, Width(p), position)
    case Text(_) => PutText(order, v.bytes, position)
    case WideText(_) => PutWide(order, v.units, position)
    case Named(members) => EncodeMembers(order, members, v.fields, position)
    case Array(elem, _) => EncodeElements(order, elem, v.elems, position)
    case Sequence(elem, _) =>
      var size := Put(order, |v.elems|, 4, position);
      size + EncodeElements(order, elem, v.elems, position + |size|)
  }

  function EncodeMembers(order: Order, types: seq<Type>, values: seq<Value>, position: nat): seq<Byte>
    requires HaveShapes(types, values)
    decreases types, 0
  {
    if types == [] then [] else
    var first := Encode(order, types[0], values[0], position);
    first + EncodeMembers(order, types[1..], values[1..], position + |first|)
  }

  function EncodeElements(order: Order, t: Type, values: seq<Value>, position: nat): seq<Byte>
    requires AllHaveShape(t, values)
    decreases t, |values| + 1
  {
    if values == [] then [] else
    var first := Encode(order, t, values[0], position);
    first + EncodeElements(order, t, values[1..], position + |first|)
  }

  // ---------------------------------------------------------------------------
  // Decoding

  /** What a read yields and the position after it. */
  datatype Got<+T> = Got(value: T, position: nat)

  /** The zidl read primitives. Padding bytes are skipped, whatever they are. */
  function Get(order: Order, width: nat, buffer: seq<Byte>, position: nat): (r: Option<Got<nat>>)
    requires IsWidth(width)
    ensures r.Some? ==> position + width <= r.value.position <= |buffer|
  {
    var start := position + Padding(position, width);
    if start + width > |buffer| then None
    else Some(Got(FromBytes(order, buffer[start..start + width]), start + width))
  }

  function GetScalar(order: Order, p: Primitive, buffer: seq<Byte>, position: nat): (r: Option<Got<nat>>)
    ensures r.Some? ==> position < r.value.position <= |buffer|
  {
    var r := Get(order, Width(p), buffer, position);
    if r.Some? && r.value.value < Limit(p) then r else None
  }

  function GetText(order: Order, buffer: seq<Byte>, position: nat): (r: Option<Got<seq<Byte>>>)
    ensures r.Some? ==> position < r.value.position <= |buffer|
  {
    match Get(order, 4, buffer, position)
    case None => None
    case Some(Got(size, start)) =>
      if size == 0 || start + size > |buffer| || buffer[start + size - 1] != 0 then None
      else Some(Got(buffer[start..start + size - 1], start + size))
  }

  function Units(order: Order, bytes: seq<Byte>): (units: seq<nat>)
    requires |bytes| % 2 == 0
    ensures 2 * |units| == |bytes|
  {
    if bytes == [] then [] else [FromBytes(order, bytes[..2])] + Units(order, bytes[2..])
  }

  function GetWide(order: Order, buffer: seq<Byte>, position: nat): (r: Option<Got<seq<nat>>>)
    ensures r.Some? ==> position < r.value.position <= |buffer|
  {
    match Get(order, 4, buffer, position)
    case None => None
    case Some(Got(size, start)) =>
      if size % 2 != 0 || start + size > |buffer| then None
      else Some(Got(Units(order, buffer[start..start + size]), start + size))
  }

  /** Decodes a value of type t. With `checked`, a sequence is refused up front
      when its length exceeds the remaining bytes, as the generated code does. */
  function Decode(checked: bool, order: Order, t: Type, buffer: seq<Byte>, position: nat): (r: Option<Got<Value>>)
    requires position <= |buffer|
    ensures r.Some? ==> position <= r.value.position <= |buffer|
    decreases t, 0
  {
    match t
    case Basic(p) =>
      (match GetScalar(order, p, buffer, position)
       case None => None
       case Some(Got(bits, next)) => Some(Got(Scalar(bits), next)))
    case Text(bound) =>
      (match GetText(order, buffer, position)
       case None => None
       case Some(Got(bytes, next)) => if Within(|bytes|, bound) then Some(Got(Chars(bytes), next)) else None)
    case WideText(bound) =>
      (match GetWide(order, buffer, position)
       case None => None
       case Some(Got(units, next)) => if Within(|units|, bound) then Some(Got(WideChars(units), next)) else None)
    case Named(members) =>
      (match DecodeMembers(checked, order, members, buffer, position)
       case None => None
       case Some(Got(fields, next)) => Some(Got(Record(fields), next)))
    case Array(elem, size) =>
      (match DecodeElements(checked, order, elem, size, buffer, position)
       case None => None
       case Some(Got(elems, next)) => Some(Got(List(elems), next)))
    case Sequence(elem, bound) =>
      (match Get(order, 4, buffer, position)
       case None => None
       case Some(Got(size, start)) =>
         if checked && size > |buffer| - start then None
         else if !Within(size, bound) then None
         else match DecodeElements(checked, order, elem, size, buffer, start)
              case None => None
              case Some(Got(elems, next)) => Some(Got(List(elems), next)))
  }

  function DecodeMembers(checked: bool, order: Order, types: seq<Type>, buffer: seq<Byte>, position: nat):
    (r: Option<Got<seq<Value>>>)
    requires position <= |buffer|
    ensures r.Some? ==> position <= r.value.position <= |buffer| && |r.value.value| == |types|
    decreases types, 0
  {
    if types == [] then Some(Got([], position)) else
    match Decode(checked, order, types[0], buffer, position)
    case None => None
    case Some(Got(first, next)) =>
      match DecodeMembers(checked, order, types[1..], buffer, next)
      case None => None
      case Some(Got(rest, end)) => Some(Got([first] + rest, end))
  }

  function DecodeElements(checked: bool, order: Order, t: Type, n: nat, buffer: seq<Byte>, position: nat):
    (r: Option<Got<seq<Value>>>)
    requires position <= |buffer|
    ensures r.Some? ==> position <= r.value.position <= |buffer| && |r.value.value| == n
    decreases t, n + 1
  {
    if n == 0 then Some(Got([], position)) else
    match Decode(checked, order, t, buffer, position)
    case None => None
    case Some(Got(first, next)) =>
      match DecodeElements(checked, order, t, n - 1, buffer, next)
      case None => None
      case Some(Got(rest, end)) => Some(Got([first] + rest, end))
  }
}
