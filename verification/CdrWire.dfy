/**
 Properties of the wire format: decoding inverts encoding, the up-front check of
 sequence lengths changes no decision exactly when elements take up room, and
 decoded values respect their bounds.
 */
module CdrWire {
  import opened Options
  import opened Bytes
  import opened CdrTypes

  /** The bytes s stand in the buffer at position p. */
  predicate At(buffer: seq<Byte>, p: nat, s: seq<Byte>) {
    p + |s| <= |buffer| && buffer[p..p + |s|] == s
  }

  lemma AtSplits(buffer: seq<Byte>, p: nat, s: seq<Byte>, t: seq<Byte>)
    requires At(buffer, p, s + t)
    ensures At(buffer, p, s) && At(buffer, p + |s|, t)
  {
    assert buffer[p..p + |s + t|][..|s|] == s;
    assert buffer[p..p + |s + t|][|s|..] == t;
  }

  lemma GetInvertsPut(order: Order, n: nat, width: nat, buffer: seq<Byte>, position: nat)
    requires IsWidth(width) && n < Range(width)
    requires At(buffer, position, Put(order, n, width, position))
    ensures Get(order, width, buffer, position)
         == Some(Got(n, position + |Put(order, n, width, position)|))
  {
    hide ToBytes, FromBytes, Zeros;
    AtSplits(buffer, position, Zeros(Padding(position, width)), ToBytes(order, n, width));
    FromToBytes(order, n, width);
  }

  lemma {:induction false} UnitsInvertUnitBytes(order: Order, units: seq<nat>)
    requires UnitsInRange(units)
    ensures Units(order, UnitBytes(order, units)) == units
  {
    if units != [] {
      var bytes := UnitBytes(order, units);
      assert bytes[..2] == ToBytes(order, units[0], 2) && bytes[2..] == UnitBytes(order, units[1..]);
      FromToBytes(order, units[0], 2);
      UnitsInvertUnitBytes(order, units[1..]);
    }
  }

  lemma TextRoundTrip(order: Order, bytes: seq<Byte>, buffer: seq<Byte>, position: nat)
    requires |bytes| + 1 <= UINT32_MAX
    requires At(buffer, position, PutText(order, bytes, position))
    ensures GetText(order, buffer, position)
         == Some(Got(bytes, position + |PutText(order, bytes, position)|))
  {
    hide ToBytes, FromBytes, Range, Padding;
    Ranges();
    var size := Put(order, |bytes| + 1, 4, position);
    assert PutText(order, bytes, position) == size + (bytes + [0]);
    AtSplits(buffer, position, size, bytes + [0]);
    GetInvertsPut(order, |bytes| + 1, 4, buffer, position);
    AtSplits(buffer, position + |size|, bytes, [0]);
    assert buffer[position + |size| + |bytes|..position + |size| + |bytes| + 1][0] == 0;
  }

  lemma WideRoundTrip(order: Order, units: seq<nat>, buffer: seq<Byte>, position: nat)
    requires 2 * |units| <= UINT32_MAX && UnitsInRange(units)
    requires At(buffer, position, PutWide(order, units, position))
    ensures GetWide(order, buffer, position)
         == Some(Got(units, position + |PutWide(order, units, position)|))
  {
    hide ToBytes, FromBytes, Range, Padding;
    Ranges();
    AtSplits(buffer, position, Put(order, 2 * |units|, 4, position), UnitBytes(order, units));
    GetInvertsPut(order, 2 * |units|, 4, buffer, position);
    UnitsInvertUnitBytes(order, units);
  }

  lemma ScalarRoundTrip(order: Order, p: Primitive, bits: nat, buffer: seq<Byte>, position: nat)
    requires bits < Limit(p)
    requires At(buffer, position, Put(order, bits, Width(p), position))
    ensures GetScalar(order, p, buffer, position)
         == Some(Got(bits, position + |Put(order, bits, Width(p), position)|))
  {
    Ranges();
    GetInvertsPut(order, bits, Width(p), buffer, position);
  }

  lemma SizeRoundTrip(order: Order, n: nat, rest: seq<Byte>, buffer: seq<Byte>, position: nat)
    requires n <= UINT32_MAX && At(buffer, position, Put(order, n, 4, position) + rest)
    ensures var start := position + |Put(order, n, 4, position)|;
            Get(order, 4, buffer, position) == Some(Got(n, start)) && At(buffer, start, rest)
  {
    Ranges();
    AtSplits(buffer, position, Put(order, n, 4, position), rest);
    GetInvertsPut(order, n, 4, buffer, position);
  }

  lemma LeafRoundTrip(order: Order, t: Type, v: Value, buffer: seq<Byte>, position: nat)
    requires t.Basic? || t.Text? || t.WideText?
    requires HasShape(t, v) && InBounds(t, v)
    requires At(buffer, position, Encode(order, t, v, position))
    ensures Decode(false, order, t, buffer, position)
         == Some(Got(v, position + |Encode(order, t, v, position)|))
  {
    hide Put, Get, PutText, PutWide, GetText, GetWide, GetScalar;
    match t
    case Basic(p) => ScalarRoundTrip(order, p, v.bits, buffer, position);
    case Text(_) => TextRoundTrip(order, v.bytes, buffer, position);
    case WideText(_) => WideRoundTrip(order, v.units, buffer, position);
  }

  /** Decoding inverts encoding, wherever the encoding stands in a buffer. */
  lemma {:induction false} DecodeInvertsEncode(order: Order, t: Type, v: Value, buffer: seq<Byte>, position: nat)
    requires HasShape(t, v) && InBounds(t, v)
    requires At(buffer, position, Encode(order, t, v, position))
    ensures Decode(false, order, t, buffer, position)
         == Some(Got(v, position + |Encode(order, t, v, position)|))
    decreases t, 0
  {
    hide EncodeMembers, EncodeElements, DecodeMembers, DecodeElements, Put, Get;
    match t
    case Named(members) => MembersRoundTrip(order, members, v.fields, buffer, position);
    case Array(elem, _) => ElementsRoundTrip(order, elem, v.elems, buffer, position);
    case Sequence(elem, bound) => SequenceRoundTrip(order, elem, bound, v.elems, buffer, position);
    case _ => LeafRoundTrip(order, t, v, buffer, position);
  }

  lemma {:induction false} SequenceRoundTrip(
    order: Order, elem: Type, bound: Option<nat>, values: seq<Value>, buffer: seq<Byte>, position: nat)
    requires AllHaveShape(elem, values) && AllInBounds(elem, values)
    requires |values| <= UINT32_MAX && Within(|values|, bound)
    requires At(buffer, position, Encode(order, Sequence(elem, bound), List(values), position))
    ensures Decode(false, order, Sequence(elem, bound), buffer, position)
         == Some(Got(List(values), position + |Encode(order, Sequence(elem, bound), List(values), position)|))
    decreases elem, |values| + 2
  {
    hide DecodeElements, EncodeElements, Put, Get;
    var size := Put(order, |values|, 4, position);
    var rest := EncodeElements(order, elem, values, position + |size|);
    assert Encode(order, Sequence(elem, bound), List(values), position) == size + rest;
    SizeRoundTrip(order, |values|, rest, buffer, position);
    ElementsRoundTrip(order, elem, values, buffer, position + |size|);
  }

  lemma Tails(types: seq<Type>, values: seq<Value>)
    requires types != [] && HaveShapes(types, values) && AreInBounds(types, values)
    ensures HasShape(types[0], values[0]) && InBounds(types[0], values[0])
    ensures HaveShapes(types[1..], values[1..]) && AreInBounds(types[1..], values[1..])
  {
  }

  lemma {:induction false} MembersRoundTrip(
    order: Order, types: seq<Type>, values: seq<Value>, buffer: seq<Byte>, position: nat)
    requires HaveShapes(types, values) && AreInBounds(types, values)
    requires At(buffer, position, EncodeMembers(order, types, values, position))
    ensures DecodeMembers(false, order, types, buffer, position)
         == Some(Got(values, position + |EncodeMembers(order, types, values, position)|))
    decreases types, 0
  {
    hide Encode, Decode, InBounds, HasShape;
    if types == [] {
      assert values == [];
    } else {
      Tails(types, values);
      var first := Encode(order, types[0], values[0], position);
      var rest := EncodeMembers(order, types[1..], values[1..], position + |first|);
      assert EncodeMembers(order, types, values, position) == first + rest;
      AtSplits(buffer, position, first, rest);
      DecodeInvertsEncode(order, types[0], values[0], buffer, position);
      MembersRoundTrip(order, types[1..], values[1..], buffer, position + |first|);
      assert values == [values[0]] + values[1..];
    }
  }

  lemma OneMoreElement(order: Order, t: Type, n: nat, buffer: seq<Byte>, position: nat)
    requires n > 0 && position <= |buffer|
    ensures DecodeElements(false, order, t, n, buffer, position) ==
              match Decode(false, order, t, buffer, position)
              case None => None
              case Some(Got(first, next)) =>
                match DecodeElements(false, order, t, n - 1, buffer, next)
                case None => None
                case Some(Got(rest, end)) => Some(Got([first] + rest, end))
  {
    hide Decode;
  }

  lemma {:induction false} ElementsRoundTrip(
    order: Order, t: Type, values: seq<Value>, buffer: seq<Byte>, position: nat)
    requires AllHaveShape(t, values) && AllInBounds(t, values)
    requires At(buffer, position, EncodeElements(order, t, values, position))
    ensures DecodeElements(false, order, t, |values|, buffer, position)
         == Some(Got(values, position + |EncodeElements(order, t, values, position)|))
    decreases t, |values| + 1
  {
    hide Encode, Decode, InBounds, HasShape, At;
    if values != [] {
      var first := Encode(order, t, values[0], position);
      var rest := EncodeElements(order, t, values[1..], position + |first|);
      assert EncodeElements(order, t, values, position) == first + rest;
      AtSplits(buffer, position, first, rest);
      DecodeInvertsEncode(order, t, values[0], buffer, position);
      ElementsRoundTrip(order, t, values[1..], buffer, position + |first|);
      hide EncodeElements, DecodeElements;
      OneMoreElement(order, t, |values|, buffer, position);
      assert values == [values[0]] + values[1..];
    }
  }

  // ---------------------------------------------------------------------------
  // The up-front length check

  /** Every value of type t takes at least one byte on the wire. */
  predicate Occupies(t: Type)
    decreases t
  {
    match t
    case Named(members) => exists m | m in members :: Occupies(m)
    case Array(elem, size) => size > 0 && Occupies(elem)
    case _ => true
  }

  lemma {:induction false} WellFormedOccupies(t: Type)
    requires WellFormed(t)
    ensures Occupies(t)
  {
    match t
    case Named(members) => WellFormedOccupies(members[0]);
    case Array(elem, _) => WellFormedOccupies(elem);
    case _ =>
  }

  lemma {:induction false} DecodingConsumes(checked: bool, order: Order, t: Type, buffer: seq<Byte>, position: nat)
    requires Occupies(t) && position <= |buffer|
    ensures var r := Decode(checked, order, t, buffer, position); r.Some? ==> r.value.position > position
    decreases t, 0
  {
    match t
    case Named(members) => MembersConsume(checked, order, members, buffer, position);
    case Array(elem, size) => ElementsConsume(checked, order, elem, size, buffer, position);
    case _ =>
  }

  lemma {:induction false} MembersConsume(
    checked: bool, order: Order, types: seq<Type>, buffer: seq<Byte>, position: nat)
    requires position <= |buffer| && exists m | m in types :: Occupies(m)
    ensures var r := DecodeMembers(checked, order, types, buffer, position); r.Some? ==> r.value.position > position
    decreases types, 0
  {
    var first := Decode(checked, order, types[0], buffer, position);
    if Occupies(types[0]) {
      DecodingConsumes(checked, order, types[0], buffer, position);
    } else if first.Some? {
      var m :| m in types && Occupies(m);
      assert m in types[1..];
      MembersConsume(checked, order, types[1..], buffer, first.value.position);
    }
  }

  lemma {:induction false} ElementsConsume(
    checked: bool, order: Order, t: Type, n: nat, buffer: seq<Byte>, position: nat)
    requires position <= |buffer| && Occupies(t)
    ensures var r := DecodeElements(checked, order, t, n, buffer, position);
            r.Some? ==> r.value.position >= position + n
    decreases t, n + 1
  {
    if n > 0 {
      DecodingConsumes(checked, order, t, buffer, position);
      var first := Decode(checked, order, t, buffer, position);
      if first.Some? {
        ElementsConsume(checked, order, t, n - 1, buffer, first.value.position);
      }
    }
  }

  /** The elements of every sequence inside t take up room. */
  predicate SequencesOccupy(t: Type)
    decreases t
  {
    match t
    case Named(members) => forall m | m in members :: SequencesOccupy(m)
    case Array(elem, _) => SequencesOccupy(elem)
    case Sequence(elem, _) => Occupies(elem) && SequencesOccupy(elem)
    case _ => true
  }

  lemma {:induction false} WellFormedSequencesOccupy(t: Type)
    requires WellFormed(t)
    ensures SequencesOccupy(t)
  {
    match t
    case Named(members) => forall m | m in members ensures SequencesOccupy(m) { WellFormedSequencesOccupy(m); }
    case Array(elem, _) => WellFormedSequencesOccupy(elem);
    case Sequence(elem, _) => WellFormedOccupies(elem); WellFormedSequencesOccupy(elem);
    case _ =>
  }

  /** The check changes no decision and no value, on any input. */
  lemma {:induction false} CheckIsHarmless(order: Order, t: Type, buffer: seq<Byte>, position: nat)
    requires SequencesOccupy(t) && position <= |buffer|
    ensures Decode(true, order, t, buffer, position) == Decode(false, order, t, buffer, position)
    decreases t, 0
  {
    match t
    case Named(members) => CheckIsHarmlessMembers(order, members, buffer, position);
    case Array(elem, size) => CheckIsHarmlessElements(order, elem, size, buffer, position);
    case Sequence(elem, bound) =>
      match Get(order, 4, buffer, position) {
        case None =>
        case Some(Got(size, start)) =>
          CheckIsHarmlessElements(order, elem, size, buffer, start);
          ElementsConsume(false, order, elem, size, buffer, start);
      }
    case _ =>
  }

  lemma {:induction false} CheckIsHarmlessMembers(order: Order, types: seq<Type>, buffer: seq<Byte>, position: nat)
    requires position <= |buffer| && forall m | m in types :: SequencesOccupy(m)
    ensures DecodeMembers(true, order, types, buffer, position) == DecodeMembers(false, order, types, buffer, position)
    decreases types, 0
  {
    hide Decode;
    if types != [] {
      CheckIsHarmless(order, types[0], buffer, position);
      var first := Decode(true, order, types[0], buffer, position);
      if first.Some? {
        CheckIsHarmlessMembers(order, types[1..], buffer, first.value.position);
      }
    }
  }

  lemma {:induction false} CheckIsHarmlessElements(
    order: Order, t: Type, n: nat, buffer: seq<Byte>, position: nat)
    requires position <= |buffer| && SequencesOccupy(t)
    ensures DecodeElements(true, order, t, n, buffer, position) == DecodeElements(false, order, t, n, buffer, position)
    decreases t, n + 1
  {
    hide Decode;
    if n > 0 {
      CheckIsHarmless(order, t, buffer, position);
      var first := Decode(true, order, t, buffer, position);
      if first.Some? {
        CheckIsHarmlessElements(order, t, n - 1, buffer, first.value.position);
      }
    }
  }

  lemma {:induction false} EmptyDecodes(checked: bool, order: Order, t: Type, buffer: seq<Byte>, position: nat)
    requires !Occupies(t) && position <= |buffer|
    ensures var r := Decode(checked, order, t, buffer, position); r.Some? && r.value.position == position
    decreases t, 0
  {
    match t
    case Named(members) => EmptyMembersDecode(checked, order, members, buffer, position);
    case Array(elem, size) => EmptyElementsDecode(checked, order, elem, size, buffer, position);
    case _ =>
  }

  lemma {:induction false} EmptyMembersDecode(
    checked: bool, order: Order, types: seq<Type>, buffer: seq<Byte>, position: nat)
    requires position <= |buffer| && forall m | m in types :: !Occupies(m)
    ensures var r := DecodeMembers(checked, order, types, buffer, position); r.Some? && r.value.position == position
    decreases types, 0
  {
    if types != [] {
      EmptyDecodes(checked, order, types[0], buffer, position);
      EmptyMembersDecode(checked, order, types[1..], buffer, position);
    }
  }

  lemma {:induction false} EmptyElementsDecode(
    checked: bool, order: Order, t: Type, n: nat, buffer: seq<Byte>, position: nat)
    requires position <= |buffer| && (n == 0 || !Occupies(t))
    ensures var r := DecodeElements(checked, order, t, n, buffer, position); r.Some? && r.value.position == position
    decreases t, n + 1
  {
    if n > 0 {
      EmptyDecodes(checked, order, t, buffer, position);
      EmptyElementsDecode(checked, order, t, n - 1, buffer, position);
    }
  }

  predicate CheckedLikeUnchecked(t: Type, buffer: seq<Byte>) {
    Decode(true, LittleEndian, t, buffer, 0) == Decode(false, LittleEndian, t, buffer, 0)
  }

  /** One element of no bytes: the length alone is the whole encoding. */
  lemma CheckRefusesEmptyElement(elem: Type)
    requires !Occupies(elem)
    ensures !CheckedLikeUnchecked(Sequence(elem, None), ToBytes(LittleEndian, 1, 4))
  {
    hide ToBytes, FromBytes;
    var one := ToBytes(LittleEndian, 1, 4);
    assert At(one, 0, Put(LittleEndian, 1, 4, 0) + []);
    SizeRoundTrip(LittleEndian, 1, [], one, 0);
    EmptyElementsDecode(false, LittleEndian, elem, 1, one, 4);
  }

  /** For a sequence the check never changes a decision exactly when its elements
      take at least one byte. */
  lemma CheckHarmlessIffOccupies(elem: Type)
    requires SequencesOccupy(elem)
    ensures (forall buffer :: CheckedLikeUnchecked(Sequence(elem, None), buffer)) <==> Occupies(elem)
  {
    var t := Sequence(elem, None);
    if Occupies(elem) {
      forall buffer ensures CheckedLikeUnchecked(t, buffer) {
        CheckIsHarmless(LittleEndian, t, buffer, 0);
      }
    } else {
      CheckRefusesEmptyElement(elem);
    }
  }

  // ---------------------------------------------------------------------------
  // Decoded values

  lemma {:induction false} DecodedUnitsInRange(order: Order, bytes: seq<Byte>)
    requires |bytes| % 2 == 0
    ensures UnitsInRange(Units(order, bytes))
  {
    if bytes != [] {
      ToFromBytes(order, bytes[..2]);
      DecodedUnitsInRange(order, bytes[2..]);
    }
  }

  lemma SizeInRange(order: Order, buffer: seq<Byte>, position: nat)
    ensures var r := Get(order, 4, buffer, position); r.Some? ==> r.value.value <= UINT32_MAX
  {
    Ranges();
    var start := position + Padding(position, 4);
    if start + 4 <= |buffer| {
      ToFromBytes(order, buffer[start..start + 4]);
    }
  }

  lemma DecodedLeafInBounds(checked: bool, order: Order, t: Type, buffer: seq<Byte>, position: nat)
    requires position <= |buffer| && (t.Basic? || t.Text? || t.WideText?)
    ensures var r := Decode(checked, order, t, buffer, position);
            r.Some? ==> HasShape(t, r.value.value) && InBounds(t, r.value.value)
  {
    hide FromBytes, Get;
    SizeInRange(order, buffer, position);
    match Get(order, 4, buffer, position) {
      case None =>
      case Some(Got(size, start)) =>
        if t.WideText? && size % 2 == 0 && start + size <= |buffer| {
          DecodedUnitsInRange(order, buffer[start..start + size]);
        }
    }
  }

  /** Whatever the input, a decoded value has the shape of its type and respects
      every bound, so it can be written again. */
  lemma {:induction false} DecodedInBounds(checked: bool, order: Order, t: Type, buffer: seq<Byte>, position: nat)
    requires position <= |buffer|
    ensures var r := Decode(checked, order, t, buffer, position);
            r.Some? ==> HasShape(t, r.value.value) && InBounds(t, r.value.value)
    decreases t, 0
  {
    hide DecodeMembers, DecodeElements, Get, GetScalar, GetText, GetWide;
    match t
    case Named(members) => DecodedMembersInBounds(checked, order, members, buffer, position);
    case Array(elem, size) => DecodedElementsInBounds(checked, order, elem, size, buffer, position);
    case Sequence(elem, _) =>
      SizeInRange(order, buffer, position);
      match Get(order, 4, buffer, position) {
        case None =>
        case Some(Got(size, start)) => DecodedElementsInBounds(checked, order, elem, size, buffer, start);
      }
    case _ => DecodedLeafInBounds(checked, order, t, buffer, position);
  }

  lemma {:induction false} DecodedMembersInBounds(
    checked: bool, order: Order, types: seq<Type>, buffer: seq<Byte>, position: nat)
    requires position <= |buffer|
    ensures var r := DecodeMembers(checked, order, types, buffer, position);
            r.Some? ==> HaveShapes(types, r.value.value) && AreInBounds(types, r.value.value)
    decreases types, 0
  {
    hide Decode, HasShape, InBounds;
    if types != [] {
      DecodedInBounds(checked, order, types[0], buffer, position);
      var first := Decode(checked, order, types[0], buffer, position);
      if first.Some? {
        DecodedMembersInBounds(checked, order, types[1..], buffer, first.value.position);
        var rest := DecodeMembers(checked, order, types[1..], buffer, first.value.position);
        if rest.Some? {
          forall i | 0 <= i < |types|
            ensures var v := ([first.value.value] + rest.value.value)[i]; HasShape(types[i], v) && InBounds(types[i], v)
          {
            if i > 0 {
              assert types[i] == types[1..][i - 1];
            }
          }
        }
      }
    }
  }

  lemma {:induction false} DecodedElementsInBounds(
    checked: bool, order: Order, t: Type, n: nat, buffer: seq<Byte>, position: nat)
    requires position <= |buffer|
    ensures var r := DecodeElements(checked, order, t, n, buffer, position);
            r.Some? ==> AllHaveShape(t, r.value.value) && AllInBounds(t, r.value.value)
    decreases t, n + 1
  {
    hide Decode, HasShape, InBounds;
    if n > 0 {
      DecodedInBounds(checked, order, t, buffer, position);
      var first := Decode(checked, order, t, buffer, position);
      if first.Some? {
        DecodedElementsInBounds(checked, order, t, n - 1, buffer, first.value.position);
      }
    }
  }
}
