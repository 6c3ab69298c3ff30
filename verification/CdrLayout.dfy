/**
 The layout of XCDR1 (DDS-XTypes 1.3, section 7.4.1) for each kind of type: the
 widths, gaps, lengths and terminators that the encoder writes, and exactly which
 bytes the decoder accepts.
 */
module CdrLayout {
  import opened Options
  import opened Bytes
  import opened CdrTypes

  // ---------------------------------------------------------------------------
  // What is written

  /** How many zeros align a value of `alignment` bytes. */
  function Gap(position: nat, alignment: nat): nat
    requires IsWidth(alignment)
  {
    (alignment - position % alignment) % alignment
  }

  lemma PutIsNumber(order: Order, n: nat, width: nat, position: nat)
    requires IsWidth(width)
    ensures Put(order, n, width, position) == Zeros(Gap(position, width)) + Number(order, n, width)
  {
    hide ToBytes, Number, Zeros;
    ToBytesIsNumber(order, n, width);
    assert Padding(position, width) == Gap(position, width);
  }

  lemma ScalarLayout(order: Order, p: Primitive, bits: nat, position: nat)
    requires HasShape(Basic(p), Scalar(bits))
    ensures var bytes := Encode(order, Basic(p), Scalar(bits), position);
            match p
            case Boolean | Octet | Char | Int8 | Uint8 => bits < 0x100 && bytes == [bits]
            case WChar | Int16 | Uint16 =>
              bits < 0x1_0000 && bytes == Zeros((2 - position % 2) % 2) + Number(order, bits, 2)
            case Float | Int32 | Uint32 =>
              bits < 0x1_0000_0000 && bytes == Zeros((4 - position % 4) % 4) + Number(order, bits, 4)
            case Double | Int64 | Uint64 =>
              bits < 0x1_0000_0000_0000_0000 && bytes == Zeros((8 - position % 8) % 8) + Number(order, bits, 8)
  {
    Ranges();
    PutIsNumber(order, bits, Width(p), position);
  }

  lemma TextLayout(order: Order, bound: Option<nat>, bytes: seq<Byte>, position: nat)
    ensures Encode(order, Text(bound), Chars(bytes), position)
         == Zeros((4 - position % 4) % 4) + Number(order, |bytes| + 1, 4) + bytes + [0]
    ensures InBounds(Text(bound), Chars(bytes)) <==>
              |bytes| < 0xFFFF_FFFF && (bound.Some? ==> |bytes| <= bound.value)
  {
    hide Number;
    PutIsNumber(order, |bytes| + 1, 4, position);
  }

  lemma {:induction false} UnitLayout(order: Order, units: seq<nat>, i: nat)
    requires i < |units|
    ensures UnitBytes(order, units)[2 * i..2 * i + 2] == Number(order, units[i], 2)
  {
    hide ToBytes, Number;
    ToBytesIsNumber(order, units[0], 2);
    if i > 0 {
      UnitLayout(order, units[1..], i - 1);
      assert UnitBytes(order, units)[2..] == UnitBytes(order, units[1..]);
    }
  }

  lemma WideLayout(order: Order, bound: Option<nat>, units: seq<nat>, position: nat)
    requires HasShape(WideText(bound), WideChars(units))
    ensures var bytes, start := Encode(order, WideText(bound), WideChars(units), position), (4 - position % 4) % 4 + 4;
            && |bytes| == start + 2 * |units|
            && bytes[..start] == Zeros((4 - position % 4) % 4) + Number(order, 2 * |units|, 4)
            && forall i | 0 <= i < |units| :: bytes[start + 2 * i..start + 2 * i + 2] == Number(order, units[i], 2)
    ensures InBounds(WideText(bound), WideChars(units)) <==>
              2 * |units| <= 0xFFFF_FFFF && (bound.Some? ==> |units| <= bound.value)
  {
    hide Number;
    PutIsNumber(order, 2 * |units|, 4, position);
    var size, rest := Put(order, 2 * |units|, 4, position), UnitBytes(order, units);
    forall i | 0 <= i < |units| ensures rest[2 * i..2 * i + 2] == Number(order, units[i], 2) {
      UnitLayout(order, units, i);
    }
    assert forall i | 0 <= i < |units| ::
        (size + rest)[|size| + 2 * i..|size| + 2 * i + 2] == rest[2 * i..2 * i + 2];
  }

  /** A sequence travels with its length; arrays and messages add nothing to
      their elements and members. */
  lemma ContainerLayout(
    order: Order, elem: Type, size: nat, bound: Option<nat>, elems: seq<Value>, members: seq<Type>,
    fields: seq<Value>, position: nat)
    requires AllHaveShape(elem, elems) && |elems| == size && HaveShapes(members, fields)
    ensures var start := (4 - position % 4) % 4 + 4;
            Encode(order, Sequence(elem, bound), List(elems), position)
              == Zeros((4 - position % 4) % 4) + Number(order, |elems|, 4)
                 + EncodeElements(order, elem, elems, position + start)
    ensures Encode(order, Array(elem, size), List(elems), position) == EncodeElements(order, elem, elems, position)
    ensures Encode(order, Named(members), Record(fields), position) == EncodeMembers(order, members, fields, position)
    ensures InBounds(Sequence(elem, bound), List(elems)) <==>
              && |elems| <= 0xFFFF_FFFF
              && (bound.Some? ==> |elems| <= bound.value)
              && forall i | 0 <= i < |elems| :: InBounds(elem, elems[i])
  {
    hide Number, EncodeElements, EncodeMembers;
    PutIsNumber(order, |elems|, 4, position);
  }

  lemma NextPart(first: seq<Byte>, rest: seq<Byte>, last: seq<Byte>, position: nat)
    ensures first + (rest + last) == first + rest + last
    ensures position + |first| + |rest| == position + |first + rest|
  {
  }

  lemma OneElement(order: Order, t: Type, v: Value, position: nat)
    requires HasShape(t, v)
    ensures EncodeElements(order, t, [], position) == []
    ensures EncodeElements(order, t, [] + [v], position) == [] + Encode(order, t, v, position)
  {
    hide Encode, HasShape;
    assert [] + [v] == [v] && [v][1..] == [];
  }

  lemma FirstElement(order: Order, t: Type, values: seq<Value>, v: Value, position: nat)
    requires values != [] && AllHaveShape(t, values) && HasShape(t, v)
    ensures var first := Encode(order, t, values[0], position);
            && EncodeElements(order, t, values, position)
                 == first + EncodeElements(order, t, values[1..], position + |first|)
            && EncodeElements(order, t, values + [v], position)
                 == first + EncodeElements(order, t, values[1..] + [v], position + |first|)
  {
    hide Encode, HasShape;
    assert (values + [v])[1..] == values[1..] + [v];
  }

  lemma {:induction false} ElementsLayout(order: Order, t: Type, values: seq<Value>, v: Value, position: nat)
    requires AllHaveShape(t, values) && HasShape(t, v)
    ensures EncodeElements(order, t, [], position) == []
    ensures var before := EncodeElements(order, t, values, position);
            EncodeElements(order, t, values + [v], position) == before + Encode(order, t, v, position + |before|)
    decreases |values|
  {
    hide Encode, EncodeElements, HasShape;
    OneElement(order, t, v, position);
    if values != [] {
      var first := Encode(order, t, values[0], position);
      var rest := EncodeElements(order, t, values[1..], position + |first|);
      FirstElement(order, t, values, v, position);
      ElementsLayout(order, t, values[1..], v, position + |first|);
      NextPart(first, rest, Encode(order, t, v, position + |first| + |rest|), position);
    }
  }

  lemma OneMember(order: Order, t: Type, v: Value, position: nat)
    requires HasShape(t, v)
    ensures EncodeMembers(order, [], [], position) == []
    ensures EncodeMembers(order, [] + [t], [] + [v], position) == [] + Encode(order, t, v, position)
  {
    hide Encode, HasShape;
    assert [] + [t] == [t] && [t][1..] == [] && [] + [v] == [v] && [v][1..] == [];
  }

  lemma FirstMember(order: Order, types: seq<Type>, values: seq<Value>, t: Type, v: Value, position: nat)
    requires types != [] && HaveShapes(types, values) && HasShape(t, v)
    ensures HaveShapes(types[1..], values[1..]) && HaveShapes(types[1..] + [t], values[1..] + [v])
    ensures HaveShapes(types + [t], values + [v])
    ensures var first := Encode(order, types[0], values[0], position);
            && EncodeMembers(order, types, values, position)
                 == first + EncodeMembers(order, types[1..], values[1..], position + |first|)
            && EncodeMembers(order, types + [t], values + [v], position)
                 == first + EncodeMembers(order, types[1..] + [t], values[1..] + [v], position + |first|)
  {
    hide Encode, HasShape;
    assert (types + [t])[1..] == types[1..] + [t] && (values + [v])[1..] == values[1..] + [v];
  }

  lemma {:induction false} MembersLayout(
    order: Order, types: seq<Type>, values: seq<Value>, t: Type, v: Value, position: nat)
    requires HaveShapes(types, values) && HasShape(t, v)
    ensures EncodeMembers(order, [], [], position) == []
    ensures HaveShapes(types + [t], values + [v])
    ensures var before := EncodeMembers(order, types, values, position);
            EncodeMembers(order, types + [t], values + [v], position)
              == before + Encode(order, t, v, position + |before|)
    decreases |types|
  {
    hide Encode, EncodeMembers, HasShape;
    OneMember(order, t, v, position);
    if types != [] {
      FirstMember(order, types, values, t, v, position);
      var first := Encode(order, types[0], values[0], position);
      var rest := EncodeMembers(order, types[1..], values[1..], position + |first|);
      MembersLayout(order, types[1..], values[1..], t, v, position + |first|);
      NextPart(first, rest, Encode(order, t, v, position + |first| + |rest|), position);
    }
  }

  // ---------------------------------------------------------------------------
  // What is accepted

  lemma GetReads(order: Order, width: nat, buffer: seq<Byte>, position: nat, n: nat, end: nat)
    requires IsWidth(width)
    ensures Get(order, width, buffer, position) == Some(Got(n, end))
       <==> && end == position + Gap(position, width) + width <= |buffer|
            && n < Range(width)
            && buffer[end - width..end] == Number(order, n, width)
  {
    hide FromBytes, Number, Range;
    var start := position + Gap(position, width);
    assert Padding(position, width) == Gap(position, width);
    if start + width <= |buffer| {
      NumberReads(order, buffer[start..start + width], n);
    }
  }

  /** A number is read from its bytes, wherever they are and whatever fills the
      gap before them; only a bool has bytes that are refused. */
  lemma ScalarAccepted(
    checked: bool, order: Order, p: Primitive, buffer: seq<Byte>, position: nat, v: Value, end: nat)
    requires position <= |buffer|
    ensures Decode(checked, order, Basic(p), buffer, position) == Some(Got(v, end))
       <==> && v.Scalar?
            && v.bits < (if p == Boolean then 2 else Range(Width(p)))
            && end == position + Gap(position, Width(p)) + Width(p) <= |buffer|
            && buffer[end - Width(p)..end] == Number(order, v.bits, Width(p))
  {
    hide Get, Number, Range;
    Ranges();
    var r := Get(order, Width(p), buffer, position);
    if r.Some? {
      GetReads(order, Width(p), buffer, position, r.value.value, r.value.position);
    }
    if v.Scalar? {
      GetReads(order, Width(p), buffer, position, v.bits, end);
    }
  }

  /** A string is read where its length, which is at least 1, its bytes and a
      final NUL are, if it respects its bound. */
  lemma TextAccepted(
    checked: bool, order: Order, bound: Option<nat>, buffer: seq<Byte>, position: nat, v: Value, end: nat)
    requires position <= |buffer|
    ensures Decode(checked, order, Text(bound), buffer, position) == Some(Got(v, end))
       <==> var start := position + (4 - position % 4) % 4 + 4;
            && v.Chars?
            && end == start + |v.bytes| + 1 <= |buffer|
            && |v.bytes| + 1 <= 0xFFFF_FFFF
            && buffer[start - 4..start] == Number(order, |v.bytes| + 1, 4)
            && buffer[start..end - 1] == v.bytes
            && buffer[end - 1] == 0
            && (bound.Some? ==> |v.bytes| <= bound.value)
  {
    hide Get, Number, Range;
    Ranges();
    var r, start := Get(order, 4, buffer, position), position + Gap(position, 4) + 4;
    if r.Some? {
      GetReads(order, 4, buffer, position, r.value.value, r.value.position);
    }
    if v.Chars? {
      GetReads(order, 4, buffer, position, |v.bytes| + 1, start);
    }
  }

  lemma {:induction false} UnitsRead(order: Order, bytes: seq<Byte>, units: seq<nat>)
    requires |bytes| % 2 == 0
    ensures Units(order, bytes) == units
       <==> && |bytes| == 2 * |units|
            && forall i | 0 <= i < |units| ::
                 units[i] < 0x1_0000 && bytes[2 * i..2 * i + 2] == Number(order, units[i], 2)
    decreases |bytes|
  {
    hide FromBytes, Number, Range;
    Ranges();
    if bytes != [] && units != [] {
      var rest, others := bytes[2..], units[1..];
      NumberReads(order, bytes[..2], units[0]);
      UnitsRead(order, rest, others);
      assert units == [units[0]] + others;
      assert Units(order, bytes) == units <==>
        FromBytes(order, bytes[..2]) == units[0] && Units(order, rest) == others;
      if |rest| == 2 * |others| {
        forall i | 0 <= i < |others| ensures rest[2 * i..2 * i + 2] == bytes[2 * (i + 1)..2 * (i + 1) + 2] {
        }
        assert forall i | 0 < i < |units| :: units[i] == others[i - 1];
        assert forall i | 0 < i < |units| :: bytes[2 * i..2 * i + 2] == rest[2 * (i - 1)..2 * (i - 1) + 2];
      }
    }
  }

  lemma SliceOfSlice<T>(s: seq<T>, lo: nat, hi: nat, from: nat, to: nat)
    requires lo <= hi <= |s| && from <= to <= hi - lo
    ensures s[lo..hi][from..to] == s[lo + from..lo + to]
  {
    var inner, outer := s[lo..hi][from..to], s[lo + from..lo + to];
    assert |inner| == |outer| && forall i | 0 <= i < |inner| :: inner[i] == s[lo + from + i] == outer[i];
  }

  lemma UnitsReadAt(order: Order, buffer: seq<Byte>, start: nat, units: seq<nat>)
    requires start + 2 * |units| <= |buffer|
    ensures Units(order, buffer[start..start + 2 * |units|]) == units
       <==> forall i | 0 <= i < |units| ::
              && units[i] < 0x1_0000
              && buffer[start + 2 * i..start + 2 * i + 2] == Number(order, units[i], 2)
  {
    hide Number, Units;
    var bytes := buffer[start..start + 2 * |units|];
    UnitsRead(order, bytes, units);
    forall i | 0 <= i < |units| ensures bytes[2 * i..2 * i + 2] == buffer[start + 2 * i..start + 2 * i + 2] {
      SliceOfSlice(buffer, start, start + 2 * |units|, 2 * i, 2 * i + 2);
    }
  }

  lemma GetWideReads(order: Order, buffer: seq<Byte>, position: nat, units: seq<nat>, end: nat)
    ensures GetWide(order, buffer, position) == Some(Got(units, end))
       <==> var start := position + Gap(position, 4) + 4;
            && end == start + 2 * |units| <= |buffer|
            && 2 * |units| < Range(4)
            && buffer[start - 4..start] == Number(order, 2 * |units|, 4)
            && Units(order, buffer[start..end]) == units
  {
    hide Get, Number, Range, Units;
    var r, start := Get(order, 4, buffer, position), position + Gap(position, 4) + 4;
    if r.Some? {
      GetReads(order, 4, buffer, position, r.value.value, r.value.position);
    }
    GetReads(order, 4, buffer, position, 2 * |units|, start);
  }

  /** A wide string is read where its length in bytes, which is even, and its
      units are, if it respects its bound. */
  lemma WideAccepted(
    checked: bool, order: Order, bound: Option<nat>, buffer: seq<Byte>, position: nat, v: Value, end: nat)
    requires position <= |buffer|
    ensures Decode(checked, order, WideText(bound), buffer, position) == Some(Got(v, end))
       <==> var start := position + (4 - position % 4) % 4 + 4;
            && v.WideChars?
            && end == start + 2 * |v.units| <= |buffer|
            && 2 * |v.units| <= 0xFFFF_FFFF
            && buffer[start - 4..start] == Number(order, 2 * |v.units|, 4)
            && (forall i | 0 <= i < |v.units| ::
                  && v.units[i] < 0x1_0000
                  && buffer[start + 2 * i..start + 2 * i + 2] == Number(order, v.units[i], 2))
            && (bound.Some? ==> |v.units| <= bound.value)
  {
    hide GetWide, Number, Range, Units;
    Ranges();
    if v.WideChars? {
      var start := position + Gap(position, 4) + 4;
      GetWideReads(order, buffer, position, v.units, end);
      if start + 2 * |v.units| <= |buffer| {
        UnitsReadAt(order, buffer, start, v.units);
      }
    }
  }

  /** A sequence is read where its length and that many elements are, if it
      respects its bound. */
  lemma SequenceAccepted(
    order: Order, elem: Type, bound: Option<nat>, buffer: seq<Byte>, position: nat, v: Value, end: nat)
    requires position <= |buffer|
    ensures Decode(false, order, Sequence(elem, bound), buffer, position) == Some(Got(v, end))
       <==> var start := position + (4 - position % 4) % 4 + 4;
            && v.List?
            && start <= |buffer|
            && |v.elems| <= 0xFFFF_FFFF
            && buffer[start - 4..start] == Number(order, |v.elems|, 4)
            && (bound.Some? ==> |v.elems| <= bound.value)
            && DecodeElements(false, order, elem, |v.elems|, buffer, start) == Some(Got(v.elems, end))
  {
    hide Get, Number, Range, DecodeElements;
    Ranges();
    var r, start := Get(order, 4, buffer, position), position + Gap(position, 4) + 4;
    if r.Some? {
      GetReads(order, 4, buffer, position, r.value.value, r.value.position);
    }
    if v.List? {
      GetReads(order, 4, buffer, position, |v.elems|, start);
    }
  }
}
