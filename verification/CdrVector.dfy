/**
 The record of the repository's tests and the 64 bytes they expect for it: an
 instance of the layout that runs through every kind of member.
 */
module CdrVector {
  import opened Options
  import opened Bytes
  import opened CdrTypes
  import opened CdrNames
  import opened CdrLayout
  import opened CdrMessages
  import W = CdrWriter

  const TYPES: seq<Type> :=
    [Basic(Boolean), Basic(Uint8), Basic(Int16), Basic(Uint32), Basic(Int64), Basic(Float), Basic(Double),
     Text(Some(16)), Array(Basic(Uint16), 3), Sequence(Basic(Int32), Some(4))]

  /** true, 0xab, -2, 0x11223344, 0x0102030405060708, 1.0, -2.0, "Hi", three
      samples, and the values 7 and -8. */
  const FIELDS: seq<Value> :=
    [Scalar(1), Scalar(0xab), Scalar(0xfffe), Scalar(0x1122_3344), Scalar(0x0102_0304_0506_0708),
     Scalar(0x3f80_0000), Scalar(0xc000_0000_0000_0000), Chars([0x48, 0x69]),
     List([Scalar(0x0102), Scalar(0x0304), Scalar(0x0506)]), List([Scalar(7), Scalar(0xffff_fff8)])]

  function PrimitiveRecord(): (message: seq<Member>)
    ensures |message| == 10 && Types(message) == TYPES
  {
    seq(10, i requires 0 <= i < 10 => Member(TYPES[i], false))
  }

  lemma ScalarFits(k: nat)
    requires k < 7
    ensures HasShape(TYPES[k], FIELDS[k]) && InBounds(TYPES[k], FIELDS[k])
  {
    hide Range;
    Ranges();
  }

  lemma ContainersFit()
    ensures forall k | 7 <= k < 10 :: HasShape(TYPES[k], FIELDS[k]) && InBounds(TYPES[k], FIELDS[k])
  {
    hide Range;
    Ranges();
    var samples, values := FIELDS[8].elems, FIELDS[9].elems;
    assert AllHaveShape(Basic(Uint16), samples) && AllHaveShape(Basic(Int32), values);
  }

  lemma FieldsFit()
    ensures HaveShapes(TYPES, FIELDS) && AreInBounds(TYPES, FIELDS)
  {
    hide HasShape, InBounds;
    ContainersFit();
    forall k | 0 <= k < 7 ensures HasShape(TYPES[k], FIELDS[k]) && InBounds(TYPES[k], FIELDS[k]) {
      ScalarFits(k);
    }
  }

  /** The first k members take these bytes. */
  predicate Prefix(k: nat, bytes: seq<Byte>)
    requires k <= 10
  {
    HaveShapes(TYPES[..k], FIELDS[..k]) && EncodeMembers(LittleEndian, TYPES[..k], FIELDS[..k], 0) == bytes
  }

  lemma NextMember(k: nat, bytes: seq<Byte>, next: seq<Byte>)
    requires k < 10 && Prefix(k, bytes)
    requires HasShape(TYPES[k], FIELDS[k])
    requires Encode(LittleEndian, TYPES[k], FIELDS[k], |bytes|) == next
    ensures Prefix(k + 1, bytes + next)
  {
    hide Encode, EncodeMembers, HasShape;
    MembersLayout(LittleEndian, TYPES[..k], FIELDS[..k], TYPES[k], FIELDS[k], 0);
    assert TYPES[..k + 1] == TYPES[..k] + [TYPES[k]] && FIELDS[..k + 1] == FIELDS[..k] + [FIELDS[k]];
  }

  /** The bytes of the scalar k, after the gap that aligns it. */
  function Piece(k: nat, gap: nat, width: nat): (s: seq<Byte>)
    requires k < 7 && IsWidth(width)
    ensures |s| == gap + width
  {
    Zeros(gap) + Number(LittleEndian, FIELDS[k].bits, width)
  }

  lemma NarrowPieces()
    ensures Piece(0, 0, 1) == [0x01] && Piece(1, 0, 1) == [0xab] && Piece(2, 0, 2) == [0xfe, 0xff]
    ensures Piece(3, 0, 4) == [0x44, 0x33, 0x22, 0x11]
    ensures Piece(5, 0, 4) == [0x00, 0x00, 0x80, 0x3f]
  {
  }

  lemma WideNumbers()
    ensures Number(LittleEndian, 0x0102_0304_0506_0708, 8) == [0x08, 0x07, 0x06, 0x05, 0x04, 0x03, 0x02, 0x01]
    ensures Number(LittleEndian, 0xc000_0000_0000_0000, 8) == [0x00, 0x00, 0x00, 0x00, 0x00, 0x00, 0x00, 0xc0]
  {
  }

  lemma WidePieces()
    ensures Piece(4, 0, 8) == [0x08, 0x07, 0x06, 0x05, 0x04, 0x03, 0x02, 0x01]
    ensures Piece(6, 4, 8) == [0x00, 0x00, 0x00, 0x00] + [0x00, 0x00, 0x00, 0x00, 0x00, 0x00, 0x00, 0xc0]
  {
    WideNumbers();
    hide Number;
    assert Zeros(0) == [] && Zeros(4) == [0x00, 0x00, 0x00, 0x00];
    hide Zeros;
  }

  lemma NextScalar(k: nat, bytes: seq<Byte>, gap: nat, width: nat)
    requires k < 7 && Prefix(k, bytes)
    requires width == match k case 0 | 1 => 1 case 2 => 2 case 3 | 5 => 4 case _ => 8
    requires gap == (width - |bytes| % width) % width
    ensures Prefix(k + 1, bytes + Piece(k, gap, width))
  {
    hide Encode, EncodeMembers, Prefix;
    FieldsFit();
    ScalarLayout(LittleEndian, TYPES[k].primitive, FIELDS[k].bits, |bytes|);
    NextMember(k, bytes, Piece(k, gap, width));
  }

  lemma FirstScalars()
    ensures Prefix(4, Piece(0, 0, 1) + Piece(1, 0, 1) + Piece(2, 0, 2) + Piece(3, 0, 4))
  {
    assert Prefix(0, []);
    hide *;
    var b0, b1, b2 := Piece(0, 0, 1), Piece(1, 0, 1), Piece(2, 0, 2);
    NextScalar(0, [], 0, 1);
    assert [] + b0 == b0;
    NextScalar(1, b0, 0, 1);
    NextScalar(2, b0 + b1, 0, 2);
    NextScalar(3, b0 + b1 + b2, 0, 4);
  }

  lemma Scalars()
    ensures Prefix(7, Piece(0, 0, 1) + Piece(1, 0, 1) + Piece(2, 0, 2) + Piece(3, 0, 4) + Piece(4, 0, 8)
                      + Piece(5, 0, 4) + Piece(6, 4, 8))
  {
    FirstScalars();
    hide Prefix, Piece;
    var first := Piece(0, 0, 1) + Piece(1, 0, 1) + Piece(2, 0, 2) + Piece(3, 0, 4);
    assert |first| == 8;
    NextScalar(4, first, 0, 8);
    NextScalar(5, first + Piece(4, 0, 8), 0, 4);
    NextScalar(6, first + Piece(4, 0, 8) + Piece(5, 0, 4), 4, 8);
  }

  function Values(bits: seq<nat>): (values: seq<Value>)
    ensures |values| == |bits| && forall i | 0 <= i < |bits| :: values[i] == Value.Scalar(bits[i])
  {
    seq(|bits|, i requires 0 <= i < |bits| => Value.Scalar(bits[i]))
  }

  /** One more element of a list of scalars. */
  lemma NextElement(p: Primitive, bits: seq<nat>, position: nat, bytes: seq<Byte>, n: nat, next: seq<Byte>)
    requires AllHaveShape(Basic(p), Values(bits)) && HasShape(Basic(p), Value.Scalar(n))
    requires EncodeElements(LittleEndian, Basic(p), Values(bits), position) == bytes
    requires Encode(LittleEndian, Basic(p), Value.Scalar(n), position + |bytes|) == next
    ensures AllHaveShape(Basic(p), Values(bits + [n]))
    ensures EncodeElements(LittleEndian, Basic(p), Values(bits + [n]), position) == bytes + next
  {
    hide Encode, EncodeElements;
    ElementsLayout(LittleEndian, Basic(p), Values(bits), Value.Scalar(n), position);
    assert Values(bits + [n]) == Values(bits) + [Value.Scalar(n)];
  }

  lemma Samples()
    ensures AllHaveShape(Basic(Uint16), Values([0x0102, 0x0304, 0x0506]))
    ensures EncodeElements(LittleEndian, Basic(Uint16), Values([0x0102, 0x0304, 0x0506]), 39)
         == [0x00, 0x02, 0x01, 0x04, 0x03, 0x06, 0x05]
  {
    hide Encode, EncodeElements;
    Ranges();
    ElementsLayout(LittleEndian, Basic(Uint16), [], Value.Scalar(0), 39);
    assert Values([]) == [];
    ScalarLayout(LittleEndian, Uint16, 0x0102, 39);
    ScalarLayout(LittleEndian, Uint16, 0x0304, 42);
    ScalarLayout(LittleEndian, Uint16, 0x0506, 44);
    NextElement(Uint16, [], 39, [], 0x0102, [0x00, 0x02, 0x01]);
    assert [] + [0x0102] == [0x0102];
    NextElement(Uint16, [0x0102], 39, [0x00, 0x02, 0x01], 0x0304, [0x04, 0x03]);
    assert [0x0102] + [0x0304] == [0x0102, 0x0304];
    NextElement(Uint16, [0x0102, 0x0304], 39, [0x00, 0x02, 0x01, 0x04, 0x03], 0x0506, [0x06, 0x05]);
    assert [0x0102, 0x0304] + [0x0506] == [0x0102, 0x0304, 0x0506];
  }

  lemma Numbers()
    ensures AllHaveShape(Basic(Int32), Values([7, 0xffff_fff8]))
    ensures EncodeElements(LittleEndian, Basic(Int32), Values([7, 0xffff_fff8]), 52)
         == [0x07, 0x00, 0x00, 0x00, 0xf8, 0xff, 0xff, 0xff]
  {
    hide Encode, EncodeElements;
    Ranges();
    ElementsLayout(LittleEndian, Basic(Int32), [], Value.Scalar(0), 52);
    assert Values([]) == [];
    ScalarLayout(LittleEndian, Int32, 7, 52);
    ScalarLayout(LittleEndian, Int32, 0xffff_fff8, 56);
    NextElement(Int32, [], 52, [], 7, [0x07, 0x00, 0x00, 0x00]);
    assert [] + [7] == [7];
    NextElement(Int32, [7], 52, [0x07, 0x00, 0x00, 0x00], 0xffff_fff8, [0xf8, 0xff, 0xff, 0xff]);
    assert [7] + [0xffff_fff8] == [7, 0xffff_fff8];
  }

  lemma Containers()
    ensures Encode(LittleEndian, TYPES[7], FIELDS[7], 32) == [0x03, 0x00, 0x00, 0x00, 0x48, 0x69, 0x00]
    ensures HasShape(TYPES[8], FIELDS[8]) && HasShape(TYPES[9], FIELDS[9])
    ensures Encode(LittleEndian, TYPES[8], FIELDS[8], 39) == [0x00, 0x02, 0x01, 0x04, 0x03, 0x06, 0x05]
    ensures Encode(LittleEndian, TYPES[9], FIELDS[9], 46)
         == [0x00, 0x00, 0x02, 0x00, 0x00, 0x00] + [0x07, 0x00, 0x00, 0x00, 0xf8, 0xff, 0xff, 0xff]
  {
    hide Encode, EncodeElements;
    TextLayout(LittleEndian, Some(16), [0x48, 0x69], 32);
    Samples();
    assert FIELDS[8].elems == Values([0x0102, 0x0304, 0x0506]);
    ContainerLayout(LittleEndian, Basic(Uint16), 3, None, FIELDS[8].elems, [], [], 39);
    Numbers();
    assert FIELDS[9].elems == Values([7, 0xffff_fff8]);
    ContainerLayout(LittleEndian, Basic(Int32), 2, Some(4), FIELDS[9].elems, [], [], 46);
  }

  function ScalarRow(): seq<Byte> {
    Piece(0, 0, 1) + Piece(1, 0, 1) + Piece(2, 0, 2) + Piece(3, 0, 4) + Piece(4, 0, 8) + Piece(5, 0, 4) + Piece(6, 4, 8)
  }

  function ContainerRow(): seq<Byte> {
    [0x03, 0x00, 0x00, 0x00, 0x48, 0x69, 0x00] + [0x00, 0x02, 0x01, 0x04, 0x03, 0x06, 0x05]
    + ([0x00, 0x00, 0x02, 0x00, 0x00, 0x00] + [0x07, 0x00, 0x00, 0x00, 0xf8, 0xff, 0xff, 0xff])
  }

  lemma Rows()
    ensures Prefix(10, ScalarRow() + ContainerRow())
  {
    FieldsFit();
    hide HasShape, InBounds, Encode, EncodeMembers, Piece, Prefix;
    Scalars();
    Containers();
    var text: seq<Byte> := [0x03, 0x00, 0x00, 0x00, 0x48, 0x69, 0x00];
    var samples: seq<Byte> := [0x00, 0x02, 0x01, 0x04, 0x03, 0x06, 0x05];
    var values: seq<Byte> := [0x00, 0x00, 0x02, 0x00, 0x00, 0x00] + [0x07, 0x00, 0x00, 0x00, 0xf8, 0xff, 0xff, 0xff];
    NextMember(7, ScalarRow(), text);
    NextMember(8, ScalarRow() + text, samples);
    NextMember(9, ScalarRow() + text + samples, values);
    assert ScalarRow() + text + samples + values == ScalarRow() + ContainerRow();
  }

  /** The rows that the tests compare with. */
  function Expected(): seq<Byte> {
    [0x00, 0x01, 0x00, 0x00]
    + [0x01, 0xab, 0xfe, 0xff]
    + [0x44, 0x33, 0x22, 0x11]
    + [0x08, 0x07, 0x06, 0x05, 0x04, 0x03, 0x02, 0x01]
    + [0x00, 0x00, 0x80, 0x3f]
    + [0x00, 0x00, 0x00, 0x00]
    + [0x00, 0x00, 0x00, 0x00, 0x00, 0x00, 0x00, 0xc0]
    + [0x03, 0x00, 0x00, 0x00, 0x48, 0x69, 0x00, 0x00]
    + [0x02, 0x01, 0x04, 0x03, 0x06, 0x05, 0x00, 0x00]
    + [0x02, 0x00, 0x00, 0x00]
    + [0x07, 0x00, 0x00, 0x00, 0xf8, 0xff, 0xff, 0xff]
  }

  lemma FirstRow()
    ensures Piece(0, 0, 1) + Piece(1, 0, 1) + Piece(2, 0, 2) == [0x01, 0xab, 0xfe, 0xff]
  {
    hide Piece;
    NarrowPieces();
  }

  lemma LastRows()
    ensures ContainerRow() == [0x03, 0x00, 0x00, 0x00, 0x48, 0x69, 0x00, 0x00]
                              + [0x02, 0x01, 0x04, 0x03, 0x06, 0x05, 0x00, 0x00]
                              + [0x02, 0x00, 0x00, 0x00] + [0x07, 0x00, 0x00, 0x00, 0xf8, 0xff, 0xff, 0xff]
  {
  }

  lemma RowBytes()
    ensures HEADER + (ScalarRow() + ContainerRow()) == Expected()
  {
    hide Piece, ContainerRow;
    NarrowPieces();
    WidePieces();
    FirstRow();
    LastRows();
    var scalars := ScalarRow();
    assert scalars == [0x01, 0xab, 0xfe, 0xff] + Piece(3, 0, 4) + Piece(4, 0, 8) + Piece(5, 0, 4) + Piece(6, 4, 8);
  }

  lemma RecordFits(b: Backend)
    ensures Generated(b, PrimitiveRecord()) && IsInstance(PrimitiveRecord(), Record(FIELDS))
    ensures HasShape(Named(TYPES), Record(FIELDS)) && InBounds(Named(TYPES), Record(FIELDS))
  {
    assert WellFormed(Named(TYPES));
    WellFormedMessages(PrimitiveRecord());
    FieldsFit();
  }

  lemma RecordEncodes()
    requires HasShape(Named(TYPES), Record(FIELDS)) && HaveShapes(TYPES, FIELDS)
    ensures Encode(LittleEndian, Named(TYPES), Record(FIELDS), 0) == ScalarRow() + ContainerRow()
  {
    hide HasShape, InBounds, EncodeMembers, ScalarRow, ContainerRow;
    NamedEncoding(TYPES, Record(FIELDS));
    Rows();
    assert TYPES[..10] == TYPES && FIELDS[..10] == FIELDS;
  }

  /** Either back end's serializer writes the 64 bytes that the tests expect. */
  lemma GoldenVector(b: Backend)
    ensures Generated(b, PrimitiveRecord()) && IsInstance(PrimitiveRecord(), Record(FIELDS))
    ensures |Expected()| == 64 && Serialize(b, PrimitiveRecord(), Record(FIELDS)) == Running(Expected())
  {
    assert |Expected()| == 64;
    RecordFits(b);
    hide *;
    SerializeEncodes(b, PrimitiveRecord(), Record(FIELDS));
    RecordEncodes();
    RowBytes();
  }

  const KEYED_RECORD: seq<Member> := [Member(Basic(Int32), true), Member(Text(None), false)]

  lemma KeptOne<T>(kept: T, other: T)
    ensures W.Kept([kept, other], [true, false]) == [kept]
  {
    assert [kept, other][1..] == [other] && [true, false][1..] == [false];
    assert W.Kept([other], [false]) == [] + W.Kept([other][1..], [false][1..]);
  }

  lemma KeyScalar()
    ensures HasShape(Basic(Int32), Value.Scalar(0x0102_0304))
    ensures Encode(BigEndian, Basic(Int32), Value.Scalar(0x0102_0304), 0) == [0x01, 0x02, 0x03, 0x04]
  {
    Ranges();
    hide Range, Encode;
    ScalarLayout(BigEndian, Int32, 0x0102_0304, 0);
    assert Zeros(0) == [];
  }

  lemma KeyEncodes(key: Type, fields: seq<Value>)
    requires key == Named([Basic(Int32)]) && fields == [Value.Scalar(0x0102_0304)]
    ensures HasShape(key, Record(fields)) && InBounds(key, Record(fields))
    ensures Encode(BigEndian, key, Record(fields), 0) == [0x01, 0x02, 0x03, 0x04]
  {
    hide Range, Encode, EncodeMembers;
    KeyScalar();
    OneMember(BigEndian, Basic(Int32), Value.Scalar(0x0102_0304), 0);
    assert [] + [Basic(Int32)] == key.members && [] + [Value.Scalar(0x0102_0304)] == fields;
    ContainerLayout(BigEndian, Basic(Octet), 0, None, [], key.members, fields, 0);
  }

  /** What is hashed for the keyed record of the tests is its key in big endian,
      whatever its label is. */
  lemma KeyVector(b: Backend, text: seq<Byte>)
    ensures var v := Record([Value.Scalar(0x0102_0304), Chars(text)]);
            && Generated(b, KEYED_RECORD) && IsInstance(KEYED_RECORD, v)
            && KeyBytes(b, KEYED_RECORD, v) == Running([0x01, 0x02, 0x03, 0x04])
  {
    var v := Record([Value.Scalar(0x0102_0304), Chars(text)]);
    var types, keep := Types(KEYED_RECORD), Keep(KEYED_RECORD, true);
    assert types == [Basic(Int32), Text(None)] && keep == [true, false];
    WellFormedMessages(KEYED_RECORD);
    Ranges();
    assert IsInstance(KEYED_RECORD, v);
    KeptOne(types[0], types[1]);
    KeptOne(v.fields[0], v.fields[1]);
    KeyEncodes(Named(W.Kept(types, keep)), Keys(KEYED_RECORD, v));
    hide Encode, HasShape, InBounds, KeyBytes, W.Kept;
    KeyBytesEncode(b, KEYED_RECORD, v);
  }
}
