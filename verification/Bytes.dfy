/** Bytes, and unsigned integers of a fixed width in either byte order. */
module Bytes {

  type Byte = n: nat | n < 256

  datatype Order = LittleEndian | BigEndian

  /** The number of values of an unsigned integer of `width` bytes. */
  function Range(width: nat): (r: nat)
    ensures r >= 1
  {
    if width == 0 then 1 else 256 * Range(width - 1)
  }

  lemma Ranges()
    ensures Range(1) == 0x100 && Range(2) == 0x1_0000 && Range(4) == 0x1_0000_0000
    ensures Range(8) == 0x1_0000_0000_0000_0000
  {
    assert Range(3) == 256 * Range(2);
    assert Range(4) == 256 * Range(3);
    assert Range(5) == 256 * Range(4);
    assert Range(6) == 256 * Range(5);
    assert Range(7) == 256 * Range(6);
  }

  function ToBytes(order: Order, n: nat, width: nat): (s: seq<Byte>)
    ensures |s| == width
  {
    if width == 0 then []
    else if order == LittleEndian then [n % 256] + ToBytes(order, n / 256, width - 1)
    else ToBytes(order, n / 256, width - 1) + [n % 256]
  }

  function FromBytes(order: Order, s: seq<Byte>): nat {
    if s == [] then 0
    else if order == LittleEndian then s[0] + 256 * FromBytes(order, s[1..])
    else s[|s| - 1] + 256 * FromBytes(order, s[..|s| - 1])
  }

  lemma {:induction false} FromToBytes(order: Order, n: nat, width: nat)
    requires n < Range(width)
    ensures FromBytes(order, ToBytes(order, n, width)) == n
  {
    if width > 0 {
      FromToBytes(order, n / 256, width - 1);
      var s, rest := ToBytes(order, n, width), ToBytes(order, n / 256, width - 1);
      assert if order == LittleEndian then s[1..] == rest else s[..|s| - 1] == rest;
    }
  }

  lemma FirstByte(order: Order, s: seq<Byte>)
    requires s != []
    ensures var (last, rest) := if order == LittleEndian then (s[0], s[1..]) else (s[|s| - 1], s[..|s| - 1]);
            && FromBytes(order, s) == last + 256 * FromBytes(order, rest)
            && s == if order == LittleEndian then [last] + rest else rest + [last]
  {
  }

  lemma {:induction false} ToFromBytes(order: Order, s: seq<Byte>)
    ensures FromBytes(order, s) < Range(|s|)
    ensures ToBytes(order, FromBytes(order, s), |s|) == s
  {
    if s != [] {
      FirstByte(order, s);
      hide FromBytes;
      var (last, rest) := if order == LittleEndian then (s[0], s[1..]) else (s[|s| - 1], s[..|s| - 1]);
      ToFromBytes(order, rest);
      var m := FromBytes(order, rest);
      assert (last + 256 * m) % 256 == last && (last + 256 * m) / 256 == m;
    }
  }

  // ---------------------------------------------------------------------------
  // Written out

  predicate IsWidth(n: nat) {
    n == 1 || n == 2 || n == 4 || n == 8
  }

  /** The bytes of a number of 1, 2, 4 or 8 bytes. */
  function Number(order: Order, n: nat, width: nat): (s: seq<Byte>)
    requires IsWidth(width)
    ensures |s| == width
  {
    var b0, b1, b2, b3 := n % 256, n / 0x100 % 256, n / 0x1_0000 % 256, n / 0x100_0000 % 256;
    match order
    case LittleEndian =>
      if width == 1 then [b0]
      else if width == 2 then [b0, b1]
      else if width == 4 then [b0, b1, b2, b3]
      else [b0, b1, b2, b3, n / 0x1_0000_0000 % 256, n / 0x100_0000_0000 % 256,
            n / 0x1_0000_0000_0000 % 256, n / 0x100_0000_0000_0000 % 256]
    case BigEndian =>
      if width == 1 then [b0]
      else if width == 2 then [b1, b0]
      else if width == 4 then [b3, b2, b1, b0]
      else [n / 0x100_0000_0000_0000 % 256, n / 0x1_0000_0000_0000 % 256,
            n / 0x100_0000_0000 % 256, n / 0x1_0000_0000 % 256, b3, b2, b1, b0]
  }

  /** Dividing by 256 again and again divides by its powers. */
  lemma Quotients(n: nat)
    ensures n / 256 / 256 == n / 0x1_0000
    ensures n / 0x1_0000 / 256 == n / 0x100_0000
    ensures n / 0x100_0000 / 256 == n / 0x1_0000_0000
    ensures n / 0x1_0000_0000 / 256 == n / 0x100_0000_0000
    ensures n / 0x100_0000_0000 / 256 == n / 0x1_0000_0000_0000
    ensures n / 0x1_0000_0000_0000 / 256 == n / 0x100_0000_0000_0000
  {
  }

  lemma ToBytesStep(order: Order, n: nat, width: nat)
    requires width > 0
    ensures order == LittleEndian ==> ToBytes(order, n, width) == [n % 256] + ToBytes(order, n / 256, width - 1)
    ensures order == BigEndian ==> ToBytes(order, n, width) == ToBytes(order, n / 256, width - 1) + [n % 256]
  {
  }

  lemma FourBytes(order: Order, n: nat)
    ensures ToBytes(order, n, 2) == Number(order, n, 2)
    ensures ToBytes(order, n, 4) == Number(order, n, 4)
  {
    hide ToBytes;
    Quotients(n);
    ToBytesStep(order, n, 2);
    ToBytesStep(order, n / 256, 1);
    ToBytesStep(order, n, 4);
    ToBytesStep(order, n / 256, 3);
    ToBytesStep(order, n / 0x1_0000, 2);
    ToBytesStep(order, n / 0x100_0000, 1);
  }

  lemma EightBytes(order: Order, n: nat)
    ensures ToBytes(order, n, 8) == Number(order, n, 8)
  {
    hide ToBytes;
    Quotients(n);
    ToBytesStep(order, n, 8);
    ToBytesStep(order, n / 256, 7);
    ToBytesStep(order, n / 0x1_0000, 6);
    ToBytesStep(order, n / 0x100_0000, 5);
    ToBytesStep(order, n / 0x1_0000_0000, 4);
    ToBytesStep(order, n / 0x100_0000_0000, 3);
    ToBytesStep(order, n / 0x1_0000_0000_0000, 2);
    ToBytesStep(order, n / 0x100_0000_0000_0000, 1);
  }

  lemma ToBytesIsNumber(order: Order, n: nat, width: nat)
    requires IsWidth(width)
    ensures ToBytes(order, n, width) == Number(order, n, width)
  {
    if width == 1 {
      ToBytesStep(order, n, 1);
    } else {
      hide ToBytes, Number;
      FourBytes(order, n);
      EightBytes(order, n);
    }
  }

  lemma NumberReads(order: Order, s: seq<Byte>, n: nat)
    requires IsWidth(|s|)
    ensures FromBytes(order, s) == n <==> n < Range(|s|) && Number(order, n, |s|) == s
  {
    hide ToBytes, FromBytes, Number;
    ToFromBytes(order, s);
    ToBytesIsNumber(order, n, |s|);
    if n < Range(|s|) {
      FromToBytes(order, n, |s|);
    }
  }
}
