/** Raw device bytes to values: integers, truth values and the bit patterns of floats. */
module BinaryConversion {
  import opened TagValues
  import opened ByteOrders

  datatype Conversion = Conversion(dataType: DataType, order: ByteOrder, byteOffset: int, bitOffset: nat)

  /** Floats are given by their bits, the width telling single from double. */
  datatype Binary = Truth(bit: bool) | Integer(number: int) | FloatBits(width: nat, bits: nat)

  function Size(dataType: DataType): (r: Result<nat>)
    ensures r.Ok? ==> r.value in {1, 2, 4, 8} && (r.value == 1 <==> dataType == BoolType)
  {
    match dataType
    case BoolType => Ok(1)
    case Int16 => Ok(2)
    case UInt16 => Ok(2)
    case Int32 => Ok(4)
    case UInt32 => Ok(4)
    case Float32 => Ok(4)
    case Float64 => Ok(8)
    case UnknownType => Err(InvalidConversion)
  }

  /** The number whose big-endian digits the bytes are. */
  function Unsigned(s: seq<byte>): nat {
    if s == [] then 0 else Unsigned(s[..|s| - 1]) * 256 + s[|s| - 1]
  }

  function Power(base: nat, exponent: nat): (p: nat)
    ensures base > 0 ==> p > 0
  {
    if exponent == 0 then 1 else base * Power(base, exponent - 1)
  }

  /** Two's complement: the upper half of the range stands for negative numbers. */
  function Signed(unsigned: nat, half: nat): int {
    if unsigned < half then unsigned else unsigned - 2 * half
  }

  /** All exponent bits set: an infinity or not a number. */
  predicate IsFinite(width: nat, bits: nat) {
    if width == 32 then bits / 0x80_0000 % 0x100 != 0xFF else bits / 0x10_0000_0000_0000 % 0x800 != 0x7FF
  }

  function Bit(b: byte, k: nat): bool
    requires k < 8
  {
    b / Power(2, k) % 2 == 1
  }

  function Interpret(dataType: DataType, ordered: seq<byte>): Result<Binary> {
    var bits := Unsigned(ordered);
    match dataType
    case Int16 => Ok(Integer(Signed(bits, 0x8000)))
    case UInt16 => Ok(Integer(bits))
    case Int32 => Ok(Integer(Signed(bits, 0x8000_0000)))
    case UInt32 => Ok(Integer(bits))
    case Float32 => if IsFinite(32, bits) then Ok(FloatBits(32, bits)) else Err(NonFinite)
    case Float64 => if IsFinite(64, bits) then Ok(FloatBits(64, bits)) else Err(NonFinite)
    case _ => Err(InvalidConversion)
  }

  /** What a conversion means, by the window of bytes it names. */
  function Converted(raw: seq<byte>, c: Conversion): Result<Binary> {
    if c.byteOffset < 0 then Err(InvalidConversion)
    else
      match Size(c.dataType)
      case Err(error) => Err(error)
      case Ok(size) =>
        if c.byteOffset + size > |raw| then Err(InsufficientData)
        else if c.dataType == BoolType then
          if c.bitOffset > 7 then Err(InvalidConversion) else Ok(Truth(Bit(raw[c.byteOffset], c.bitOffset)))
        else if c.bitOffset != 0 || c.order == UnknownOrder then Err(InvalidConversion)
        else Interpret(c.dataType, Ordered(raw[c.byteOffset..c.byteOffset + size], c.order))
  }

  method ConvertBinary(raw: seq<byte>, c: Conversion) returns (r: Result<Binary>)
    ensures r == Converted(raw, c)
  {
    if c.byteOffset < 0 {
      return Err(InvalidConversion);
    }
    var size := Size(c.dataType);
    if size.Err? {
      return Err(size.error);
    }
    if c.byteOffset > |raw| || size.value > |raw| - c.byteOffset {
      return Err(InsufficientData);
    }
    if c.dataType != BoolType && c.bitOffset != 0 {
      return Err(InvalidConversion);
    }
    var window := raw[c.byteOffset..c.byteOffset + size.value];
    if c.dataType == BoolType {
      if c.bitOffset > 7 {
        return Err(InvalidConversion);
      }
      return Ok(Truth(Bit(window[0], c.bitOffset)));
    }
    var ordered := ApplyByteOrder(window, c.order);
    if ordered.Err? {
      return Err(ordered.error);
    }
    return Interpret(c.dataType, ordered.value);
  }

  // ---------------------------------------------------------------- writing

  /** The big-endian digits of a number, cut to a width. */
  function Digits(number: nat, width: nat): (s: seq<byte>)
    ensures |s| == width
  {
    if width == 0 then [] else Digits(number / 256, width - 1) + [number % 256]
  }

  lemma {:induction false} DigitsRead(number: nat, width: nat)
    requires number < Power(256, width)
    ensures Unsigned(Digits(number, width)) == number
  {
    if width > 0 {
      DigitsRead(number / 256, width - 1);
      var s := Digits(number, width);
      assert s[..|s| - 1] == Digits(number / 256, width - 1) && s[|s| - 1] == number % 256;
    }
  }

  predicate Fits(dataType: DataType, value: Binary) {
    match dataType
    case Int16 => value.Integer? && -0x8000 <= value.number < 0x8000
    case UInt16 => value.Integer? && 0 <= value.number < 0x1_0000
    case Int32 => value.Integer? && -0x8000_0000 <= value.number < 0x8000_0000
    case UInt32 => value.Integer? && 0 <= value.number < 0x1_0000_0000
    case Float32 => value.FloatBits? && value.width == 32 && value.bits < 0x1_0000_0000 && IsFinite(32, value.bits)
    case Float64 =>
      && value.FloatBits? && value.width == 64
      && value.bits < 0x1_0000_0000_0000_0000 && IsFinite(64, value.bits)
    case _ => false
  }

  /** The two's complement bits of a value. */
  function BitsOf(dataType: DataType, value: Binary): nat
    requires Fits(dataType, value)
  {
    match value
    case Integer(number) =>
      if number >= 0 then number else if dataType == Int16 then number + 0x1_0000 else number + 0x1_0000_0000
    case FloatBits(_, bits) => bits
  }

  function Encoded(dataType: DataType, order: ByteOrder, value: Binary): (s: seq<byte>)
    requires Fits(dataType, value)
  {
    Ordered(Digits(BitsOf(dataType, value), Size(dataType).value), order)
  }

  lemma WidthsOfPowers()
    ensures Power(256, 2) == 0x1_0000 && Power(256, 4) == 0x1_0000_0000 && Power(256, 8) == 0x1_0000_0000_0000_0000
  {
    assert Power(256, 1) == 256;
    assert Power(256, 2) == 256 * Power(256, 1);
    assert Power(256, 3) == 256 * Power(256, 2);
    assert Power(256, 4) == 256 * Power(256, 3);
    assert Power(256, 5) == 256 * Power(256, 4);
    assert Power(256, 6) == 256 * Power(256, 5);
    assert Power(256, 7) == 256 * Power(256, 6);
  }

  lemma BitsFit(dataType: DataType, value: Binary)
    requires Fits(dataType, value)
    ensures BitsOf(dataType, value) < Power(256, Size(dataType).value)
    ensures Interpret(dataType, Digits(BitsOf(dataType, value), Size(dataType).value)) == Ok(value)
  {
    WidthsOfPowers();
    DigitsRead(BitsOf(dataType, value), Size(dataType).value);
  }

  /** Written in any order and surrounded by any bytes, a value is read back. */
  lemma EncodeThenConvert(dataType: DataType, order: ByteOrder, value: Binary, before: seq<byte>, after: seq<byte>)
    requires Fits(dataType, value) && order != UnknownOrder
    ensures var raw := before + Encoded(dataType, order, value) + after;
            Converted(raw, Conversion(dataType, order, |before|, 0)) == Ok(value)
  {
    var digits := Digits(BitsOf(dataType, value), Size(dataType).value);
    var raw := before + Encoded(dataType, order, value) + after;
    assert raw[|before|..|before| + |digits|] == Ordered(digits, order);
    OrderIsInvolution(digits, order);
    BitsFit(dataType, value);
  }

  // ---------------------------------------------------------------- bits and ranges

  function Digit(bit: bool): nat {
    if bit then 1 else 0
  }

  /** The number that eight bits make, bit 0 counting one. */
  function FromBits(bit: nat -> bool): nat {
    Digit(bit(0)) + 2 * Digit(bit(1)) + 4 * Digit(bit(2)) + 8 * Digit(bit(3))
    + 16 * Digit(bit(4)) + 32 * Digit(bit(5)) + 64 * Digit(bit(6)) + 128 * Digit(bit(7))
  }

  /** A bit is the last binary digit of what is left of the byte after as many halvings. */
  lemma BitByHalving(b: byte, k: nat)
    requires k < 8
    ensures Digit(Bit(b, k)) == Halved(b, k) % 2
  {
    HalvedByPower(b, k);
  }

  function Halved(b: nat, k: nat): nat {
    if k == 0 then b else Halved(b, k - 1) / 2
  }

  lemma {:induction false} HalvedByPower(b: nat, k: nat)
    ensures Halved(b, k) == b / Power(2, k)
  {
    if k > 0 {
      HalvedByPower(b, k - 1);
      HalfOfQuotient(b, Power(2, k - 1));
    }
  }

  lemma HalfOfQuotient(b: nat, p: nat)
    requires p > 0
    ensures b / p / 2 == b / (2 * p)
  {
    var q, half := b / p, b / p / 2;
    var rest := b - half * (2 * p);
    assert q * p <= b < q * p + p;
    TwoHalves(q, half, p);
    QuotientIs(b, 2 * p, half, rest);
  }

  lemma TwoHalves(q: nat, half: nat, p: nat)
    requires half == q / 2 && p > 0
    ensures half * (2 * p) <= q * p && q * p + p <= half * (2 * p) + 2 * p
  {
    assert q == 2 * half + q % 2;
    assert (2 * half + q % 2) * p == half * (2 * p) + q % 2 * p;
    assert q % 2 == 0 || q % 2 == 1;
  }

  lemma QuotientIs(b: nat, m: nat, k: nat, r: int)
    requires m > 0 && b == k * m + r && 0 <= r < m
    ensures b / m == k
  {
    OneQuotient(b / m, k, m, b % m, r);
  }

  lemma OneQuotient(q: nat, k: nat, m: nat, s: nat, r: nat)
    requires q * m + s == k * m + r && s < m && r < m
    ensures q == k
  {
    if q < k {
      Apart(q, k, m);
    } else if k < q {
      Apart(k, q, m);
    }
  }

  lemma Apart(a: nat, b: nat, m: nat)
    requires a < b
    ensures a * m + m <= b * m
  {
    assert b * m == a * m + (b - a) * m;
    assert (b - a) * m == m + (b - a - 1) * m;
  }

  lemma ByteByHalving(b: byte)
    ensures b == Halved(b, 0) % 2 + 2 * (Halved(b, 1) % 2) + 4 * (Halved(b, 2) % 2) + 8 * (Halved(b, 3) % 2)
                 + 16 * (Halved(b, 4) % 2) + 32 * (Halved(b, 5) % 2) + 64 * (Halved(b, 6) % 2)
                 + 128 * (Halved(b, 7) % 2)
  {
    HalvedOnce(b, 0);
    HalvedOnce(b, 1);
    HalvedOnce(b, 2);
    HalvedOnce(b, 3);
    HalvedOnce(b, 4);
    HalvedOnce(b, 5);
    HalvedOnce(b, 6);
    HalvedOnce(b, 7);
  }

  lemma HalvedOnce(b: nat, k: nat)
    ensures Halved(b, k) == 2 * Halved(b, k + 1) + Halved(b, k) % 2
  {
  }

  /** The truth values read from a byte, one for each bit, make up that byte. */
  lemma BitsMakeByte(before: seq<byte>, b: byte, after: seq<byte>, order: ByteOrder, bit: nat -> bool)
    requires forall k: nat :: k < 8 ==>
               Converted(before + [b] + after, Conversion(BoolType, order, |before|, k)) == Ok(Truth(bit(k)))
    ensures FromBits(bit) == b
  {
    assert (before + [b] + after)[|before|] == b;
    forall k: nat | k < 8 ensures Digit(bit(k)) == Halved(b, k) % 2 {
      assert Converted(before + [b] + after, Conversion(BoolType, order, |before|, k)) == Ok(Truth(Bit(b, k)));
      BitByHalving(b, k);
    }
    ByteByHalving(b);
  }

  /** Apart from the sign, the finite floats are those below infinity in the order of their bits. */
  lemma FiniteIsBelowInfinity(bits: nat)
    ensures bits < 0x1_0000_0000 ==> (IsFinite(32, bits) <==> bits % 0x8000_0000 < 0x7F80_0000)
    ensures bits < 0x1_0000_0000_0000_0000 ==>
              (IsFinite(64, bits) <==> bits % 0x8000_0000_0000_0000 < 0x7FF0_0000_0000_0000)
  {
  }

  /** Exactly the integers that fit the registers of a data type are stored as its values. */
  lemma FittingIsStored(dataType: DataType, number: int)
    requires dataType in {Int16, UInt16, Int32, UInt32}
    ensures Fits(dataType, Integer(number)) <==>
              Coerce(dataType, NumberScalar(number as real)) == Some(NumberScalar(number as real))
  {
    assert (number as real).Floor == number;
  }
}
