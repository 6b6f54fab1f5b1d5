/** Tag values as the store keeps them, and the normalisation every stored value passes. */
module TagValues {
  import opened Identifiers

  datatype Option<+T> = None | Some(value: T)

  datatype Quality = Good | Bad

  datatype DataType = BoolType | Int16 | UInt16 | Int32 | UInt32 | Float32 | Float64 | UnknownType

  /** A dynamically typed value: a finite number, a boolean, or anything else. */
  datatype Scalar = NoScalar | BooleanScalar(boolean: bool) | NumberScalar(number: real) | OtherScalar

  datatype TagValue = TagValue(
    tagId: Uuid,
    sequence: nat,
    observedAt: nat,
    storedAt: nat,
    quality: Quality,
    dataType: DataType,
    value: Scalar,
    error: string
  )

  predicate InRange(number: real, low: int, high: int) {
    number == number.Floor as real && low as real <= number <= high as real
  }

  /** The value as the tag's data type, if it has that type: coerceTagValue. */
  function Coerce(dataType: DataType, value: Scalar): Option<Scalar> {
    if dataType == BoolType then
      if value.BooleanScalar? then Some(value) else None
    else if !value.NumberScalar? then None
    else
      match dataType
      case Int16 => if InRange(value.number, -32768, 32767) then Some(value) else None
      case UInt16 => if InRange(value.number, 0, 65535) then Some(value) else None
      case Int32 => if InRange(value.number, -2147483648, 2147483647) then Some(value) else None
      case UInt32 => if InRange(value.number, 0, 4294967295) then Some(value) else None
      case Float32 => Some(value)
      case Float64 => Some(value)
      case _ => None
  }

  /** normalizeTagValue: a good value has its type and no error, a bad one only an error. */
  function Normalize(value: TagValue): Option<TagValue> {
    if value.tagId == NIL || value.dataType == UnknownType then None
    else if value.quality == Good then
      var coerced := Coerce(value.dataType, value.value);
      if coerced.None? || value.observedAt == 0 then None
      else Some(value.(value := coerced.value, error := ""))
    else if value.error == "" || value.observedAt == 0 then None
    else Some(value.(value := NoScalar))
  }

  /** A value of the data type: a truth value, a whole number of as many bits, signed or not,
      or any number. */
  predicate Holds(dataType: DataType, value: Scalar) {
    match dataType
    case BoolType => value.BooleanScalar?
    case Int16 => value.NumberScalar? && IsWhole(value.number) && -0x8000 <= value.number.Floor < 0x8000
    case UInt16 => value.NumberScalar? && IsWhole(value.number) && 0 <= value.number.Floor < 0x1_0000
    case Int32 => value.NumberScalar? && IsWhole(value.number) && -0x8000_0000 <= value.number.Floor < 0x8000_0000
    case UInt32 => value.NumberScalar? && IsWhole(value.number) && 0 <= value.number.Floor < 0x1_0000_0000
    case Float32 => value.NumberScalar?
    case Float64 => value.NumberScalar?
    case UnknownType => false
  }

  predicate IsWhole(number: real) {
    number.Floor as real == number
  }

  /** Which values are stored, and as what: a good one holds its data type and loses its
      error text, a bad one has an error and loses its value. */
  lemma NormalizeMeans(value: TagValue)
    ensures Normalize(value).Some? <==>
              && value.tagId != NIL && value.observedAt != 0 && value.dataType != UnknownType
              && if value.quality == Good then Holds(value.dataType, value.value) else value.error != ""
    ensures Normalize(value).Some? ==>
              Normalize(value).value == if value.quality == Good then value.(error := "") else value.(value := NoScalar)
  {
    if value.value.NumberScalar? {
      var n := value.value.number;
      assert IsWhole(n) ==> n == n.Floor as real;
    }
  }

  /** A normalised value survives another normalisation unchanged, so what was stored can
      be restored; numbering a value does not matter. */
  lemma NormalizeIsIdempotent(value: TagValue, sequence: nat, now: nat)
    requires Normalize(value).Some?
    ensures var stored := Normalize(value).value.(sequence := sequence, storedAt := now);
            Normalize(stored) == Some(stored)
  {
  }
}
