/** Object identifiers, property values and errors.
    Floating-point values are their IEEE bit patterns here, integers their two's complement. */
module BacnetTypes {
  import opened Machine

  /** An object type is its number; the enumeration has exactly the numbers 0 to 60. */
  type ObjectType = c: int | 0 <= c <= 60

  const DEVICE: ObjectType := 8

  function ObjectTypeFrom(v: U16): Option<ObjectType> {
    if v == 0 || v == 1 || v == 2 || v == 3 || v == 4 || v == 5 || v == 8
      || v == 13 || v == 14 || v == 15 || v == 17 || v == 20
    then Some(v) else None
  }

  /** The object types that the program decodes, by their numbers in section 21 of ASHRAE 135-2020. */
  const LISTED_TYPES: set<int> := {0, 1, 2, 3, 4, 5, 8, 13, 14, 15, 17, 20}

  lemma ListedTypes(v: U16)
    ensures ObjectTypeFrom(v) == if v in LISTED_TYPES then Some(v) else None
  {
  }

  datatype ObjectId = ObjectId(objectType: ObjectType, instance: U32)

  datatype Weekday = Monday | Tuesday | Wednesday | Thursday | Friday | Saturday | Sunday | Unspecified

  datatype BacnetDate = BacnetDate(year: U16, month: U8, day: U8, weekday: Weekday)

  datatype BacnetTime = BacnetTime(hour: U8, minute: U8, second: U8, hundredths: U8)

  datatype PropertyValue =
    | Null
    | Boolean(flag: bool)
    | Unsigned(unsigned: U32)
    | Integer(integer: U32)
    | Real(real32: U32)
    | Double(real64: U64)
    | OctetString(octets: Bytes)
    | CharacterString(utf8: Bytes)
    | BitString(bits: seq<bool>)
    | Enumerated(enumerated: U32)
    | Date(date: BacnetDate)
    | Time(time: BacnetTime)
    | ObjectIdValue(objectId: ObjectId)
    | Array(items: seq<PropertyValue>)
    | List(items: seq<PropertyValue>)
    | Any(raw: Bytes)

  datatype ErrorClass = DeviceClass | ObjectClass | PropertyClass | Resources | Security | Services | Vt | Communication

  datatype ErrorCode =
    | UnknownObjectCode
    | UnknownPropertyCode
    | WriteAccessDeniedCode
    | InvalidDataTypeCode
    | ValueOutOfRangeCode
    | ServiceRequestDenied
    | NotConfigured
    | Other(number: U32)

  datatype BacnetError =
    | UnknownObject
    | UnknownProperty
    | WriteAccessDenied
    | ValueOutOfRange
    | InvalidDataType
    | DecodeError
    | EncodeError
    | UnsupportedService
    | ServiceError(errorClass: ErrorClass, errorCode: ErrorCode)

  /** The outcome of a decoder: a value and the next position, an error value, or the end of the
      program because a slice or a subtraction was out of range. */
  datatype Parsed<+T> = Ok(value: T, pos: nat) | Err(error: BacnetError) | Abort
  {
    predicate IsFailure() {
      !Ok?
    }

    function PropagateFailure<U>(): Parsed<U>
      requires IsFailure()
    {
      if Err? then Err(error) else Abort
    }

    function Extract(): (T, nat)
      requires !IsFailure()
    {
      (value, pos)
    }
  }
}
