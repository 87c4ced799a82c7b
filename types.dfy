/** Wire vocabulary of the Thrift binary protocol: byte and integer widths,
    wire type tags, message types, identifiers and decode errors. */
module Types {

  type byte = x: int | 0 <= x < 0x100
  type int8 = x: int | -0x80 <= x < 0x80
  type int16 = x: int | -0x8000 <= x < 0x8000
  type int32 = x: int | -0x8000_0000 <= x < 0x8000_0000
  type int64 = x: int | -0x8000_0000_0000_0000 <= x < 0x8000_0000_0000_0000
  type uint64 = x: int | 0 <= x < 0x1_0000_0000_0000_0000

  /** A UUID travels as 16 raw bytes. */
  type uuid = s: seq<byte> | |s| == 16 witness seq(16, _ => 0)

  /** `VERSION_1` and `VERSION_MASK` of the strict message header. */
  const Version1: nat := 0x8001_0000
  const VersionMask: nat := 0xffff_0000

  /** Payloads of at least this many bytes may move by reference instead of by copy. */
  const ZeroCopyThreshold: nat := 4096

  /** Wire type tags, each with a one-byte code. */
  datatype TType = Stop | Void | Bool | Byte | Double | I16 | I32 | I64
                 | String | Struct | Map | Set | List | Uuid
  {
    function Code(): byte {
      match this
      case Stop => 0
      case Void => 1
      case Bool => 2
      case Byte => 3
      case Double => 4
      case I16 => 6
      case I32 => 8
      case I64 => 10
      case String => 11
      case Struct => 12
      case Map => 13
      case Set => 14
      case List => 15
      case Uuid => 16
    }
  }

  datatype MessageType = Call | Reply | Exception | Oneway
  {
    function Code(): byte {
      match this
      case Call => 1
      case Reply => 2
      case Exception => 3
      case Oneway => 4
    }
  }

  /** The kinds of decode error the synchronous reader can report. */
  datatype ErrorKind = BadVersion | InvalidData

  datatype Result<T> = Ok(value: T) | Err(error: ErrorKind)

  datatype MessageIdentifier = MessageIdentifier(name: seq<byte>, messageType: MessageType, sequenceNumber: int32)
  datatype FieldIdentifier = FieldIdentifier(fieldType: TType, id: int16)
  datatype ListIdentifier = ListIdentifier(elementType: TType, size: nat)
  datatype SetIdentifier = SetIdentifier(elementType: TType, size: nat)
  datatype MapIdentifier = MapIdentifier(keyType: TType, valueType: TType, size: nat)

  /** `field_type_from_u8`: the tag whose code is `b`, or InvalidData. */
  function TTypeFromByte(b: byte): (r: Result<TType>)
    ensures forall t: TType :: r == Ok(t) <==> t.Code() == b
    ensures r.Err? ==> r.error == InvalidData
  {
    match b
    case 0 => Ok(Stop)
    case 1 => Ok(Void)
    case 2 => Ok(Bool)
    case 3 => Ok(Byte)
    case 4 => Ok(Double)
    case 6 => Ok(I16)
    case 8 => Ok(I32)
    case 10 => Ok(I64)
    case 11 => Ok(String)
    case 12 => Ok(Struct)
    case 13 => Ok(Map)
    case 14 => Ok(Set)
    case 15 => Ok(List)
    case 16 => Ok(Uuid)
    case _ => Err(InvalidData)
  }

  /** `TMessageType::try_from`: the message type whose code is `b`, or InvalidData. */
  function MessageTypeFromByte(b: byte): (r: Result<MessageType>)
    ensures forall t: MessageType :: r == Ok(t) <==> t.Code() == b
    ensures r.Err? ==> r.error == InvalidData
  {
    match b
    case 1 => Ok(Call)
    case 2 => Ok(Reply)
    case 3 => Ok(Exception)
    case 4 => Ok(Oneway)
    case _ => Err(InvalidData)
  }
}
