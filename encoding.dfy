/** The byte image of every write call of the binary protocol: the wire
    format both writers must produce and the reader parses. */
module Encoding {
  import opened Types
  import opened BigEndian

  /** One call of the output protocol, with its argument. */
  datatype Op =
    | MessageBegin(message: MessageIdentifier)
    | MessageEnd
    | StructBegin
    | StructEnd
    | FieldBegin(fieldType: TType, id: int16)
    | FieldEnd
    | FieldStop
    | Bool(b: bool)
    | Bytes(bytes: seq<byte>)
    | Byte(x: byte)
    | Uuid(u: uuid)
    | I8(i8: int8)
    | I16(i16: int16)
    | I32(i32: int32)
    | I64(i64: int64)
    | Double(bits: uint64)
    | String(s: seq<byte>)
    | FastStr(fs: seq<byte>)
    | ListBegin(listId: ListIdentifier)
    | ListEnd
    | SetBegin(setId: SetIdentifier)
    | SetEnd
    | MapBegin(mapId: MapIdentifier)
    | MapEnd
    | BytesVec(vec: seq<byte>)

  /** The strict header word `(VERSION_1 | type) as i32`. */
  function VersionWord(t: MessageType): (w: int32)
    ensures w < 0
    ensures Wrap(w, 4) == Version1 + t.Code()
  {
    Pow256Values();
    Version1 + t.Code() - 0x1_0000_0000
  }

  function EncodeI8(x: int8): (r: seq<byte>)
    ensures |r| == 1
  {
    Pow256Values();
    EncodeInt(x, 1)
  }

  function EncodeI16(x: int16): (r: seq<byte>)
    ensures |r| == 2
  {
    Pow256Values();
    EncodeInt(x, 2)
  }

  function EncodeI32(x: int32): (r: seq<byte>)
    ensures |r| == 4
  {
    Pow256Values();
    EncodeInt(x, 4)
  }

  function EncodeI64(x: int64): (r: seq<byte>)
    ensures |r| == 8
  {
    Pow256Values();
    EncodeInt(x, 8)
  }

  /** A double travels as its 64-bit pattern, big-endian. */
  function EncodeDouble(bits: uint64): (r: seq<byte>)
    ensures |r| == 8
  {
    ToBE(bits, 8)
  }

  function EncodeBool(b: bool): (r: seq<byte>)
  {
    EncodeI8(if b then 1 else 0)
  }

  /** A length-prefixed payload: `len as i32` big-endian, then the bytes. */
  function Binary(b: seq<byte>): (r: seq<byte>)
    ensures |r| == 4 + |b|
  {
    EncodeI32(UsizeAsI32(|b|)) + b
  }

  /** Message header: header word, length-prefixed name, sequence number. */
  function EncodeMessageBegin(m: MessageIdentifier): (r: seq<byte>)
    ensures |r| == 4 + (4 + |m.name|) + 4
  {
    EncodeI32(VersionWord(m.messageType)) + Binary(m.name) + EncodeI32(m.sequenceNumber)
  }

  /** Field header: type byte, then the id as a big-endian i16. */
  function EncodeFieldBegin(t: TType, id: int16): (r: seq<byte>)
    ensures |r| == 3
  {
    [t.Code()] + EncodeI16(id)
  }

  /** List and set header: element type byte, then `size as i32`. */
  function EncodeCollectionBegin(elementType: TType, size: nat): (r: seq<byte>)
    ensures |r| == 5
  {
    [elementType.Code()] + EncodeI32(UsizeAsI32(size))
  }

  /** Map header: key type byte, value type byte, then `size as i32`. */
  function EncodeMapBegin(m: MapIdentifier): (r: seq<byte>)
    ensures |r| == 6
  {
    [m.keyType.Code(), m.valueType.Code()] + EncodeI32(UsizeAsI32(m.size))
  }

  function EncodeByte(x: byte): (r: seq<byte>)
    ensures |r| == 1
  {
    [x]
  }

  /** The Stop pseudo-field: its type byte alone. */
  function EncodeFieldStop(): (r: seq<byte>)
    ensures |r| == 1
  {
    [TType.Stop.Code()]
  }

  /** The bytes a writer emits for one call. */
  function Encode(op: Op): seq<byte>
  {
    match op
    case MessageBegin(m) => EncodeMessageBegin(m)
    case FieldBegin(t, id) => EncodeFieldBegin(t, id)
    case FieldStop => EncodeFieldStop()
    case Bool(b) => EncodeBool(b)
    case Bytes(b) => Binary(b)
    case Byte(x) => EncodeByte(x)
    case Uuid(u) => u
    case I8(x) => EncodeI8(x)
    case I16(x) => EncodeI16(x)
    case I32(x) => EncodeI32(x)
    case I64(x) => EncodeI64(x)
    case Double(bits) => EncodeDouble(bits)
    case String(s) => Binary(s)
    case FastStr(s) => Binary(s)
    case ListBegin(l) => EncodeCollectionBegin(l.elementType, l.size)
    case SetBegin(s) => EncodeCollectionBegin(s.elementType, s.size)
    case MapBegin(m) => EncodeMapBegin(m)
    case BytesVec(b) => Binary(b)
    // The bracket calls write nothing.
    case MessageEnd => []
    case StructBegin => []
    case StructEnd => []
    case FieldEnd => []
    case ListEnd => []
    case SetEnd => []
    case MapEnd => []
  }

  /** The bytes of a sequence of calls, in order. */
  function EncodeAll(ops: seq<Op>): seq<byte>
  {
    if ops == [] then [] else Encode(ops[0]) + EncodeAll(ops[1..])
  }

  /** The payload the zero-copy paths may transfer by reference, if the call has one. */
  function Payload(op: Op): seq<byte>
  {
    match op
    case MessageBegin(m) => m.name
    case Bytes(b) => b
    case FastStr(s) => s
    case _ => []
  }

  /** Zero copy applies to a payload when it is enabled and the payload
      reaches the threshold. */
  predicate ZeroCopied(zeroCopy: bool, payload: seq<byte>)
  {
    zeroCopy && |payload| >= ZeroCopyThreshold
  }

  /** Bytes of `op` moved by reference rather than copied: the payload of a
      `write_bytes`/`write_faststr` call (also the name of a message header)
      when zero copy applies to it. */
  function ZeroCopyShare(zeroCopy: bool, op: Op): (r: nat)
    ensures r > 0 ==> 4 + r <= |Encode(op)|
    ensures r > 0 ==> zeroCopy && r == |Payload(op)| >= ZeroCopyThreshold
  {
    if (op.MessageBegin? || op.Bytes? || op.FastStr?) && ZeroCopied(zeroCopy, Payload(op))
    then |Payload(op)| else 0
  }
}
