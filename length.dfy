/** The length pass (`TLengthProtocol`): for every write call, the exact
    number of bytes the matching write will occupy, plus a running count
    of the payload bytes that qualify for zero-copy transfer. */
module Length {
  import opened Types
  import opened Encoding

  // The calls whose length is a constant and which touch no state.

  /** `write_message_begin_len`, apart from its zero-copy accounting (see
      `LengthCalculator.WriteMessageBeginLen`). */
  function MessageBeginLen(m: MessageIdentifier): (r: nat)
    ensures r == |EncodeMessageBegin(m)| == 4 + (4 + |m.name|) + 4
  {
    I32Len(0) + BinaryLen(m.name) + I32Len(0)
  }

  /** `write_bytes_len` and `write_faststr_len`, apart from their zero-copy
      accounting: prefix plus payload. */
  function BinaryLen(b: seq<byte>): (r: nat)
    ensures r == |Binary(b)| == 4 + |b|
  {
    I32Len(0) + |b|
  }

  function MessageEndLen(): (r: nat)
    ensures r == |Encode(Op.MessageEnd)| == 0
  {
    0
  }

  function StructBeginLen(): (r: nat)
    ensures r == |Encode(Op.StructBegin)| == 0
  {
    0
  }

  function StructEndLen(): (r: nat)
    ensures r == |Encode(Op.StructEnd)| == 0
  {
    0
  }

  function FieldBeginLen(fieldType: TType, id: int16): (r: nat)
    ensures r == |EncodeFieldBegin(fieldType, id)| == 3
  {
    ByteLen(fieldType.Code()) + I16Len(0)
  }

  function FieldEndLen(): (r: nat)
    ensures r == |Encode(Op.FieldEnd)| == 0
  {
    0
  }

  function FieldStopLen(): (r: nat)
    ensures r == |EncodeFieldStop()| == 1
  {
    ByteLen(0)
  }

  function BoolLen(b: bool): (r: nat)
    ensures r == |EncodeBool(b)| == 1
  {
    I8Len(0)
  }

  function ByteLen(x: byte): (r: nat)
    ensures r == |EncodeByte(x)| == 1
  {
    1
  }

  function UuidLen(u: uuid): (r: nat)
    ensures r == |u| == 16
  {
    16
  }

  function I8Len(i: int8): (r: nat)
    ensures r == |EncodeI8(i)| == 1
  {
    1
  }

  function I16Len(i: int16): (r: nat)
    ensures r == |EncodeI16(i)| == 2
  {
    2
  }

  function I32Len(i: int32): (r: nat)
    ensures r == |EncodeI32(i)| == 4
  {
    4
  }

  function I64Len(i: int64): (r: nat)
    ensures r == |EncodeI64(i)| == 8
  {
    8
  }

  function DoubleLen(bits: uint64): (r: nat)
    ensures r == |EncodeDouble(bits)| == 8
  {
    8
  }

  /** `write_string_len`: prefix plus payload; never counted as zero copy. */
  function StringLen(s: seq<byte>): (r: nat)
    ensures r == |Binary(s)| == 4 + |s|
  {
    I32Len(0) + |s|
  }

  function ListBeginLen(l: ListIdentifier): (r: nat)
    ensures r == |EncodeCollectionBegin(l.elementType, l.size)| == 5
  {
    ByteLen(0) + I32Len(0)
  }

  function ListEndLen(): (r: nat)
    ensures r == |Encode(Op.ListEnd)| == 0
  {
    0
  }

  function SetBeginLen(s: SetIdentifier): (r: nat)
    ensures r == |EncodeCollectionBegin(s.elementType, s.size)| == 5
  {
    ByteLen(0) + I32Len(0)
  }

  function SetEndLen(): (r: nat)
    ensures r == |Encode(Op.SetEnd)| == 0
  {
    0
  }

  function MapBeginLen(m: MapIdentifier): (r: nat)
    ensures r == |EncodeMapBegin(m)| == 6
  {
    ByteLen(0) + ByteLen(0) + I32Len(0)
  }

  function MapEndLen(): (r: nat)
    ensures r == |Encode(Op.MapEnd)| == 0
  {
    0
  }

  /** `write_bytes_vec_len`: prefix plus payload; never counted as zero copy. */
  function BytesVecLen(b: seq<byte>): (r: nat)
    ensures r == |Binary(b)| == 4 + |b|
  {
    I32Len(0) + |b|
  }

  /** The length the length pass reports for one call, whichever `_len`
      member the call goes to. */
  function Len(op: Op): nat
  {
    match op
    case MessageBegin(m) => MessageBeginLen(m)
    case FieldBegin(t, id) => FieldBeginLen(t, id)
    case FieldStop => FieldStopLen()
    case Bool(b) => BoolLen(b)
    case Bytes(b) => BinaryLen(b)
    case Byte(x) => ByteLen(x)
    case Uuid(u) => UuidLen(u)
    case I8(x) => I8Len(x)
    case I16(x) => I16Len(x)
    case I32(x) => I32Len(x)
    case I64(x) => I64Len(x)
    case Double(bits) => DoubleLen(bits)
    case String(s) => StringLen(s)
    case FastStr(s) => BinaryLen(s)
    case ListBegin(l) => ListBeginLen(l)
    case SetBegin(s) => SetBeginLen(s)
    case MapBegin(m) => MapBeginLen(m)
    case BytesVec(b) => BytesVecLen(b)
    case MessageEnd => MessageEndLen()
    case StructBegin => StructBeginLen()
    case StructEnd => StructEndLen()
    case FieldEnd => FieldEndLen()
    case ListEnd => ListEndLen()
    case SetEnd => SetEndLen()
    case MapEnd => MapEndLen()
  }

  /** Each length the length pass reports is the size of the bytes the
      matching write emits. */
  lemma LenIsEncodedSize(op: Op)
    ensures Len(op) == |Encode(op)|
  {
  }

  /** Bytes of `op` a writer copies into its own buffer: the whole length
      minus what moves by reference. */
  function PhysicalLen(zeroCopy: bool, op: Op): (r: nat)
    ensures r <= |Encode(op)|
    ensures ZeroCopyShare(zeroCopy, op) > 0 ==> r == |Encode(op)| - |Payload(op)|
    ensures ZeroCopyShare(zeroCopy, op) == 0 ==> r == |Encode(op)|
  {
    LenIsEncodedSize(op);
    Len(op) - ZeroCopyShare(zeroCopy, op)
  }

  /** Bytes a zero-copy writer copies for a length-prefixed payload. */
  function CopiedBinaryLen(zeroCopy: bool, b: seq<byte>): (r: nat)
    ensures ZeroCopied(zeroCopy, b) ==> r == 4
    ensures !ZeroCopied(zeroCopy, b) ==> r == |Binary(b)|
  {
    if ZeroCopied(zeroCopy, b) then I32Len(0) else BinaryLen(b)
  }

  /** Bytes a zero-copy writer copies for a message header. */
  function CopiedMessageBeginLen(zeroCopy: bool, m: MessageIdentifier): (r: nat)
    ensures ZeroCopied(zeroCopy, m.name) ==> r == 12
    ensures !ZeroCopied(zeroCopy, m.name) ==> r == |EncodeMessageBegin(m)|
  {
    I32Len(0) + CopiedBinaryLen(zeroCopy, m.name) + I32Len(0)
  }

  /** What the chained writer copies for a payload is what the length pass
      counts for it minus its zero-copy count. */
  lemma CopiedBinaryIsPhysical(zeroCopy: bool, b: seq<byte>)
    ensures CopiedBinaryLen(zeroCopy, b) == PhysicalLen(zeroCopy, Op.Bytes(b)) == PhysicalLen(zeroCopy, Op.FastStr(b))
  {
    assert Len(Op.Bytes(b)) == BinaryLen(b) && Payload(Op.Bytes(b)) == b;
    assert Len(Op.FastStr(b)) == BinaryLen(b) && Payload(Op.FastStr(b)) == b;
  }

  /** The same for a message header, whose name is the payload. */
  lemma CopiedMessageBeginIsPhysical(zeroCopy: bool, m: MessageIdentifier)
    ensures CopiedMessageBeginLen(zeroCopy, m) == PhysicalLen(zeroCopy, Op.MessageBegin(m))
  {
    assert Len(Op.MessageBegin(m)) == MessageBeginLen(m) && Payload(Op.MessageBegin(m)) == m.name;
  }

  function TotalLen(ops: seq<Op>): nat
  {
    if ops == [] then 0 else Len(ops[0]) + TotalLen(ops[1..])
  }

  function TotalZeroCopy(zeroCopy: bool, ops: seq<Op>): nat
  {
    if ops == [] then 0 else ZeroCopyShare(zeroCopy, ops[0]) + TotalZeroCopy(zeroCopy, ops[1..])
  }

  function TotalPhysicalLen(zeroCopy: bool, ops: seq<Op>): nat
  {
    if ops == [] then 0 else PhysicalLen(zeroCopy, ops[0]) + TotalPhysicalLen(zeroCopy, ops[1..])
  }

  /** Length agreement: the lengths the length pass reports for a sequence
      of calls add up to the size of their encoding. */
  lemma {:induction false} LengthAgreement(ops: seq<Op>)
    ensures TotalLen(ops) == |EncodeAll(ops)|
  {
    if ops != [] {
      LenIsEncodedSize(ops[0]);
      LengthAgreement(ops[1..]);
    }
  }

  /** The zero-copy count never exceeds the total, and what is left is
      exactly what a zero-copy writer copies into its buffer. */
  lemma {:induction false} ZeroCopyWithinTotal(zeroCopy: bool, ops: seq<Op>)
    ensures TotalZeroCopy(zeroCopy, ops) <= TotalLen(ops)
    ensures TotalPhysicalLen(zeroCopy, ops) == TotalLen(ops) - TotalZeroCopy(zeroCopy, ops)
  {
    if ops != [] {
      ZeroCopyWithinTotal(zeroCopy, ops[1..]);
    }
  }

  /** The length-trait state of a protocol instance: whether zero copy is
      enabled for its transport, and the running zero-copy byte count. */
  class LengthCalculator {
    const zeroCopy: bool
    var zeroCopyLen: nat

    constructor (zeroCopy: bool)
      ensures this.zeroCopy == zeroCopy && zeroCopyLen == 0
    {
      this.zeroCopy := zeroCopy;
      zeroCopyLen := 0;
    }

    /** `write_message_begin_len`: header word, length-prefixed name, sequence
        number; the name is accounted for as by `write_faststr_len`. */
    method WriteMessageBeginLen(m: MessageIdentifier) returns (n: nat)
      modifies this
      ensures n == |EncodeMessageBegin(m)| == 4 + (4 + |m.name|) + 4
      ensures zeroCopyLen == old(zeroCopyLen) + ZeroCopyShare(zeroCopy, Op.MessageBegin(m))
    {
      var nameLen := WriteFaststrLen(m.name);
      n := I32Len(0) + nameLen + I32Len(0);
    }

    /** `write_bytes_len`. */
    method WriteBytesLen(b: seq<byte>) returns (n: nat)
      modifies this
      ensures n == |Binary(b)| == 4 + |b|
      ensures zeroCopyLen == old(zeroCopyLen) + (if zeroCopy && |b| >= ZeroCopyThreshold then |b| else 0)
      ensures zeroCopyLen == old(zeroCopyLen) + ZeroCopyShare(zeroCopy, Op.Bytes(b))
    {
      if zeroCopy && |b| >= ZeroCopyThreshold {
        zeroCopyLen := zeroCopyLen + |b|;
      }
      n := I32Len(0) + |b|;
    }

    /** `write_faststr_len`. */
    method WriteFaststrLen(s: seq<byte>) returns (n: nat)
      modifies this
      ensures n == |Binary(s)| == 4 + |s|
      ensures zeroCopyLen == old(zeroCopyLen) + (if zeroCopy && |s| >= ZeroCopyThreshold then |s| else 0)
      ensures zeroCopyLen == old(zeroCopyLen) + ZeroCopyShare(zeroCopy, Op.FastStr(s))
    {
      if zeroCopy && |s| >= ZeroCopyThreshold {
        zeroCopyLen := zeroCopyLen + |s|;
      }
      n := I32Len(0) + |s|;
    }

    /** `zero_copy_len`: the bytes counted so far. */
    method ZeroCopyLen() returns (n: nat)
      ensures n == zeroCopyLen
    {
      n := zeroCopyLen;
    }

    /** `reset`: clear the count between uses of the instance. */
    method Reset()
      modifies this
      ensures zeroCopyLen == 0
    {
      zeroCopyLen := 0;
    }
  }
}
