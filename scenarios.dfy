/** Concrete frames: the bytes of a small call and how the reader treats
    a few malformed headers. */
module Scenarios {
  import opened Types
  import opened BigEndian
  import opened Encoding
  import opened Decoding

  /** The name "ping" as bytes. */
  const Ping: seq<byte> := [0x70, 0x69, 0x6E, 0x67]

  /** A call to "ping" with sequence number 7 and an empty argument struct:
      the strict header, the length-prefixed name, the sequence number and
      the field stop marker. */
  lemma PingCallBytes()
    ensures EncodeMessageBegin(MessageIdentifier(Ping, Call, 7)) + EncodeFieldStop()
         == [0x80, 0x01, 0x00, 0x01, 0, 0, 0, 4, 0x70, 0x69, 0x6E, 0x67, 0, 0, 0, 7, 0]
  {
    var m := MessageIdentifier(Ping, Call, 7);
    CallHeaderBytes();
    SmallI32Bytes(4);
    SmallI32Bytes(7);
    assert Binary(Ping) == [0, 0, 0, 4] + Ping;
    assert EncodeMessageBegin(m) == [0x80, 0x01, 0x00, 0x01] + ([0, 0, 0, 4] + Ping) + [0, 0, 0, 7];
  }

  /** The strict header word of a call. */
  lemma CallHeaderBytes()
    ensures EncodeI32(VersionWord(Call)) == [0x80, 0x01, 0x00, 0x01]
  {
    Pow256Values();
    assert EncodeI32(VersionWord(Call)) == ToBE(0x8001_0001, 4);
    assert ToBE(0x8001_0001, 4) == ToBE(0x80_0100, 3) + [0x01];
    assert ToBE(0x80_0100, 3) == ToBE(0x8001, 2) + [0x00];
    assert ToBE(0x8001, 2) == ToBE(0x80, 1) + [0x01];
  }

  /** A non-negative i32 below 256 is three zero bytes and itself. */
  lemma SmallI32Bytes(x: int32)
    requires 0 <= x < 0x100
    ensures EncodeI32(x) == [0, 0, 0, x]
  {
    Pow256Values();
    assert EncodeI32(x) == ToBE(x, 4);
    assert ToBE(x, 4) == ToBE(0, 3) + [x];
    assert ToBE(0, 3) == [0, 0, 0];
  }

  /** A header word whose upper half is not 0x8001 is a bad version. */
  lemma WrongVersionRejected()
    ensures CheckMessageHeader(0x8002_0001 - 0x1_0000_0000) == Err(BadVersion)
  {
    assert HeaderBits(0x8002_0001 - 0x1_0000_0000) == 0x8002_0001;
  }

  /** A non-negative header word (the unversioned framing) is a bad version. */
  lemma UnversionedRejected()
    ensures CheckMessageHeader(4) == Err(BadVersion)
  {
  }

  /** A message type code outside 1..4 is invalid data, even under a good version. */
  lemma UnknownMessageTypeRejected()
    ensures CheckMessageHeader(0x8001_0005 - 0x1_0000_0000) == Err(InvalidData)
  {
    assert HeaderBits(0x8001_0005 - 0x1_0000_0000) == 0x8001_0005;
  }

  /** Type byte 5 has no wire type: the field header read fails after one byte. */
  lemma UnknownFieldTypeRejected()
    ensures FieldBeginFits([5, 0, 1])
    ensures ParseFieldBegin([5, 0, 1]) == Step(Err(InvalidData), 1)
  {
  }

  /** Map headers with two entries, from i32 keys to string values and the
      other way round: the key tag comes first. */
  lemma MapHeaderBytes()
    ensures EncodeMapBegin(MapIdentifier(TType.I32, TType.String, 2)) == [0x08, 0x0B, 0, 0, 0, 2]
    ensures EncodeMapBegin(MapIdentifier(TType.String, TType.I32, 2)) == [0x0B, 0x08, 0, 0, 0, 2]
  {
    SmallI32Bytes(2);
  }
}
