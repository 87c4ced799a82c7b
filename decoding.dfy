/** What the synchronous reader computes from the bytes in front of its
    cursor: the value of each read call, the error it reports, and how many
    bytes it consumes. The reader reads without bounds checks, so every
    parser here states as its precondition the bytes the call needs. */
module Decoding {
  import opened Types
  import opened BigEndian
  import opened Encoding

  /** The outcome of one read call and the bytes it moved the cursor by
      (a failing call has still consumed what it read before failing). */
  datatype Step<T> = Step(result: Result<T>, consumed: nat)

  function DecodeI8(s: seq<byte>): (x: int8)
    requires |s| >= 1
    ensures EncodeI8(x) == s[..1]
  {
    Pow256Values();
    EncodeDecodeInt(s[..1]);
    DecodeInt(s[..1])
  }

  function DecodeI16(s: seq<byte>): (x: int16)
    requires |s| >= 2
    ensures EncodeI16(x) == s[..2]
  {
    Pow256Values();
    EncodeDecodeInt(s[..2]);
    DecodeInt(s[..2])
  }

  function DecodeI32(s: seq<byte>): (x: int32)
    requires |s| >= 4
    ensures EncodeI32(x) == s[..4]
  {
    Pow256Values();
    EncodeDecodeInt(s[..4]);
    DecodeInt(s[..4])
  }

  function DecodeI64(s: seq<byte>): (x: int64)
    requires |s| >= 8
    ensures EncodeI64(x) == s[..8]
  {
    Pow256Values();
    EncodeDecodeInt(s[..8]);
    DecodeInt(s[..8])
  }

  /** The 64-bit pattern of a double. */
  function DecodeDouble(s: seq<byte>): (bits: uint64)
    requires |s| >= 8
    ensures EncodeDouble(bits) == s[..8]
  {
    Pow256Values();
    FromBEBound(s[..8]);
    ToFromBE(s[..8]);
    FromBE(s[..8])
  }

  /** `read_bool`: any non-zero byte is true. */
  function DecodeBool(s: seq<byte>): (b: bool)
    requires |s| >= 1
    ensures b <==> s[0] != 0
  {
    DecodeI8(s) != 0
  }

  lemma DecodeI8Encode(x: int8, rest: seq<byte>)
    ensures DecodeI8(EncodeI8(x) + rest) == x
  {
    assert (EncodeI8(x) + rest)[..1] == EncodeInt(x, 1);
    Pow256Values();
    DecodeEncodeInt(x, 1);
  }

  lemma DecodeI16Encode(x: int16, rest: seq<byte>)
    ensures DecodeI16(EncodeI16(x) + rest) == x
  {
    assert (EncodeI16(x) + rest)[..2] == EncodeInt(x, 2);
    Pow256Values();
    DecodeEncodeInt(x, 2);
  }

  lemma DecodeI32Encode(x: int32, rest: seq<byte>)
    ensures DecodeI32(EncodeI32(x) + rest) == x
  {
    assert (EncodeI32(x) + rest)[..4] == EncodeInt(x, 4);
    Pow256Values();
    DecodeEncodeInt(x, 4);
  }

  lemma DecodeI64Encode(x: int64, rest: seq<byte>)
    ensures DecodeI64(EncodeI64(x) + rest) == x
  {
    assert (EncodeI64(x) + rest)[..8] == EncodeInt(x, 8);
    Pow256Values();
    DecodeEncodeInt(x, 8);
  }

  lemma DecodeDoubleEncode(bits: uint64, rest: seq<byte>)
    ensures DecodeDouble(EncodeDouble(bits) + rest) == bits
  {
    assert (EncodeDouble(bits) + rest)[..8] == ToBE(bits, 8);
    Pow256Values();
    FromToBE(bits, 8);
  }

  /** A written bool reads back as itself. */
  lemma DecodeBoolEncode(b: bool, rest: seq<byte>)
    ensures DecodeBool(EncodeBool(b) + rest) == b
  {
    DecodeI8Encode(if b then 1 else 0, rest);
  }

  /** The unsigned 32-bit pattern of a header word (what the bit masks act on). */
  function HeaderBits(size: int32): (u: nat)
    ensures u < 0x1_0000_0000
    ensures size < 0 ==> u == size + 0x1_0000_0000
    ensures size >= 0 ==> u == size
  {
    Pow256Values();
    Wrap(size, 4)
  }

  /** The header check of `read_message_begin`: a positive word is a
      missing version; the low four bits must name a message type; the high
      sixteen bits must be those of `VERSION_1`. */
  function CheckMessageHeader(size: int32): (r: Result<MessageType>)
    ensures size > 0 ==> r == Err(BadVersion)
    ensures r.Ok? ==> size < 0 && HeaderBits(size) % 16 == r.value.Code()
  {
    if size > 0 then Err(BadVersion)
    else
      match MessageTypeFromByte(HeaderBits(size) % 16)
      case Err(_) => Err(InvalidData)
      case Ok(t) =>
        if HeaderBits(size) - HeaderBits(size) % 0x1_0000 != Version1 then Err(BadVersion)
        else Ok(t)
  }

  /** The header the writers emit is accepted, with its message type. */
  lemma HeaderAccepted(t: MessageType)
    ensures CheckMessageHeader(VersionWord(t)) == Ok(t)
  {
    var u := HeaderBits(VersionWord(t));
    assert u == Version1 + t.Code();
    assert u % 16 == t.Code();
    assert u % 0x1_0000 == t.Code();
  }

  /** Exactly the words whose high half is 0x8001 and whose low four bits
      are a message type code are accepted; the bits between are ignored. */
  lemma HeaderAcceptance(size: int32, t: MessageType)
    ensures CheckMessageHeader(size) == Ok(t) <==>
              HeaderBits(size) / 0x1_0000 == 0x8001 && HeaderBits(size) % 16 == t.Code()
  {
    var u := HeaderBits(size);
    if u / 0x1_0000 == 0x8001 {
      assert size < 0;
      assert u - u % 0x1_0000 == Version1;
    }
    if size <= 0 && u - u % 0x1_0000 == Version1 {
      assert u / 0x1_0000 == 0x8001;
    }
  }

  /** Which error a rejected header reports. */
  lemma HeaderErrors(size: int32)
    ensures size > 0 ==> CheckMessageHeader(size) == Err(BadVersion)
    ensures size <= 0 && MessageTypeFromByte(HeaderBits(size) % 16).Err? ==>
              CheckMessageHeader(size) == Err(InvalidData)
    ensures (size <= 0 && MessageTypeFromByte(HeaderBits(size) % 16).Ok? && HeaderBits(size) / 0x1_0000 != 0x8001)
              ==> CheckMessageHeader(size) == Err(BadVersion)
  {
  }

  /** The bytes a length-prefixed read needs: the prefix, a non-negative
      length, and that many bytes after it. */
  predicate BinaryFits(s: seq<byte>)
  {
    |s| >= 4 && 0 <= DecodeI32(s) && 4 + DecodeI32(s) <= |s|
  }

  /** The payload of a length-prefixed read. */
  function BinaryPayload(s: seq<byte>): (b: seq<byte>)
    requires BinaryFits(s)
    ensures |b| == DecodeI32(s) && 4 + |b| <= |s|
  {
    s[4..4 + DecodeI32(s)]
  }

  /** A written payload reads back, followed by whatever came after it. */
  lemma BinaryRoundTrip(b: seq<byte>, rest: seq<byte>)
    requires |b| < 0x8000_0000
    ensures BinaryFits(Binary(b) + rest)
    ensures BinaryPayload(Binary(b) + rest) == b
    ensures (Binary(b) + rest)[4 + |b|..] == rest
  {
    var s := Binary(b) + rest;
    assert s == EncodeI32(UsizeAsI32(|b|)) + (b + rest);
    DecodeI32Encode(UsizeAsI32(|b|), b + rest);
    assert s[4..] == b + rest;
  }

  predicate MessageBeginFits(s: seq<byte>)
  {
    && |s| >= 4
    && (CheckMessageHeader(DecodeI32(s)).Ok? ==>
          BinaryFits(s[4..]) && 8 + DecodeI32(s[4..]) + 4 <= |s|)
  }

  /** `read_message_begin`: header word, name as by `read_faststr`,
      sequence number. */
  function ParseMessageBegin(s: seq<byte>): (r: Step<MessageIdentifier>)
    requires MessageBeginFits(s)
    ensures r.consumed <= |s|
    ensures r.result.Err? ==> r.consumed == 4
  {
    match CheckMessageHeader(DecodeI32(s))
    case Err(e) => Step(Err(e), 4)
    case Ok(t) =>
      var name := BinaryPayload(s[4..]);
      Step(Ok(MessageIdentifier(name, t, DecodeI32(s[8 + |name|..]))), 12 + |name|)
  }

  /** Message header round trip: whatever the writers emit for a header is
      read back as the same header, and the reader stops right after it. */
  lemma MessageBeginRoundTrip(m: MessageIdentifier, rest: seq<byte>)
    requires |m.name| < 0x8000_0000
    ensures MessageBeginFits(EncodeMessageBegin(m) + rest)
    ensures ParseMessageBegin(EncodeMessageBegin(m) + rest) == Step(Ok(m), |EncodeMessageBegin(m)|)
  {
    var header, trailer := EncodeI32(VersionWord(m.messageType)), EncodeI32(m.sequenceNumber);
    var s := EncodeMessageBegin(m) + rest;
    var n := |m.name|;
    assert s == header + (Binary(m.name) + (trailer + rest));
    DecodeI32Encode(VersionWord(m.messageType), Binary(m.name) + (trailer + rest));
    HeaderAccepted(m.messageType);
    assert s[4..] == Binary(m.name) + (trailer + rest);
    BinaryRoundTrip(m.name, trailer + rest);
    assert s[8 + n..] == trailer + rest;
    DecodeI32Encode(m.sequenceNumber, rest);
  }

  /** The bytes `read_field_begin` needs: the type byte, and the id after
      it unless the type is Stop or not a type at all. */
  predicate FieldBeginFits(s: seq<byte>)
  {
    |s| >= 1 && (TTypeFromByte(s[0]).Ok? && s[0] != TType.Stop.Code() ==> |s| >= 3)
  }

  /** `read_field_begin`: a Stop field carries no id and reads as id 0; an
      unknown type byte is InvalidData. */
  function ParseFieldBegin(s: seq<byte>): (r: Step<FieldIdentifier>)
    requires FieldBeginFits(s)
    ensures r.consumed <= |s|
    ensures r.result.Err? <==> TTypeFromByte(s[0]).Err?
    ensures r.result.Err? ==> r == Step(Err(InvalidData), 1)
  {
    match TTypeFromByte(s[0])
    case Err(_) => Step(Err(InvalidData), 1)
    case Ok(t) =>
      if t == TType.Stop then Step(Ok(FieldIdentifier(t, 0)), 1)
      else Step(Ok(FieldIdentifier(t, DecodeI16(s[1..]))), 3)
  }

  /** A field header of any type but Stop reads back as itself. */
  lemma FieldBeginRoundTrip(t: TType, id: int16, rest: seq<byte>)
    requires t != TType.Stop
    ensures FieldBeginFits(EncodeFieldBegin(t, id) + rest)
    ensures ParseFieldBegin(EncodeFieldBegin(t, id) + rest) == Step(Ok(FieldIdentifier(t, id)), 3)
  {
    var s := EncodeFieldBegin(t, id) + rest;
    assert s == [t.Code()] + (EncodeI16(id) + rest);
    assert s[1..] == EncodeI16(id) + rest;
    DecodeI16Encode(id, rest);
  }

  /** The stop marker reads back as a Stop field with id 0, one byte long. */
  lemma FieldStopRoundTrip(rest: seq<byte>)
    ensures FieldBeginFits(EncodeFieldStop() + rest)
    ensures ParseFieldBegin(EncodeFieldStop() + rest) == Step(Ok(FieldIdentifier(TType.Stop, 0)), 1)
  {
    assert (EncodeFieldStop() + rest)[0] == 0;
  }

  /** `write_field_begin` with type Stop still writes the id, but the reader
      stops after the type byte: the id's two bytes are left unread. */
  lemma FieldBeginStopLeavesId(id: int16, rest: seq<byte>)
    ensures FieldBeginFits(EncodeFieldBegin(TType.Stop, id) + rest)
    ensures ParseFieldBegin(EncodeFieldBegin(TType.Stop, id) + rest).consumed == 1 < |EncodeFieldBegin(TType.Stop, id)|
  {
    assert (EncodeFieldBegin(TType.Stop, id) + rest)[0] == 0;
  }

  /** The bytes a list or set header read needs. */
  predicate CollectionBeginFits(s: seq<byte>)
  {
    |s| >= 1 && (TTypeFromByte(s[0]).Ok? ==> |s| >= 5)
  }

  /** `read_list_begin` / `read_set_begin`: element type byte, then the
      size `as usize` (a negative size sign-extends to a huge count). */
  function ParseCollectionBegin(s: seq<byte>): (r: Step<(TType, nat)>)
    requires CollectionBeginFits(s)
    ensures r.consumed <= |s|
    ensures r.result.Err? <==> TTypeFromByte(s[0]).Err?
    ensures r.result.Err? ==> r == Step(Err(InvalidData), 1)
  {
    match TTypeFromByte(s[0])
    case Err(_) => Step(Err(InvalidData), 1)
    case Ok(t) => Step(Ok((t, I32AsUsize(DecodeI32(s[1..])))), 5)
  }

  /** A list or set header with a size below 2^31 reads back as itself. */
  lemma CollectionBeginRoundTrip(t: TType, size: nat, rest: seq<byte>)
    requires size < 0x8000_0000
    ensures CollectionBeginFits(EncodeCollectionBegin(t, size) + rest)
    ensures ParseCollectionBegin(EncodeCollectionBegin(t, size) + rest) == Step(Ok((t, size)), 5)
  {
    var s := EncodeCollectionBegin(t, size) + rest;
    assert s == [t.Code()] + (EncodeI32(UsizeAsI32(size)) + rest);
    assert s[1..] == EncodeI32(UsizeAsI32(size)) + rest;
    DecodeI32Encode(UsizeAsI32(size), rest);
  }

  /** A size of 2^31 or more is cut to 32 bits by the writer and comes back
      as a different, sign-extended count. */
  lemma CollectionSizeOverflow(t: TType, rest: seq<byte>)
    ensures ParseCollectionBegin(EncodeCollectionBegin(t, 0x8000_0000) + rest).result
              == Ok((t, 0x1_0000_0000_0000_0000 - 0x8000_0000))
  {
    var s := EncodeCollectionBegin(t, 0x8000_0000) + rest;
    var cut := UsizeAsI32(0x8000_0000);
    assert cut == -0x8000_0000 by {
      Pow256Values();
      assert cut == Signed(0x8000_0000, 4);
    }
    assert s[1..] == EncodeI32(cut) + rest;
    assert DecodeI32(s[1..]) == cut by {
      DecodeI32Encode(cut, rest);
    }
    assert TTypeFromByte(s[0]) == Ok(t);
  }

  predicate MapBeginFits(s: seq<byte>)
  {
    && |s| >= 1
    && (TTypeFromByte(s[0]).Ok? ==> |s| >= 2 && (TTypeFromByte(s[1]).Ok? ==> |s| >= 6))
  }

  /** `read_map_begin`: key type byte, value type byte, size `as usize`. */
  function ParseMapBegin(s: seq<byte>): (r: Step<MapIdentifier>)
    requires MapBeginFits(s)
    ensures r.consumed <= |s|
    ensures r.result.Err? <==> TTypeFromByte(s[0]).Err? || TTypeFromByte(s[1]).Err?
    ensures r.result.Err? ==> r.result.error == InvalidData
  {
    match TTypeFromByte(s[0])
    case Err(_) => Step(Err(InvalidData), 1)
    case Ok(k) =>
      match TTypeFromByte(s[1])
      case Err(_) => Step(Err(InvalidData), 2)
      case Ok(v) => Step(Ok(MapIdentifier(k, v, I32AsUsize(DecodeI32(s[2..])))), 6)
  }

  /** A map header with a size below 2^31 reads back as itself. */
  lemma MapBeginRoundTrip(m: MapIdentifier, rest: seq<byte>)
    requires m.size < 0x8000_0000
    ensures MapBeginFits(EncodeMapBegin(m) + rest)
    ensures ParseMapBegin(EncodeMapBegin(m) + rest) == Step(Ok(m), 6)
  {
    var s := EncodeMapBegin(m) + rest;
    assert s == [m.keyType.Code(), m.valueType.Code()] + (EncodeI32(UsizeAsI32(m.size)) + rest);
    assert s[2..] == EncodeI32(UsizeAsI32(m.size)) + rest;
    DecodeI32Encode(UsizeAsI32(m.size), rest);
  }
}
