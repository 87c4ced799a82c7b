/** The synchronous input protocol over a contiguous buffer
    (`TBinaryProtocol<&mut BytesMut>` as `TInputProtocol`): unchecked reads
    at a cursor into the transport's bytes. Length-prefixed payloads that
    are split off the transport (`advance` then `split_to`) leave the
    transport holding only what follows them, with the cursor back at 0. */
module SyncReader {
  import opened Types
  import opened BigEndian
  import opened Decoding

  /** A list or set header as the reader returns it. */
  function AsList(r: Result<(TType, nat)>): Result<ListIdentifier>
  {
    match r
    case Ok((t, n)) => Ok(ListIdentifier(t, n))
    case Err(e) => Err(e)
  }

  function AsSet(r: Result<(TType, nat)>): Result<SetIdentifier>
  {
    match r
    case Ok((t, n)) => Ok(SetIdentifier(t, n))
    case Err(e) => Err(e)
  }

  class Reader {
    /** The transport's bytes that have not been split off; pilota's `buf`
        view aliases them. */
    var trans: seq<byte>
    /** The cursor into `trans`. */
    var index: nat

    ghost predicate Valid()
      reads this
    {
      index <= |trans|
    }

    /** The bytes in front of the cursor. */
    ghost function Remaining(): seq<byte>
      reads this
      requires Valid()
    {
      trans[index..]
    }

    /** `TBinaryProtocol::new`: the cursor starts at 0. */
    constructor (trans: seq<byte>)
      ensures Valid() && this.trans == trans && index == 0 && Remaining() == trans
    {
      this.trans := trans;
      index := 0;
    }

    method ReadByte() returns (x: byte)
      requires Valid() && |Remaining()| >= 1
      modifies this
      ensures Valid() && trans == old(trans) && index == old(index) + 1
      ensures Remaining() == old(Remaining())[1..]
      ensures x == old(Remaining())[0]
    {
      x := trans[index];
      index := index + 1;
    }

    method ReadI8() returns (x: int8)
      requires Valid() && |Remaining()| >= 1
      modifies this
      ensures Valid() && trans == old(trans) && index == old(index) + 1
      ensures Remaining() == old(Remaining())[1..]
      ensures x == DecodeI8(old(Remaining()))
    {
      x := DecodeI8(trans[index..]);
      index := index + 1;
    }

    method ReadI16() returns (x: int16)
      requires Valid() && |Remaining()| >= 2
      modifies this
      ensures Valid() && trans == old(trans) && index == old(index) + 2
      ensures Remaining() == old(Remaining())[2..]
      ensures x == DecodeI16(old(Remaining()))
    {
      x := DecodeI16(trans[index..]);
      index := index + 2;
    }

    method ReadI32() returns (x: int32)
      requires Valid() && |Remaining()| >= 4
      modifies this
      ensures Valid() && trans == old(trans) && index == old(index) + 4
      ensures Remaining() == old(Remaining())[4..]
      ensures x == DecodeI32(old(Remaining()))
    {
      x := DecodeI32(trans[index..]);
      index := index + 4;
    }

    method ReadI64() returns (x: int64)
      requires Valid() && |Remaining()| >= 8
      modifies this
      ensures Valid() && trans == old(trans) && index == old(index) + 8
      ensures Remaining() == old(Remaining())[8..]
      ensures x == DecodeI64(old(Remaining()))
    {
      x := DecodeI64(trans[index..]);
      index := index + 8;
    }

    /** `read_double`, as the value's 64-bit pattern. */
    method ReadDouble() returns (bits: uint64)
      requires Valid() && |Remaining()| >= 8
      modifies this
      ensures Valid() && trans == old(trans) && index == old(index) + 8
      ensures Remaining() == old(Remaining())[8..]
      ensures bits == DecodeDouble(old(Remaining()))
    {
      bits := DecodeDouble(trans[index..]);
      index := index + 8;
    }

    method ReadBool() returns (b: bool)
      requires Valid() && |Remaining()| >= 1
      modifies this
      ensures Valid() && trans == old(trans) && index == old(index) + 1
      ensures Remaining() == old(Remaining())[1..]
      ensures b == DecodeBool(old(Remaining()))
    {
      var x := ReadI8();
      b := x != 0;
    }

    method ReadUuid() returns (u: uuid)
      requires Valid() && |Remaining()| >= 16
      modifies this
      ensures Valid() && trans == old(trans) && index == old(index) + 16
      ensures Remaining() == old(Remaining())[16..]
      ensures u == old(Remaining())[..16]
    {
      u := trans[index..index + 16];
      index := index + 16;
    }

    /** The zero-copy path: drop everything up to the cursor, split the
        payload off the front of the transport, cursor back at 0. */
    method SplitPayload(len: nat) returns (b: seq<byte>)
      requires Valid() && len <= |Remaining()|
      modifies this
      ensures Valid() && index == 0 && trans == old(Remaining())[len..]
      ensures b == old(Remaining())[..len]
    {
      trans := trans[index..];
      index := 0;
      b := trans[..len];
      trans := trans[len..];
    }

    /** `read_bytes`: always split off the transport. */
    method ReadBytes() returns (b: seq<byte>)
      requires Valid() && BinaryFits(Remaining())
      modifies this
      ensures b == BinaryPayload(old(Remaining()))
      ensures Valid() && index == 0 && trans == old(Remaining())[4 + |b|..]
    {
      var len := ReadI32();
      b := SplitPayload(len);
    }

    /** `read_bytes_vec`: always split off the transport. */
    method ReadBytesVec() returns (b: seq<byte>)
      requires Valid() && BinaryFits(Remaining())
      modifies this
      ensures b == BinaryPayload(old(Remaining()))
      ensures Valid() && index == 0 && trans == old(Remaining())[4 + |b|..]
    {
      var len := ReadI32();
      b := SplitPayload(len);
    }

    /** `read_string`: always copied, the cursor moves past it. */
    method ReadString() returns (s: seq<byte>)
      requires Valid() && BinaryFits(Remaining())
      modifies this
      ensures s == BinaryPayload(old(Remaining()))
      ensures Valid() && trans == old(trans) && index == old(index) + 4 + |s|
      ensures Remaining() == old(Remaining())[4 + |s|..]
    {
      var len := ReadI32();
      s := trans[index..index + len];
      index := index + len;
    }

    /** `read_faststr`: split off when the payload reaches the threshold
        (whether or not zero copy was enabled), copied otherwise. */
    method ReadFaststr() returns (s: seq<byte>)
      requires Valid() && BinaryFits(Remaining())
      modifies this
      ensures s == BinaryPayload(old(Remaining()))
      ensures Valid() && Remaining() == old(Remaining())[4 + |s|..]
      ensures |s| >= ZeroCopyThreshold ==> index == 0 && trans == old(Remaining())[4 + |s|..]
      ensures |s| < ZeroCopyThreshold ==> trans == old(trans) && index == old(index) + 4 + |s|
    {
      var len := ReadI32();
      if len >= ZeroCopyThreshold {
        s := SplitPayload(len);
      } else {
        s := trans[index..index + len];
        index := index + len;
      }
    }

    method ReadMessageBegin() returns (r: Result<MessageIdentifier>)
      requires Valid() && MessageBeginFits(Remaining())
      modifies this
      ensures Valid()
      ensures r == ParseMessageBegin(old(Remaining())).result
      ensures Remaining() == old(Remaining())[ParseMessageBegin(old(Remaining())).consumed..]
    {
      ghost var s := Remaining();
      var size := ReadI32();
      var header := CheckMessageHeader(size);
      if header.Err? {
        return Err(header.error);
      }
      var name := ReadFaststr();
      assert Remaining() == s[8 + |name|..];
      var sequenceNumber := ReadI32();
      r := Ok(MessageIdentifier(name, header.value, sequenceNumber));
    }

    method ReadFieldBegin() returns (r: Result<FieldIdentifier>)
      requires Valid() && FieldBeginFits(Remaining())
      modifies this
      ensures Valid()
      ensures r == ParseFieldBegin(old(Remaining())).result
      ensures Remaining() == old(Remaining())[ParseFieldBegin(old(Remaining())).consumed..]
    {
      var b := ReadByte();
      var fieldType := TTypeFromByte(b);
      if fieldType.Err? {
        return Err(InvalidData);
      }
      if fieldType.value == TType.Stop {
        return Ok(FieldIdentifier(TType.Stop, 0));
      }
      var id := ReadI16();
      r := Ok(FieldIdentifier(fieldType.value, id));
    }

    method ReadListBegin() returns (r: Result<ListIdentifier>)
      requires Valid() && CollectionBeginFits(Remaining())
      modifies this
      ensures Valid()
      ensures r == AsList(ParseCollectionBegin(old(Remaining())).result)
      ensures Remaining() == old(Remaining())[ParseCollectionBegin(old(Remaining())).consumed..]
    {
      var b := ReadByte();
      var elementType := TTypeFromByte(b);
      if elementType.Err? {
        return Err(elementType.error);
      }
      var size := ReadI32();
      r := Ok(ListIdentifier(elementType.value, I32AsUsize(size)));
    }

    method ReadSetBegin() returns (r: Result<SetIdentifier>)
      requires Valid() && CollectionBeginFits(Remaining())
      modifies this
      ensures Valid()
      ensures r == AsSet(ParseCollectionBegin(old(Remaining())).result)
      ensures Remaining() == old(Remaining())[ParseCollectionBegin(old(Remaining())).consumed..]
    {
      var b := ReadByte();
      var elementType := TTypeFromByte(b);
      if elementType.Err? {
        return Err(elementType.error);
      }
      var size := ReadI32();
      r := Ok(SetIdentifier(elementType.value, I32AsUsize(size)));
    }

    method ReadMapBegin() returns (r: Result<MapIdentifier>)
      requires Valid() && MapBeginFits(Remaining())
      modifies this
      ensures Valid()
      ensures r == ParseMapBegin(old(Remaining())).result
      ensures Remaining() == old(Remaining())[ParseMapBegin(old(Remaining())).consumed..]
    {
      var k := ReadByte();
      var keyType := TTypeFromByte(k);
      if keyType.Err? {
        return Err(keyType.error);
      }
      var v := ReadByte();
      var valueType := TTypeFromByte(v);
      if valueType.Err? {
        return Err(valueType.error);
      }
      var size := ReadI32();
      r := Ok(MapIdentifier(keyType.value, valueType.value, I32AsUsize(size)));
    }
  }
}
