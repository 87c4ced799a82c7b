/** The output protocol over a chained buffer (`TBinaryProtocol<&mut
    LinkedBytes>`): the same wire layout as the contiguous writer, except
    that with zero copy on, a `write_bytes`/`write_faststr` payload at or
    above the threshold becomes a chain segment of its own instead of being
    copied. The chain is its committed segments plus a writable window over
    the tail, indexed by the cursor. */
module ChainedWriter {
  import opened Types
  import opened BigEndian
  import opened Encoding
  import opened Length
  import ContiguousWriter

  /** The bytes of a chain's segments, in order. */
  function Flatten(segments: seq<seq<byte>>): seq<byte>
  {
    if segments == [] then [] else Flatten(segments[..|segments| - 1]) + segments[|segments| - 1]
  }

  lemma FlattenPush(segments: seq<seq<byte>>, x: seq<byte>, y: seq<byte>)
    ensures Flatten(segments + [x, y]) == Flatten(segments) + x + y
  {
    assert (segments + [x, y])[..|segments| + 1] == segments + [x];
    assert (segments + [x])[..|segments|] == segments;
  }

  lemma AppendAssoc(a: seq<byte>, b: seq<byte>, c: seq<byte>)
    ensures a + (b + c) == a + b + c
  {
  }

  class ChainedWriter {
    /** Segments of the chain already committed, in order. */
    var segments: seq<seq<byte>>
    /** The writable window over the tail segment's spare capacity. */
    var buf: array<byte>
    /** The cursor: `buf[..index]` is written but not yet committed. */
    var index: nat
    const zeroCopy: bool

    ghost predicate Valid()
      reads this
    {
      index <= buf.Length
    }

    /** The written, not yet committed part of the window. */
    ghost function Window(): seq<byte>
      reads this, buf
      requires Valid()
    {
      buf[..index]
    }

    /** The logical output: every committed segment, then the written part of the window. */
    ghost function Stream(): seq<byte>
      reads this, buf
      requires Valid()
    {
      Flatten(segments) + Window()
    }

    /** Capacity left in the window. */
    ghost function Room(): nat
      reads this
      requires Valid()
    {
      buf.Length - index
    }

    /** `TBinaryProtocol::new` over a chain whose committed part is `committed`. */
    constructor (committed: seq<seq<byte>>, buf: array<byte>, zeroCopy: bool)
      ensures Valid() && segments == committed && this.buf == buf && index == 0
      ensures this.zeroCopy == zeroCopy && Stream() == Flatten(committed)
    {
      segments := committed;
      this.buf := buf;
      index := 0;
      this.zeroCopy := zeroCopy;
    }

    /** The effect of a write that stays in the window: `bytes` are appended
        to the window (and so to the stream), nothing is committed. */
    ghost predicate Appended(oldSegments: seq<seq<byte>>, oldBuf: array<byte>, oldWindow: seq<byte>, bytes: seq<byte>)
      reads this, buf
    {
      && Valid()
      && segments == oldSegments && buf == oldBuf
      && Window() == oldWindow + bytes
      && Stream() == Flatten(oldSegments) + oldWindow + bytes
    }

    /** A window that grew by `bytes` grows the stream by `bytes`. */
    lemma StreamGrows(oldSegments: seq<seq<byte>>, oldWindow: seq<byte>, bytes: seq<byte>)
      requires Valid() && segments == oldSegments && Window() == oldWindow + bytes
      ensures Stream() == Flatten(oldSegments) + oldWindow + bytes
    {
      AppendAssoc(Flatten(oldSegments), oldWindow, bytes);
    }

    /** Two appends in a row are one append of both. */
    lemma AppendedTwice(oldSegments: seq<seq<byte>>, oldBuf: array<byte>, w0: seq<byte>, x: seq<byte>, y: seq<byte>)
      requires Appended(oldSegments, oldBuf, w0 + x, y)
      ensures Appended(oldSegments, oldBuf, w0, x + y)
    {
      AppendAssoc(w0, x, y);
      StreamGrows(oldSegments, w0, x + y);
    }

    method WriteFieldBegin(fieldType: TType, id: int16)
      requires Valid() && FieldBeginLen(fieldType, id) <= Room()
      modifies this, buf
      ensures Appended(old(segments), old(buf), old(Window()), EncodeFieldBegin(fieldType, id))
    {
      ghost var w0 := Window();
      WriteByte(fieldType.Code());
      WriteI16(id);
      AppendedTwice(old(segments), old(buf), w0, [fieldType.Code()], EncodeI16(id));
    }

    method WriteFieldStop()
      requires Valid() && FieldStopLen() <= Room()
      modifies this, buf
      ensures Appended(old(segments), old(buf), old(Window()), EncodeFieldStop())
    {
      WriteByte(TType.Stop.Code());
    }

    method WriteBool(b: bool)
      requires Valid() && BoolLen(b) <= Room()
      modifies this, buf
      ensures Appended(old(segments), old(buf), old(Window()), EncodeBool(b))
    {
      if b {
        WriteI8(1);
      } else {
        WriteI8(0);
      }
    }

    /** A fixed-width store at the cursor, as every scalar write does. */
    method Put(bytes: seq<byte>)
      requires Valid() && |bytes| <= Room()
      modifies this, buf
      ensures Appended(old(segments), old(buf), old(Window()), bytes)
    {
      ContiguousWriter.Store(buf, index, bytes);
      index := index + |bytes|;
      StreamGrows(old(segments), old(Window()), bytes);
    }

    method WriteByte(x: byte)
      requires Valid() && ByteLen(x) <= Room()
      modifies this, buf
      ensures Appended(old(segments), old(buf), old(Window()), EncodeByte(x))
    {
      Put([x]);
    }

    method WriteUuid(u: uuid)
      requires Valid() && UuidLen(u) <= Room()
      modifies this, buf
      ensures Appended(old(segments), old(buf), old(Window()), u)
    {
      Put(u);
    }

    method WriteI8(i: int8)
      requires Valid() && I8Len(i) <= Room()
      modifies this, buf
      ensures Appended(old(segments), old(buf), old(Window()), EncodeI8(i))
    {
      Put(EncodeI8(i));
    }

    method WriteI16(i: int16)
      requires Valid() && I16Len(i) <= Room()
      modifies this, buf
      ensures Appended(old(segments), old(buf), old(Window()), EncodeI16(i))
    {
      Put(EncodeI16(i));
    }

    method WriteI32(i: int32)
      requires Valid() && I32Len(i) <= Room()
      modifies this, buf
      ensures Appended(old(segments), old(buf), old(Window()), EncodeI32(i))
    {
      Put(EncodeI32(i));
    }

    method WriteI64(i: int64)
      requires Valid() && I64Len(i) <= Room()
      modifies this, buf
      ensures Appended(old(segments), old(buf), old(Window()), EncodeI64(i))
    {
      Put(EncodeI64(i));
    }

    /** `write_double`, on the value's 64-bit pattern. */
    method WriteDouble(bits: uint64)
      requires Valid() && DoubleLen(bits) <= Room()
      modifies this, buf
      ensures Appended(old(segments), old(buf), old(Window()), EncodeDouble(bits))
    {
      Put(EncodeDouble(bits));
    }

    /** The copying path: the 4-byte length prefix then a copy of the payload
        into the window. */
    method CopyBinary(b: seq<byte>)
      requires Valid() && 4 + |b| <= Room()
      modifies this, buf
      ensures Appended(old(segments), old(buf), old(Window()), Binary(b))
    {
      ghost var w0 := Window();
      WriteI32(UsizeAsI32(|b|));
      Put(b);
      AppendedTwice(old(segments), old(buf), w0, EncodeI32(UsizeAsI32(|b|)), b);
    }

    /** The zero-copy path shared by `write_bytes` and `write_faststr`: write
        the length prefix, commit the written part of the window
        (`advance_mut(index)`), append the payload as its own segment, and
        take the rest of the tail's capacity as the new window, cursor at 0. */
    method SpliceBinary(b: seq<byte>)
      requires Valid() && 4 <= Room()
      modifies this, buf
      ensures Valid() && fresh(buf) && Window() == []
      ensures segments == old(segments) + [old(Window()) + EncodeI32(UsizeAsI32(|b|)), b]
      ensures Room() == old(Room()) - 4
      ensures Stream() == old(Stream()) + Binary(b)
    {
      WriteI32(UsizeAsI32(|b|));
      var committed := buf[..index];
      var rest := buf.Length - index;
      segments := segments + [committed, b];
      buf := new byte[rest];
      index := 0;
      FlattenPush(old(segments), committed, b);
    }

    /** `write_bytes`/`write_faststr`: splice when zero copy applies to the
        payload, copy otherwise. */
    method WritePayload(b: seq<byte>)
      requires Valid() && CopiedBinaryLen(zeroCopy, b) <= Room()
      modifies this, buf
      ensures Valid()
      ensures Stream() == old(Stream()) + Binary(b)
      ensures Room() == old(Room()) - CopiedBinaryLen(zeroCopy, b)
      ensures ZeroCopied(zeroCopy, b) ==>
                fresh(buf) && Window() == []
                && segments == old(segments) + [old(Window()) + EncodeI32(UsizeAsI32(|b|)), b]
      ensures !ZeroCopied(zeroCopy, b) ==> Appended(old(segments), old(buf), old(Window()), Binary(b))
    {
      if zeroCopy && |b| >= ZeroCopyThreshold {
        SpliceBinary(b);
      } else {
        CopyBinary(b);
      }
    }

    method WriteBytes(b: seq<byte>)
      requires Valid() && CopiedBinaryLen(zeroCopy, b) <= Room()
      modifies this, buf
      ensures Valid()
      ensures Stream() == old(Stream()) + Binary(b)
      ensures Room() == old(Room()) - CopiedBinaryLen(zeroCopy, b)
      ensures ZeroCopied(zeroCopy, b) ==>
                fresh(buf) && Window() == []
                && segments == old(segments) + [old(Window()) + EncodeI32(UsizeAsI32(|b|)), b]
      ensures !ZeroCopied(zeroCopy, b) ==> Appended(old(segments), old(buf), old(Window()), Binary(b))
    {
      WritePayload(b);
    }

    method WriteFaststr(s: seq<byte>)
      requires Valid() && CopiedBinaryLen(zeroCopy, s) <= Room()
      modifies this, buf
      ensures Valid()
      ensures Stream() == old(Stream()) + Binary(s)
      ensures Room() == old(Room()) - CopiedBinaryLen(zeroCopy, s)
      ensures ZeroCopied(zeroCopy, s) ==>
                fresh(buf) && Window() == []
                && segments == old(segments) + [old(Window()) + EncodeI32(UsizeAsI32(|s|)), s]
      ensures !ZeroCopied(zeroCopy, s) ==> Appended(old(segments), old(buf), old(Window()), Binary(s))
    {
      WritePayload(s);
    }

    /** `write_string`: always copied. */
    method WriteString(s: seq<byte>)
      requires Valid() && StringLen(s) <= Room()
      modifies this, buf
      ensures Appended(old(segments), old(buf), old(Window()), Binary(s))
    {
      CopyBinary(s);
    }

    /** `write_bytes_vec`: always copied. */
    method WriteBytesVec(b: seq<byte>)
      requires Valid() && BytesVecLen(b) <= Room()
      modifies this, buf
      ensures Appended(old(segments), old(buf), old(Window()), Binary(b))
    {
      CopyBinary(b);
    }

    /** The header word, the name as by `write_faststr` (so it may be
        spliced), then the sequence number. */
    method WriteMessageBegin(m: MessageIdentifier)
      requires Valid() && CopiedMessageBeginLen(zeroCopy, m) <= Room()
      modifies this, buf
      ensures Valid()
      ensures Stream() == old(Stream()) + EncodeMessageBegin(m)
      ensures Room() == old(Room()) - CopiedMessageBeginLen(zeroCopy, m)
      ensures !ZeroCopied(zeroCopy, m.name) ==> Appended(old(segments), old(buf), old(Window()), EncodeMessageBegin(m))
      ensures ZeroCopied(zeroCopy, m.name) ==>
                fresh(buf)
                && segments == old(segments) + [old(Window()) + EncodeI32(VersionWord(m.messageType)) + EncodeI32(UsizeAsI32(|m.name|)), m.name]
                && Window() == EncodeI32(m.sequenceNumber)
    {
      ghost var header, name, trailer := EncodeI32(VersionWord(m.messageType)), Binary(m.name), EncodeI32(m.sequenceNumber);
      ghost var s0, w0 := Stream(), Window();
      WriteI32(VersionWord(m.messageType));
      ghost var s1 := Stream();
      WriteFaststr(m.name);
      ghost var s2 := Stream();
      if !ZeroCopied(zeroCopy, m.name) {
        AppendedTwice(old(segments), old(buf), w0, header, name);
      }
      WriteI32(m.sequenceNumber);
      if !ZeroCopied(zeroCopy, m.name) {
        AppendedTwice(old(segments), old(buf), w0, header + name, trailer);
      }
      AppendAssoc(s0, header, name);
      AppendAssoc(s0, header + name, trailer);
    }

    method WriteListBegin(l: ListIdentifier)
      requires Valid() && ListBeginLen(l) <= Room()
      modifies this, buf
      ensures Appended(old(segments), old(buf), old(Window()), EncodeCollectionBegin(l.elementType, l.size))
    {
      ghost var w0 := Window();
      WriteByte(l.elementType.Code());
      WriteI32(UsizeAsI32(l.size));
      AppendedTwice(old(segments), old(buf), w0, [l.elementType.Code()], EncodeI32(UsizeAsI32(l.size)));
    }

    method WriteSetBegin(s: SetIdentifier)
      requires Valid() && SetBeginLen(s) <= Room()
      modifies this, buf
      ensures Appended(old(segments), old(buf), old(Window()), EncodeCollectionBegin(s.elementType, s.size))
    {
      ghost var w0 := Window();
      WriteByte(s.elementType.Code());
      WriteI32(UsizeAsI32(s.size));
      AppendedTwice(old(segments), old(buf), w0, [s.elementType.Code()], EncodeI32(UsizeAsI32(s.size)));
    }

    method WriteMapBegin(m: MapIdentifier)
      requires Valid() && MapBeginLen(m) <= Room()
      modifies this, buf
      ensures Appended(old(segments), old(buf), old(Window()), EncodeMapBegin(m))
    {
      ghost var w0 := Window();
      WriteByte(m.keyType.Code());
      WriteByte(m.valueType.Code());
      AppendedTwice(old(segments), old(buf), w0, [m.keyType.Code()], [m.valueType.Code()]);
      WriteI32(UsizeAsI32(m.size));
      AppendedTwice(old(segments), old(buf), w0, [m.keyType.Code(), m.valueType.Code()], EncodeI32(UsizeAsI32(m.size)));
    }
  }
}
