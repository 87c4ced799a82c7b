/** The output protocol over one preallocated flat buffer
    (`TBinaryProtocol<&mut BytesMut>`): unchecked stores at a cursor, every
    payload copied. pilota's `buf` and `trans` alias the same memory
    and are one array here. */
module ContiguousWriter {
  import opened Types
  import opened BigEndian
  import opened Encoding
  import opened Length

  /** Copies `bytes` into `a` at `at` (`ptr::copy_nonoverlapping`, or the
      store of a fixed-size big-endian array), touching nothing else. */
  method Store(a: array<byte>, at: nat, bytes: seq<byte>)
    requires at + |bytes| <= a.Length
    modifies a
    ensures a[..at] == old(a[..at])
    ensures a[at..at + |bytes|] == bytes
    ensures a[at + |bytes|..] == old(a[at + |bytes|..])
    ensures a[..at + |bytes|] == old(a[..at]) + bytes
  {
    var i := 0;
    while i < |bytes|
      invariant 0 <= i <= |bytes|
      invariant forall k :: 0 <= k < a.Length ==> a[k] == (if at <= k < at + i then bytes[k - at] else old(a[k]))
    {
      a[at + i] := bytes[i];
      i := i + 1;
    }
    assert a[..at + |bytes|] == a[..at] + a[at..at + |bytes|];
  }

  /** `after` is `before` with `bytes` stored at `from` and nothing else changed. */
  ghost predicate Overwrites(before: seq<byte>, after: seq<byte>, from: nat, bytes: seq<byte>)
  {
    && |after| == |before|
    && from + |bytes| <= |before|
    && after[..from] == before[..from]
    && after[from..from + |bytes|] == bytes
    && after[from + |bytes|..] == before[from + |bytes|..]
  }

  /** Two stores side by side are one store of the concatenation. */
  lemma OverwritesCompose(b0: seq<byte>, b1: seq<byte>, b2: seq<byte>, from: nat, x: seq<byte>, y: seq<byte>)
    requires Overwrites(b0, b1, from, x) && Overwrites(b1, b2, from + |x|, y)
    ensures Overwrites(b0, b2, from, x + y)
  {
    var mid, end := from + |x|, from + |x| + |y|;
    forall k | 0 <= k < from
      ensures b2[k] == b0[k]
    {
      assert b2[k] == b2[..mid][k] == b1[..mid][k] == b1[k];
      assert b1[k] == b1[..from][k] == b0[..from][k];
    }
    forall k | from <= k < end
      ensures b2[k] == (x + y)[k - from]
    {
      if k < mid {
        assert b2[k] == b2[..mid][k] == b1[..mid][k] == b1[from..mid][k - from];
      } else {
        assert b2[k] == b2[mid..end][k - mid];
      }
    }
    forall k | end <= k < |b0|
      ensures b2[k] == b0[k]
    {
      assert b2[k] == b2[end..][k - end] == b1[end..][k - end];
      assert b1[k] == b1[mid..][k - mid] == b0[mid..][k - mid];
    }
    assert b2[..from] == b0[..from];
    assert b2[from..end] == x + y;
    assert b2[end..] == b0[end..];
  }

  class ContiguousWriter {
    /** The writable region, sized by the length pass beforehand. */
    const buf: array<byte>
    /** The cursor: bytes `buf[..index]` are written. */
    var index: nat

    ghost predicate Valid()
      reads this
    {
      index <= buf.Length
    }

    /** The bytes written so far. */
    ghost function Written(): seq<byte>
      reads this, buf
      requires Valid()
    {
      buf[..index]
    }

    /** Room left in the region. */
    ghost function Room(): nat
      reads this
      requires Valid()
    {
      buf.Length - index
    }

    /** `TBinaryProtocol::new`: the cursor starts at 0. */
    constructor (buf: array<byte>)
      ensures Valid() && this.buf == buf && index == 0 && Written() == []
    {
      this.buf := buf;
      index := 0;
    }

    /** The write of `bytes` at the cursor: the cursor moves past them and
        everything outside `buf[old index..new index]` is as it was. */
    ghost predicate Wrote(before: seq<byte>, from: nat, bytes: seq<byte>)
      reads this, buf
    {
      Valid() && index == from + |bytes| && Overwrites(before, buf[..], from, bytes)
    }

    method WriteFieldBegin(fieldType: TType, id: int16)
      requires Valid() && FieldBeginLen(fieldType, id) <= Room()
      modifies this, buf
      ensures index == old(index) + FieldBeginLen(fieldType, id)
      ensures Wrote(old(buf[..]), old(index), EncodeFieldBegin(fieldType, id))
    {
      ghost var before, from := buf[..], index;
      buf[index] := fieldType.Code();
      ghost var mid := buf[..];
      assert Overwrites(before, mid, from, [fieldType.Code()]);
      Store(buf, index + 1, EncodeI16(id));
      OverwritesCompose(before, mid, buf[..], from, [fieldType.Code()], EncodeI16(id));
      index := index + 3;
    }

    method WriteFieldStop()
      requires Valid() && FieldStopLen() <= Room()
      modifies this, buf
      ensures index == old(index) + FieldStopLen()
      ensures Wrote(old(buf[..]), old(index), EncodeFieldStop())
    {
      WriteByte(TType.Stop.Code());
    }

    method WriteBool(b: bool)
      requires Valid() && BoolLen(b) <= Room()
      modifies this, buf
      ensures index == old(index) + BoolLen(b)
      ensures Wrote(old(buf[..]), old(index), EncodeBool(b))
    {
      if b {
        WriteI8(1);
      } else {
        WriteI8(0);
      }
    }

    method WriteByte(x: byte)
      requires Valid() && ByteLen(x) <= Room()
      modifies this, buf
      ensures index == old(index) + ByteLen(x)
      ensures Wrote(old(buf[..]), old(index), EncodeByte(x))
    {
      buf[index] := x;
      index := index + 1;
    }

    method WriteUuid(u: uuid)
      requires Valid() && UuidLen(u) <= Room()
      modifies this, buf
      ensures index == old(index) + UuidLen(u)
      ensures Wrote(old(buf[..]), old(index), u)
    {
      Store(buf, index, u);
      index := index + 16;
    }

    method WriteI8(i: int8)
      requires Valid() && I8Len(i) <= Room()
      modifies this, buf
      ensures index == old(index) + I8Len(i)
      ensures Wrote(old(buf[..]), old(index), EncodeI8(i))
    {
      buf[index] := EncodeI8(i)[0];
      index := index + 1;
    }

    method WriteI16(i: int16)
      requires Valid() && I16Len(i) <= Room()
      modifies this, buf
      ensures index == old(index) + I16Len(i)
      ensures Wrote(old(buf[..]), old(index), EncodeI16(i))
    {
      Store(buf, index, EncodeI16(i));
      index := index + 2;
    }

    method WriteI32(i: int32)
      requires Valid() && I32Len(i) <= Room()
      modifies this, buf
      ensures index == old(index) + I32Len(i)
      ensures Wrote(old(buf[..]), old(index), EncodeI32(i))
    {
      Store(buf, index, EncodeI32(i));
      index := index + 4;
    }

    method WriteI64(i: int64)
      requires Valid() && I64Len(i) <= Room()
      modifies this, buf
      ensures index == old(index) + I64Len(i)
      ensures Wrote(old(buf[..]), old(index), EncodeI64(i))
    {
      Store(buf, index, EncodeI64(i));
      index := index + 8;
    }

    /** `write_double`, on the value's 64-bit pattern. */
    method WriteDouble(bits: uint64)
      requires Valid() && DoubleLen(bits) <= Room()
      modifies this, buf
      ensures index == old(index) + DoubleLen(bits)
      ensures Wrote(old(buf[..]), old(index), EncodeDouble(bits))
    {
      Store(buf, index, EncodeDouble(bits));
      index := index + 8;
    }

    /** The 4-byte length prefix then a copy of the payload, shared by
        `write_bytes`, `write_string`, `write_faststr` and `write_bytes_vec`. */
    method WriteBinary(b: seq<byte>)
      requires Valid() && 4 + |b| <= Room()
      modifies this, buf
      ensures index == old(index) + 4 + |b|
      ensures Wrote(old(buf[..]), old(index), Binary(b))
    {
      ghost var before, from := buf[..], index;
      WriteI32(UsizeAsI32(|b|));
      ghost var mid := buf[..];
      Store(buf, index, b);
      index := index + |b|;
      OverwritesCompose(before, mid, buf[..], from, EncodeI32(UsizeAsI32(|b|)), b);
    }

    method WriteBytes(b: seq<byte>)
      requires Valid() && BinaryLen(b) <= Room()
      modifies this, buf
      ensures index == old(index) + BinaryLen(b)
      ensures Wrote(old(buf[..]), old(index), Binary(b))
    {
      WriteBinary(b);
    }

    method WriteString(s: seq<byte>)
      requires Valid() && StringLen(s) <= Room()
      modifies this, buf
      ensures index == old(index) + StringLen(s)
      ensures Wrote(old(buf[..]), old(index), Binary(s))
    {
      WriteBinary(s);
    }

    method WriteFaststr(s: seq<byte>)
      requires Valid() && BinaryLen(s) <= Room()
      modifies this, buf
      ensures index == old(index) + BinaryLen(s)
      ensures Wrote(old(buf[..]), old(index), Binary(s))
    {
      WriteBinary(s);
    }

    method WriteBytesVec(b: seq<byte>)
      requires Valid() && BytesVecLen(b) <= Room()
      modifies this, buf
      ensures index == old(index) + BytesVecLen(b)
      ensures Wrote(old(buf[..]), old(index), Binary(b))
    {
      WriteBinary(b);
    }

    method WriteMessageBegin(m: MessageIdentifier)
      requires Valid() && MessageBeginLen(m) <= Room()
      modifies this, buf
      ensures index == old(index) + MessageBeginLen(m)
      ensures Wrote(old(buf[..]), old(index), EncodeMessageBegin(m))
    {
      ghost var before, from := buf[..], index;
      ghost var header, trailer := EncodeI32(VersionWord(m.messageType)), EncodeI32(m.sequenceNumber);
      WriteI32(VersionWord(m.messageType));
      ghost var b1 := buf[..];
      assert Overwrites(before, b1, from, header) && index == from + |header|;
      WriteFaststr(m.name);
      ghost var b2 := buf[..];
      assert Overwrites(b1, b2, from + |header|, Binary(m.name));
      OverwritesCompose(before, b1, b2, from, header, Binary(m.name));
      assert index == from + |header + Binary(m.name)|;
      WriteI32(m.sequenceNumber);
      assert Overwrites(b2, buf[..], from + |header + Binary(m.name)|, trailer);
      OverwritesCompose(before, b2, buf[..], from, header + Binary(m.name), trailer);
      assert header + Binary(m.name) + trailer == EncodeMessageBegin(m);
    }

    method WriteListBegin(l: ListIdentifier)
      requires Valid() && ListBeginLen(l) <= Room()
      modifies this, buf
      ensures index == old(index) + ListBeginLen(l)
      ensures Wrote(old(buf[..]), old(index), EncodeCollectionBegin(l.elementType, l.size))
    {
      ghost var before, from := buf[..], index;
      WriteByte(l.elementType.Code());
      ghost var b1 := buf[..];
      WriteI32(UsizeAsI32(l.size));
      OverwritesCompose(before, b1, buf[..], from, [l.elementType.Code()], EncodeI32(UsizeAsI32(l.size)));
    }

    method WriteSetBegin(s: SetIdentifier)
      requires Valid() && SetBeginLen(s) <= Room()
      modifies this, buf
      ensures index == old(index) + SetBeginLen(s)
      ensures Wrote(old(buf[..]), old(index), EncodeCollectionBegin(s.elementType, s.size))
    {
      ghost var before, from := buf[..], index;
      WriteByte(s.elementType.Code());
      ghost var b1 := buf[..];
      WriteI32(UsizeAsI32(s.size));
      OverwritesCompose(before, b1, buf[..], from, [s.elementType.Code()], EncodeI32(UsizeAsI32(s.size)));
    }

    method WriteMapBegin(m: MapIdentifier)
      requires Valid() && MapBeginLen(m) <= Room()
      modifies this, buf
      ensures index == old(index) + MapBeginLen(m)
      ensures Wrote(old(buf[..]), old(index), EncodeMapBegin(m))
    {
      ghost var before, from := buf[..], index;
      WriteByte(m.keyType.Code());
      ghost var b1 := buf[..];
      WriteByte(m.valueType.Code());
      ghost var b2 := buf[..];
      WriteI32(UsizeAsI32(m.size));
      OverwritesCompose(before, b1, b2, from, [m.keyType.Code()], [m.valueType.Code()]);
      OverwritesCompose(before, b2, buf[..], from, [m.keyType.Code(), m.valueType.Code()], EncodeI32(UsizeAsI32(m.size)));
    }
  }
}
