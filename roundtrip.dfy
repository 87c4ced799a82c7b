/** Writers and reader together: reading a stream with the read call that
    matches each write call gives back exactly the calls that were written. */
module RoundTrip {
  import opened Types
  import opened BigEndian
  import opened Encoding
  import opened Decoding

  datatype Option<T> = None | Some(value: T)

  /** The read call matching the write call `template`, applied to `s`:
      the call it recovers and the bytes it consumed, or None when the bytes
      are too short for it or it reports an error. Only the kind of
      `template` matters. The bracket reads consume nothing. */
  function ReadLike(template: Op, s: seq<byte>): (r: Option<(Op, nat)>)
    ensures r.Some? ==> r.value.1 <= |s|
  {
    if IsScalar(template) then ReadScalar(template, s)
    else if IsPayload(template) then ReadPayload(template, s)
    else if IsHeader(template) then ReadHeader(template, s)
    else Some((template, 0))
  }

  predicate IsScalar(op: Op)
  {
    op.Bool? || op.Byte? || op.Uuid? || op.I8? || op.I16? || op.I32? || op.I64? || op.Double?
  }

  predicate IsPayload(op: Op)
  {
    op.Bytes? || op.String? || op.FastStr? || op.BytesVec?
  }

  predicate IsHeader(op: Op)
  {
    op.MessageBegin? || op.FieldBegin? || op.FieldStop? || op.ListBegin? || op.SetBegin? || op.MapBegin?
  }

  /** `read_bool`, `read_byte`, `read_uuid`, `read_i8` … `read_double`. */
  function ReadScalar(template: Op, s: seq<byte>): (r: Option<(Op, nat)>)
    requires IsScalar(template)
    ensures r.Some? ==> r.value.1 <= |s|
  {
    match template
    case Bool(_) => if |s| < 1 then None else Some((Op.Bool(DecodeBool(s)), 1))
    case Byte(_) => if |s| < 1 then None else Some((Op.Byte(s[0]), 1))
    case Uuid(_) => if |s| < 16 then None else Some((Op.Uuid(s[..16]), 16))
    case I8(_) => if |s| < 1 then None else Some((Op.I8(DecodeI8(s)), 1))
    case I16(_) => if |s| < 2 then None else Some((Op.I16(DecodeI16(s)), 2))
    case I32(_) => if |s| < 4 then None else Some((Op.I32(DecodeI32(s)), 4))
    case I64(_) => if |s| < 8 then None else Some((Op.I64(DecodeI64(s)), 8))
    case Double(_) => if |s| < 8 then None else Some((Op.Double(DecodeDouble(s)), 8))
  }

  /** `read_bytes`, `read_string`, `read_faststr`, `read_bytes_vec`: the
      payload after the length prefix, whether split off or copied. */
  function ReadPayload(template: Op, s: seq<byte>): (r: Option<(Op, nat)>)
    requires IsPayload(template)
    ensures r.Some? ==> r.value.1 <= |s|
  {
    if !BinaryFits(s) then None
    else
      var b := BinaryPayload(s);
      match template
      case Bytes(_) => Some((Op.Bytes(b), 4 + |b|))
      case String(_) => Some((Op.String(b), 4 + |b|))
      case FastStr(_) => Some((Op.FastStr(b), 4 + |b|))
      case BytesVec(_) => Some((Op.BytesVec(b), 4 + |b|))
  }

  /** `read_message_begin`, `read_field_begin` (which serves both field
      headers and the stop marker, telling them apart by the type byte),
      and the list, set and map headers. */
  function ReadHeader(template: Op, s: seq<byte>): (r: Option<(Op, nat)>)
    requires IsHeader(template)
    ensures r.Some? ==> r.value.1 <= |s|
  {
    match template
    case MessageBegin(_) =>
      if !MessageBeginFits(s) then None
      else
        var p := ParseMessageBegin(s);
        if p.result.Err? then None else Some((Op.MessageBegin(p.result.value), p.consumed))
    case FieldBegin(_, _) => ReadField(s)
    case FieldStop => ReadField(s)
    case ListBegin(_) =>
      if !CollectionBeginFits(s) then None
      else
        var p := ParseCollectionBegin(s);
        if p.result.Err? then None
        else Some((Op.ListBegin(ListIdentifier(p.result.value.0, p.result.value.1)), p.consumed))
    case SetBegin(_) =>
      if !CollectionBeginFits(s) then None
      else
        var p := ParseCollectionBegin(s);
        if p.result.Err? then None
        else Some((Op.SetBegin(SetIdentifier(p.result.value.0, p.result.value.1)), p.consumed))
    case MapBegin(_) =>
      if !MapBeginFits(s) then None
      else
        var p := ParseMapBegin(s);
        if p.result.Err? then None else Some((Op.MapBegin(p.result.value), p.consumed))
  }

  function ReadField(s: seq<byte>): (r: Option<(Op, nat)>)
    ensures r.Some? ==> r.value.1 <= |s|
  {
    if !FieldBeginFits(s) then None
    else
      var p := ParseFieldBegin(s);
      if p.result.Err? then None
      else if p.result.value.fieldType == TType.Stop then Some((Op.FieldStop, p.consumed))
      else Some((Op.FieldBegin(p.result.value.fieldType, p.result.value.id), p.consumed))
  }

  /** Reads a whole stream, one read call per template, in order; the
      result is the recovered calls and the unread rest. */
  function ReadAllLike(templates: seq<Op>, s: seq<byte>): (r: Option<(seq<Op>, seq<byte>)>)
    ensures r.Some? ==> |r.value.0| == |templates|
    ensures r.Some? ==> |r.value.1| <= |s| && r.value.1 == s[|s| - |r.value.1|..]
    decreases |templates|
  {
    if templates == [] then Some(([], s))
    else
      match ReadLike(templates[0], s)
      case None => None
      case Some((op, n)) =>
        match ReadAllLike(templates[1..], s[n..])
        case None => None
        case Some((ops, rest)) => Some(([op] + ops, rest))
  }

  /** The calls whose bytes read back unchanged: field headers of a real
      type (a Stop header is read as the stop marker), and lengths and sizes
      that survive the `as i32` cast. */
  predicate ReadableBack(op: Op)
  {
    match op
    case MessageBegin(m) => |m.name| < 0x8000_0000
    case FieldBegin(t, _) => t != TType.Stop
    case Bytes(b) => |b| < 0x8000_0000
    case String(b) => |b| < 0x8000_0000
    case FastStr(b) => |b| < 0x8000_0000
    case BytesVec(b) => |b| < 0x8000_0000
    case ListBegin(l) => l.size < 0x8000_0000
    case SetBegin(st) => st.size < 0x8000_0000
    case MapBegin(m) => m.size < 0x8000_0000
    case _ => true
  }

  lemma ScalarReadsBack(op: Op, rest: seq<byte>)
    requires IsScalar(op)
    ensures ReadScalar(op, Encode(op) + rest) == Some((op, |Encode(op)|))
  {
    var s := Encode(op) + rest;
    match op
    case Bool(b) => DecodeBoolEncode(b, rest);
    case Byte(x) => assert s[0] == x;
    case Uuid(u) => assert s[..16] == u;
    case I8(x) => DecodeI8Encode(x, rest);
    case I16(x) => DecodeI16Encode(x, rest);
    case I32(x) => DecodeI32Encode(x, rest);
    case I64(x) => DecodeI64Encode(x, rest);
    case Double(bits) => DecodeDoubleEncode(bits, rest);
  }

  lemma PayloadReadsBack(op: Op, rest: seq<byte>)
    requires IsPayload(op)
    requires ReadableBack(op)
    ensures ReadPayload(op, Encode(op) + rest) == Some((op, |Encode(op)|))
  {
    match op
    case Bytes(b) =>
      assert Encode(op) == Binary(b);
      BinaryRoundTrip(b, rest);
    case String(b) =>
      assert Encode(op) == Binary(b);
      BinaryRoundTrip(b, rest);
    case FastStr(b) =>
      assert Encode(op) == Binary(b);
      BinaryRoundTrip(b, rest);
    case BytesVec(b) =>
      assert Encode(op) == Binary(b);
      BinaryRoundTrip(b, rest);
  }

  lemma HeaderReadsBack(op: Op, rest: seq<byte>)
    requires IsHeader(op)
    requires ReadableBack(op)
    ensures ReadHeader(op, Encode(op) + rest) == Some((op, |Encode(op)|))
  {
    match op
    case MessageBegin(m) => MessageBeginRoundTrip(m, rest);
    case FieldBegin(t, id) => FieldBeginRoundTrip(t, id, rest);
    case FieldStop => FieldStopRoundTrip(rest);
    case ListBegin(l) => CollectionBeginRoundTrip(l.elementType, l.size, rest);
    case SetBegin(st) => CollectionBeginRoundTrip(st.elementType, st.size, rest);
    case MapBegin(m) => MapBeginRoundTrip(m, rest);
  }

  /** One call: the matching read recovers it and consumes exactly its bytes. */
  lemma OpReadsBack(op: Op, rest: seq<byte>)
    requires ReadableBack(op)
    ensures ReadLike(op, Encode(op) + rest) == Some((op, |Encode(op)|))
  {
    if IsScalar(op) {
      ScalarReadsBack(op, rest);
    } else if IsPayload(op) {
      PayloadReadsBack(op, rest);
    } else if IsHeader(op) {
      HeaderReadsBack(op, rest);
    } else {
      assert Encode(op) == [];
      assert Encode(op) + rest == rest;
    }
  }

  /** One more call in front of a stream that reads back reads back too. */
  lemma StreamStep(op: Op, ops: seq<Op>, tail: seq<byte>, rest: seq<byte>)
    requires ReadableBack(op)
    requires ReadAllLike(ops, tail) == Some((ops, rest))
    ensures ReadAllLike([op] + ops, Encode(op) + tail) == Some(([op] + ops, rest))
  {
    var s := Encode(op) + tail;
    OpReadsBack(op, tail);
    var n := |Encode(op)|;
    assert ReadLike(op, s) == Some((op, n));
    assert s[n..] == tail;
    assert ([op] + ops)[0] == op;
    assert ([op] + ops)[1..] == ops;
  }

  /** Whole-stream round trip: reading the bytes of a sequence of calls with
      the matching reads gives back the same calls and leaves what followed
      them unread. */
  lemma {:induction false} StreamReadsBack(ops: seq<Op>, rest: seq<byte>)
    requires forall i :: 0 <= i < |ops| ==> ReadableBack(ops[i])
    ensures ReadAllLike(ops, EncodeAll(ops) + rest) == Some((ops, rest))
  {
    if ops == [] {
      assert EncodeAll(ops) + rest == rest;
    } else {
      var tail := EncodeAll(ops[1..]) + rest;
      assert EncodeAll(ops) + rest == Encode(ops[0]) + tail;
      assert ReadableBack(ops[0]);
      assert forall i :: 0 <= i < |ops[1..]| ==> ReadableBack(ops[1..][i]) by {
        forall i | 0 <= i < |ops[1..]| ensures ReadableBack(ops[1..][i]) {
          assert ops[1..][i] == ops[i + 1];
        }
      }
      StreamReadsBack(ops[1..], rest);
      StreamStep(ops[0], ops[1..], tail, rest);
      assert [ops[0]] + ops[1..] == ops;
    }
  }
}
