/**
 The restricted Protocol Buffers reader shared by both message decoders of
 the migration importer.

 A field is one key byte (field number in the high five bits, wire type in
 the low three), then for wire type 0 exactly one value byte, and for wire
 type 2 exactly one length byte followed by that many payload bytes. No
 varint continuation is honoured: a byte with its high bit set is still a
 whole value or length. Any other wire type ends the message.
 */
module Wire {
  import opened Js

  /** A field as the reader yields it. A value read past the end of the
      buffer is `None` (JavaScript's `undefined`). */
  datatype RawField =
    | Varint(number: byte, value: Option<byte>)
    | Delimited(number: byte, payload: seq<byte>)

  /** The outcome of reading the field at one offset: the field and the offset
      where reading continues, `None` when the offset has become `NaN`
      because the length byte was missing; or `Stop` for a wire type the
      reader does not know. */
  datatype Step = Stop | Read(field: RawField, next: Option<nat>)

  function FieldNumber(key: byte): byte { key >> 3 }

  function WireType(key: byte): byte { key & 7 }

  /** Reads the field whose key is at `off`. */
  function Next(data: seq<byte>, off: nat): (r: Step)
    requires off < |data|
    ensures r.Stop? <==> WireType(data[off]) != 0 && WireType(data[off]) != 2
    ensures r.Read? && r.next.Some? ==> r.next.value >= off + 2
  {
    var key := data[off];
    if WireType(key) == 0 then
      Read(Varint(FieldNumber(key), At(data, off + 1)), Some(off + 2))
    else if WireType(key) == 2 then
      match At(data, off + 1)
      case None =>
        // data.slice(offset, NaN) is empty, and offset += undefined is NaN
        Read(Delimited(FieldNumber(key), []), None)
      case Some(length) =>
        var end := off + 2 + length as int;
        Read(Delimited(FieldNumber(key), Slice(data, off + 2, end)), Some(end))
    else
      Stop
  }

  /** A length-delimited field takes the next byte as its length, even when
      its high bit is set, and its payload is the bytes after the length byte,
      clipped at the end of the buffer. Reading goes on after the full
      declared length, so a clipped payload is the last field. */
  lemma DelimitedField(data: seq<byte>, off: nat)
    requires off + 1 < |data| && WireType(data[off]) == 2
    ensures var len := data[off + 1] as int;
            var end := Min(off + 2 + len, |data|);
            Next(data, off) == Read(Delimited(FieldNumber(data[off]), data[off + 2..end]), Some(off + 2 + len))
  {
  }

  /** A length-delimited key in the last byte yields an empty payload and ends
      reading, because the offset becomes `NaN`. */
  lemma DelimitedKeyAtEnd(data: seq<byte>)
    requires |data| > 0 && WireType(data[|data| - 1]) == 2
    ensures Next(data, |data| - 1) == Read(Delimited(FieldNumber(data[|data| - 1]), []), None)
  {
  }

  /** A varint takes exactly the next byte as its value, `undefined` when the
      key is the last byte. */
  lemma VarintField(data: seq<byte>, off: nat)
    requires off < |data| && WireType(data[off]) == 0
    ensures Next(data, off) == Read(Varint(FieldNumber(data[off]), At(data, off + 1)), Some(off + 2))
  {
  }

  /** The fields of a message, read from `off` until the buffer is exhausted,
      the offset becomes `NaN`, or an unknown wire type is met. Every field
      but the last takes at least two bytes, so there are at most half as
      many fields as bytes left, rounded up. */
  function Fields(data: seq<byte>, off: nat): (fs: seq<RawField>)
    ensures off >= |data| ==> fs == []
    ensures off < |data| ==> 2 * |fs| <= |data| - off + 1
    decreases |data| - off
  {
    if off >= |data| then []
    else
      match Next(data, off)
      case Stop => []
      case Read(f, None) => [f]
      case Read(f, Some(n)) => [f] + Fields(data, n)
  }

  // ---------------------------------------------------------------------
  // Encoding: the writer whose output the reader reads back

  function Key(number: byte, wireType: byte): (key: byte)
    requires number < 32 && wireType < 8
    ensures FieldNumber(key) == number && WireType(key) == wireType
  {
    (number << 3) | wireType
  }

  /** A field the single-byte format can express. */
  predicate Encodable(f: RawField)
  {
    && f.number < 32
    && match f
       case Varint(_, v) => v.Some?
       case Delimited(_, p) => |p| < 256
  }

  predicate AllEncodable(fs: seq<RawField>)
  {
    forall i | 0 <= i < |fs| :: Encodable(fs[i])
  }

  function EncodeField(f: RawField): (b: seq<byte>)
    requires Encodable(f)
    ensures |b| >= 2
  {
    match f
    case Varint(n, v) => [Key(n, 0), v.value]
    case Delimited(n, p) => [Key(n, 2), |p| as bv8] + p
  }

  function EncodeFields(fs: seq<RawField>): seq<byte>
    requires AllEncodable(fs)
  {
    if fs == [] then [] else EncodeField(fs[0]) + EncodeFields(fs[1..])
  }

  lemma EncodeFieldsAppend(fs: seq<RawField>, gs: seq<RawField>)
    requires AllEncodable(fs) && AllEncodable(gs)
    ensures AllEncodable(fs + gs)
    ensures EncodeFields(fs + gs) == EncodeFields(fs) + EncodeFields(gs)
  {
    if fs != [] {
      assert (fs + gs)[1..] == fs[1..] + gs;
      EncodeFieldsAppend(fs[1..], gs);
    } else {
      assert fs + gs == gs;
    }
  }

  /** The reader reads an encoded field back, whatever follows it. */
  lemma NextOfEncoding(f: RawField, rest: seq<byte>)
    requires Encodable(f)
    ensures Next(EncodeField(f) + rest, 0) == Read(f, Some(|EncodeField(f)|))
  {
    match f
    case Varint(n, v) => NextOfVarint(n, v.value, rest);
    case Delimited(n, p) => NextOfDelimited(n, p, rest);
  }

  lemma NextOfVarint(n: byte, v: byte, rest: seq<byte>)
    requires n < 32
    ensures Next([Key(n, 0), v] + rest, 0) == Read(Varint(n, Some(v)), Some(2))
  {
    var data := [Key(n, 0), v] + rest;
    assert data[0] == Key(n, 0) && At(data, 1) == Some(v);
  }

  lemma NextOfDelimited(n: byte, p: seq<byte>, rest: seq<byte>)
    requires n < 32 && |p| < 256
    ensures Next([Key(n, 2), |p| as bv8] + p + rest, 0) == Read(Delimited(n, p), Some(2 + |p|))
  {
    var data := [Key(n, 2), |p| as bv8] + p + rest;
    assert data[0] == Key(n, 2);
    assert At(data, 1) == Some(|p| as bv8);
    ByteRoundTrip(|p|);
    assert Slice(data, 2, 2 + |p|) == p by {
      assert data[2..2 + |p|] == p;
    }
  }

  function ShiftOffset(next: Option<nat>, k: nat): Option<nat>
  {
    match next
    case None => None
    case Some(n) => Some(n + k)
  }

  function ShiftStep(step: Step, k: nat): Step
  {
    match step
    case Stop => Stop
    case Read(f, next) => Read(f, ShiftOffset(next, k))
  }

  /** Reading depends only on the bytes from the offset on. */
  lemma NextShift(p: seq<byte>, d: seq<byte>, off: nat)
    requires off < |d|
    ensures Next(p + d, |p| + off) == ShiftStep(Next(d, off), |p|)
  {
    assert (p + d)[|p| + off] == d[off];
    if WireType(d[off]) == 0 {
      VarintShift(p, d, off);
    } else if WireType(d[off]) == 2 {
      DelimitedShift(p, d, off);
    }
  }

  lemma VarintShift(p: seq<byte>, d: seq<byte>, off: nat)
    requires off < |d| && WireType(d[off]) == 0
    ensures Next(p + d, |p| + off) == ShiftStep(Next(d, off), |p|)
  {
    assert (p + d)[|p| + off] == d[off];
    AtShift(p, d, off + 1);
  }

  lemma DelimitedShift(p: seq<byte>, d: seq<byte>, off: nat)
    requires off < |d| && WireType(d[off]) == 2
    ensures Next(p + d, |p| + off) == ShiftStep(Next(d, off), |p|)
  {
    if off + 1 < |d| {
      DelimitedShiftWithLength(p, d, off);
    } else {
      DelimitedKeyAtEnd(d);
      assert (p + d)[|p| + off] == d[off];
      DelimitedKeyAtEnd(p + d);
    }
  }

  lemma DelimitedShiftWithLength(p: seq<byte>, d: seq<byte>, off: nat)
    requires off + 1 < |d| && WireType(d[off]) == 2
    ensures Next(p + d, |p| + off) == ShiftStep(Next(d, off), |p|)
  {
    var data := p + d;
    assert data[|p| + off] == d[off];
    assert data[|p| + off + 1] == d[off + 1];
    var end := off + 2 + d[off + 1] as int;
    NextDelimited(d, off);
    NextDelimited(data, |p| + off);
    SliceShift(p, d, off + 2, end);
  }

  /** The delimited case of `Next` when the length byte is present. */
  lemma NextDelimited(data: seq<byte>, off: nat)
    requires off + 1 < |data| && WireType(data[off]) == 2
    ensures var end := off + 2 + data[off + 1] as int;
            Next(data, off) == Read(Delimited(FieldNumber(data[off]), Slice(data, off + 2, end)), Some(end))
  {
  }

  lemma AtShift(p: seq<byte>, d: seq<byte>, i: nat)
    ensures At(p + d, |p| + i) == At(d, i)
  {
    if i < |d| {
      assert (p + d)[|p| + i] == d[i];
    }
  }

  lemma SliceShift(p: seq<byte>, d: seq<byte>, start: nat, end: nat)
    ensures Slice(p + d, |p| + start, |p| + end) == Slice(d, start, end)
  {
    var data := p + d;
    if start <= |d| && start <= end {
      if end <= |d| {
        assert data[|p| + start..|p| + end] == d[start..end];
      } else {
        assert data[|p| + start..] == d[start..];
      }
    }
  }

  lemma {:induction false} FieldsShift(p: seq<byte>, d: seq<byte>, off: nat)
    ensures Fields(p + d, |p| + off) == Fields(d, off)
    decreases |d| - off
  {
    if off < |d| {
      var step := Next(d, off);
      assert Next(p + d, |p| + off) == ShiftStep(step, |p|) by {
        NextShift(p, d, off);
      }
      match step
      case Stop =>
      case Read(f, None) =>
      case Read(f, Some(n)) =>
        calc {
          Fields(p + d, |p| + off);
          [f] + Fields(p + d, |p| + n);
          { FieldsShift(p, d, n); }
          [f] + Fields(d, n);
        }
    }
  }

  lemma FieldsOfOneEncoding(f: RawField, tail: seq<byte>)
    requires Encodable(f)
    ensures Fields(EncodeField(f) + tail, 0) == [f] + Fields(tail, 0)
  {
    var head := EncodeField(f);
    NextOfEncoding(f, tail);
    assert Fields(head + tail, 0) == [f] + Fields(head + tail, |head|);
    FieldsShift(head, tail, 0);
  }

  lemma EncodeFieldsCons(fs: seq<RawField>)
    requires AllEncodable(fs) && fs != []
    ensures Encodable(fs[0]) && AllEncodable(fs[1..])
    ensures EncodeFields(fs) == EncodeField(fs[0]) + EncodeFields(fs[1..])
  {
    assert Encodable(fs[0]);
  }

  /** Encoded fields are read back one by one, and then reading carries on
      with whatever follows them. */
  lemma {:induction false} FieldsOfEncoding(fs: seq<RawField>, d: seq<byte>)
    requires AllEncodable(fs)
    ensures Fields(EncodeFields(fs) + d, 0) == fs + Fields(d, 0)
    decreases |fs|
  {
    if fs == [] {
      assert EncodeFields(fs) + d == d;
    } else {
      var f, rest := fs[0], fs[1..];
      assert fs == [f] + rest && Encodable(f);
      FieldsOfEncoding(rest, d);
      FieldsOfEncodingStep(f, rest, d);
    }
  }

  /** The inductive step of `FieldsOfEncoding`: the first encoded field is
      read, then the rest as the hypothesis says. */
  lemma FieldsOfEncodingStep(f: RawField, rest: seq<RawField>, d: seq<byte>)
    requires Encodable(f) && AllEncodable(rest)
    requires Fields(EncodeFields(rest) + d, 0) == rest + Fields(d, 0)
    ensures AllEncodable([f] + rest)
    ensures Fields(EncodeFields([f] + rest) + d, 0) == [f] + rest + Fields(d, 0)
  {
    var tail := EncodeFields(rest) + d;
    EncodePrepend(f, rest, d);
    FieldsOfOneEncoding(f, tail);
    AppendAssoc([f], rest, Fields(d, 0));
  }

  lemma AppendAssoc<T>(a: seq<T>, b: seq<T>, c: seq<T>)
    ensures a + b + c == a + (b + c)
  {
  }

  lemma EncodePrepend(f: RawField, rest: seq<RawField>, d: seq<byte>)
    requires Encodable(f) && AllEncodable(rest)
    ensures AllEncodable([f] + rest)
    ensures EncodeFields([f] + rest) + d == EncodeField(f) + (EncodeFields(rest) + d)
  {
    var fs := [f] + rest;
    assert fs[0] == f && fs[1..] == rest;
    assert AllEncodable(fs) by {
      forall i | 0 <= i < |fs| ensures Encodable(fs[i]) {
        if i > 0 { assert fs[i] == rest[i - 1]; }
      }
    }
  }

  /** Reading an encoded message gives back exactly its fields. */
  lemma FieldsRoundTrip(fs: seq<RawField>)
    requires AllEncodable(fs)
    ensures Fields(EncodeFields(fs), 0) == fs
  {
    FieldsOfEncoding(fs, []);
    assert EncodeFields(fs) + [] == EncodeFields(fs);
  }

  // ---------------------------------------------------------------------
  // How particular byte patterns are read

  lemma KeyRebuild(key: byte)
    ensures FieldNumber(key) < 32 && WireType(key) < 8
    ensures Key(FieldNumber(key), WireType(key)) == key
  {
  }

  /** A varint key and its value byte form one field, and reading carries on
      after them. */
  lemma FieldsOfVarintBytes(key: byte, v: byte, rest: seq<byte>)
    requires WireType(key) == 0
    ensures Fields([key, v] + rest, 0) == [Varint(FieldNumber(key), Some(v))] + Fields(rest, 0)
  {
    KeyRebuild(key);
    FieldsOfOneEncoding(Varint(FieldNumber(key), Some(v)), rest);
  }

  /** A length-delimited key, a length byte and that many bytes form one field,
      and reading carries on after them. */
  lemma FieldsOfDelimitedBytes(key: byte, body: seq<byte>, rest: seq<byte>)
    requires WireType(key) == 2 && |body| < 256
    ensures Fields([key, |body| as bv8] + body + rest, 0) == [Delimited(FieldNumber(key), body)] + Fields(rest, 0)
  {
    KeyRebuild(key);
    var f := Delimited(FieldNumber(key), body);
    assert EncodeField(f) == [key, |body| as bv8] + body;
    FieldsOfOneEncoding(f, rest);
  }

  /** A key of any wire type but 0 and 2 ends the message: nothing from it on
      is read. */
  lemma FieldsOfUnknownWireType(key: byte, rest: seq<byte>)
    requires WireType(key) != 0 && WireType(key) != 2
    ensures Fields([key] + rest, 0) == []
  {
    assert ([key] + rest)[0] == key;
  }

  /** A key in the last byte still yields a field: a varint without a value,
      or an empty payload. */
  lemma FieldsOfTrailingKey(key: byte)
    ensures WireType(key) == 0 ==> Fields([key], 0) == [Varint(FieldNumber(key), None)]
    ensures WireType(key) == 2 ==> Fields([key], 0) == [Delimited(FieldNumber(key), [])]
  {
    if WireType(key) == 0 {
      assert Next([key], 0) == Read(Varint(FieldNumber(key), None), Some(2));
    }
  }

  /** A declared length that overruns the buffer yields whatever is left, and
      nothing is read after it. */
  lemma FieldsOfOverrun(key: byte, len: byte, tail: seq<byte>)
    requires WireType(key) == 2 && |tail| < len as int
    ensures Fields([key, len] + tail, 0) == [Delimited(FieldNumber(key), tail)]
  {
    var data := [key, len] + tail;
    var f := Delimited(FieldNumber(key), tail);
    assert data[0] == key && At(data, 1) == Some(len);
    assert Slice(data, 2, 2 + len as int) == tail by {
      SliceClamps(data, 2, 2 + len as int);
      assert data[2..] == tail;
    }
    assert Next(data, 0) == Read(f, Some(2 + len as int));
    assert Fields(data, 2 + len as int) == [];
    assert [f] + [] == [f];
  }
}
