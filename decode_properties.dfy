/** What the read side does as written that a reader of the descriptors
    might not expect. */
module DecodeProperties {
  import opened Wrappers
  import opened Wire
  import opened Values
  import opened Schema
  import opened EncodeSpec
  import opened DecodeSpec
  import opened Frames

  /** A number field reads big-endian within its width, and null once the
      width runs past the end of the buffer. */
  lemma NumberRead(buf: seq<Byte>, d: Field, offset: nat)
    requires KindOf(d.tag).Number()
    ensures var w := Width(KindOf(d.tag));
            var v := ReadValue(buf, d, offset, None);
            && (v.Null? <==> offset + w > |buf|)
            && (v.Num? ==> 0 <= v.n < Pow256(w) && BigEndian(v.n, w) == buf[offset..offset + w])
  {
    var w := Width(KindOf(d.tag));
    if offset + w <= |buf| {
      FromBigEndianBound(buf[offset..offset + w]);
      FromBigEndianRoundTrip(buf[offset..offset + w]);
    }
  }

  /** A `uint64` field reads everything from its offset to the end of the
      buffer as a string, not eight bytes, although the offset then moves on
      by eight. */
  lemma UInt64ReadsToEnd(buf: seq<Byte>, d: Field, offset: nat)
    requires KindOf(d.tag).UInt64Tag?
    ensures offset <= |buf| ==> ReadValue(buf, d, offset, None) == Text(buf[offset..])
    ensures offset > |buf| ==> ReadValue(buf, d, offset, None) == Text([])
  {
  }

  /** A `buffer`, `string` or `uint64` field with a length reads the bytes
      from its offset up to offset + length, and without one the bytes up to
      the end; `buffer` gives them as a Buffer, the other two as a string. */
  lemma PayloadRead(buf: seq<Byte>, d: Field, offset: nat, length: Option<int>)
    requires var k := KindOf(d.tag); k.BufferTag? || k.StringTag? || k.UInt64Tag?
    ensures length.Some? && 0 <= length.value && offset + length.value <= |buf| ==>
              ReadValue(buf, d, offset, length) == Carried(d, buf[offset..offset + length.value])
    ensures length.None? && offset <= |buf| ==>
              ReadValue(buf, d, offset, length) == Carried(d, buf[offset..])
    ensures offset >= |buf| ==> ReadValue(buf, d, offset, length) == Carried(d, [])
  {
  }

  /** The bytes as the read helper returns them for the field's tag. */
  function Carried(d: Field, bytes: seq<Byte>): Value
  {
    if KindOf(d.tag).BufferTag? then Bytes(bytes) else Text(bytes)
  }

  /** Reading a sub-frame descriptor never moves the offset, replaces the
      field with an object and leaves every other field alone; the
      discriminator is looked up after the field was set to {}, and a value
      with no registered frame throws. */
  lemma SubFrameReadsInPlace(fr: Frame, i: nat, buf: seq<Byte>, c: Cursor)
    requires i < |fr.fields| && fr.fields[i].tag == "subFrame"
    ensures var d := fr.fields[i];
            var r := Step(fr, i, buf, c);
            r.Ok? ==>
              && r.value.offset == c.offset
              && d.name in r.value.instance && r.value.instance[d.name].Record?
              && (forall key :: key != d.name ==>
                    (key in r.value.instance <==> key in c.instance)
                    && (key in c.instance ==> r.value.instance[key] == c.instance[key]))
    ensures var d := fr.fields[i];
            d.choose.Some? ==>
              var key := Lookup(c.instance[d.name := Record(map[])], d.choose.value.discriminator);
              (key.Undefined? || key.Null? || key.Record? || (key.Num? && key.n !in d.choose.value.subFrames)) ==>
                Step(fr, i, buf, c) == Err(TypeError)
    ensures fr.fields[i].choose.None? ==> Step(fr, i, buf, c) == Err(TypeError)
  {
    SubFrameTagKind(fr.fields[i].tag);
  }

  /** The frame [optional uint8 a, uint8 b]. */
  function OptionalFirst(): Frame
  {
    Frame([Field("a", "uint8", true, Absent, None), Field("b", "uint8", false, Absent, None)], None)
  }

  /** Frame.write leaves optional fields out but Frame.read still reads them:
      {a: 7, b: 5} is written as the single byte 5, which reads back as
      {a: 5, b: null}. */
  lemma OptionalFieldShiftsRead()
    ensures FrameEncode(OptionalFirst(), SevenFive()) == Ok([5])
    ensures FrameDecode(OptionalFirst(), [5], map[], 0) == Ok(map["a" := Num(5), "b" := Null])
  {
    OptionalFieldSkipped();
    OptionalFieldRead();
  }

  /** The message {a: 7, b: 5}. */
  function SevenFive(): Value
  {
    Record(map["a" := Num(7), "b" := Num(5)])
  }

  lemma OptionalFieldSkipped()
    ensures FrameEncode(OptionalFirst(), SevenFive()) == Ok([5])
  {
    var fr := OptionalFirst();
    SkippedChunks();
    EncodeChunks(fr, SevenFive(), [Bytes([5])]);
    FlattenSingle([5]);
  }

  /** Frame.write's chunks for {a: 7, b: 5}: nothing for a, one byte for b. */
  lemma SkippedChunks()
    ensures Chunks(OptionalFirst(), SevenFive(), 2) == Ok([Bytes([5])])
  {
    var fr := OptionalFirst();
    var m := SevenFive();
    var none: seq<Value> := [];
    OptionalChunk();
    ByteChunk();
    ChunksSnoc(fr, m, 1, none, none);
    assert none + none == none;
    ChunksSnoc(fr, m, 2, none, [Bytes([5])]);
    assert none + [Bytes([5])] == [Bytes([5])];
  }

  /** The optional field a gives no chunk. */
  lemma OptionalChunk()
    ensures Chunk(OptionalFirst().fields[0], SevenFive()) == Ok([])
  {
    assert FrameTypeLength("uint8") == Ok(1);
  }

  /** The field b gives the Buffer [5]. */
  lemma ByteChunk()
    ensures Chunk(OptionalFirst().fields[1], SevenFive()) == Ok([Bytes([5])])
  {
    var d := OptionalFirst().fields[1];
    assert KindOf(d.tag) == UInt8Tag;
    assert Member(SevenFive(), "b") == Num(5);
    NumberChunk(d, SevenFive());
    assert BigEndian(5, 1) == [5];
  }

  lemma OptionalFieldRead()
    ensures FrameDecode(OptionalFirst(), [5], map[], 0) == Ok(map["a" := Num(5), "b" := Null])
  {
    var fr := OptionalFirst();
    var buf: seq<Byte> := [5];
    assert FrameTypeLength("uint8") == Ok(1);
    assert buf[0..1] == [5];
    assert FromBigEndian([5]) == 5;
    var c1 := Cursor(map["a" := Num(5)], 1);
    assert Step(fr, 0, buf, Cursor(map[], 0)) == Ok(c1);
    var c2 := Cursor(map["a" := Num(5), "b" := Null], 2);
    assert Step(fr, 1, buf, c1) == Ok(c2);
    assert Steps(fr, buf, c2, 2) == Ok(c2);
  }
}
