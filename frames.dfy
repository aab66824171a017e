/** Whole-frame properties: the layout Frame.write produces for a frame of
    numbers, Frame.read giving those numbers back, how far Frame.read moves,
    and which descriptors Frame.write can handle at all. */
module Frames {
  import opened Wrappers
  import opened Wire
  import opened Values
  import opened Schema
  import opened EncodeSpec
  import opened DecodeSpec

  /** A required uint8/uint16/uint32 field whose value in the message is a
      number that fits. */
  predicate NumberField(d: Field, m: Value)
  {
    && KindOf(d.tag).Number()
    && !d.optional
    && Member(m, d.name).Num?
    && 0 <= Member(m, d.name).n < Pow256(Width(KindOf(d.tag)))
  }

  predicate NumberFields(fs: seq<Field>, m: Value)
  {
    forall i :: 0 <= i < |fs| ==> NumberField(fs[i], m)
  }

  /** Fields i..j are all number fields, stated one field at a time. */
  predicate NumbersFrom(fs: seq<Field>, i: nat, j: nat, m: Value)
    requires i <= j <= |fs|
    decreases j - i
  {
    i == j || (NumberField(fs[i], m) && NumbersFrom(fs, i + 1, j, m))
  }

  lemma {:induction false} NumbersFromAll(fs: seq<Field>, i: nat, j: nat, m: Value)
    requires i <= j <= |fs| && forall k :: i <= k < j ==> NumberField(fs[k], m)
    ensures NumbersFrom(fs, i, j, m)
    decreases j - i
  {
    if i < j {
      NumbersFromAll(fs, i + 1, j, m);
    }
  }

  lemma {:induction false} NumbersFromForall(fs: seq<Field>, i: nat, j: nat, m: Value)
    requires i <= j <= |fs| && NumbersFrom(fs, i, j, m)
    ensures forall k :: i <= k < j ==> NumberField(fs[k], m)
    decreases j - i
  {
    if i < j {
      NumbersFromForall(fs, i + 1, j, m);
    }
  }

  /** The bytes of one number field (none for any other field). */
  function Encoded(d: Field, m: Value): seq<Byte>
  {
    if NumberField(d, m) then BigEndian(Member(m, d.name).n, Width(KindOf(d.tag))) else []
  }

  /** One Buffer per field for the first n fields, as Frame.write collects
      them. */
  function FieldChunks(fs: seq<Field>, n: nat, m: Value): (r: seq<Value>)
    requires n <= |fs|
    ensures |r| == n && AllBytes(r)
  {
    if n == 0 then [] else FieldChunks(fs, n - 1, m) + [Bytes(Encoded(fs[n - 1], m))]
  }

  /** Fields i..j one after the other, each big-endian in its own width. */
  function Layout(fs: seq<Field>, i: nat, j: nat, m: Value): seq<Byte>
    requires i <= j <= |fs|
    decreases j - i
  {
    if i == j then [] else Encoded(fs[i], m) + Layout(fs, i + 1, j, m)
  }

  /** The names of fields i..j. */
  function Names(fs: seq<Field>, i: nat, j: nat): set<string>
    requires i <= j <= |fs|
  {
    set k | i <= k < j :: fs[k].name
  }

  /** The instance after `instance[name] = message[name]` for fields i..j
      in order. */
  function Assigned(inst: map<string, Value>, fs: seq<Field>, i: nat, j: nat, m: Value): map<string, Value>
    requires i <= j <= |fs|
    decreases j - i
  {
    if i == j then inst else Assigned(inst[fs[i].name := Member(m, fs[i].name)], fs, i + 1, j, m)
  }

  /** The sum of the widths of the fixed-width fields i..j. */
  function Widths(fs: seq<Field>, i: nat, j: nat): nat
    requires i <= j <= |fs| && forall k :: i <= k < j ==> KindOf(fs[k].tag).Fixed()
    decreases j - i
  {
    if i == j then 0 else Width(KindOf(fs[i].tag)) + Widths(fs, i + 1, j)
  }

  /** The instance gets every field's value from the message and keeps what
      it held under other names. */
  lemma {:induction false} AssignedFields(inst: map<string, Value>, fs: seq<Field>, i: nat, j: nat, m: Value)
    requires i <= j <= |fs|
    ensures forall key :: key in Assigned(inst, fs, i, j, m) <==> key in inst || key in Names(fs, i, j)
    ensures forall key :: key in Assigned(inst, fs, i, j, m) ==>
              Assigned(inst, fs, i, j, m)[key] == if key in Names(fs, i, j) then Member(m, key) else inst[key]
    decreases j - i
  {
    if i < j {
      AssignedFields(inst[fs[i].name := Member(m, fs[i].name)], fs, i + 1, j, m);
      assert Names(fs, i, j) == {fs[i].name} + Names(fs, i + 1, j);
    }
  }

  /** Into an empty instance, exactly the fields' names are assigned, each
      to its value in the message. */
  lemma AssignedFresh(fs: seq<Field>, i: nat, j: nat, m: Value)
    requires i <= j <= |fs|
    ensures forall key :: key in Assigned(map[], fs, i, j, m) <==> key in Names(fs, i, j)
    ensures forall key :: key in Assigned(map[], fs, i, j, m) ==> Assigned(map[], fs, i, j, m)[key] == Member(m, key)
  {
    AssignedFields(map[], fs, i, j, m);
  }

  /** The layout ends with its last field. */
  lemma {:induction false} LayoutSnoc(fs: seq<Field>, i: nat, j: nat, m: Value)
    requires i < j <= |fs|
    ensures Layout(fs, i, j, m) == Layout(fs, i, j - 1, m) + Encoded(fs[j - 1], m)
    decreases j - i
  {
    if i + 1 < j {
      LayoutSnoc(fs, i + 1, j, m);
      AppendAssoc(Encoded(fs[i], m), Layout(fs, i + 1, j - 1, m), Encoded(fs[j - 1], m));
    } else {
      assert Layout(fs, i + 1, j, m) == [] && Layout(fs, i, j - 1, m) == [];
      assert Encoded(fs[i], m) + [] == [] + Encoded(fs[i], m);
    }
  }

  /** Buffer.concat of the chunks of the first n fields is their layout. */
  lemma {:induction false} ChunksLayout(fs: seq<Field>, n: nat, m: Value)
    requires n <= |fs|
    ensures Flatten(FieldChunks(fs, n, m)) == Layout(fs, 0, n, m)
  {
    if n > 0 {
      ChunksLayout(fs, n - 1, m);
      FlattenSnoc(FieldChunks(fs, n - 1, m), Encoded(fs[n - 1], m), Layout(fs, 0, n - 1, m));
      LayoutSnoc(fs, 0, n, m);
    }
  }

  /** The width of the layout is the sum of the field widths. */
  lemma {:induction false} LayoutLength(fs: seq<Field>, i: nat, j: nat, m: Value)
    requires i <= j <= |fs| && forall k :: i <= k < j ==> NumberField(fs[k], m)
    ensures forall k :: i <= k < j ==> KindOf(fs[k].tag).Fixed()
    ensures |Layout(fs, i, j, m)| == Widths(fs, i, j)
    decreases j - i
  {
    if i < j {
      LayoutLength(fs, i + 1, j, m);
    }
  }

  /** Frame.write's chunk for a number field is its big-endian bytes. */
  lemma NumberChunk(d: Field, m: Value)
    requires NumberField(d, m) && m.Record?
    ensures Chunk(d, m) == Ok([Bytes(Encoded(d, m))])
  {
    var w := Width(KindOf(d.tag));
    assert FrameTypeLength(d.tag) == Ok(w);
    HelperKindDropsArrays(d.tag);
    assert Overwrite(Zeros(w), 0, Encoded(d, m)) == Encoded(d, m);
  }

  /** Frame.write's chunks for the first i fields, when they are numbers. */
  lemma {:induction false} NumberChunks(fr: Frame, m: Value, i: nat)
    requires i <= |fr.fields| && m.Record?
    requires forall k :: 0 <= k < i ==> NumberField(fr.fields[k], m)
    ensures Chunks(fr, m, i) == Ok(FieldChunks(fr.fields, i, m))
  {
    if i > 0 {
      NumberChunks(fr, m, i - 1);
      var d := fr.fields[i - 1];
      NumberChunk(d, m);
      ChunksSnoc(fr, m, i, FieldChunks(fr.fields, i - 1, m), [Bytes(Encoded(d, m))]);
    }
  }

  lemma ChunksSnoc(fr: Frame, m: Value, i: nat, prev: seq<Value>, last: seq<Value>)
    requires 0 < i <= |fr.fields|
    requires Chunks(fr, m, i - 1) == Ok(prev) && Chunk(fr.fields[i - 1], m) == Ok(last)
    ensures Chunks(fr, m, i) == Ok(prev + last)
  {
  }

  /** Frame.write of a frame of required numbers gives each number
      big-endian in its own width, in order: as many bytes as the widths add
      up to. */
  lemma NumberFrameEncoding(fr: Frame, m: Value)
    requires Prepared(fr, m).Record? && NumberFields(fr.fields, Prepared(fr, m))
    ensures FrameEncode(fr, m) == Ok(Layout(fr.fields, 0, |fr.fields|, Prepared(fr, m)))
    ensures |Layout(fr.fields, 0, |fr.fields|, Prepared(fr, m))| == Widths(fr.fields, 0, |fr.fields|)
  {
    var pm := Prepared(fr, m);
    NumberChunks(fr, pm, |fr.fields|);
    ChunksLayout(fr.fields, |fr.fields|, pm);
    EncodeChunks(fr, m, FieldChunks(fr.fields, |fr.fields|, pm));
    LayoutLength(fr.fields, 0, |fr.fields|, pm);
  }

  /** Frame.write is Buffer.concat of the chunks. */
  lemma EncodeChunks(fr: Frame, m: Value, chunks: seq<Value>)
    requires Chunks(fr, Prepared(fr, m), |fr.fields|) == Ok(chunks)
    ensures FrameEncode(fr, m) == Concat(chunks)
  {
  }

  /** Frame.read of one number field over its bytes at the offset. */
  lemma NumberStep(fr: Frame, i: nat, buf: seq<Byte>, c: Cursor, m: Value, pre: seq<Byte>, post: seq<Byte>)
    requires i < |fr.fields| && NumberField(fr.fields[i], m)
    requires buf == pre + Encoded(fr.fields[i], m) + post && c.offset == |pre|
    ensures var d := fr.fields[i];
            Step(fr, i, buf, c)
            == Ok(Cursor(c.instance[d.name := Member(m, d.name)], |pre| + |Encoded(d, m)|))
  {
    var d := fr.fields[i];
    var w := Width(KindOf(d.tag));
    MiddleSlice(pre, Encoded(d, m), post);
    BigEndianRoundTrip(Member(m, d.name).n, w);
    assert FrameTypeLength(d.tag) == Ok(w);
  }

  /** Frame.read goes on from where a successful step leaves it. */
  lemma StepsAfter(fr: Frame, buf: seq<Byte>, c: Cursor, i: nat, next: Cursor)
    requires i < |fr.fields| && Step(fr, i, buf, c) == Ok(next)
    ensures Steps(fr, buf, c, i) == Steps(fr, buf, next, i + 1)
  {
  }

  /** Reading the first of fields i..j leaves the layout of the others at
      the new offset. */
  lemma NextNumberField(fr: Frame, buf: seq<Byte>, c: Cursor, i: nat, j: nat, m: Value,
                        pre: seq<Byte>, post: seq<Byte>)
    requires i < j <= |fr.fields| && NumberField(fr.fields[i], m)
    requires buf == pre + Layout(fr.fields, i, j, m) + post && c.offset == |pre|
    ensures var d := fr.fields[i];
            var e := Encoded(d, m);
            && Steps(fr, buf, c, i)
               == Steps(fr, buf, Cursor(c.instance[d.name := Member(m, d.name)], |pre + e|), i + 1)
            && buf == (pre + e) + Layout(fr.fields, i + 1, j, m) + post
            && Cursor(Assigned(c.instance, fr.fields, i, j, m), |pre| + |Layout(fr.fields, i, j, m)|)
               == Cursor(Assigned(c.instance[d.name := Member(m, d.name)], fr.fields, i + 1, j, m),
                         |pre + e| + |Layout(fr.fields, i + 1, j, m)|)
  {
    var d := fr.fields[i];
    var e := Encoded(d, m);
    var rest := Layout(fr.fields, i + 1, j, m);
    AppendAssoc(pre, e, rest);
    AppendAssoc(pre, e + rest, post);
    AppendAssoc(e, rest, post);
    AppendAssoc(pre + e, rest, post);
    NumberStep(fr, i, buf, c, m, pre, rest + post);
    StepsAfter(fr, buf, c, i, Cursor(c.instance[d.name := Member(m, d.name)], |pre| + |e|));
  }

  /** Frame.read over the layout of the number fields i..j found at the
      offset: each field gets its number back, and the offset moves past the
      layout, whatever comes before or after it. */
  lemma {:induction false} ReadNumberFields(fr: Frame, buf: seq<Byte>, c: Cursor, i: nat, j: nat, m: Value,
                                            pre: seq<Byte>, post: seq<Byte>)
    requires i <= j <= |fr.fields| && NumbersFrom(fr.fields, i, j, m)
    requires buf == pre + Layout(fr.fields, i, j, m) + post && c.offset == |pre|
    ensures Steps(fr, buf, c, i)
            == Steps(fr, buf, Cursor(Assigned(c.instance, fr.fields, i, j, m), |pre| + |Layout(fr.fields, i, j, m)|), j)
    decreases j - i
  {
    if i < j {
      var d := fr.fields[i];
      var e := Encoded(d, m);
      var next := Cursor(c.instance[d.name := Member(m, d.name)], |pre + e|);
      NextNumberField(fr, buf, c, i, j, m, pre, post);
      ReadNumberFields(fr, buf, next, i + 1, j, m, pre + e, post);
    } else {
      NoFieldsRead(c.instance, fr.fields, i, m, |pre|);
    }
  }

  /** Reading no fields ends where it starts. */
  lemma NoFieldsRead(inst: map<string, Value>, fs: seq<Field>, i: nat, m: Value, offset: nat)
    requires i <= |fs|
    ensures Cursor(Assigned(inst, fs, i, i, m), offset + |Layout(fs, i, i, m)|) == Cursor(inst, offset)
  {
  }

  /** Round trip: Frame.read of what Frame.write produced for a frame of
      required numbers gives back exactly those fields with the message's
      values (after `prepare`), also with bytes following the frame. */
  lemma NumberFrameRoundTrip(fr: Frame, m: Value, post: seq<Byte>)
    requires Prepared(fr, m).Record? && NumberFields(fr.fields, Prepared(fr, m))
    ensures FrameEncode(fr, m).Ok?
    ensures var r := FrameDecode(fr, FrameEncode(fr, m).value + post, map[], 0);
            && r.Ok?
            && (forall key :: key in r.value <==> key in Names(fr.fields, 0, |fr.fields|))
            && (forall key :: key in r.value ==> r.value[key] == Member(Prepared(fr, m), key))
  {
    var pm := Prepared(fr, m);
    NumberFrameEncoding(fr, m);
    EmptyPrefix(Layout(fr.fields, 0, |fr.fields|, pm), post);
    NumbersFromAll(fr.fields, 0, |fr.fields|, pm);
    NumberFrameRead(fr, pm, [], post);
    AssignedFresh(fr.fields, 0, |fr.fields|, pm);
  }

  /** Frame.read into an empty instance of the layout of a frame of
      numbers, found at the offset, assigns every field its number. */
  lemma NumberFrameRead(fr: Frame, m: Value, pre: seq<Byte>, post: seq<Byte>)
    requires NumbersFrom(fr.fields, 0, |fr.fields|, m)
    ensures FrameDecode(fr, pre + Layout(fr.fields, 0, |fr.fields|, m) + post, map[], |pre|)
            == Ok(Assigned(map[], fr.fields, 0, |fr.fields|, m))
  {
    ReadNumberFields(fr, pre + Layout(fr.fields, 0, |fr.fields|, m) + post, Cursor(map[], |pre|), 0, |fr.fields|, m, pre, post);
  }

  /** Frame.read moves past every fixed-width field, optional ones
      included, and never fails on them (a read past the end gives null). */
  lemma {:induction false} FixedFieldsAdvance(fr: Frame, buf: seq<Byte>, c: Cursor, i: nat)
    requires i <= |fr.fields|
    requires forall j :: 0 <= j < |fr.fields| ==> KindOf(fr.fields[j].tag).Fixed()
    ensures Steps(fr, buf, c, i).Ok?
    ensures Steps(fr, buf, c, i).value.offset == c.offset + Widths(fr.fields, i, |fr.fields|)
    decreases |fr.fields| - i
  {
    if i < |fr.fields| {
      var d := fr.fields[i];
      var w := Width(KindOf(d.tag));
      assert FrameTypeLength(d.tag) == Ok(w);
      var next := Cursor(c.instance[d.name := ReadValue(buf, d, c.offset, None)], c.offset + w);
      assert Step(fr, i, buf, c) == Ok(next);
      FixedFieldsAdvance(fr, buf, next, i + 1);
    }
  }

  /** A descriptor Frame.write can emit bytes for when the message is an
      object: a fixed-width field, or a sub-frame without a length prefix
      whose key selects a registered frame. */
  predicate Direct(d: Field, m: Value)
  {
    || KindOf(d.tag).Fixed()
    || (d.tag == "subFrame" && d.length.Absent? && d.choose.Some? && Selected(d.choose.value, m).Some?)
  }

  /** Whatever the helper returns for a variable-width descriptor with a
      null buffer and an object as the message is not a Buffer, except for a
      selected sub-frame without a length prefix. */
  lemma RecordChunk(d: Field, m: Value)
    requires m.Record? && !d.optional
    requires Chunk(d, m).Ok? && AllBytes(Chunk(d, m).value)
    ensures Direct(d, m)
  {
    FrameTypeLengthIsBitsOverEight(d.tag);
    if !KindOf(d.tag).Fixed() {
      assert FrameTypeLength(d.tag) == Ok(-1 as int);
      HelperKindDropsArrays(d.tag);
      var written := WriteHelper(None, m, d, 0);
      assert written.Ok? && Chunk(d, m).value == [written.value.returned];
      assert written.value.returned.Bytes? by {
        assert Chunk(d, m).value[0] == written.value.returned;
      }
      var k := HelperKind(d.tag);
      if k.SubFrameTag? {
        assert d.tag == "subFrame";
        assert written == WriteSubFrame(None, m, d, 0);
      }
    }
  }

  /** When Frame.write's chunks for the first i fields are all Buffers,
      so is the chunk of each of those fields. */
  lemma {:induction false} ChunkOfBytes(fr: Frame, m: Value, i: nat, j: nat)
    requires j < i <= |fr.fields|
    requires Chunks(fr, m, i).Ok? && AllBytes(Chunks(fr, m, i).value)
    ensures Chunk(fr.fields[j], m).Ok? && AllBytes(Chunk(fr.fields[j], m).value)
  {
    BytesChunksSplit(fr, m, i);
    if j < i - 1 {
      ChunkOfBytes(fr, m, i - 1, j);
    } else {
      assert fr.fields[j] == fr.fields[i - 1];
    }
  }

  /** Buffers for the first i fields are Buffers for the first i-1 fields
      followed by Buffers for field i-1. */
  lemma BytesChunksSplit(fr: Frame, m: Value, i: nat)
    requires 0 < i <= |fr.fields|
    requires Chunks(fr, m, i).Ok? && AllBytes(Chunks(fr, m, i).value)
    ensures Chunks(fr, m, i - 1).Ok? && AllBytes(Chunks(fr, m, i - 1).value)
    ensures Chunk(fr.fields[i - 1], m).Ok? && AllBytes(Chunk(fr.fields[i - 1], m).value)
  {
    ChunksSplit(fr, m, i);
    AllBytesSplit(Chunks(fr, m, i - 1).value, Chunk(fr.fields[i - 1], m).value);
  }

  /** A successful Frame.write of the first i fields appended the chunk of
      field i-1 to those of the fields before it. */
  lemma ChunksSplit(fr: Frame, m: Value, i: nat)
    requires 0 < i <= |fr.fields| && Chunks(fr, m, i).Ok?
    ensures Chunks(fr, m, i - 1).Ok? && Chunk(fr.fields[i - 1], m).Ok?
    ensures Chunks(fr, m, i).value == Chunks(fr, m, i - 1).value + Chunk(fr.fields[i - 1], m).value
  {
  }

  /** With an object as the message, Frame.write succeeds only if every
      required descriptor is fixed-width or an unprefixed sub-frame with a
      registered key: a buffer, string or array field, a prefixed sub-frame
      or an unregistered key all end in an exception. */
  lemma FrameEncodeNeedsDirectFields(fr: Frame, m: Value)
    requires Prepared(fr, m).Record? && FrameEncode(fr, m).Ok?
    ensures forall j :: 0 <= j < |fr.fields| && !fr.fields[j].optional ==> Direct(fr.fields[j], Prepared(fr, m))
  {
    var pm := Prepared(fr, m);
    forall j | 0 <= j < |fr.fields| && !fr.fields[j].optional
      ensures Direct(fr.fields[j], pm)
    {
      ChunkOfBytes(fr, pm, |fr.fields|, j);
      RecordChunk(fr.fields[j], pm);
    }
  }

  /** The bytes Frame.write gives the first j descriptors when they are all
      fixed-width: the widths of the required ones. */
  function RequiredWidths(fs: seq<Field>, j: nat): nat
    requires j <= |fs|
  {
    if j == 0 then 0 else RequiredWidths(fs, j - 1) + FieldWidth(fs[j - 1])
  }

  /** The width of a required fixed-width descriptor; 0 for any other. */
  function FieldWidth(d: Field): nat
  {
    if d.optional || !KindOf(d.tag).Fixed() then 0 else Width(KindOf(d.tag))
  }

  /** The first j descriptors are all fixed-width, stated one at a time. */
  predicate FixedUpTo(fs: seq<Field>, j: nat)
    requires j <= |fs|
  {
    j == 0 || (FixedUpTo(fs, j - 1) && KindOf(fs[j - 1].tag).Fixed())
  }

  lemma {:induction false} FixedUpToAll(fs: seq<Field>, j: nat)
    requires j <= |fs| && forall k :: 0 <= k < j ==> KindOf(fs[k].tag).Fixed()
    ensures FixedUpTo(fs, j)
  {
    if j > 0 {
      FixedUpToAll(fs, j - 1);
    }
  }

  /** An optional descriptor with an accepted tag pushes nothing. */
  lemma OptionalPushesNothing(d: Field, m: Value)
    requires d.optional && FrameTypeLength(d.tag).Ok?
    ensures Chunk(d, m) == Ok([])
  {
  }

  /** A fixed-width descriptor pushes one Buffer of its width, or nothing
      when it is optional. */
  lemma FixedChunk(d: Field, m: Value)
    requires KindOf(d.tag).Fixed() && Chunk(d, m).Ok?
    ensures BytesOfLength(Chunk(d, m).value, FieldWidth(d))
  {
    var w := Width(KindOf(d.tag));
    assert FrameTypeLength(d.tag) == Ok(w as int);
    if d.optional {
      assert Chunk(d, m).value == [];
    } else {
      var v := Get(m, d.name).value;
      var written := WriteHelper(Some(Zeros(w)), v, d, 0).value;
      assert Chunk(d, m).value == [Bytes(written.buffer.value)];
      FlattenSingle(written.buffer.value);
    }
  }

  /** The chunks of the first i descriptors of an all-fixed frame hold the
      widths of the required ones. */
  lemma {:induction false} FixedChunksLength(fr: Frame, m: Value, i: nat)
    requires i <= |fr.fields| && Chunks(fr, m, i).Ok? && FixedUpTo(fr.fields, i)
    ensures BytesOfLength(Chunks(fr, m, i).value, RequiredWidths(fr.fields, i))
  {
    if i > 0 {
      ChunksSplit(fr, m, i);
      FixedChunksLength(fr, m, i - 1);
      FixedChunk(fr.fields[i - 1], m);
      AppendedLength(Chunks(fr, m, i - 1).value, Chunk(fr.fields[i - 1], m).value,
                     RequiredWidths(fr.fields, i - 1), FieldWidth(fr.fields[i - 1]));
    }
  }

  /** A list of Buffers holding n bytes in all. */
  predicate BytesOfLength(chunks: seq<Value>, n: nat)
  {
    AllBytes(chunks) && |Flatten(chunks)| == n
  }

  /** Two lists of Buffers one after the other hold the bytes of both. */
  lemma AppendedLength(prev: seq<Value>, more: seq<Value>, a: nat, b: nat)
    requires BytesOfLength(prev, a) && BytesOfLength(more, b)
    ensures BytesOfLength(prev + more, a + b)
  {
    FlattenAppend(prev, more);
  }

  /** Frame.write of a frame of fixed-width descriptors, optional ones and
      `uint64` included: every optional descriptor pushes nothing, and the
      output, when there is one, is as long as the widths of the required
      descriptors together. */
  lemma FixedFrameLength(fr: Frame, m: Value)
    requires forall j :: 0 <= j < |fr.fields| ==> KindOf(fr.fields[j].tag).Fixed()
    ensures forall j :: 0 <= j < |fr.fields| && fr.fields[j].optional ==> Chunk(fr.fields[j], Prepared(fr, m)) == Ok([])
    ensures FrameEncode(fr, m).Ok? ==> |FrameEncode(fr, m).value| == RequiredWidths(fr.fields, |fr.fields|)
  {
    forall j | 0 <= j < |fr.fields| && fr.fields[j].optional
      ensures Chunk(fr.fields[j], Prepared(fr, m)) == Ok([])
    {
      assert FrameTypeLength(fr.fields[j].tag) == Ok(Width(KindOf(fr.fields[j].tag)) as int);
      OptionalPushesNothing(fr.fields[j], Prepared(fr, m));
    }
    if FrameEncode(fr, m).Ok? {
      FixedUpToAll(fr.fields, |fr.fields|);
      FixedChunksLength(fr, Prepared(fr, m), |fr.fields|);
    }
  }
}
