/** A frame whose last descriptor is a sub-frame without a length prefix:
    Frame.write appends the chosen frame's bytes, and Frame.read looks the
    discriminator up in what it has read so far and reads the chosen frame
    from where the outer fields end. */
module NestedFrames {
  import opened Wrappers
  import opened Wire
  import opened Values
  import opened Schema
  import opened EncodeSpec
  import opened DecodeSpec
  import opened Frames

  /** Required numbers, then a sub-frame descriptor whose discriminator is
      one of those numbers and selects a registered frame of required
      numbers for `m[name]`. */
  predicate TrailingSubFrame(fr: Frame, m: Value)
  {
    && |fr.fields| > 0
    && m.Record?
    && NumbersFrom(fr.fields, 0, |fr.fields| - 1, m)
    && var s := Last(fr);
    && s.tag == "subFrame" && !s.optional && s.length.Absent? && s.choose.Some?
    && s.choose.value.discriminator in Names(fr.fields, 0, |fr.fields| - 1)
    && s.choose.value.discriminator != s.name
    && Selected(s.choose.value, m).Some?
    && Inner(fr, m).Record?
    && NumbersFrom(Chosen(fr, m).fields, 0, |Chosen(fr, m).fields|, Inner(fr, m))
  }

  function Last(fr: Frame): Field
    requires |fr.fields| > 0
  {
    fr.fields[|fr.fields| - 1]
  }

  /** The frame the discriminator's value selects. */
  function Chosen(fr: Frame, m: Value): Frame
    requires |fr.fields| > 0 && Last(fr).choose.Some? && Selected(Last(fr).choose.value, m).Some?
  {
    var ch := Last(fr).choose.value;
    ch.subFrames[Selected(ch, m).value]
  }

  /** `m[name]` after the chosen frame's `prepare`. */
  function Inner(fr: Frame, m: Value): Value
    requires |fr.fields| > 0 && Last(fr).choose.Some? && Selected(Last(fr).choose.value, m).Some?
  {
    Prepared(Chosen(fr, m), Member(m, Last(fr).name))
  }

  /** The bytes of the outer numbers. */
  function OuterLayout(fr: Frame, m: Value): seq<Byte>
    requires |fr.fields| > 0
  {
    Layout(fr.fields, 0, |fr.fields| - 1, m)
  }

  /** The bytes of the chosen frame's numbers. */
  function InnerLayout(fr: Frame, m: Value): seq<Byte>
    requires TrailingSubFrame(fr, m)
  {
    Layout(Chosen(fr, m).fields, 0, |Chosen(fr, m).fields|, Inner(fr, m))
  }

  /** The outer numbers, read into an empty instance. */
  function OuterFields(fr: Frame, m: Value): map<string, Value>
    requires |fr.fields| > 0
  {
    Assigned(map[], fr.fields, 0, |fr.fields| - 1, m)
  }

  /** The chosen frame's numbers, read into an empty instance. */
  function InnerFields(fr: Frame, m: Value): map<string, Value>
    requires TrailingSubFrame(fr, m)
  {
    Assigned(map[], Chosen(fr, m).fields, 0, |Chosen(fr, m).fields|, Inner(fr, m))
  }

  /** The instance Frame.read builds: the outer numbers, the sub-frame's
      name first set to {} and then to the chosen frame's instance. */
  function ReadBack(fr: Frame, m: Value): map<string, Value>
    requires TrailingSubFrame(fr, m)
  {
    OuterFields(fr, m)[Last(fr).name := Record(map[])][Last(fr).name := Record(InnerFields(fr, m))]
  }

  /** The sub-frame descriptor's chunk is the chosen frame's encoding. */
  lemma SubFrameChunk(fr: Frame, m: Value)
    requires TrailingSubFrame(fr, m)
    ensures Chunk(Last(fr), m) == Ok([Bytes(InnerLayout(fr, m))])
  {
    var s := Last(fr);
    NumbersFromForall(Chosen(fr, m).fields, 0, |Chosen(fr, m).fields|, Inner(fr, m));
    NumberFrameEncoding(Chosen(fr, m), Member(m, s.name));
    UnprefixedSubFrame(s, m, Chosen(fr, m), InnerLayout(fr, m));
    SubFrameTagKind(s.tag);
    HelperSubFrame(s, m);
    VariableChunk(s, m, Written(None, Bytes(InnerLayout(fr, m))));
  }

  /** A selected sub-frame without a length prefix returns the chosen
      frame's bytes. */
  lemma UnprefixedSubFrame(d: Field, m: Value, sub: Frame, bytes: seq<Byte>)
    requires m.Record? && d.choose.Some? && d.length.Absent? && Selected(d.choose.value, m).Some?
    requires sub == d.choose.value.subFrames[Selected(d.choose.value, m).value]
    requires FrameEncode(sub, Member(m, d.name)) == Ok(bytes)
    ensures WriteSubFrame(None, m, d, 0) == Ok(Written(None, Bytes(bytes)))
  {
  }

  /** The helper sends a `subFrame` descriptor to its sub-frame case. */
  lemma HelperSubFrame(d: Field, m: Value)
    requires d.tag == "subFrame"
    ensures WriteHelper(None, m, d, 0) == WriteSubFrame(None, m, d, 0)
  {
    SubFrameTagKind(d.tag);
  }

  /** Frame.write's chunk for a required descriptor of no fixed width is what
      the helper returns when handed a null buffer. */
  lemma VariableChunk(d: Field, m: Value, w: Written)
    requires FrameTypeLength(d.tag) == Ok(-1 as int) && !d.optional
    requires WriteHelper(None, m, d, 0) == Ok(w)
    ensures Chunk(d, m) == Ok([w.returned])
  {
  }

  /** Frame.write's chunks for the outer numbers, and their bytes. */
  lemma OuterChunks(fr: Frame, m: Value)
    requires TrailingSubFrame(fr, m)
    ensures Chunks(fr, m, |fr.fields| - 1) == Ok(FieldChunks(fr.fields, |fr.fields| - 1, m))
    ensures Flatten(FieldChunks(fr.fields, |fr.fields| - 1, m)) == OuterLayout(fr, m)
  {
    NumbersFromForall(fr.fields, 0, |fr.fields| - 1, m);
    NumberChunks(fr, m, |fr.fields| - 1);
    ChunksLayout(fr.fields, |fr.fields| - 1, m);
  }

  /** Frame.write gives the outer numbers and then the chosen frame's
      numbers, each big-endian. */
  lemma TrailingSubFrameEncoding(fr: Frame, m: Value)
    requires TrailingSubFrame(fr, Prepared(fr, m))
    ensures FrameEncode(fr, m) == Ok(OuterLayout(fr, Prepared(fr, m)) + InnerLayout(fr, Prepared(fr, m)))
  {
    var pm := Prepared(fr, m);
    OuterChunks(fr, pm);
    SubFrameChunk(fr, pm);
    LastChunkAppended(fr, m, FieldChunks(fr.fields, |fr.fields| - 1, pm), OuterLayout(fr, pm), InnerLayout(fr, pm));
  }

  /** When the last descriptor's chunk is a single Buffer, Frame.write gives
      the bytes of the others followed by that Buffer's bytes. */
  lemma LastChunkAppended(fr: Frame, m: Value, outer: seq<Value>, outerBytes: seq<Byte>, last: seq<Byte>)
    requires |fr.fields| > 0
    requires Chunks(fr, Prepared(fr, m), |fr.fields| - 1) == Ok(outer)
    requires AllBytes(outer) && Flatten(outer) == outerBytes
    requires Chunk(Last(fr), Prepared(fr, m)) == Ok([Bytes(last)])
    ensures FrameEncode(fr, m) == Ok(outerBytes + last)
  {
    ChunksSnoc(fr, Prepared(fr, m), |fr.fields|, outer, [Bytes(last)]);
    EncodeChunks(fr, m, outer + [Bytes(last)]);
    FlattenSnoc(outer, last, outerBytes);
  }

  /** Frame.read of the sub-frame descriptor once the outer numbers are in
      the instance: the chosen frame is read from the same offset into a
      fresh instance, which becomes the field's value. */
  lemma ReadTrailingSubFrame(fr: Frame, m: Value, pre: seq<Byte>, post: seq<Byte>)
    requires TrailingSubFrame(fr, m)
    ensures Steps(fr, pre + InnerLayout(fr, m) + post, Cursor(OuterFields(fr, m), |pre|), |fr.fields| - 1)
            == Ok(Cursor(ReadBack(fr, m), |pre|))
  {
    var s := Last(fr);
    DiscriminatorRead(fr, m);
    ChosenFrameRead(fr, m, pre, post);
    SubFrameStep(fr, pre + InnerLayout(fr, m) + post, Cursor(OuterFields(fr, m), |pre|), Chosen(fr, m),
                 Num(Selected(s.choose.value, m).value), InnerFields(fr, m));
  }

  /** The discriminator, looked up once the outer numbers are read and the
      field is set to {}, is the message's value for it. */
  lemma DiscriminatorRead(fr: Frame, m: Value)
    requires TrailingSubFrame(fr, m)
    ensures Lookup(OuterFields(fr, m)[Last(fr).name := Record(map[])], Last(fr).choose.value.discriminator)
            == Num(Selected(Last(fr).choose.value, m).value)
  {
    AssignedFresh(fr.fields, 0, |fr.fields| - 1, m);
  }

  /** Frame.read of the chosen frame's layout from where it starts. */
  lemma ChosenFrameRead(fr: Frame, m: Value, pre: seq<Byte>, post: seq<Byte>)
    requires TrailingSubFrame(fr, m)
    ensures FrameDecode(Chosen(fr, m), pre + InnerLayout(fr, m) + post, map[], |pre|) == Ok(InnerFields(fr, m))
  {
    NumberFrameRead(Chosen(fr, m), Inner(fr, m), pre, post);
  }

  /** Frame.read's step for the last descriptor, a sub-frame whose
      discriminator selects a frame that reads successfully. */
  lemma SubFrameStep(fr: Frame, buf: seq<Byte>, c: Cursor, sub: Frame, key: Value, nested: map<string, Value>)
    requires |fr.fields| > 0 && Last(fr).tag == "subFrame" && Last(fr).choose.Some?
    requires Lookup(c.instance[Last(fr).name := Record(map[])], Last(fr).choose.value.discriminator) == key
    requires key.Num? && key.n in Last(fr).choose.value.subFrames && Last(fr).choose.value.subFrames[key.n] == sub
    requires FrameDecode(sub, buf, map[], c.offset) == Ok(nested)
    ensures Steps(fr, buf, c, |fr.fields| - 1)
            == Ok(Cursor(c.instance[Last(fr).name := Record(map[])][Last(fr).name := Record(nested)], c.offset))
  {
    var d := Last(fr);
    var next := Cursor(c.instance[d.name := Record(map[])][d.name := Record(nested)], c.offset);
    SubFrameTagKind(d.tag);
    assert Visit(d, |fr.fields|, buf, c) == Ok(next);
    StepsAfter(fr, buf, c, |fr.fields| - 1, next);
  }

  /** Frame.read of the outer numbers followed by the chosen frame's
      numbers. */
  lemma TrailingSubFrameDecoding(fr: Frame, m: Value, post: seq<Byte>)
    requires TrailingSubFrame(fr, m)
    ensures FrameDecode(fr, OuterLayout(fr, m) + InnerLayout(fr, m) + post, map[], 0) == Ok(ReadBack(fr, m))
  {
    var pre := OuterLayout(fr, m);
    var buf := pre + InnerLayout(fr, m) + post;
    Regroup(pre, InnerLayout(fr, m), post);
    ReadNumberFields(fr, buf, Cursor(map[], 0), 0, |fr.fields| - 1, m, [], InnerLayout(fr, m) + post);
    ReadTrailingSubFrame(fr, m, pre, post);
  }

  /** Round trip through a trailing sub-frame: Frame.read of what Frame.write
      produced gives back the outer numbers, and under the sub-frame's name
      an object with the chosen frame's numbers. */
  lemma TrailingSubFrameRoundTrip(fr: Frame, m: Value, post: seq<Byte>)
    requires TrailingSubFrame(fr, Prepared(fr, m))
    ensures FrameEncode(fr, m).Ok?
    ensures var pm := Prepared(fr, m);
            var r := FrameDecode(fr, FrameEncode(fr, m).value + post, map[], 0);
            && r.Ok?
            && HoldsSubFrame(r.value, Last(fr).name, Names(fr.fields, 0, |fr.fields| - 1), pm,
                             Names(Chosen(fr, pm).fields, 0, |Chosen(fr, pm).fields|), Inner(fr, pm))
  {
    TrailingSubFrameEncoding(fr, m);
    TrailingSubFrameDecoding(fr, Prepared(fr, m), post);
    TrailingInstance(fr, Prepared(fr, m));
  }

  /** The instance Frame.read builds holds the outer fields and, under the
      sub-frame's name, the chosen frame's fields. */
  lemma TrailingInstance(fr: Frame, m: Value)
    requires TrailingSubFrame(fr, m)
    ensures HoldsSubFrame(ReadBack(fr, m), Last(fr).name, Names(fr.fields, 0, |fr.fields| - 1), m,
                          Names(Chosen(fr, m).fields, 0, |Chosen(fr, m).fields|), Inner(fr, m))
  {
    AssignedFresh(fr.fields, 0, |fr.fields| - 1, m);
    AssignedFresh(Chosen(fr, m).fields, 0, |Chosen(fr, m).fields|, Inner(fr, m));
    SubFrameInstance(OuterFields(fr, m), Last(fr).name, InnerFields(fr, m),
                     Names(fr.fields, 0, |fr.fields| - 1), Names(Chosen(fr, m).fields, 0, |Chosen(fr, m).fields|),
                     m, Inner(fr, m));
  }

  /** An instance holding the fields `outerNames` with their values in
      `outer`, and under `name` an object holding exactly the fields
      `innerNames` with their values in `inner`. */
  ghost predicate HoldsSubFrame(r: map<string, Value>, name: string, outerNames: set<string>, outer: Value,
                                innerNames: set<string>, inner: Value)
  {
    && (forall key :: key in r <==> key == name || key in outerNames)
    && (forall key :: key in r && key != name ==> r[key] == Member(outer, key))
    && name in r && r[name].Record?
    && (forall key :: key in r[name].fields <==> key in innerNames)
    && (forall key :: key in r[name].fields ==> r[name].fields[key] == Member(inner, key))
  }

  /** The instance Frame.read ends with: the outer fields, and under the
      sub-frame's name an object with the chosen frame's fields. */
  lemma SubFrameInstance(outer: map<string, Value>, name: string, nested: map<string, Value>,
                         outerNames: set<string>, innerNames: set<string>, pm: Value, im: Value)
    requires forall key :: key in outer <==> key in outerNames
    requires forall key :: key in outer ==> outer[key] == Member(pm, key)
    requires forall key :: key in nested <==> key in innerNames
    requires forall key :: key in nested ==> nested[key] == Member(im, key)
    ensures HoldsSubFrame(outer[name := Record(map[])][name := Record(nested)], name, outerNames, pm, innerNames, im)
  {
  }
}
