/** What the write side promises, and what it does as written that a reader
    of the descriptors might not expect. */
module EncodeProperties {
  import opened Wrappers
  import opened Wire
  import opened Values
  import opened Schema
  import opened EncodeSpec

  /** Zero written big-endian is all zero bytes. */
  lemma {:induction false} BigEndianZero(w: nat)
    ensures BigEndian(0, w) == Zeros(w)
  {
    if w > 0 {
      BigEndianZero(w - 1);
      assert Zeros(w) == Zeros(w - 1) + [0];
    }
  }

  /** writeUInt8/16BE/32BE: a number that fits is stored big-endian at the
      offset, reads back as itself, and no other byte changes; it throws
      exactly when the number is negative, too large, or past the end. */
  lemma FixedWrite(buf: seq<Byte>, k: Kind, v: int, offset: nat)
    requires k.Number()
    ensures StoreFixed(Some(buf), Num(v), k, offset).Err? <==>
              v < 0 || v >= Pow256(Width(k)) || offset + Width(k) > |buf|
    ensures StoreFixed(Some(buf), Num(v), k, offset).Err? ==>
              StoreFixed(Some(buf), Num(v), k, offset).error == InvalidArgument
    ensures StoreFixed(Some(buf), Num(v), k, offset).Ok? ==>
              var b := StoreFixed(Some(buf), Num(v), k, offset).value;
              && |b| == |buf|
              && b[offset..offset + Width(k)] == BigEndian(v, Width(k))
              && FromBigEndian(b[offset..offset + Width(k)]) == v
              && forall i :: 0 <= i < |buf| && !(offset <= i < offset + Width(k)) ==> b[i] == buf[i]
  {
    var w := Width(k);
    if 0 <= v < Pow256(w) && offset + w <= |buf| {
      var b := StoreFixed(Some(buf), Num(v), k, offset).value;
      assert b == Overwrite(buf, offset, BigEndian(v, w));
      assert b[offset..offset + w] == BigEndian(v, w);
      BigEndianRoundTrip(v, w);
    }
  }

  /** A field the message lacks (undefined, or an object) is NaN to
      writeUIntX, which stores zero bytes instead of throwing. */
  lemma MissingNumberWritesZeros(buf: seq<Byte>, k: Kind, v: Value, offset: nat)
    requires k.Number() && (v.Undefined? || v.Record?)
    requires offset + Width(k) <= |buf|
    ensures StoreFixed(Some(buf), v, k, offset) == Ok(Overwrite(buf, offset, Zeros(Width(k))))
  {
    BigEndianZero(Width(k));
  }

  /** A buffer or string behind a numeric length prefix is the length
      big-endian followed by the payload, when the length fits the prefix. */
  lemma PrefixedLayout(value: Value, k: Kind, lt: string)
    requires (k.BufferTag? && value.Bytes?) || (k.StringTag? && value.Text?)
    requires KindOf(lt).Number()
    requires |Payload(value)| < Pow256(Width(KindOf(lt)))
    ensures Prefixed(value, k, lt) == Ok(BigEndian(|Payload(value)|, Width(KindOf(lt))) + Payload(value))
  {
    var p := Payload(value);
    var w := Width(KindOf(lt));
    LengthPrefix(value, lt);
    HeaderThenBody(BigEndian(|p|, w), p, |p| + w);
  }

  /** The helper writes the payload's length into a fresh buffer of the
      payload's length plus the prefix width, and returns nothing. */
  lemma LengthPrefix(value: Value, lt: string)
    requires value.Bytes? || value.Text?
    requires KindOf(lt).Number()
    requires |Payload(value)| < Pow256(Width(KindOf(lt)))
    ensures var n := |Payload(value)|;
            var w := Width(KindOf(lt));
            && PayloadLength(value, lt) == Ok(n)
            && FrameTypeLength(lt) == Ok(w)
            && WriteLength(Zeros(n + w), n, lt) == Ok(Written(Some(Overwrite(Zeros(n + w), 0, BigEndian(n, w))), Undefined))
  {
    HelperKindDropsArrays(lt);
    assert FrameTypeLength(lt) == Ok(Width(KindOf(lt)));
  }

  /** The bytes of a buffer or a string value. */
  function Payload(value: Value): seq<Byte>
    requires value.Bytes? || value.Text?
  {
    if value.Bytes? then value.bytes else value.text
  }

  /** With a numeric `length`, the helper returns a fresh buffer holding the
      payload (the number itself is not used, only `value.length`). */
  lemma LiteralLengthPayload(buf: Option<seq<Byte>>, value: Value, d: Field, k: Kind)
    requires (k.BufferTag? && value.Bytes?) || (k.StringTag? && value.Text?)
    requires d.length.Literal?
    ensures WritePayload(buf, value, d, k, 0) == Ok(Written(buf, Bytes(Payload(value))))
  {
    var p := Payload(value);
    assert Overwrite(Zeros(|p|), 0, p) == p;
  }

  /** The helper never encodes an array: the tag rewrite sends every array
      tag past all the cases, so the buffer is untouched and nothing is
      returned. */
  lemma ArrayFieldsWriteNothing(buf: Option<seq<Byte>>, value: Value, d: Field, offset: nat)
    requires KindOf(d.tag).ArrayTag?
    ensures WriteHelper(buf, value, d, offset) == Ok(Written(buf, Undefined))
  {
    HelperKindDropsArrays(d.tag);
  }

  /** The `subFrame` case: a string, Buffer or array key is not followed;
      any other key with no registered frame hands back the buffer it was
      given (null from Frame.write); a registered frame without a length
      prefix returns that frame's encoding of `value[name]`; with a numeric
      length prefix the helper's own result for the prefix is returned,
      which is nothing, so the prefixed bytes are lost. */
  lemma SubFrameWrite(buf: Option<seq<Byte>>, value: Value, d: Field, offset: nat)
    requires d.choose.Some? && value.Record?
    ensures var key := Member(value, d.choose.value.discriminator);
            (key.Text? || key.Bytes? || key.Array?) ==> WriteSubFrame(buf, value, d, offset) == Err(Unmodelled)
    ensures var key := Member(value, d.choose.value.discriminator);
            !(key.Text? || key.Bytes? || key.Array?) && Selected(d.choose.value, value).None? ==>
              WriteSubFrame(buf, value, d, offset)
              == Ok(Written(buf, if buf.Some? then Bytes(buf.value) else Null))
    ensures Selected(d.choose.value, value).Some? && d.length.Absent? ==>
              var nested := d.choose.value.subFrames[Selected(d.choose.value, value).value];
              WriteSubFrame(buf, value, d, offset)
              == match FrameEncode(nested, Member(value, d.name))
                 case Ok(bytes) => Ok(Written(buf, Bytes(bytes)))
                 case Err(e) => Err(e)
    ensures Selected(d.choose.value, value).Some? && d.length.TypeName? && KindOf(d.length.tag).Number() ==>
              var nested := d.choose.value.subFrames[Selected(d.choose.value, value).value];
              var bytes := FrameEncode(nested, Member(value, d.name));
              bytes.Ok? && |bytes.value| < Pow256(Width(KindOf(d.length.tag))) ==>
                WriteSubFrame(buf, value, d, offset) == Ok(Written(buf, Undefined))
  {
    UnregisteredKey(buf, value, d, offset);
    RegisteredKey(buf, value, d, offset);
    PrefixedKey(buf, value, d, offset);
  }

  /** A key that is neither followed nor registered. */
  lemma UnregisteredKey(buf: Option<seq<Byte>>, value: Value, d: Field, offset: nat)
    requires d.choose.Some? && value.Record?
    ensures var key := Member(value, d.choose.value.discriminator);
            (key.Text? || key.Bytes? || key.Array?) ==> WriteSubFrame(buf, value, d, offset) == Err(Unmodelled)
    ensures var key := Member(value, d.choose.value.discriminator);
            !(key.Text? || key.Bytes? || key.Array?) && Selected(d.choose.value, value).None? ==>
              WriteSubFrame(buf, value, d, offset)
              == Ok(Written(buf, if buf.Some? then Bytes(buf.value) else Null))
  {
  }

  /** A registered key without a length prefix. */
  lemma RegisteredKey(buf: Option<seq<Byte>>, value: Value, d: Field, offset: nat)
    requires d.choose.Some? && value.Record?
    ensures Selected(d.choose.value, value).Some? && d.length.Absent? ==>
              var nested := d.choose.value.subFrames[Selected(d.choose.value, value).value];
              WriteSubFrame(buf, value, d, offset)
              == match FrameEncode(nested, Member(value, d.name))
                 case Ok(bytes) => Ok(Written(buf, Bytes(bytes)))
                 case Err(e) => Err(e)
  {
  }

  /** A registered key behind a numeric length prefix. */
  lemma PrefixedKey(buf: Option<seq<Byte>>, value: Value, d: Field, offset: nat)
    requires d.choose.Some? && value.Record?
    ensures Selected(d.choose.value, value).Some? && d.length.TypeName? && KindOf(d.length.tag).Number() ==>
              var nested := d.choose.value.subFrames[Selected(d.choose.value, value).value];
              var bytes := FrameEncode(nested, Member(value, d.name));
              bytes.Ok? && |bytes.value| < Pow256(Width(KindOf(d.length.tag))) ==>
                WriteSubFrame(buf, value, d, offset) == Ok(Written(buf, Undefined))
  {
    if Selected(d.choose.value, value).Some? && d.length.TypeName? && KindOf(d.length.tag).Number() {
      HelperKindDropsArrays(d.length.tag);
    }
  }
}
