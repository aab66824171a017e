/** What the write helper and Frame.write compute, as functions. The methods
    in module Encoder are proved against these. */
module EncodeSpec {
  import opened Wrappers
  import opened Wire
  import opened Values
  import opened Schema

  /** What one call of the write helper leaves behind: the contents of the
      buffer it was handed (None for null) and the value it returns
      (Undefined when it returns nothing). */
  datatype Written = Written(buffer: Option<seq<Byte>>, returned: Value)

  /** The number `+value` that writeUIntX stores: a number is itself, null is
      0, and undefined or an object is NaN, which range-checks fine and is
      stored as zero bytes. Coercing strings, buffers and arrays is not
      followed by the model. */
  function Coerced(v: Value): (r: Outcome<int>)
    ensures v.Num? ==> r == Ok(v.n)
    ensures r.Ok? && !v.Num? ==> r.value == 0
    ensures r.Err? <==> v.Text? || v.Bytes? || v.Array?
  {
    match v
    case Num(n) => Ok(n)
    case Undefined => Ok(0)
    case Null => Ok(0)
    case Record(_) => Ok(0)
    case _ => Err(Unmodelled)
  }

  /** The fixed-width cases of the helper (src/index.ts:106-117): a number is
      stored big-endian at `offset`; `uint64` copies the bytes of a string,
      clipped at the end of the buffer. */
  function StoreFixed(buf: Option<seq<Byte>>, value: Value, k: Kind, offset: nat): Outcome<seq<Byte>>
    requires k.Fixed()
  {
    if buf.None? then Err(TypeError)
    else if k.UInt64Tag? then
      if !value.Text? || offset > |buf.value| then Err(InvalidArgument)
      else Ok(Overwrite(buf.value, offset, value.text))
    else
      var v :- Coerced(value);
      var w := Width(k);
      if v < 0 || v >= Pow256(w) || offset + w > |buf.value| then Err(InvalidArgument)
      else Ok(Overwrite(buf.value, offset, BigEndian(v, w)))
  }

  /** `value.copy(target, at)` for a buffer field, `target.write(value, at)`
      for a string field. */
  function PutPayload(target: seq<Byte>, value: Value, k: Kind, at: int): (r: Outcome<seq<Byte>>)
    ensures r.Ok? ==> |r.value| == |target| && (value.Bytes? || value.Text?)
  {
    if k.BufferTag? then
      if !value.Bytes? then Err(TypeError)
      else if at < 0 then Err(InvalidArgument)
      else if at >= |target| then Ok(target)
      else Ok(Overwrite(target, at, value.bytes))
    else
      if !value.Text? || at < 0 || at > |target| then Err(InvalidArgument)
      else Ok(Overwrite(target, at, value.text))
  }

  /** The write helper `write(buffer, value, desc, fullFrame, offset)`
      (src/index.ts:86-200) for a static tag. */
  function WriteHelper(buf: Option<seq<Byte>>, value: Value, d: Field, offset: nat): (r: Outcome<Written>)
    decreases d, 1
    ensures r.Ok? ==> (r.value.buffer.Some? <==> buf.Some?)
    ensures r.Ok? && buf.Some? ==> |r.value.buffer.value| == |buf.value|
  {
    var k := HelperKind(d.tag);
    if k.Fixed() then
      var b :- StoreFixed(buf, value, k, offset);
      Ok(Written(Some(b), Undefined))
    else if k.BufferTag? || k.StringTag? then
      WritePayload(buf, value, d, k, offset)
    else if k.SubFrameTag? then
      WriteSubFrame(buf, value, d, offset)
    else
      Ok(Written(buf, Undefined))
  }

  /** The `buffer`/`string` case (src/index.ts:164-188); `k` is the case the
      switch took, so `desc.type == 'buffer'` is `k == BufferTag`. */
  function WritePayload(buf: Option<seq<Byte>>, value: Value, d: Field, k: Kind, offset: nat): (r: Outcome<Written>)
    requires k.BufferTag? || k.StringTag?
    decreases d, 0
    ensures r.Ok? ==> r.value.buffer == buf || (buf.Some? && d.length.Absent? && r.value.buffer.Some?
                                                  && |r.value.buffer.value| == |buf.value|)
    ensures d.length.Absent? && k.BufferTag? ==> r == Ok(Written(buf, value))
    ensures d.length.Absent? && k.StringTag? ==>
              (r.Ok? <==> buf.Some? && value.Text? && offset <= |buf.value|)
              && (r.Ok? ==> r.value.buffer == Some(Overwrite(buf.value, offset, value.text))
                            && r.value.returned == Bytes(r.value.buffer.value))
  {
    match d.length
    case TypeName(lt) =>
      var filled :- Prefixed(value, k, lt);
      Ok(Written(buf, Bytes(filled)))
    case Literal(_) =>
      var n :- Get(value, "length");
      if !n.Num? || n.n < 0 then Err(InvalidArgument)
      else
        var filled :- PutPayload(Zeros(n.n), value, k, offset);
        Ok(Written(buf, Bytes(filled)))
    case Absent =>
      if k.BufferTag? then Ok(Written(buf, value))
      else if buf.None? then Err(TypeError)
      else
        var filled :- PutPayload(buf.value, value, k, offset);
        Ok(Written(Some(filled), Bytes(filled)))
  }

  /** What the helper does when it calls itself to write a length `n` as the
      type `lt` at the start of `b` (the descriptor `{ name: '', type: lt }`):
      a fixed type stores the number; `buffer` hands the number back, which
      the callers reject; `string` and `subFrame` throw; anything else writes
      nothing. WriteLengthIsHelper proves this is the helper's own result. */
  function WriteLength(b: seq<Byte>, n: int, lt: string): Outcome<Written>
  {
    var k := HelperKind(lt);
    if k.Fixed() then
      var s :- StoreFixed(Some(b), Num(n), k, 0);
      Ok(Written(Some(s), Undefined))
    else if k.BufferTag? then Ok(Written(Some(b), Num(n)))
    else if k.StringTag? then Err(InvalidArgument)
    else if k.SubFrameTag? then Err(TypeError)
    else Ok(Written(Some(b), Undefined))
  }

  lemma WriteLengthIsHelper(b: seq<Byte>, n: int, lt: string)
    ensures WriteLength(b, n, lt) == WriteHelper(Some(b), Num(n), Bare(lt), 0)
  {
  }

  /** A payload behind a length prefix of type `lt`: a fresh buffer of
      `length + frameTypeLength(lt)` bytes, the helper writes the length at 0
      and the payload goes after it. */
  function Prefixed(value: Value, k: Kind, lt: string): Outcome<seq<Byte>>
  {
    var n :- PayloadLength(value, lt);
    var size := n + FrameTypeLength(lt).value;
    var prefix :- WriteLength(Zeros(size), n, lt);
    if !prefix.returned.Undefined? then Err(NotSupported)
    else PutPayload(prefix.buffer.value, value, k, size - n)
  }

  /** `value.length`, once `Buffer.alloc(value.length + frameTypeLength(lt))`
      has accepted it. */
  function PayloadLength(value: Value, lt: string): (r: Outcome<int>)
    ensures r.Ok? ==> FrameTypeLength(lt).Ok? && r.value + FrameTypeLength(lt).value >= 0
  {
    var n :- Get(value, "length");
    var w :- FrameTypeLength(lt);
    if !n.Num? || n.n + w < 0 then Err(InvalidArgument) else Ok(n.n)
  }

  /** The key `value[discriminator]` selects, when it names a registered frame. */
  function Selected(c: Choice, value: Value): Option<int>
  {
    var key := Member(value, c.discriminator);
    if key.Num? && key.n in c.subFrames then Some(key.n) else None
  }

  /** The `subFrame` case (src/index.ts:189-198). */
  function WriteSubFrame(buf: Option<seq<Byte>>, value: Value, d: Field, offset: nat): (r: Outcome<Written>)
    decreases d, 0
    ensures r.Ok? ==> r.value.buffer == buf
  {
    match d.choose
    case None => Err(TypeError)
    case Some(c) =>
      var key :- Get(value, c.discriminator);
      // `in` turns a string, Buffer or array key into a property name first
      if key.Text? || key.Bytes? || key.Array? then Err(Unmodelled)
      else if Selected(c, value).None? then
        Ok(Written(buf, if buf.Some? then Bytes(buf.value) else Null))
      else
        // value[desc.name] cannot throw once value[discriminator] did not
        var bytes :- FrameEncode(c.subFrames[key.n], Member(value, d.name));
        match d.length
        case Absent => Ok(Written(buf, Bytes(bytes)))
        case Literal(k) => Err(UnsupportedLength(k))
        case TypeName(lt) =>
          var prefixed :- PrefixedFrame(bytes, lt);
          Ok(Written(buf, prefixed))
  }

  /** An encoded sub-frame behind a length prefix of type `lt`: a fresh
      buffer with the frame copied to its end, then the helper writes the
      length at 0 and its result is returned. */
  function PrefixedFrame(bytes: seq<Byte>, lt: string): (r: Outcome<Value>)
    ensures r.Ok? ==> r.value.Undefined? || r.value.Num?
  {
    var w :- FrameTypeLength(lt);
    if |bytes| + w < 0 || w < 0 then Err(InvalidArgument)
    else
      var sub := Overwrite(Zeros(|bytes| + w), w, bytes);
      var prefixed :- WriteLength(sub, |bytes|, lt);
      Ok(prefixed.returned)
  }

  /** Frame.write (src/index.ts:264-292): `prepare`, then one chunk per
      descriptor, then Buffer.concat. */
  function FrameEncode(fr: Frame, message: Value): Outcome<seq<Byte>>
    decreases fr, |fr.fields| + 1
  {
    var chunks :- Chunks(fr, Prepared(fr, message), |fr.fields|);
    Concat(chunks)
  }

  /** The chunks Frame.write pushes for the first i descriptors. */
  function Chunks(fr: Frame, m: Value, i: nat): Outcome<seq<Value>>
    requires i <= |fr.fields|
    decreases fr, i
  {
    if i == 0 then Ok([])
    else
      match Chunks(fr, m, i - 1)
      case Err(e) => Err(e)
      case Ok(prev) =>
        match Chunk(fr.fields[i - 1], m)
        case Err(e) => Err(e)
        case Ok(c) => Ok(prev + c)
  }

  /** What Frame.write pushes for one descriptor: nothing for an optional one
      (after frameTypeLength has accepted its tag); a fresh buffer of the
      tag's width, written by the helper with `message[name]`, for a fixed
      one; and for a variable one whatever the helper returns when handed a
      null buffer and the whole message. */
  function Chunk(d: Field, m: Value): Outcome<seq<Value>>
    decreases d, 2
  {
    var w :- FrameTypeLength(d.tag);
    if d.optional then Ok([])
    else if w > -1 then
      var v :- Get(m, d.name);
      var written :- WriteHelper(Some(Zeros(w)), v, d, 0);
      Ok([Bytes(written.buffer.value)])
    else
      var written :- WriteHelper(None, m, d, 0);
      Ok([written.returned])
  }
}
