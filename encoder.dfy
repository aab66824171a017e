/** The write side as the source runs it: the helper stores into a Buffer in
    place (or allocates one), and Frame.write pushes one chunk per descriptor
    onto a list before concatenating. Each method is proved to compute what
    the functions of EncodeSpec say. */
module Encoder {
  import opened Wrappers
  import opened Wire
  import opened Values
  import opened Schema
  import opened EncodeSpec
  import opened Frames

  /** The contents of a buffer, None for null. */
  ghost function Snapshot(buf: array?<Byte>): Option<seq<Byte>>
    reads buf
  {
    if buf == null then None else Some(buf[..])
  }

  /** writeUIntBE: the low w bytes of v, most significant first, from
      `offset` on; nothing else changes. */
  method StoreBigEndian(buf: array<Byte>, v: nat, w: nat, offset: nat)
    requires offset + w <= buf.Length
    modifies buf
    ensures buf[..] == Overwrite(old(buf[..]), offset, BigEndian(v, w))
  {
    var bytes := BigEndian(v, w);
    forall i | offset <= i < offset + w {
      buf[i] := bytes[i - offset];
    }
  }

  /** Buffer.copy / Buffer.write of a payload at `at`, clipped at the end. */
  method CopyInto(buf: array<Byte>, p: seq<Byte>, at: nat)
    requires at <= buf.Length
    modifies buf
    ensures buf[..] == Overwrite(old(buf[..]), at, p)
  {
    forall i | at <= i < buf.Length && i < at + |p| {
      buf[i] := p[i - at];
    }
  }

  /** The fixed-width cases of the helper (src/index.ts:106-117). */
  method WriteFixed(buf: array?<Byte>, value: Value, k: Kind, offset: nat) returns (r: Outcome<Value>)
    requires k.Fixed()
    modifies buf
    ensures match StoreFixed(old(Snapshot(buf)), value, k, offset)
      case Ok(b) => r == Ok(Undefined) && Snapshot(buf) == Some(b)
      case Err(e) => r == Err(e) && Snapshot(buf) == old(Snapshot(buf))
  {
    if buf == null {
      return Err(TypeError);
    }
    if k.UInt64Tag? {
      if !value.Text? || offset > buf.Length {
        return Err(InvalidArgument);
      }
      CopyInto(buf, value.text, offset);
      return Ok(Undefined);
    }
    var v := Coerced(value);
    if v.Err? {
      return Err(v.error);
    }
    var w := Width(k);
    if v.value < 0 || v.value >= Pow256(w) || offset + w > buf.Length {
      return Err(InvalidArgument);
    }
    StoreBigEndian(buf, v.value, w, offset);
    r := Ok(Undefined);
  }

  /** `value.copy(target, at)` or `target.write(value, at)`. */
  method PutPayloadInto(target: array<Byte>, value: Value, k: Kind, at: int) returns (r: Outcome<()>)
    modifies target
    ensures match PutPayload(old(target[..]), value, k, at)
      case Ok(b) => r.Ok? && target[..] == b
      case Err(e) => r == Err(e) && target[..] == old(target[..])
  {
    if k.BufferTag? {
      if !value.Bytes? {
        return Err(TypeError);
      } else if at < 0 {
        return Err(InvalidArgument);
      } else if at < target.Length {
        CopyInto(target, value.bytes, at);
      }
    } else {
      if !value.Text? || at < 0 || at > target.Length {
        return Err(InvalidArgument);
      }
      CopyInto(target, value.text, at);
    }
    r := Ok(());
  }

  /** The write helper (src/index.ts:86-200): after the '[' rewrite, a fixed
      tag stores into `buf` in place and returns nothing; `buffer`/`string`
      and `subFrame` return a buffer (or another value); any other tag falls
      through the switch and returns nothing. */
  method WriteField(buf: array?<Byte>, value: Value, d: Field, offset: nat) returns (r: Outcome<Value>)
    modifies buf
    decreases d, 1
    ensures match WriteHelper(old(Snapshot(buf)), value, d, offset)
      case Ok(w) => r == Ok(w.returned) && Snapshot(buf) == w.buffer
      case Err(e) => r == Err(e) && Snapshot(buf) == old(Snapshot(buf))
  {
    var k := HelperKind(d.tag);
    if k.Fixed() {
      r := WriteFixed(buf, value, k, offset);
    } else if k.BufferTag? || k.StringTag? {
      r := WritePayloadInto(buf, value, d, k, offset);
    } else if k.SubFrameTag? {
      r := WriteSubFrameInto(buf, value, d, offset);
    } else {
      r := Ok(Undefined);
    }
  }

  /** The `buffer`/`string` case (src/index.ts:164-188). */
  method WritePayloadInto(buf: array?<Byte>, value: Value, d: Field, k: Kind, offset: nat) returns (r: Outcome<Value>)
    requires k.BufferTag? || k.StringTag?
    modifies buf
    decreases d, 0
    ensures match WritePayload(old(Snapshot(buf)), value, d, k, offset)
      case Ok(w) => r == Ok(w.returned) && Snapshot(buf) == w.buffer
      case Err(e) => r == Err(e) && Snapshot(buf) == old(Snapshot(buf))
  {
    match d.length
    case TypeName(lt) =>
      var filled := PrefixedPayload(value, k, lt);
      if filled.Err? {
        return Err(filled.error);
      }
      r := Ok(Bytes(filled.value));
    case Literal(_) =>
      r := LiteralPayload(value, d, k, offset);
    case Absent =>
      if k.BufferTag? {
        return Ok(value);
      }
      if buf == null {
        return Err(TypeError);
      }
      var put := PutPayloadInto(buf, value, k, offset);
      if put.Err? {
        return Err(put.error);
      }
      r := Ok(Bytes(buf[..]));
  }

  /** The helper writing a length prefix: see EncodeSpec.WriteLength. */
  method WriteLengthInto(out: array<Byte>, n: int, lt: string) returns (r: Outcome<Value>)
    modifies out
    ensures match WriteLength(old(out[..]), n, lt)
      case Ok(w) => r == Ok(w.returned) && w.buffer == Some(out[..])
      case Err(e) => r == Err(e) && out[..] == old(out[..])
  {
    var k := HelperKind(lt);
    if k.Fixed() {
      r := WriteFixed(out, Num(n), k, 0);
    } else if k.BufferTag? {
      r := Ok(Num(n));
    } else if k.StringTag? {
      r := Err(InvalidArgument);
    } else if k.SubFrameTag? {
      r := Err(TypeError);
    } else {
      r := Ok(Undefined);
    }
  }

  /** A payload behind a length prefix of type `lt`, in a buffer of its own. */
  method PrefixedPayload(value: Value, k: Kind, lt: string) returns (r: Outcome<seq<Byte>>)
    ensures r == Prefixed(value, k, lt)
  {
    var n := PayloadLength(value, lt);
    if n.Err? {
      return Err(n.error);
    }
    var size := n.value + FrameTypeLength(lt).value;
    var out := new Byte[size](_ => 0);
    assert out[..] == Zeros(size);
    var prefix := WriteLengthInto(out, n.value, lt);
    if prefix.Err? {
      return Err(prefix.error);
    }
    if !prefix.value.Undefined? {
      return Err(NotSupported);
    }
    var put := PutPayloadInto(out, value, k, size - n.value);
    if put.Err? {
      return Err(put.error);
    }
    r := Ok(out[..]);
  }

  /** A payload with a numeric `length`, in a buffer of its own. */
  method LiteralPayload(value: Value, d: Field, k: Kind, offset: nat) returns (r: Outcome<Value>)
    requires k.BufferTag? || k.StringTag?
    requires d.length.Literal?
    ensures match WritePayload(None, value, d, k, offset)
      case Ok(w) => r == Ok(w.returned)
      case Err(e) => r == Err(e)
  {
    var n := Get(value, "length");
    if n.Err? {
      return Err(n.error);
    }
    if !n.value.Num? || n.value.n < 0 {
      return Err(InvalidArgument);
    }
    var out := new Byte[n.value.n](_ => 0);
    assert out[..] == Zeros(n.value.n);
    var put := PutPayloadInto(out, value, k, offset);
    if put.Err? {
      return Err(put.error);
    }
    r := Ok(Bytes(out[..]));
  }

  /** The `subFrame` case (src/index.ts:189-198). */
  method WriteSubFrameInto(buf: array?<Byte>, value: Value, d: Field, offset: nat) returns (r: Outcome<Value>)
    modifies buf
    decreases d, 0
    ensures match WriteSubFrame(old(Snapshot(buf)), value, d, offset)
      case Ok(w) => r == Ok(w.returned) && Snapshot(buf) == w.buffer
      case Err(e) => r == Err(e) && Snapshot(buf) == old(Snapshot(buf))
  {
    if d.choose.None? {
      return Err(TypeError);
    }
    var c := d.choose.value;
    var key := Get(value, c.discriminator);
    if key.Err? {
      return Err(key.error);
    }
    if key.value.Text? || key.value.Bytes? || key.value.Array? {
      return Err(Unmodelled);
    }
    if Selected(c, value).None? {
      return Ok(if buf == null then Null else Bytes(buf[..]));
    }
    var bytes := WriteFrame(c.subFrames[key.value.n], Member(value, d.name));
    if bytes.Err? {
      return Err(bytes.error);
    }
    match d.length
    case Absent =>
      r := Ok(Bytes(bytes.value));
    case Literal(k) =>
      r := Err(UnsupportedLength(k));
    case TypeName(lt) =>
      r := PrefixedFrameInto(bytes.value, lt);
  }

  /** An encoded sub-frame behind a length prefix (src/index.ts:195-197). */
  method PrefixedFrameInto(bytes: seq<Byte>, lt: string) returns (r: Outcome<Value>)
    ensures r == PrefixedFrame(bytes, lt)
  {
    var w := FrameTypeLength(lt);
    if w.Err? {
      return Err(w.error);
    }
    if |bytes| + w.value < 0 || w.value < 0 {
      return Err(InvalidArgument);
    }
    var sub := new Byte[|bytes| + w.value](_ => 0);
    assert sub[..] == Zeros(|bytes| + w.value);
    CopyInto(sub, bytes, w.value);
    r := WriteLengthInto(sub, |bytes|, lt);
  }

  /** Frame.write (src/index.ts:264-292). */
  method WriteFrame(fr: Frame, message: Value) returns (r: Outcome<seq<Byte>>)
    decreases fr, |fr.fields| + 1
    ensures r == FrameEncode(fr, message)
  {
    var m := Prepared(fr, message);
    var buffers: seq<Value> := [];
    var i := 0;
    while i < |fr.fields|
      invariant i <= |fr.fields|
      invariant Chunks(fr, m, i) == Ok(buffers)
    {
      var chunk := PushChunk(fr.fields[i], m);
      if chunk.Err? {
        ChunkErrorStops(fr, m, i, buffers, chunk.error);
        return Err(chunk.error);
      }
      ChunksSnoc(fr, m, i + 1, buffers, chunk.value);
      buffers := buffers + chunk.value;
      i := i + 1;
    }
    r := Concat(buffers);
  }

  /** One turn of Frame.write's loop (src/index.ts:271-289): what it pushes
      onto the list for the descriptor `d`. */
  method PushChunk(d: Field, m: Value) returns (r: Outcome<seq<Value>>)
    decreases d, 2
    ensures r == Chunk(d, m)
  {
    var w := FrameTypeLength(d.tag);
    if w.Err? {
      return Err(w.error);
    }
    if d.optional {
      return Ok([]);
    }
    if w.value > -1 {
      var v := Get(m, d.name);
      if v.Err? {
        return Err(v.error);
      }
      var b := new Byte[w.value](_ => 0);
      assert b[..] == Zeros(w.value);
      var written := WriteField(b, v.value, d, 0);
      if written.Err? {
        return Err(written.error);
      }
      r := Ok([Bytes(b[..])]);
    } else {
      var written := WriteField(null, m, d, 0);
      if written.Err? {
        return Err(written.error);
      }
      r := Ok([written.value]);
    }
  }

  /** A descriptor that throws ends Frame.write with its error. */
  lemma ChunkErrorStops(fr: Frame, m: Value, i: nat, prev: seq<Value>, e: Error)
    requires i < |fr.fields| && Chunks(fr, m, i) == Ok(prev) && Chunk(fr.fields[i], m) == Err(e)
    ensures Chunks(fr, m, |fr.fields|) == Err(e)
  {
    assert Chunks(fr, m, i + 1) == Err(e);
    ChunksKeepFirstError(fr, m, i + 1, |fr.fields|);
  }

  /** Once a descriptor throws, Frame.write throws that error. */
  lemma {:induction false} ChunksKeepFirstError(fr: Frame, m: Value, i: nat, j: nat)
    requires i <= j <= |fr.fields|
    requires Chunks(fr, m, i).Err?
    ensures Chunks(fr, m, j) == Chunks(fr, m, i)
  {
    if j > i {
      ChunksKeepFirstError(fr, m, i, j - 1);
    }
  }
}
