/** The read side as the source runs it: the read helper with its array loop,
    and Frame.read walking the descriptors while it fills the instance and
    moves the offset. Each method is proved to compute what the functions of
    DecodeSpec say. The buffer is only read, so it is a sequence here. */
module Decoder {
  import opened Wrappers
  import opened Wire
  import opened Values
  import opened Schema
  import opened DecodeSpec

  /** The read helper (src/index.ts:202-256). */
  method ReadField(buf: seq<Byte>, d: Field, offset: nat, length: Option<int>) returns (r: Value)
    ensures r == ReadValue(buf, d, offset, length)
  {
    var k := KindOf(d.tag);
    if !k.ArrayTag? {
      return ReadScalar(buf, k, offset, length);
    }
    ArrayTagElements(d.tag);
    var n := Iterations(length);
    var items := ReadItems(buf, KindOf(ElementTag(d.tag)), offset, n);
    r := Array(items);
  }

  /** The array loop of the read helper (src/index.ts:231-243): `length`
      elements, element i read at `offset + i * length`. The loop's
      `length > -1` test always holds once `i < length`. */
  method ReadItems(buf: seq<Byte>, k: Kind, offset: nat, n: nat) returns (items: seq<Value>)
    ensures items == Items(buf, k, offset, n, n)
  {
    items := [];
    var at: nat, i: nat := offset, 0;
    while i < n
      invariant i <= n
      invariant items == Items(buf, k, offset, n, i) && at == Position(offset, n, i)
    {
      items := items + [ReadScalar(buf, k, at, None)];
      at := at + n;
      i := i + 1;
    }
  }

  /** Frame.read (src/index.ts:293-327): the instance after every
      descriptor has been read into it, or the exception. */
  method ReadFrame(fr: Frame, buf: seq<Byte>, instance: map<string, Value>, offset: nat)
    returns (r: Outcome<map<string, Value>>)
    decreases fr, 1
    ensures r == FrameDecode(fr, buf, instance, offset)
  {
    var c := Cursor(instance, offset);
    var i := 0;
    while i < |fr.fields|
      invariant i <= |fr.fields|
      invariant Steps(fr, buf, c, i) == Steps(fr, buf, Cursor(instance, offset), 0)
    {
      var next := ReadDescriptor(fr, i, buf, c);
      if next.Err? {
        return Err(next.error);
      }
      c := next.value;
      i := i + 1;
    }
    r := Ok(c.instance);
  }

  /** One turn of Frame.read's loop (src/index.ts:298-325). */
  method ReadDescriptor(fr: Frame, i: nat, buf: seq<Byte>, c: Cursor) returns (r: Outcome<Cursor>)
    requires i < |fr.fields|
    decreases fr.fields[i], 0
    ensures r == Step(fr, i, buf, c)
  {
    var d := fr.fields[i];
    var w := FrameTypeLength(d.tag);
    if w.Err? {
      return Err(w.error);
    }
    if w.value > -1 {
      var v := ReadField(buf, d, c.offset, None);
      return Ok(Cursor(c.instance[d.name := v], c.offset + w.value));
    }
    if d.tag == "subFrame" {
      var inst := c.instance[d.name := Record(map[])];
      if d.choose.None? {
        return Err(TypeError);
      }
      var ch := d.choose.value;
      var key := Lookup(inst, ch.discriminator);
      if key.Text? || key.Bytes? || key.Array? {
        return Err(Unmodelled);
      }
      if !key.Num? || key.n !in ch.subFrames {
        return Err(TypeError);
      }
      var nested := ReadFrame(ch.subFrames[key.n], buf, map[], c.offset);
      if nested.Err? {
        return Err(nested.error);
      }
      return Ok(Cursor(inst[d.name := Record(nested.value)], c.offset));
    }
    match d.length
    case Absent =>
      r := Err(UnsupportedType("undefined"));
    case TypeName(lt) =>
      var lw := FrameTypeLength(lt);
      r := if lw.Err? then Err(lw.error) else Err(Unmodelled);
    case Literal(k) =>
      r := if 0 <= k < |fr.fields| then Err(Unmodelled) else Err(TypeError);
  }
}
