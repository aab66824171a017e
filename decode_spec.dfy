/** What the read helper and Frame.read compute, as functions. The methods in
    module Decoder are proved against these. */
module DecodeSpec {
  import opened Wrappers
  import opened Wire
  import opened Values
  import opened Schema

  /** The read helper for a tag that is not an array
      (src/index.ts:206-224, 245-249): a number is read big-endian and a
      read past the end throws; `uint64`, `buffer` and `string` take the
      slice from `offset` (to `offset + length` when a length is given),
      `buffer` as a Buffer and the other two as a string; `subFrame` and
      unknown tags throw. Every throw is caught and gives null. */
  function ReadScalar(buf: seq<Byte>, k: Kind, offset: nat, length: Option<int>): Value
  {
    var end := match length
      case None => None
      case Some(l) => Some(offset + l);
    if k.Number() then
      var w := Width(k);
      if offset + w <= |buf| then Num(FromBigEndian(buf[offset..offset + w])) else Null
    else if k.UInt64Tag? || k.StringTag? then Text(Slice(buf, offset, end))
    else if k.BufferTag? then Bytes(Slice(buf, offset, end))
    else Null
  }

  /** The tag an array tag holds its elements as: what comes before '['. */
  function ElementTag(tag: string): string
    requires '[' in tag
  {
    tag[..IndexOf(tag, '[')]
  }

  /** Every array tag holds a '[', and its elements are of a listed kind
      that is not itself an array. */
  lemma ArrayTagElements(tag: string)
    requires KindOf(tag).ArrayTag?
    ensures '[' in tag
    ensures FrameTypeLength(ElementTag(tag)).Ok?
    ensures !KindOf(ElementTag(tag)).ArrayTag?
  {
    assert tag in ArrayTags;
    var at := |tag| - 2;
    var elem := tag[..at];
    assert tag[at] == '[' && elem in NamedTags && FrameTypeLength(elem).Ok? && !KindOf(elem).ArrayTag? by {
      if tag == "uint8[]" {
        assert elem == "uint8";
      } else if tag == "uint16[]" {
        assert elem == "uint16";
      } else if tag == "uint32[]" {
        assert elem == "uint32";
      } else if tag == "uint64[]" {
        assert elem == "uint64";
      } else {
        assert elem == "subFrame";
      }
    }
    forall c | c in NamedTags
      ensures '[' !in c
    {
    }
    IndexOfFirst(tag, '[', at);
    assert ElementTag(tag) == elem;
  }

  /** The first position of c is the one with no c before it. */
  lemma {:induction false} IndexOfFirst(s: string, c: char, i: nat)
    requires i < |s| && s[i] == c && c !in s[..i]
    ensures c in s && IndexOf(s, c) == i
  {
    if i > 0 {
      assert s[0] == s[..i][0];
      assert s[1..][..i - 1] == s[..i][1..];
      IndexOfFirst(s[1..], c, i - 1);
    }
  }

  /** How many times `for (let i = 0; i < length; i++)` runs. */
  function Iterations(length: Option<int>): nat
  {
    match length
    case None => 0
    case Some(l) => if l > 0 then l else 0
  }

  /** Where the array loop reads element j: `offset + j * stride`, counted
      up one stride at a time as the loop does. */
  function Position(offset: nat, stride: nat, j: nat): nat
  {
    if j == 0 then offset else Position(offset, stride, j - 1) + stride
  }

  lemma {:induction false} PositionIsProduct(offset: nat, stride: nat, j: nat)
    ensures Position(offset, stride, j) == offset + j * stride
  {
    if j > 0 {
      PositionIsProduct(offset, stride, j - 1);
    }
  }

  /** The first n elements the array loop reads from `offset` on, one every
      `stride` bytes (the stride is the loop's `length`). */
  function Items(buf: seq<Byte>, k: Kind, offset: nat, stride: nat, n: nat): (r: seq<Value>)
    ensures |r| == n
  {
    if n == 0 then [] else Items(buf, k, offset, stride, n - 1) + [ReadScalar(buf, k, Position(offset, stride, n - 1), None)]
  }

  /** The read helper `read(buffer, desc, offset, frames, length)`
      (src/index.ts:202-256). Array tags read `length` elements; the loop
      advances by `length` and never uses the element width it computes. */
  function ReadValue(buf: seq<Byte>, d: Field, offset: nat, length: Option<int>): Value
  {
    var k := KindOf(d.tag);
    if k.ArrayTag? then
      ArrayTagElements(d.tag);
      var n := Iterations(length);
      Array(Items(buf, KindOf(ElementTag(d.tag)), offset, n, n))
    else ReadScalar(buf, k, offset, length)
  }

  /** Where Frame.read stands between two descriptors: the fields of the
      instance so far and the offset of the next read. */
  datatype Cursor = Cursor(instance: map<string, Value>, offset: nat)

  /** The value a field of the instance holds: undefined when absent. */
  function Lookup(inst: map<string, Value>, name: string): Value
  {
    if name in inst then inst[name] else Undefined
  }

  /** Frame.read (src/index.ts:293-327): the descriptors in order from the
      given instance and offset; the result is the instance. */
  function FrameDecode(fr: Frame, buf: seq<Byte>, inst: map<string, Value>, offset: nat): Outcome<map<string, Value>>
    decreases fr, 1
  {
    var c :- Steps(fr, buf, Cursor(inst, offset), 0);
    Ok(c.instance)
  }

  /** The loop of Frame.read from descriptor i on. */
  function Steps(fr: Frame, buf: seq<Byte>, c: Cursor, i: nat): Outcome<Cursor>
    requires i <= |fr.fields|
    decreases fr, 0, |fr.fields| - i
  {
    if i == |fr.fields| then Ok(c)
    else
      match Step(fr, i, buf, c)
      case Err(e) => Err(e)
      case Ok(next) => Steps(fr, buf, next, i + 1)
  }

  /** One turn of Frame.read's loop, for descriptor i. */
  function Step(fr: Frame, i: nat, buf: seq<Byte>, c: Cursor): Outcome<Cursor>
    requires i < |fr.fields|
    decreases fr.fields[i], 1
  {
    Visit(fr.fields[i], |fr.fields|, buf, c)
  }

  /** What Frame.read does with descriptor d of a frame of `count`
      descriptors:
      - a fixed tag is read at the offset, which then moves by its width,
        whether the field is optional or not;
      - a sub-frame field is set to {} first, then `value[discriminator]`
        picks the frame that reads into it from the same offset, which does
        not move; a key with no frame throws;
      - any other descriptor throws or goes down a path the model does not
        follow (see the README). */
  function Visit(d: Field, count: nat, buf: seq<Byte>, c: Cursor): Outcome<Cursor>
    decreases d, 0
  {
    var w :- FrameTypeLength(d.tag);
    if w > -1 then
      Ok(Cursor(c.instance[d.name := ReadValue(buf, d, c.offset, None)], c.offset + w))
    else if d.tag == "subFrame" then
      var inst := c.instance[d.name := Record(map[])];
      match d.choose
      case None => Err(TypeError)
      case Some(ch) =>
        match Lookup(inst, ch.discriminator)
        case Num(key) =>
          if key in ch.subFrames then
            var nested :- FrameDecode(ch.subFrames[key], buf, map[], c.offset);
            Ok(Cursor(inst[d.name := Record(nested)], c.offset))
          else Err(TypeError)
        case Text(_) => Err(Unmodelled)
        case Bytes(_) => Err(Unmodelled)
        case Array(_) => Err(Unmodelled)
        case _ => Err(TypeError)
    else
      match d.length
      case Absent => Err(UnsupportedType("undefined"))
      case TypeName(lt) =>
        var _ :- FrameTypeLength(lt);
        Err(Unmodelled)
      case Literal(k) => if 0 <= k < count then Err(Unmodelled) else Err(TypeError)
  }
}
