/** The schema vocabulary: type tags, `frameTypeLength`, field descriptors and
    frames. Tags stay strings, as in the source, so that the tag rewrite of
    the write helper can be stated exactly. */
module Schema {
  import opened Wrappers
  import opened Wire
  import opened Values

  /** The tags frameTypeLength accepts. */
  const SupportedTags: set<string> :=
    {"uint8", "uint16", "uint32", "uint64", "buffer", "string", "subFrame",
     "uint8[]", "uint16[]", "uint32[]", "uint64[]", "subFrame[]"}

  /** The accepted tags that are not arrays. */
  const NamedTags: set<string> := {"uint8", "uint16", "uint32", "uint64", "buffer", "string", "subFrame"}

  /** The accepted array tags. */
  const ArrayTags: set<string> := {"uint8[]", "uint16[]", "uint32[]", "uint64[]", "subFrame[]"}

  /** The case labels of the write helper's switch. */
  const WriteCases: set<string> :=
    {"uint8", "uint16", "uint32", "uint64", "uint8[]", "uint16[]", "uint32[]", "uint64[]",
     "subFrame[]", "buffer", "string", "subFrame"}

  /** What a tag stands for: one of the four unsigned integers, a buffer, a
      string, a sub-frame, an array of one of those, or nothing the codec
      knows. */
  datatype Kind =
    | UInt8Tag
    | UInt16Tag
    | UInt32Tag
    | UInt64Tag
    | BufferTag
    | StringTag
    | SubFrameTag
    | ArrayTag
    | UnknownTag
  {
    /** The tag has a byte width of its own. */
    predicate Fixed()
    {
      UInt8Tag? || UInt16Tag? || UInt32Tag? || UInt64Tag?
    }

    /** Written and read as a big-endian number (uint64 is copied as bytes). */
    predicate Number()
    {
      UInt8Tag? || UInt16Tag? || UInt32Tag?
    }
  }

  /** The kind of a tag, by its exact spelling. */
  function KindOf(tag: string): Kind
  {
    match tag
    case "uint8" => UInt8Tag
    case "uint16" => UInt16Tag
    case "uint32" => UInt32Tag
    case "uint64" => UInt64Tag
    case "buffer" => BufferTag
    case "string" => StringTag
    case "subFrame" => SubFrameTag
    case "uint8[]" => ArrayTag
    case "uint16[]" => ArrayTag
    case "uint32[]" => ArrayTag
    case "uint64[]" => ArrayTag
    case "subFrame[]" => ArrayTag
    case _ => UnknownTag
  }

  /** frameTypeLength (src/index.ts:60-84): the byte width of a fixed tag, -1
      for a variable one, and an exception for any other tag. */
  function FrameTypeLength(tag: string): Outcome<int>
  {
    match KindOf(tag)
    case UInt8Tag => Ok(1)
    case UInt16Tag => Ok(2)
    case UInt32Tag => Ok(4)
    case UInt64Tag => Ok(8)
    case UnknownTag => Err(UnsupportedType(tag))
    case _ => Ok(-1 as int)
  }

  /** The value of a string of decimal digits. */
  function Decimal(s: string): nat
  {
    if s == [] then 0
    else Decimal(s[..|s| - 1]) * 10 + (if '0' <= s[|s| - 1] <= '9' then s[|s| - 1] as int - '0' as int else 0)
  }

  /** The bit count a `uintN` tag names. */
  function TagBits(tag: string): nat
  {
    if |tag| > 4 && tag[..4] == "uint" then Decimal(tag[4..]) else 0
  }

  /** frameTypeLength throws exactly for the tags it does not list, with the
      tag in the message. */
  lemma FrameTypeLengthRejectsUnknownTags(tag: string)
    ensures FrameTypeLength(tag).Err? <==> tag !in SupportedTags
    ensures FrameTypeLength(tag).Err? ==> FrameTypeLength(tag).error == UnsupportedType(tag)
  {
  }

  /** A positive length is the number of bits in the tag's name over 8, and
      every other accepted tag, arrays included, has length -1. */
  lemma FrameTypeLengthIsBitsOverEight(tag: string)
    requires FrameTypeLength(tag).Ok?
    ensures FrameTypeLength(tag).value > 0 <==> KindOf(tag).Fixed()
    ensures FrameTypeLength(tag).value > 0 ==> FrameTypeLength(tag).value * 8 == TagBits(tag)
    ensures FrameTypeLength(tag).value <= 0 ==> FrameTypeLength(tag).value == -1
  {
    if tag == "uint8" {
      assert tag[..4] == "uint" && tag[4..] == "8";
    } else if tag == "uint16" {
      assert tag[..4] == "uint" && tag[4..] == "16" && "16"[..1] == "1" && "1"[..0] == "";
      assert Decimal("16") == 16;
    } else if tag == "uint32" {
      assert tag[..4] == "uint" && tag[4..] == "32" && "32"[..1] == "3" && "3"[..0] == "";
      assert Decimal("32") == 32;
    } else if tag == "uint64" {
      assert tag[..4] == "uint" && tag[4..] == "64" && "64"[..1] == "6" && "6"[..0] == "";
      assert Decimal("64") == 64;
    }
  }

  /** The byte width of a fixed kind. */
  function Width(k: Kind): (w: nat)
    requires k.Fixed()
    ensures w > 0
  {
    match k
    case UInt8Tag => 1
    case UInt16Tag => 2
    case UInt32Tag => 4
    case UInt64Tag => 8
  }

  /** The `length` property of a descriptor: absent, the name of a fixed type
      used as a length prefix, or a number. */
  datatype Length = Absent | TypeName(tag: string) | Literal(count: int)

  /** The `choose` property of a sub-frame descriptor: which field of the
      message selects the nested frame, and the nested frames by value. */
  datatype Choice = Choice(discriminator: string, subFrames: map<int, Frame>)

  /** One field descriptor, with a static type tag. */
  datatype Field = Field(name: string, tag: string, optional: bool, length: Length, choose: Option<Choice>)

  /** A Frame: its descriptors in order and its optional `prepare` hook, which
      derives fields of the message before it is written. */
  datatype Frame = Frame(fields: seq<Field>, prepare: Option<Value -> Value>)

  /** The message after `prepare`. */
  function Prepared(fr: Frame, message: Value): Value
  {
    match fr.prepare
    case None => message
    case Some(p) => p(message)
  }

  /** The descriptor `{ name: '', type: tag }` that the helper builds for a
      length prefix. */
  function Bare(tag: string): (d: Field)
    ensures d.length.Absent? && d.choose.None? && !d.optional && d.tag == tag
  {
    Field("", tag, false, Absent, None)
  }

  /** The first position of c in s. */
  function IndexOf(s: string, c: char): (i: nat)
    requires c in s
    ensures i < |s| && s[i] == c && c !in s[..i]
  {
    if s[0] == c then 0 else 1 + IndexOf(s[1..], c)
  }

  /** The write helper's rewrite of a tag holding '[': everything before the
      '[' followed by ']' ("uint8[]" becomes "uint8]"). */
  function Rewritten(tag: string): string
  {
    if '[' in tag then tag[..IndexOf(tag, '[')] + "]" else tag
  }

  /** The kind the write helper's switch sees, after the rewrite. */
  function HelperKind(tag: string): Kind
  {
    KindOf(Rewritten(tag))
  }

  /** A rewritten tag ends in ']' and holds no '[', so it matches none of the
      switch's case labels: array values are never encoded. */
  lemma RewrittenArrayTagsMissEveryCase(tag: string)
    requires '[' in tag
    ensures Rewritten(tag) !in WriteCases
    ensures HelperKind(tag) == UnknownTag
  {
    RewrittenShape(tag);
    WriteCaseEndings();
  }

  /** The rewrite of a tag holding '[' ends in ']' and holds no '['. */
  lemma RewrittenShape(tag: string)
    requires '[' in tag
    ensures var r := Rewritten(tag); r != [] && r[|r| - 1] == ']' && '[' !in r
  {
    var i := IndexOf(tag, '[');
    assert Rewritten(tag) == tag[..i] + "]";
  }

  /** Every case label either holds '[' or does not end in ']'. */
  lemma WriteCaseEndings()
    ensures forall c :: c in WriteCases ==> c != [] && ('[' in c || c[|c| - 1] != ']')
  {
    forall c | c in WriteCases
      ensures c != [] && ('[' in c || c[|c| - 1] != ']')
    {
    }
  }

  /** `subFrame` is of variable width and reaches the switch's sub-frame
      case unchanged. */
  lemma SubFrameTagKind(tag: string)
    requires tag == "subFrame"
    ensures FrameTypeLength(tag) == Ok(-1 as int) && HelperKind(tag) == SubFrameTag
  {
    assert '[' !in tag;
  }

  /** The switch sees every tag as frameTypeLength does, except that array
      tags fall through to the default. */
  lemma HelperKindDropsArrays(tag: string)
    ensures HelperKind(tag) == if KindOf(tag).ArrayTag? then UnknownTag else KindOf(tag)
  {
    if '[' in tag {
      RewrittenArrayTagsMissEveryCase(tag);
      forall c | c in NamedTags
        ensures '[' !in c
      {
      }
      assert tag !in NamedTags;
    }
  }
}
