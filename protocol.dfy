/** Protocol (src/index.ts:329-371): a root frame plus a registry that maps
    each discriminator to the sub-frame descriptor that uses it, so that
    nested frames can be registered after construction. The registry holds
    the descriptor itself, shared with the root frame; here it holds the
    descriptor's position in the root frame, and a registration updates the
    root frame there. */
module Protocols {
  import opened Wrappers
  import opened Wire
  import opened Values
  import opened Schema
  import opened EncodeSpec
  import opened DecodeSpec
  import Encoder
  import Decoder

  /** Every descriptor typed exactly `subFrame` carries a `choose`, as the
      sub-frame descriptor type demands. */
  predicate ChoicesPresent(fields: seq<Field>)
  {
    forall i :: 0 <= i < |fields| && fields[i].tag == "subFrame" ==> fields[i].choose.Some?
  }

  /** Descriptor i is a sub-frame descriptor selected by `key`. */
  predicate SelectsBy(fields: seq<Field>, i: nat, key: string)
  {
    i < |fields| && fields[i].tag == "subFrame" && fields[i].choose.Some?
    && fields[i].choose.value.discriminator == key
  }

  /** The registry the constructor builds from the first n descriptors: each
      discriminator to the last sub-frame descriptor that names it. */
  function Seed(fields: seq<Field>, n: nat): map<string, nat>
    requires n <= |fields| && ChoicesPresent(fields)
  {
    if n == 0 then map[]
    else if fields[n - 1].tag == "subFrame" then Seed(fields, n - 1)[fields[n - 1].choose.value.discriminator := n - 1]
    else Seed(fields, n - 1)
  }

  /** Every entry of the registry points at a sub-frame descriptor that its
      key selects by. */
  predicate Registers(fields: seq<Field>, registry: map<string, nat>)
  {
    forall key :: key in registry ==> SelectsBy(fields, registry[key], key)
  }

  /** The constructor registers exactly the discriminators of the sub-frame
      descriptors, each at the last descriptor that names it. */
  lemma {:induction false} SeedIsLastDescriptor(fields: seq<Field>, n: nat)
    requires n <= |fields| && ChoicesPresent(fields)
    ensures Registers(fields, Seed(fields, n))
    ensures forall key :: key in Seed(fields, n) <==> exists i :: 0 <= i < n && SelectsBy(fields, i, key)
    ensures forall key, j :: key in Seed(fields, n) && Seed(fields, n)[key] < j < n ==> !SelectsBy(fields, j, key)
  {
    if n > 0 {
      SeedIsLastDescriptor(fields, n - 1);
      forall key | exists i :: 0 <= i < n && SelectsBy(fields, i, key)
        ensures key in Seed(fields, n)
      {
        var i :| 0 <= i < n && SelectsBy(fields, i, key);
        if i < n - 1 {
          assert key in Seed(fields, n - 1);
        }
      }
    }
  }

  /** The descriptors after `register(name, value, description, prepare)`
      has stored the new frame in the `choose` of descriptor i. */
  function Registered(fields: seq<Field>, i: nat, value: int, fr: Frame): (r: seq<Field>)
    requires i < |fields| && fields[i].choose.Some?
    ensures |r| == |fields|
  {
    var ch := fields[i].choose.value;
    fields[i := fields[i].(choose := Some(ch.(subFrames := ch.subFrames[value := fr])))]
  }

  /** After registration, a message whose discriminator holds the new
      value selects the new frame; every other value selects what it did
      before, and every other descriptor is unchanged. */
  lemma RegisteredSelects(fields: seq<Field>, i: nat, value: int, fr: Frame, m: Value)
    requires i < |fields| && fields[i].choose.Some? && value !in fields[i].choose.value.subFrames
    ensures var before := fields[i].choose.value;
            var after := Registered(fields, i, value, fr)[i].choose.value;
            && after.discriminator == before.discriminator
            && (Member(m, before.discriminator) == Num(value) ==>
                  Selected(after, m) == Some(value) && after.subFrames[value] == fr)
            && (Member(m, before.discriminator) != Num(value) ==>
                  Selected(after, m) == Selected(before, m)
                  && (Selected(before, m).Some? ==>
                        after.subFrames[Selected(before, m).value] == before.subFrames[Selected(before, m).value]))
    ensures forall j :: 0 <= j < |fields| && j != i ==> Registered(fields, i, value, fr)[j] == fields[j]
  {
  }

  /** Writing with a registered frame: a sub-frame descriptor without a
      length prefix returns the new frame's encoding of `value[name]` once
      the discriminator holds the registered value. */
  lemma RegisteredFrameWrites(fields: seq<Field>, i: nat, value: int, fr: Frame,
                              buf: Option<seq<Byte>>, m: Value, offset: nat)
    requires i < |fields| && fields[i].choose.Some? && value !in fields[i].choose.value.subFrames
    requires fields[i].length.Absent? && m.Record?
    requires Member(m, fields[i].choose.value.discriminator) == Num(value)
    ensures WriteSubFrame(buf, m, Registered(fields, i, value, fr)[i], offset)
            == match FrameEncode(fr, Member(m, fields[i].name))
               case Ok(bytes) => Ok(Written(buf, Bytes(bytes)))
               case Err(e) => Err(e)
  {
    RegisteredSelects(fields, i, value, fr, m);
  }

  /** Reading with a registered frame: once the discriminator read so far
      holds the registered value, the sub-frame descriptor reads the new
      frame from the same offset into the field. */
  lemma RegisteredFrameReads(fields: seq<Field>, i: nat, value: int, fr: Frame, buf: seq<Byte>, c: Cursor)
    requires i < |fields| && fields[i].tag == "subFrame" && fields[i].choose.Some?
    requires value !in fields[i].choose.value.subFrames
    requires Lookup(c.instance[fields[i].name := Record(map[])], fields[i].choose.value.discriminator) == Num(value)
    ensures var inst := c.instance[fields[i].name := Record(map[])];
            Step(Frame(Registered(fields, i, value, fr), None), i, buf, c)
            == match FrameDecode(fr, buf, map[], c.offset)
               case Ok(nested) => Ok(Cursor(inst[fields[i].name := Record(nested)], c.offset))
               case Err(e) => Err(e)
  {
    SubFrameTagKind(fields[i].tag);
  }

  class Protocol {
    /** The root frame's descriptors; the root frame has no `prepare`. */
    var fields: seq<Field>
    /** subFrameRegistration: discriminator to descriptor position. */
    var registry: map<string, nat>

    ghost predicate Valid()
      reads this
    {
      ChoicesPresent(fields) && Registers(fields, registry)
    }

    /** The root frame. */
    function Root(): Frame
      reads this
    {
      Frame(fields, None)
    }

    /** The constructor (src/index.ts:334-342). */
    constructor(frames: seq<Field>)
      requires ChoicesPresent(frames)
      ensures fields == frames && registry == Seed(frames, |frames|)
      ensures Valid()
    {
      fields := frames;
      var seen: map<string, nat> := map[];
      for i := 0 to |frames|
        invariant seen == Seed(frames, i)
      {
        if frames[i].tag == "subFrame" {
          seen := seen[frames[i].choose.value.discriminator := i];
        }
      }
      registry := seen;
      SeedIsLastDescriptor(frames, |frames|);
    }

    /** register (src/index.ts:344-353): a name with no sub-frame descriptor
        throws, a value already taken throws, and otherwise the new frame is
        stored under the value. The registry itself never changes. */
    method Register(name: string, value: int, description: seq<Field>, prepare: Option<Value -> Value>)
      returns (r: Outcome<()>)
      requires Valid()
      modifies this
      ensures Valid() && registry == old(registry)
      ensures name !in registry ==> r == Err(NoSubFrame(name)) && fields == old(fields)
      ensures name in registry && value in old(fields)[registry[name]].choose.value.subFrames ==>
                r == Err(AlreadyRegistered(name, value)) && fields == old(fields)
      ensures name in registry && value !in old(fields)[registry[name]].choose.value.subFrames ==>
                r == Ok(()) && fields == Registered(old(fields), registry[name], value, Frame(description, prepare))
    {
      if name !in registry {
        return Err(NoSubFrame(name));
      }
      var i := registry[name];
      if value in fields[i].choose.value.subFrames {
        return Err(AlreadyRegistered(name, value));
      }
      fields := Registered(fields, i, value, Frame(description, prepare));
      r := Ok(());
    }

    /** read (src/index.ts:355-362): the root frame read into an empty
        instance from offset 0. */
    method Read(buf: seq<Byte>) returns (r: Outcome<map<string, Value>>)
      ensures r == FrameDecode(Root(), buf, map[], 0)
    {
      r := Decoder.ReadFrame(Root(), buf, map[], 0);
    }

    /** write (src/index.ts:364-370): the root frame's encoding. */
    method Write(instance: Value) returns (r: Outcome<seq<Byte>>)
      ensures r == FrameEncode(Root(), instance)
    {
      r := Encoder.WriteFrame(Root(), instance);
    }
  }
}
