# protocol-parser in Dafny

A model of the binary codec in `src/index.ts` of protocol-parser. A message
is laid out as a list of field descriptors, its **frame**. Each descriptor
names a field of the message and gives it a type tag (`uint8`, `uint16`,
`uint32`, `uint64`, `buffer`, `string`, `subFrame`, array tags). It can also
give a `length` (a type name used as a length prefix, or a number), mark the
field `optional`, and, for a `subFrame`, a `choose` table. That table names
a discriminator field and maps each of its values to a nested frame.

The model covers these parts of the source:

- `frameTypeLength`, the tag to byte-width table (`Schema`);
- the private `write` helper, which stores one field into a Node Buffer in
  place or returns a fresh one (`EncodeSpec` as functions, `Encoder` as
  methods over `array<Byte>`);
- the private `read` helper, which reads one field and turns every
  exception into `null` (`DecodeSpec`, `Decoder`);
- `Frame.write`, which pushes one chunk per descriptor and concatenates
  them, and `Frame.read`, which walks the descriptors with a running offset
  and fills an instance (the same modules);
- `Protocol`: its constructor seeds a registry from the `subFrame`
  descriptors, `register` adds a nested frame under a discriminator value,
  and `read`/`write` apply the root frame (`Protocols`).

The model follows the code as written, including these behaviours:

- array tags are rewritten to `uint8]` and so on, and fall through the
  write switch;
- a prefixed `subFrame` returns the helper's `undefined`;
- `uint64` reads to the end of the buffer;
- optional fields are skipped on write but still read;
- a `subFrame` read does not move the offset.

The properties proved about it:

- big-endian round trips;
- the layout of length-prefixed payloads;
- read-after-write for frames of numbers, and for such a frame ending in a
  selected sub-frame;
- the registry's constructor and `register` contracts.

Each method is proved to compute its specification function.

Bytes are integers 0..255. JavaScript values are the datatype
`Values.Value`, and strings are kept as their bytes. Every exception the
code or Node can raise is a `Values.Error` in a `Result`.

## Model

| member | source | states |
|---|---|---|
| Schema.FrameTypeLengthRejectsUnknownTags | src/index.ts:60-84 | frameTypeLength throws exactly for the tags outside its twelve case labels (so `bit` and `uint2` throw), with the tag in the error |
| Schema.FrameTypeLengthIsBitsOverEight | src/index.ts:64-80 | an accepted tag has a positive width exactly when it is uint8/16/32/64, and that width times 8 is the bit count in its name; every other accepted tag, the array tags and `subFrame[]` included, gives -1 |
| Schema.RewrittenArrayTagsMissEveryCase | src/index.ts:98-102 | the rewrite of a tag holding `[` (everything before `[` plus `]`) matches none of the write switch's case labels, so the helper sees an unknown kind |
| Schema.HelperKindDropsArrays | src/index.ts:98-104 | the write switch sees every tag as frameTypeLength does, except that array tags fall through to the default |
| Schema.SubFrameTagKind | src/index.ts:74 | `subFrame` has width -1 and reaches the write switch's sub-frame case unchanged |
| Wire.BigEndianRoundTrip | src/index.ts:106-114 | reading big-endian what was written big-endian in w bytes gives back any value below 256^w |
| Wire.FromBigEndianRoundTrip | src/index.ts:209-213 | writing back a number read big-endian gives the same bytes |
| Wire.FromBigEndianBound | src/index.ts:209-213 | a number read from w bytes is below 256^w |
| Wire.BigEndianInjective | src/index.ts:107-113 | two values that fit in w bytes are equal exactly when their big-endian encodings are |
| Wire.Overwrite | src/index.ts:183-186 | copying a payload into a buffer at an offset changes exactly the bytes from that offset up to the end of the payload or of the buffer |
| Wire.Slice | src/index.ts:218-221 | `buf.slice(o, e)` is the bytes o..e within bounds, `buf.slice(o)` is o..end, and a start past the end gives no bytes |
| Values.Get | src/index.ts:282 | reading a property throws exactly on undefined and null, and an object gives the field or undefined |
| Values.FlattenAppend | src/index.ts:289-291 | the bytes of two lists of Buffers one after the other are the bytes of each, in order |
| EncodeSpec.Coerced | src/index.ts:107-113 | writeUIntX takes a number as itself and null, undefined or an object as zero |
| EncodeSpec.WriteHelper | src/index.ts:86-200 | the helper leaves a buffer exactly when it was handed one, of the same length |
| EncodeSpec.WritePayload | src/index.ts:164-188 | the buffer/string case leaves the given buffer alone except with no `length`; then a `buffer` field returns the value it was handed unchanged, and a `string` field succeeds exactly when a buffer is given, the value is a string and the offset is within the buffer, writes the string into that buffer at the offset, clipped at its end, and returns that buffer |
| EncodeSpec.WriteLengthIsHelper | src/index.ts:172 | the helper called on `{ name: '', type: lt }` to write a length gives WriteLength's result |
| EncodeSpec.PayloadLength | src/index.ts:171 | a payload length is accepted only when frameTypeLength accepts the prefix type and Buffer.alloc gets a size that is not negative |
| EncodeSpec.WriteSubFrame | src/index.ts:189-198 | the sub-frame case never changes the buffer it was handed (its other outcomes are stated by EncodeProperties.SubFrameWrite) |
| EncodeSpec.PrefixedFrame | src/index.ts:196-198 | a prefixed sub-frame returns only the helper's result for the prefix: undefined or a number, never the bytes |
| EncodeProperties.FixedWrite | src/index.ts:106-114 | writing an in-range uint8/16/32 at an offset stores it big-endian there, reads back as itself and leaves every other byte alone; it throws exactly for negative, too large or past-the-end writes |
| EncodeProperties.MissingNumberWritesZeros | src/index.ts:107-113 | a missing field (undefined, or an object) is written as zero bytes instead of throwing |
| EncodeProperties.PrefixedLayout | src/index.ts:164-188 | a buffer or string behind a numeric type-named length is the length big-endian in that width, followed by the payload |
| EncodeProperties.LengthPrefix | src/index.ts:171-173 | for such a payload the allocation size is accepted and the helper writes the length at 0 and returns nothing |
| EncodeProperties.LiteralLengthPayload | src/index.ts:177-188 | with a numeric `length` the helper returns a fresh buffer holding exactly the payload |
| EncodeProperties.ArrayFieldsWriteNothing | src/index.ts:98-163 | for every array tag the helper leaves its buffer untouched and returns nothing |
| EncodeProperties.SubFrameWrite | src/index.ts:189-198 | a string, Buffer or array discriminator value is not followed (`Unmodelled`); any other value without a registered frame hands back the given buffer, or null; a registered frame without `length` gives that frame's write of `value[name]`; a numeric prefix loses the bytes and returns undefined |
| Encoder.StoreBigEndian | src/index.ts:107-113 | writeUIntBE stores the big-endian bytes from the offset in place |
| Encoder.CopyInto | src/index.ts:183-186 | Buffer.copy/write stores the payload in place, clipped at the end |
| Encoder.WriteFixed | src/index.ts:106-117 | the fixed-width cases store into the array as StoreFixed says, and leave it untouched when they throw |
| Encoder.PutPayloadInto | src/index.ts:183-186 | the payload copy into the array is PutPayload, and the array is untouched on error |
| Encoder.WriteField | src/index.ts:86-200 | the helper over a mutable buffer leaves it as WriteHelper says and returns its value, or throws with the buffer unchanged |
| Encoder.WritePayloadInto | src/index.ts:164-188 | the buffer/string case over a mutable buffer is WritePayload |
| Encoder.WriteLengthInto | src/index.ts:172 | the helper writing a length prefix into an array is WriteLength |
| Encoder.PrefixedPayload | src/index.ts:166-188 | the allocate, prefix, then copy sequence gives Prefixed |
| Encoder.LiteralPayload | src/index.ts:177-188 | the numeric-length path gives what WritePayload returns |
| Encoder.WriteSubFrameInto | src/index.ts:189-198 | the sub-frame case over a mutable buffer is WriteSubFrame |
| Encoder.PrefixedFrameInto | src/index.ts:196-198 | the prefixed sub-frame sequence gives PrefixedFrame |
| Encoder.WriteFrame | src/index.ts:264-292 | Frame.write's loop over a growing chunk list computes FrameEncode, and the first throwing descriptor's error |
| Encoder.PushChunk | src/index.ts:271-289 | one turn of Frame.write's loop pushes Chunk's value |
| Encoder.ChunksKeepFirstError | src/index.ts:269-290 | once a descriptor throws, Frame.write throws that error |
| Frames.NumberFrameEncoding | src/index.ts:264-292 | for a frame of required in-range numbers, Frame.write (after `prepare`) gives each number big-endian in descriptor order, and the length is the sum of the widths |
| Frames.LayoutLength | src/index.ts:275-283 | a frame of numbers takes exactly the sum of its fields' widths |
| Frames.NumberChunk | src/index.ts:275-283 | a required in-range number field pushes one Buffer of its big-endian bytes |
| Frames.NumberChunks | src/index.ts:269-290 | the chunks for the first i fields of numbers are one Buffer each |
| Frames.ChunksLayout | src/index.ts:291 | the concatenated chunks are the frame's layout |
| Frames.LayoutSnoc | src/index.ts:289-291 | the layout of fields i..j is that of i..j-1 followed by field j-1's bytes |
| Frames.NumberStep | src/index.ts:303-307 | reading a number field at the offset of its bytes gives the number back and moves the offset by its width |
| Frames.NextNumberField | src/index.ts:303-307 | reading the first of a run of number fields leaves the rest of the layout at the new offset |
| Frames.ReadNumberFields | src/index.ts:293-307 | Frame.read over a run of number fields laid out at the offset assigns each its number and moves past the layout, whatever surrounds it |
| Frames.NumberFrameRead | src/index.ts:293-307 | Frame.read of a frame of numbers into an empty instance assigns every field its number |
| Frames.NumberFrameRoundTrip | src/index.ts:264-307 | read(write(m)) for a frame of required in-range numbers gives back exactly those fields with the message's values after `prepare`, even with bytes following |
| Frames.AssignedFields | src/index.ts:305 | the fields Frame.read assigns are the instance's plus the frame's names, each with the message's value |
| Frames.AssignedFresh | src/index.ts:305 | the same, into an empty instance |
| Frames.FixedFieldsAdvance | src/index.ts:302-307 | Frame.read never fails on fixed-width fields, optional ones included, and moves by the sum of their widths even past the end of the buffer |
| Frames.OptionalPushesNothing | src/index.ts:275-279 | an optional descriptor whose tag frameTypeLength accepts pushes nothing onto the chunk list |
| Frames.FixedChunk | src/index.ts:275-289 | a fixed-width descriptor pushes one Buffer exactly as long as its width, or nothing when it is optional |
| Frames.FixedChunksLength | src/index.ts:269-290 | for a frame of fixed-width descriptors, the chunks of the first i descriptors are Buffers whose bytes add up to the widths of the required ones among them |
| Frames.FixedFrameLength | src/index.ts:264-292 | for every frame of fixed-width descriptors (optional ones and `uint64` included), every optional descriptor pushes nothing and a successful Frame.write is exactly as long as the widths of the required descriptors together |
| Frames.RecordChunk | src/index.ts:280-289 | a required descriptor whose chunk is a Buffer, with an object as the message, is fixed-width or an unprefixed sub-frame whose key selects a registered frame |
| Frames.ChunkOfBytes | src/index.ts:269-291 | when all the chunks are Buffers, so is the chunk of each field |
| Frames.BytesChunksSplit | src/index.ts:289-291 | the chunks before the last and the last chunk are Buffers when all are |
| Frames.FrameEncodeNeedsDirectFields | src/index.ts:280-291 | with an object as the message, Frame.write succeeds only if every required descriptor is fixed-width or an unprefixed, selected sub-frame (strings and buffers get the whole message and fail) |
| DecodeSpec.ArrayTagElements | src/index.ts:225-231 | every array tag holds `[`, and what precedes it is an accepted tag that is not an array |
| DecodeSpec.IndexOfFirst | src/index.ts:230 | the first `[` is found where no `[` precedes it |
| DecodeSpec.PositionIsProduct | src/index.ts:233-239 | the array loop reads element j at `offset + j * length` |
| DecodeSpec.Items | src/index.ts:233-244 | the array loop reads as many elements as it runs |
| DecodeProperties.NumberRead | src/index.ts:208-213 | a number field reads the big-endian value of its bytes, below 256^width, and null exactly when its width runs past the end |
| DecodeProperties.UInt64ReadsToEnd | src/index.ts:214-224 | a `uint64` field reads every byte from its offset to the end as a string |
| DecodeProperties.PayloadRead | src/index.ts:214-224 | a `buffer`, `string` or `uint64` field reads the bytes from its offset to offset + length when a length is given, to the end of the buffer otherwise, and nothing from past the end; `buffer` gives a Buffer, the others a string |
| DecodeProperties.SubFrameReadsInPlace | src/index.ts:308-312 | a sub-frame step never moves the offset, sets the field to an object and leaves every other field; the discriminator is looked up after the field was set to {}, and a missing or unregistered key throws |
| DecodeProperties.OptionalFieldShiftsRead | src/index.ts:278-307 | `[optional uint8 a, uint8 b]` writes {a: 7, b: 5} as [5], which reads back as {a: 5, b: null} |
| DecodeProperties.OptionalFieldSkipped | src/index.ts:278-279 | the optional field is left out of Frame.write |
| DecodeProperties.SkippedChunks | src/index.ts:269-290 | the chunks for that message are the single Buffer [5] |
| DecodeProperties.OptionalChunk | src/index.ts:278-279 | the optional field pushes nothing |
| DecodeProperties.ByteChunk | src/index.ts:280-283 | the required field pushes its byte |
| DecodeProperties.OptionalFieldRead | src/index.ts:296-307 | Frame.read of [5] reads 5 into the optional field and null into the other |
| Decoder.ReadField | src/index.ts:202-256 | the read helper computes ReadValue |
| Decoder.ReadItems | src/index.ts:231-243 | the array loop computes the Items it specifies |
| Decoder.ReadFrame | src/index.ts:293-327 | Frame.read's loop computes FrameDecode, stopping at the first throw |
| Decoder.ReadDescriptor | src/index.ts:298-325 | one turn of Frame.read's loop computes Step |
| NestedFrames.SubFrameChunk | src/index.ts:189-195 | an unprefixed sub-frame descriptor, whose key selects a frame of numbers, pushes that frame's encoding of `message[name]` |
| NestedFrames.VariableChunk | src/index.ts:284-289 | a variable-width descriptor pushes what the helper returns when handed null |
| NestedFrames.OuterChunks | src/index.ts:269-291 | the outer number fields push their big-endian bytes |
| NestedFrames.TrailingSubFrameEncoding | src/index.ts:264-292 | a frame of numbers ending in a selected sub-frame writes the outer numbers, then the chosen frame's numbers |
| NestedFrames.ReadTrailingSubFrame | src/index.ts:308-312 | once the outer numbers are read, the sub-frame step reads the chosen frame from the same offset into the field |
| NestedFrames.DiscriminatorRead | src/index.ts:310-311 | the discriminator looked up after the field was set to {} is the message's value |
| NestedFrames.ChosenFrameRead | src/index.ts:311 | the chosen frame reads its numbers back from its layout |
| NestedFrames.SubFrameStep | src/index.ts:308-312 | a sub-frame step whose key selects a frame that reads successfully stores that frame's instance and keeps the offset |
| NestedFrames.TrailingSubFrameDecoding | src/index.ts:293-327 | Frame.read of that layout gives the outer numbers, and under the sub-frame's name the chosen frame's instance |
| NestedFrames.TrailingSubFrameRoundTrip | src/index.ts:264-327 | read(write(m)) gives back the outer fields with their values, and under the sub-frame's name an object holding exactly the chosen frame's fields with the values of `m[name]` after that frame's `prepare` |
| NestedFrames.TrailingInstance | src/index.ts:305-311 | the instance Frame.read builds there has exactly those fields |
| Protocols.SeedIsLastDescriptor | src/index.ts:337-341 | the constructor registers exactly the discriminators of the `subFrame` descriptors, each at the last descriptor that names it |
| Protocols.Registered | src/index.ts:352 | registration keeps the number of root descriptors |
| Protocols.RegisteredSelects | src/index.ts:352 | after registration the new value selects the new frame, every other value selects what it did, and every other descriptor is unchanged |
| Protocols.RegisteredFrameWrites | src/index.ts:352 | writing through the registered value encodes with the new frame |
| Protocols.RegisteredFrameReads | src/index.ts:352 | reading through the registered value decodes with the new frame from the same offset |
| Protocols.Protocol.constructor | src/index.ts:334-342 | the registry is the seed of the descriptors, and each entry points at a sub-frame descriptor its key selects by |
| Protocols.Protocol.Register | src/index.ts:344-353 | an unknown name throws, a taken value throws, each with nothing changed; otherwise exactly one frame is added under the value and the registry keeps its invariant |
| Protocols.Protocol.Read | src/index.ts:355-362 | read is Frame.read of the root frame into an empty instance from offset 0 |
| Protocols.Protocol.Write | src/index.ts:364-370 | write is Frame.write of the root frame |

## Left out

- Debug logging (src/index.ts:1-2, 88, 358, 360, 366, 368) is trace output only.
- Character sets: strings are byte sequences, and `value.length` is their byte count. Node writes strings as UTF-8, whereas `length` counts UTF-16 units.
- Dynamic type getters (functions as `type`) are not modelled; every tag is a static string.
- The sub-byte types `bit` and `uint2`..`uint7` are not implemented by the source. They are just tags frameTypeLength rejects.
- The array branches of the write helper (src/index.ts:118-163) cannot be reached, because of the tag rewrite. They are modelled only as that fall-through.
- The array read loop is modelled as written, but Frame.read never reaches it: it reads arrays only through the complex-field path below.
- Complex-field decoding in Frame.read (src/index.ts:313-324): the exceptions it raises are modelled. The paths that go on with string offsets (a type-named length, or a numeric length naming a descriptor) end in `Unmodelled`, because JavaScript's `+=` on a string offset is not followed.
- EncodeSpec.Coerced: numeric coercion of strings, Buffers and arrays by writeUIntX is not followed (`Unmodelled`). Non-integer numbers are not represented either.
- EncodeSpec.WriteSubFrame, DecodeSpec.Visit: a sub-frame discriminator whose value is a string, Buffer or array is not followed on write or on read (`Unmodelled`). JavaScript converts such a key to a property name before `in` and the lookup, so `"1"`, `[1]` or a Buffer holding "1" would select frame 1, and `"toString"` would find an inherited member and throw.
- `prepare` mutates the message in place. Here it is a pure function from message to message, applied once at the start of Frame.write.
- Frame.read fills the caller's instance object in place. Here the instance is a map threaded through the steps and returned.
- Protocols.Protocol.Register: the registry entry and the root descriptor are the same object in the source, and a `choose` table may be shared by several descriptors. Here the registry holds the descriptor's position in the root frame, and registration updates that one descriptor.
- Protocols.Protocol.constructor: requires that every `subFrame` descriptor has a `choose`. The source would throw a TypeError while seeding the registry.
- Protocols.Protocol.Register: a name that is an Object.prototype member (`toString`, `constructor`) is not registered here and throws NoSubFrame; the source finds the inherited function, passes the first check and then throws a TypeError.
- Buffer.alloc's upper size limit and its handling of non-integer sizes are not modelled. Sizes are unbounded naturals, and negative sizes throw.
- A numeric string used as a `length` (`isNaN('4')` is false) is treated as a type name that frameTypeLength then rejects.
- NestedFrames.TrailingSubFrameRoundTrip is proved for one trailing, unprefixed sub-frame over frames of numbers, not for arbitrary nesting.
