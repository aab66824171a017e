/** The JavaScript values the codec handles, the exceptions it can raise, and
    the two pieces of the JavaScript/Node runtime it relies on: reading a
    property of a value and Buffer.concat. */
module Values {
  import opened Wrappers
  import opened Wire

  /** A JavaScript value as far as the codec looks at it. Strings are kept as
      their bytes (the model fixes no character set). */
  datatype Value =
    | Undefined
    | Null
    | Num(n: int)
    | Text(text: seq<Byte>)
    | Bytes(bytes: seq<Byte>)
    | Record(fields: map<string, Value>)
    | Array(items: seq<Value>)

  /** What the codec (or the runtime underneath it) throws. */
  datatype Error =
    | UnsupportedType(tag: string)   // frameTypeLength: "<tag> is not supported"
    | UnsupportedLength(n: int)      // frameTypeLength called with a number
    | NotSupported                   // the helper's own "Not supported"
    | TypeError                      // a property read on undefined/null, or a missing method
    | InvalidArgument                // Node's Buffer API rejects an argument or an offset
    | NoSubFrame(name: string)       // register on a name with no sub-frame field
    | AlreadyRegistered(name: string, key: int)
    | Unmodelled                     // a path whose JavaScript behaviour the model does not follow

  type Outcome<T> = Result<T, Error>

  /** value[key]: undefined and null throw; a record yields the field or
      undefined; strings, buffers and arrays expose their `length`. */
  function Get(v: Value, key: string): (r: Outcome<Value>)
    ensures r.Err? <==> v.Undefined? || v.Null?
    ensures v.Record? && key in v.fields ==> r == Ok(v.fields[key])
    ensures v.Record? && key !in v.fields ==> r == Ok(Undefined)
  {
    match v
    case Undefined => Err(TypeError)
    case Null => Err(TypeError)
    case Num(_) => Ok(Undefined)
    case Text(s) => Ok(if key == "length" then Num(|s|) else Undefined)
    case Bytes(s) => Ok(if key == "length" then Num(|s|) else Undefined)
    case Array(items) => Ok(if key == "length" then Num(|items|) else Undefined)
    case Record(m) => Ok(if key in m then m[key] else Undefined)
  }

  /** value[key] where a throw reads as undefined; used only in predicates. */
  function Member(v: Value, key: string): Value
  {
    match Get(v, key)
    case Ok(x) => x
    case Err(_) => Undefined
  }

  /** Every chunk is a Buffer. */
  predicate AllBytes(chunks: seq<Value>)
  {
    forall i :: 0 <= i < |chunks| ==> chunks[i].Bytes?
  }

  /** The bytes of the chunks, in order. */
  function Flatten(chunks: seq<Value>): (r: seq<Byte>)
    requires AllBytes(chunks)
  {
    if chunks == [] then [] else Flatten(chunks[..|chunks| - 1]) + chunks[|chunks| - 1].bytes
  }

  /** Buffer.concat(list): every element must be a Buffer. */
  function Concat(chunks: seq<Value>): (r: Outcome<seq<Byte>>)
    ensures r.Ok? <==> AllBytes(chunks)
    ensures r.Ok? ==> r.value == Flatten(chunks)
    ensures r.Err? ==> r.error == InvalidArgument
  {
    if AllBytes(chunks) then Ok(Flatten(chunks)) else Err(InvalidArgument)
  }

  lemma {:induction false} FlattenAppend(chunks: seq<Value>, more: seq<Value>)
    requires AllBytes(chunks) && AllBytes(more)
    ensures AllBytes(chunks + more)
    ensures Flatten(chunks + more) == Flatten(chunks) + Flatten(more)
  {
    if more != [] {
      var all := chunks + more;
      assert all[..|all| - 1] == chunks + more[..|more| - 1];
      FlattenAppend(chunks, more[..|more| - 1]);
    } else {
      assert chunks + more == chunks;
    }
  }

  /** One more Buffer adds its bytes at the end. */
  lemma FlattenSnoc(chunks: seq<Value>, b: seq<Byte>, bytes: seq<Byte>)
    requires AllBytes(chunks) && Flatten(chunks) == bytes
    ensures AllBytes(chunks + [Bytes(b)])
    ensures Flatten(chunks + [Bytes(b)]) == bytes + b
  {
    assert (chunks + [Bytes(b)])[..|chunks|] == chunks;
  }

  /** Both parts of a list of Buffers are lists of Buffers. */
  lemma AllBytesSplit(prev: seq<Value>, more: seq<Value>)
    requires AllBytes(prev + more)
    ensures AllBytes(prev) && AllBytes(more)
  {
    assert forall j :: 0 <= j < |prev| ==> (prev + more)[j] == prev[j];
    assert forall j :: 0 <= j < |more| ==> (prev + more)[|prev| + j] == more[j];
  }

  /** A single Buffer flattens to its bytes. */
  lemma FlattenSingle(b: seq<Byte>)
    ensures AllBytes([Bytes(b)]) && Flatten([Bytes(b)]) == b
  {
    assert [Bytes(b)][..0] == [];
  }
}
