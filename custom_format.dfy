// User-defined formats: a name, extensions, and optional functions that
// decode bytes to a `Value` and encode a `Value` to bytes
// (src/format/custom.rs).
module CustomFormats {
  import opened Wrappers
  import opened Values
  import opened Text
  import opened FormatKinds

  type DeserializeFn = Bytes -> Result<Value, FormatError>
  type SerializeFn = Value -> Result<Bytes, FormatError>
  /** A decoder yielding several values from one input; the registry's
      streaming path prefers it when a descriptor carries one. */
  type StreamFn = Bytes -> Result<seq<Result<Value, FormatError>>, FormatError>

  datatype CustomFormat = CustomFormat(
    name: string,
    extensions: seq<string>,
    deserializeFn: Option<DeserializeFn>,
    serializeFn: Option<SerializeFn>,
    streamFn: Option<StreamFn>)

  /** `CustomFormat::new`: a descriptor that can do nothing yet. */
  function New(name: string, extensions: seq<string>): (c: CustomFormat)
    ensures c.name == name && c.extensions == extensions
    ensures c.deserializeFn.None? && c.serializeFn.None? && c.streamFn.None?
  {
    CustomFormat(name, extensions, None, None, None)
  }

  /** `with_deserialize`: installs the decoder; the name, extensions,
      encoder and streaming decoder are kept. */
  function WithDeserialize(c: CustomFormat, f: DeserializeFn): (c': CustomFormat)
    ensures c'.deserializeFn == Some(f)
    ensures c'.name == c.name && c'.extensions == c.extensions
    ensures c'.serializeFn == c.serializeFn && c'.streamFn == c.streamFn
  {
    c.(deserializeFn := Some(f))
  }

  /** `with_serialize`: installs the encoder; the name, extensions,
      decoder and streaming decoder are kept. */
  function WithSerialize(c: CustomFormat, f: SerializeFn): (c': CustomFormat)
    ensures c'.serializeFn == Some(f)
    ensures c'.name == c.name && c'.extensions == c.extensions
    ensures c'.deserializeFn == c.deserializeFn && c'.streamFn == c.streamFn
  {
    c.(serializeFn := Some(f))
  }

  function Unsupported(c: CustomFormat, what: string): FormatError
  {
    Other("Custom format '" + c.name + "' does not support " + what)
  }

  /** `CustomFormat::deserialize::<T>`: the descriptor's decoder, then
      `from_value` into the target type (whose failure message is wrapped as
      a serde error). */
  function DeserializeAs<T>(c: CustomFormat, fromValue: Value -> Result<T, string>, bytes: Bytes)
    : (r: Result<T, FormatError>)
    ensures c.deserializeFn.None? ==> r == Err(Unsupported(c, "deserialization"))
    ensures r.Ok? ==> c.deserializeFn.Some? && c.deserializeFn.value(bytes).Ok?
                      && fromValue(c.deserializeFn.value(bytes).value) == Ok(r.value)
  {
    match c.deserializeFn
    case None => Err(Unsupported(c, "deserialization"))
    case Some(f) =>
      match f(bytes)
      case Err(e) => Err(e)
      case Ok(v) =>
        match fromValue(v)
        case Err(m) => Err(Serde(m))
        case Ok(x) => Ok(x)
  }

  /** `CustomFormat::serialize::<T>`: `to_value`, then the descriptor's
      encoder. A missing encoder is reported before anything is converted. */
  function SerializeFrom<T>(c: CustomFormat, toValue: T -> Result<Value, string>, x: T)
    : (r: Result<Bytes, FormatError>)
    ensures c.serializeFn.None? ==> r == Err(Unsupported(c, "serialization"))
    ensures r.Ok? ==> c.serializeFn.Some? && toValue(x).Ok?
                      && c.serializeFn.value(toValue(x).value) == r
  {
    match c.serializeFn
    case None => Err(Unsupported(c, "serialization"))
    case Some(f) =>
      match toValue(x)
      case Err(m) => Err(Serde(m))
      case Ok(v) => f(v)
  }

  function ValueFromValue(v: Value): Result<Value, string>
  {
    Ok(v)
  }

  /** Decoding into `Value` itself, where `from_value` cannot fail. */
  function Deserialize(c: CustomFormat, bytes: Bytes): Result<Value, FormatError>
  {
    DeserializeAs(c, ValueFromValue, bytes)
  }

  /** Encoding a `Value` itself, where `to_value` cannot fail. */
  function Serialize(c: CustomFormat, v: Value): Result<Bytes, FormatError>
  {
    SerializeFrom(c, ValueFromValue, v)
  }

  /** `CustomFormat::matches_extension`. */
  predicate MatchesExtension(c: CustomFormat, ext: string)
  {
    AnyEqIgnoreCase(c.extensions, AsciiLower(ext))
  }

  // ------------------------------------------------------------- lemmas

  /** A fresh descriptor refuses both directions, naming itself. */
  lemma NewSupportsNothing<T>(name: string, exts: seq<string>, fromValue: Value -> Result<T, string>,
                              toValue: T -> Result<Value, string>, bytes: Bytes, x: T)
    ensures DeserializeAs(New(name, exts), fromValue, bytes)
            == Err(Other("Custom format '" + name + "' does not support deserialization"))
    ensures SerializeFrom(New(name, exts), toValue, x)
            == Err(Other("Custom format '" + name + "' does not support serialization"))
  {
    var head := "Custom format '" + name;
    assert head + "' does not support " + "deserialization" == head + "' does not support deserialization";
    assert head + "' does not support " + "serialization" == head + "' does not support serialization";
  }

  /** Each setter installs its own function and leaves the other
      direction as it was. */
  lemma SettersAreIndependent(c: CustomFormat, d: DeserializeFn, s: SerializeFn, bytes: Bytes, v: Value)
    ensures Deserialize(WithDeserialize(c, d), bytes) == d(bytes)
    ensures Serialize(WithSerialize(c, s), v) == s(v)
    ensures Serialize(WithDeserialize(c, d), v) == Serialize(c, v)
    ensures Deserialize(WithSerialize(c, s), bytes) == Deserialize(c, bytes)
  {
  }

  ghost predicate CodecRoundTrips(ser: SerializeFn, de: DeserializeFn)
  {
    forall v :: ser(v).Ok? ==> de(ser(v).value) == Ok(v)
  }

  ghost predicate ConversionRoundTrips<T(!new)>(toValue: T -> Result<Value, string>, fromValue: Value -> Result<T, string>)
  {
    forall x :: toValue(x).Ok? ==> fromValue(toValue(x).value) == Ok(x)
  }

  /** A descriptor whose encoder and decoder are inverse on values, used
      with a type whose serde conversions are inverse, round-trips every
      value of that type it can encode. */
  lemma RoundTrip<T(!new)>(c: CustomFormat, toValue: T -> Result<Value, string>,
                     fromValue: Value -> Result<T, string>, x: T)
    requires c.serializeFn.Some? && c.deserializeFn.Some?
    requires CodecRoundTrips(c.serializeFn.value, c.deserializeFn.value)
    requires ConversionRoundTrips(toValue, fromValue)
    requires SerializeFrom(c, toValue, x).Ok?
    ensures DeserializeAs(c, fromValue, SerializeFrom(c, toValue, x).value) == Ok(x)
  {
    var v := toValue(x).value;
    assert c.serializeFn.value(v).Ok?;
  }

  /** Extension matching is case-insensitive on both sides. */
  lemma {:induction false} MatchesExtensionMeaning(c: CustomFormat, ext: string)
    ensures MatchesExtension(c, ext) <==>
            exists e :: e in c.extensions && AsciiLower(e) == AsciiLower(ext)
  {
    AsciiLowerIdempotent(ext);
    AnyEqIgnoreCaseMeaning(c.extensions, AsciiLower(ext));
  }
}
