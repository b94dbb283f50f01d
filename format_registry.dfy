// The format registry: which kinds a program accepts, the descriptors of
// its custom formats, and resolution of a kind for an input or output
// (src/format/mod.rs, `FormatRegistry` and `default_registry`).
module FormatRegistries {
  import opened Wrappers
  import opened Seqs
  import opened Values
  import opened Text
  import opened FormatKinds
  import opened CustomFormats

  /** What a registry holds: the registered kinds in registration order
      and the custom descriptors in registration order. */
  datatype Registry = Registry(formats: seq<FormatKind>, customs: seq<CustomFormat>)

  /** `register` / `with_format`: append a kind unless it is already there. */
  function WithFormat(r: Registry, k: FormatKind): (r': Registry)
    ensures k in r'.formats && r.formats <= r'.formats && |r'.formats| <= |r.formats| + 1
    ensures r'.customs == r.customs
  {
    if k in r.formats then r else r.(formats := r.formats + [k])
  }

  /** `register_custom` / `with_custom_format`: the kind `Custom(name)` is
      added once, the descriptor always. */
  function WithCustomFormat(r: Registry, c: CustomFormat): (r': Registry)
    ensures Custom(c.name) in r'.formats && r.formats <= r'.formats && |r'.formats| <= |r.formats| + 1
    ensures r'.customs == r.customs + [c]
  {
    Registry(WithFormat(r, Custom(c.name)).formats, r.customs + [c])
  }

  predicate HasFormat(r: Registry, k: FormatKind)
  {
    k in r.formats
  }

  function NamedPredicate(name: string): CustomFormat -> bool
  {
    (c: CustomFormat) => c.name == name
  }

  /** `get_custom`: the first descriptor registered under `name`. */
  function GetCustom(r: Registry, name: string): (res: Option<CustomFormat>)
    ensures res.Some? <==> exists i :: 0 <= i < |r.customs| && r.customs[i].name == name
    ensures res.Some? ==> exists i :: 0 <= i < |r.customs| && r.customs[i] == res.value && res.value.name == name
                                      && forall j :: 0 <= j < i ==> r.customs[j].name != name
  {
    var p := NamedPredicate(name);
    var res := FindFirst(r.customs, p);
    assert forall i :: 0 <= i < |r.customs| ==> (p(r.customs[i]) <==> r.customs[i].name == name);
    res
  }

  /** Registered and compiled in: what `resolve` accepts. */
  predicate Usable(r: Registry, enabled: set<FormatKind>, k: FormatKind)
  {
    HasFormat(r, k) && IsAvailable(k, enabled)
  }

  function UsablePredicate(r: Registry, enabled: set<FormatKind>): FormatKind -> bool
  {
    (k: FormatKind) => Usable(r, enabled, k)
  }

  /** `resolve`: an explicit kind is taken as it is or refused, never
      replaced by a candidate; without one, the first usable candidate. */
  function Resolve(r: Registry, enabled: set<FormatKind>, explicit: Option<FormatKind>,
                   candidates: seq<FormatKind>): (res: Result<FormatKind, FormatError>)
    ensures res.Ok? ==> Usable(r, enabled, res.value)
    ensures explicit.Some? ==> (res.Ok? <==> Usable(r, enabled, explicit.value))
    ensures explicit.Some? && res.Ok? ==> res.value == explicit.value
    ensures explicit.Some? && res.Err? ==> res.error == UnknownFormat(explicit.value)
    ensures explicit.None? && res.Ok? ==>
      exists i :: 0 <= i < |candidates| && candidates[i] == res.value
                  && forall j :: 0 <= j < i ==> !Usable(r, enabled, candidates[j])
    ensures explicit.None? && res.Err? ==>
      res.error == NoFormatMatched && forall j :: 0 <= j < |candidates| ==> !Usable(r, enabled, candidates[j])
  {
    match explicit
    case Some(k) => if Usable(r, enabled, k) then Ok(k) else Err(UnknownFormat(k))
    case None =>
      var p := UsablePredicate(r, enabled);
      assert forall j :: 0 <= j < |candidates| ==> (p(candidates[j]) <==> Usable(r, enabled, candidates[j]));
      match FirstIndex(candidates, p)
      case Some(i) => Ok(candidates[i])
      case None => Err(NoFormatMatched)
  }

  /** A built-in kind claims an extension when one of its own extensions
      equals it up to ASCII case. */
  predicate KindClaims(k: FormatKind, lowerExt: string)
  {
    AnyEqIgnoreCase(Extensions(k), lowerExt)
  }

  function ClaimsPredicate(lowerExt: string): FormatKind -> bool
  {
    (k: FormatKind) => KindClaims(k, lowerExt)
  }

  function HasExtension(lowerExt: string): FormatKind -> bool
  {
    (k: FormatKind) => lowerExt in Extensions(k)
  }

  function MatchesPredicate(lowerExt: string): CustomFormat -> bool
  {
    (c: CustomFormat) => MatchesExtension(c, lowerExt)
  }

  /** `kind_for_extension`: registered kinds are asked first, in order,
      then the custom descriptors, in order. */
  function KindForExtension(r: Registry, ext: string): (res: Option<FormatKind>)
    ensures res.Some? && !res.value.Custom? ==> res.value in r.formats
    ensures res.Some? && res.value.Custom? ==>
      exists j :: 0 <= j < |r.customs| && r.customs[j].name == res.value.name && MatchesExtension(r.customs[j], ext)
  {
    var lower := AsciiLower(ext);
    match FirstIndex(r.formats, ClaimsPredicate(lower))
    case Some(i) => Some(r.formats[i])
    case None =>
      match FirstIndex(r.customs, MatchesPredicate(lower))
      case Some(j) => AsciiLowerIdempotent(ext); Some(Custom(r.customs[j].name))
      case None => None
  }

  /** Whether the `i`-th descriptor is the first one registered under
      `name`, the one `get_custom` finds. */
  predicate FirstNamed(r: Registry, name: string, i: int)
  {
    0 <= i < |r.customs| && r.customs[i].name == name && forall j :: 0 <= j < i ==> r.customs[j].name != name
  }

  predicate NoneNamed(r: Registry, name: string)
  {
    forall i :: 0 <= i < |r.customs| ==> r.customs[i].name != name
  }

  /** The decoder of a kind already chosen: a custom kind goes to its
      descriptor, which must exist, and a built-in kind to its codec. */
  function DecodeAs(r: Registry, c: Codecs, kind: FormatKind, bytes: Bytes): (res: Result<Value, FormatError>)
    ensures !kind.Custom? ==> res == FormatKinds.Deserialize(c, kind, bytes)
    ensures kind.Custom? && NoneNamed(r, kind.name) ==> res == Err(UnknownFormat(kind))
    ensures forall i :: kind.Custom? && FirstNamed(r, kind.name, i) ==>
      res == CustomFormats.Deserialize(r.customs[i], bytes)
  {
    if kind.Custom? then
      match GetCustom(r, kind.name)
      case None => Err(UnknownFormat(kind))
      case Some(cf) => FirstNamedIsFound(r, kind.name); CustomFormats.Deserialize(cf, bytes)
    else FormatKinds.Deserialize(c, kind, bytes)
  }

  /** The encoder of a kind already chosen, the same dispatch. */
  function EncodeAs(r: Registry, c: Codecs, kind: FormatKind, v: Value): (res: Result<Bytes, FormatError>)
    ensures !kind.Custom? ==> res == FormatKinds.Serialize(c, kind, v)
    ensures kind.Custom? && NoneNamed(r, kind.name) ==> res == Err(UnknownFormat(kind))
    ensures forall i :: kind.Custom? && FirstNamed(r, kind.name, i) ==>
      res == CustomFormats.Serialize(r.customs[i], v)
  {
    if kind.Custom? then
      match GetCustom(r, kind.name)
      case None => Err(UnknownFormat(kind))
      case Some(cf) => FirstNamedIsFound(r, kind.name); CustomFormats.Serialize(cf, v)
    else FormatKinds.Serialize(c, kind, v)
  }

  /** `deserialize_value`: resolve, then decode with the resolved kind. A
      resolution failure is passed through; a custom kind decodes with the
      first descriptor registered under its name, or is `UnknownFormat`
      when there is none. */
  function DeserializeValue(r: Registry, c: Codecs, explicit: Option<FormatKind>,
                            candidates: seq<FormatKind>, bytes: Bytes): (res: Result<Value, FormatError>)
    ensures var k := Resolve(r, c.enabled, explicit, candidates); k.Err? ==> res == Err(k.error)
    ensures var k := Resolve(r, c.enabled, explicit, candidates);
            k.Ok? && !k.value.Custom? ==> res == FormatKinds.Deserialize(c, k.value, bytes)
    ensures var k := Resolve(r, c.enabled, explicit, candidates);
            k.Ok? && k.value.Custom? && NoneNamed(r, k.value.name) ==> res == Err(UnknownFormat(k.value))
    ensures var k := Resolve(r, c.enabled, explicit, candidates);
            forall i :: k.Ok? && k.value.Custom? && FirstNamed(r, k.value.name, i) ==>
              res == CustomFormats.Deserialize(r.customs[i], bytes)
  {
    match Resolve(r, c.enabled, explicit, candidates)
    case Err(e) => Err(e)
    case Ok(kind) => DecodeAs(r, c, kind, bytes)
  }

  /** `serialize_value`, the same dispatch for encoding. */
  function SerializeValue(r: Registry, c: Codecs, explicit: Option<FormatKind>,
                          candidates: seq<FormatKind>, v: Value): (res: Result<Bytes, FormatError>)
    ensures var k := Resolve(r, c.enabled, explicit, candidates); k.Err? ==> res == Err(k.error)
    ensures var k := Resolve(r, c.enabled, explicit, candidates);
            k.Ok? && !k.value.Custom? ==> res == FormatKinds.Serialize(c, k.value, v)
    ensures var k := Resolve(r, c.enabled, explicit, candidates);
            k.Ok? && k.value.Custom? && NoneNamed(r, k.value.name) ==> res == Err(UnknownFormat(k.value))
    ensures var k := Resolve(r, c.enabled, explicit, candidates);
            forall i :: k.Ok? && k.value.Custom? && FirstNamed(r, k.value.name, i) ==>
              res == CustomFormats.Serialize(r.customs[i], v)
  {
    match Resolve(r, c.enabled, explicit, candidates)
    case Err(e) => Err(e)
    case Ok(kind) => EncodeAs(r, c, kind, v)
  }

  /** `get_custom` finds exactly the first descriptor under the name. */
  lemma FirstNamedIsFound(r: Registry, name: string)
    ensures GetCustom(r, name).None? <==> NoneNamed(r, name)
    ensures forall i :: FirstNamed(r, name, i) ==> GetCustom(r, name) == Some(r.customs[i])
  {
    forall i | FirstNamed(r, name, i)
      ensures GetCustom(r, name) == Some(r.customs[i])
    {
      var i0 :| 0 <= i0 < |r.customs| && r.customs[i0] == GetCustom(r, name).value && r.customs[i0].name == name
                 && forall j :: 0 <= j < i0 ==> r.customs[j].name != name;
      assert i0 == i;
    }
  }

  /** The kinds with a native streaming decoder. */
  predicate Streams(k: FormatKind)
  {
    k == Json || k == Csv || k == Yaml || k == Plaintext
  }

  function Single(d: Result<Value, FormatError>): Result<seq<Result<Value, FormatError>>, FormatError>
  {
    match d
    case Ok(v) => Ok([Ok(v)])
    case Err(e) => Err(e)
  }

  /** `stream_deserialize_into`: native streams for JSON, CSV, YAML and
      plain text, a custom format's own streaming decoder when it has one,
      and otherwise the whole input decoded as one item (a decoding failure
      then fails the call rather than the item). */
  function StreamDeserializeInto(r: Registry, c: Codecs, explicit: Option<FormatKind>,
                                 candidates: seq<FormatKind>, bytes: Bytes)
    : (res: Result<seq<Result<Value, FormatError>>, FormatError>)
    ensures var k := Resolve(r, c.enabled, explicit, candidates); k.Err? ==> res == Err(k.error)
    ensures res.Ok? && |res.value| != 1 ==>
      var k := Resolve(r, c.enabled, explicit, candidates);
      k.Ok? && (Streams(k.value) || k.value.Custom?)
    ensures var k := Resolve(r, c.enabled, explicit, candidates);
            k.Ok? && !Streams(k.value) && !k.value.Custom? ==>
              res == Single(FormatKinds.Deserialize(c, k.value, bytes))
    ensures var k := Resolve(r, c.enabled, explicit, candidates);
            k.Ok? && Streams(k.value) ==>
              res == (if k.value in c.enabled then Ok(c.stream(k.value, bytes)) else Err(NotEnabled(k.value)))
    ensures var k := Resolve(r, c.enabled, explicit, candidates);
            k.Ok? && k.value.Custom? && NoneNamed(r, k.value.name) ==> res == Err(UnknownFormat(k.value))
    ensures forall i :: var k := Resolve(r, c.enabled, explicit, candidates);
            k.Ok? && k.value.Custom? && FirstNamed(r, k.value.name, i) ==>
              res == (if r.customs[i].streamFn.Some? then r.customs[i].streamFn.value(bytes)
                      else Single(CustomFormats.Deserialize(r.customs[i], bytes)))
  {
    match Resolve(r, c.enabled, explicit, candidates)
    case Err(e) => Err(e)
    case Ok(kind) =>
      if Streams(kind) then
        if kind in c.enabled then Ok(c.stream(kind, bytes)) else Err(NotEnabled(kind))
      else if kind.Custom? then
        FirstNamedIsFound(r, kind.name);
        match GetCustom(r, kind.name)
        case None => Err(UnknownFormat(kind))
        case Some(cf) =>
          if cf.streamFn.Some? then cf.streamFn.value(bytes)
          else Single(CustomFormats.Deserialize(cf, bytes))
      else Single(FormatKinds.Deserialize(c, kind, bytes))
  }

  function Opt(k: FormatKind, enabled: set<FormatKind>): seq<FormatKind>
  {
    if k in enabled then [k] else []
  }

  /** The kinds `default_registry` registers, in its order: each built-in
      kind whose feature is on. */
  function DefaultKinds(enabled: set<FormatKind>): seq<FormatKind>
  {
    Opt(Json, enabled) + Opt(Yaml, enabled) + Opt(Plaintext, enabled)
    + Opt(Csv, enabled) + Opt(Xml, enabled) + Opt(Markdown, enabled)
  }

  // ------------------------------------------------------------- lemmas

  /** Registering keeps the kinds free of duplicates and in order, and
      registering twice is registering once. */
  lemma WithFormatKeepsSet(r: Registry, k: FormatKind)
    requires Distinct(r.formats)
    ensures Distinct(WithFormat(r, k).formats)
    ensures HasFormat(WithFormat(r, k), k)
    ensures forall x :: HasFormat(WithFormat(r, k), x) <==> HasFormat(r, x) || x == k
    ensures r.formats <= WithFormat(r, k).formats
    ensures WithFormat(WithFormat(r, k), k) == WithFormat(r, k)
    ensures WithFormat(r, k).customs == r.customs
  {
  }

  /** A custom descriptor is always kept, even under a name already
      registered, and its kind appears once. */
  lemma WithCustomFormatKeepsAll(r: Registry, c: CustomFormat)
    requires Distinct(r.formats)
    ensures Distinct(WithCustomFormat(r, c).formats)
    ensures HasFormat(WithCustomFormat(r, c), Custom(c.name))
    ensures |WithCustomFormat(r, c).customs| == |r.customs| + 1
    ensures GetCustom(WithCustomFormat(r, c), c.name).Some?
  {
    var r2 := WithCustomFormat(r, c);
    assert r2.customs[|r.customs|].name == c.name;
  }

  /** The first descriptor registered under a name wins: a later one with
      the same name is stored but never found. */
  lemma {:induction false} GetCustomFirstWins(r: Registry, c: CustomFormat)
    ensures GetCustom(r, c.name).Some? ==> GetCustom(WithCustomFormat(r, c), c.name) == GetCustom(r, c.name)
    ensures GetCustom(r, c.name).None? ==> GetCustom(WithCustomFormat(r, c), c.name) == Some(c)
  {
    var r2 := WithCustomFormat(r, c);
    var p := NamedPredicate(c.name);
    assert r2.customs == r.customs + [c];
    assert forall i :: 0 <= i < |r.customs| ==> r2.customs[i] == r.customs[i];
    if GetCustom(r, c.name).Some? {
      var i := FirstIndex(r.customs, p).value;
      assert FirstIndex(r2.customs, p) == Some(i) by {
        FirstIndexOfExtension(r.customs, [c], p);
      }
    } else {
      assert forall j :: 0 <= j < |r.customs| ==> !p(r.customs[j]);
      FirstIndexOfExtension(r.customs, [c], p);
      assert FirstIndex(r2.customs, p) == Some(|r.customs|);
    }
  }

  lemma {:induction false} FirstIndexOfExtension<T>(s: seq<T>, t: seq<T>, p: T -> bool)
    ensures FirstIndex(s, p).Some? ==> FirstIndex(s + t, p) == FirstIndex(s, p)
    ensures FirstIndex(s, p).None? && FirstIndex(t, p).Some? ==>
      FirstIndex(s + t, p) == Some(|s| + FirstIndex(t, p).value)
  {
    var u := s + t;
    assert forall j :: 0 <= j < |s| ==> u[j] == s[j];
    assert forall j :: 0 <= j < |t| ==> u[|s| + j] == t[j];
    match FirstIndex(s, p)
    case Some(i) =>
      UniqueFirst(u, p, i);
    case None =>
      if FirstIndex(t, p).Some? {
        var k := FirstIndex(t, p).value;
        UniqueFirst(u, p, |s| + k);
      }
  }

  /** Resolution is strict: with an explicit kind the candidates do not
      matter. */
  lemma ResolveExplicitIgnoresCandidates(r: Registry, enabled: set<FormatKind>, k: FormatKind,
                                         c1: seq<FormatKind>, c2: seq<FormatKind>)
    ensures Resolve(r, enabled, Some(k), c1) == Resolve(r, enabled, Some(k), c2)
  {
  }

  /** A kind that is registered and compiled in resolves to itself, by name
      or as the first candidate. */
  lemma ResolveRegistered(r: Registry, enabled: set<FormatKind>, k: FormatKind, rest: seq<FormatKind>)
    requires Usable(r, enabled, k)
    ensures Resolve(r, enabled, Some(k), rest) == Ok(k)
    ensures Resolve(r, enabled, None, [k] + rest) == Ok(k)
  {
    UniqueFirst([k] + rest, UsablePredicate(r, enabled), 0);
  }

  /** A built-in kind's stored extensions are lower case, so claiming an
      extension is membership of the lower-cased extension. */
  lemma {:induction false} KindClaimsMeaning(k: FormatKind, ext: string)
    ensures KindClaims(k, AsciiLower(ext)) <==> AsciiLower(ext) in Extensions(k)
  {
    AsciiLowerIdempotent(ext);
    ExtensionsLower(k);
    AnyEqIgnoreCaseLower(Extensions(k), AsciiLower(ext));
  }

  /** What `kind_for_extension` returns: a registered kind claiming the
      extension (the first registered one) whenever there is one; otherwise
      the first matching custom descriptor's kind; otherwise nothing. */
  lemma {:induction false} KindForExtensionMeaning(r: Registry, ext: string)
    ensures (exists i :: 0 <= i < |r.formats| && AsciiLower(ext) in Extensions(r.formats[i])) ==>
      var res := KindForExtension(r, ext);
      res.Some? && HasFormat(r, res.value) && AsciiLower(ext) in Extensions(res.value)
      && exists i :: 0 <= i < |r.formats| && r.formats[i] == res.value
                     && forall j :: 0 <= j < i ==> AsciiLower(ext) !in Extensions(r.formats[j])
    ensures (forall i :: 0 <= i < |r.formats| ==> AsciiLower(ext) !in Extensions(r.formats[i])) ==>
      (KindForExtension(r, ext).Some? <==> exists j :: 0 <= j < |r.customs| && MatchesExtension(r.customs[j], ext))
    ensures KindForExtension(r, ext).Some? && KindForExtension(r, ext).value.Custom? ==>
      forall i :: 0 <= i < |r.formats| ==> AsciiLower(ext) !in Extensions(r.formats[i])
  {
    var lower := AsciiLower(ext);
    AsciiLowerIdempotent(ext);
    forall j | 0 <= j < |r.formats|
      ensures ClaimsPredicate(lower)(r.formats[j]) == HasExtension(lower)(r.formats[j])
    {
      KindClaimsMeaning(r.formats[j], ext);
    }
    FirstIndexAgree(r.formats, ClaimsPredicate(lower), HasExtension(lower));
    assert forall c: CustomFormat :: MatchesPredicate(lower)(c) == MatchesExtension(c, ext);
  }

  /** Extension lookup ignores ASCII case. */
  lemma {:induction false} KindForExtensionIgnoresCase(r: Registry, a: string, b: string)
    requires AsciiLower(a) == AsciiLower(b)
    ensures KindForExtension(r, a) == KindForExtension(r, b)
  {
  }

  /** Only a missing descriptor or a failed resolution keeps a custom kind
      from its descriptor's decoder. */
  lemma DeserializeRegisteredCustom(r: Registry, c: Codecs, cf: CustomFormat,
                                    candidates: seq<FormatKind>, bytes: Bytes, v: Value)
    requires GetCustom(r, cf.name).None?
    ensures DeserializeValue(WithCustomFormat(r, cf), c, Some(Custom(cf.name)), candidates, bytes)
            == CustomFormats.Deserialize(cf, bytes)
    ensures SerializeValue(WithCustomFormat(r, cf), c, Some(Custom(cf.name)), candidates, v)
            == CustomFormats.Serialize(cf, v)
  {
    GetCustomFirstWins(r, cf);
  }

  /** A freshly registered descriptor streams with its own streaming
      decoder when it has one, and otherwise as its one decoded item. */
  lemma RegisteredCustomStreams(r: Registry, c: Codecs, cf: CustomFormat,
                                candidates: seq<FormatKind>, bytes: Bytes)
    requires GetCustom(r, cf.name).None?
    ensures StreamDeserializeInto(WithCustomFormat(r, cf), c, Some(Custom(cf.name)), candidates, bytes)
            == if cf.streamFn.Some? then cf.streamFn.value(bytes) else Single(CustomFormats.Deserialize(cf, bytes))
  {
    GetCustomFirstWins(r, cf);
  }

  /** A custom kind registered without a descriptor resolves, but then
      cannot be decoded or encoded. */
  lemma CustomKindWithoutDescriptor(r: Registry, c: Codecs, name: string, bytes: Bytes, v: Value)
    requires HasFormat(r, Custom(name)) && GetCustom(r, name).None?
    ensures Resolve(r, c.enabled, Some(Custom(name)), []) == Ok(Custom(name))
    ensures DeserializeValue(r, c, Some(Custom(name)), [], bytes) == Err(UnknownFormat(Custom(name)))
    ensures SerializeValue(r, c, Some(Custom(name)), [], v) == Err(UnknownFormat(Custom(name)))
  {
  }

  /** The streaming fallback: a kind without a streaming decoder yields
      exactly the one item that `deserialize_value` produces. */
  lemma StreamFallback(r: Registry, c: Codecs, explicit: Option<FormatKind>,
                       candidates: seq<FormatKind>, bytes: Bytes)
    requires Resolve(r, c.enabled, explicit, candidates).Ok?
    requires var k := Resolve(r, c.enabled, explicit, candidates).value;
             !Streams(k) && (k.Custom? && GetCustom(r, k.name).Some? ==> GetCustom(r, k.name).value.streamFn.None?)
    ensures StreamDeserializeInto(r, c, explicit, candidates, bytes)
            == Single(DeserializeValue(r, c, explicit, candidates, bytes))
  {
  }

  /** Resolution failures are passed through unchanged by all three
      operations. */
  lemma ResolveFailurePropagates(r: Registry, c: Codecs, explicit: Option<FormatKind>,
                                 candidates: seq<FormatKind>, bytes: Bytes, v: Value)
    requires Resolve(r, c.enabled, explicit, candidates).Err?
    ensures var e := Resolve(r, c.enabled, explicit, candidates).error;
            DeserializeValue(r, c, explicit, candidates, bytes) == Err(e)
            && SerializeValue(r, c, explicit, candidates, v) == Err(e)
            && StreamDeserializeInto(r, c, explicit, candidates, bytes) == Err(e)
            && (e.UnknownFormat? || e.NoFormatMatched?)
  {
  }

  /** `default_registry` registers every compiled-in built-in kind once,
      and nothing else. */
  lemma DefaultKindsMeaning(enabled: set<FormatKind>)
    ensures Distinct(DefaultKinds(enabled))
    ensures forall k :: k in DefaultKinds(enabled) <==> !k.Custom? && k in enabled
  {
    DefaultKindsDistinct(enabled);
    forall k
      ensures k in DefaultKinds(enabled) <==> !k.Custom? && k in enabled
    {
      DefaultKindsMember(enabled, k);
    }
  }

  lemma DefaultKindsDistinct(enabled: set<FormatKind>)
    ensures Distinct(DefaultKinds(enabled))
  {
    var e := enabled;
    var p1 := Opt(Json, e);
    var p2 := p1 + Opt(Yaml, e);
    assert Yaml !in p1;
    OptStep(p1, Yaml, e);
    var p3 := p2 + Opt(Plaintext, e);
    assert Plaintext !in p2;
    OptStep(p2, Plaintext, e);
    var p4 := p3 + Opt(Csv, e);
    assert Csv !in p3;
    OptStep(p3, Csv, e);
    var p5 := p4 + Opt(Xml, e);
    assert Xml !in p4;
    OptStep(p4, Xml, e);
    var p6 := p5 + Opt(Markdown, e);
    assert Markdown !in p5;
    OptStep(p5, Markdown, e);
    assert p6 == DefaultKinds(enabled);
  }

  lemma DefaultKindsMember(enabled: set<FormatKind>, k: FormatKind)
    ensures k in DefaultKinds(enabled) <==> !k.Custom? && k in enabled
  {
    var e := enabled;
    assert k in DefaultKinds(e) <==>
      (k in Opt(Json, e) || k in Opt(Yaml, e) || k in Opt(Plaintext, e)
       || k in Opt(Csv, e) || k in Opt(Xml, e) || k in Opt(Markdown, e));
  }

  /** Adding a kind that is not there yet, when it is enabled. */
  lemma OptStep(prefix: seq<FormatKind>, k: FormatKind, enabled: set<FormatKind>)
    requires Distinct(prefix) && k !in prefix
    ensures Distinct(prefix + Opt(k, enabled))
    ensures forall y :: y in prefix + Opt(k, enabled) <==> y in prefix || (y == k && k in enabled)
  {
  }

  // --------------------------------------------------------- the object

  /** The registry as the program holds it: `register` and
      `register_custom` push onto its two lists in place. */
  class FormatRegistry {
    var formats: seq<FormatKind>
    var customFormats: seq<CustomFormat>

    function View(): Registry
      reads this
    {
      Registry(formats, customFormats)
    }

    /** `FormatRegistry::new`. */
    constructor ()
      ensures View() == Registry([], [])
    {
      formats := [];
      customFormats := [];
    }

    method Register(k: FormatKind)
      modifies this
      ensures View() == WithFormat(old(View()), k)
    {
      if k !in formats {
        formats := formats + [k];
      }
    }

    method RegisterCustom(c: CustomFormat)
      modifies this
      ensures View() == WithCustomFormat(old(View()), c)
    {
      var kind := Custom(c.name);
      if kind !in formats {
        formats := formats + [kind];
      }
      customFormats := customFormats + [c];
    }

    /** `kind_for_extension`, the two loops with their early returns. */
    method FindKindForExtension(ext: string) returns (res: Option<FormatKind>)
      ensures res == KindForExtension(View(), ext)
    {
      var lower := AsciiLower(ext);
      var i := IndexWhere(formats, ClaimsPredicate(lower));
      if i.Some? {
        return Some(formats[i.value]);
      }
      var j := IndexWhere(customFormats, MatchesPredicate(lower));
      if j.Some? {
        return Some(Custom(customFormats[j.value].name));
      }
      return None;
    }

    /** `resolve`, with its loop over the candidates. */
    method ResolveKind(enabled: set<FormatKind>, explicit: Option<FormatKind>, candidates: seq<FormatKind>)
      returns (res: Result<FormatKind, FormatError>)
      ensures res == Resolve(View(), enabled, explicit, candidates)
    {
      if explicit.Some? {
        var k := explicit.value;
        if k in formats && IsAvailable(k, enabled) {
          return Ok(k);
        }
        return Err(UnknownFormat(k));
      }
      var usable := UsablePredicate(View(), enabled);
      var i := 0;
      while i < |candidates|
        invariant 0 <= i <= |candidates|
        invariant forall j :: 0 <= j < i ==> !usable(candidates[j])
      {
        var k := candidates[i];
        if k in formats && IsAvailable(k, enabled) {
          UniqueFirst(candidates, usable, i);
          return Ok(k);
        }
        i := i + 1;
      }
      return Err(NoFormatMatched);
    }
  }

  /** `default_registry`: every compiled-in built-in kind, in a fixed
      order. */
  method DefaultRegistry(enabled: set<FormatKind>) returns (reg: FormatRegistry)
    ensures fresh(reg)
    ensures reg.View() == Registry(DefaultKinds(enabled), [])
  {
    reg := new FormatRegistry();
    RegisterEnabled(reg, Json, enabled);
    ghost var p1 := reg.formats;
    assert Yaml !in p1;
    RegisterEnabled(reg, Yaml, enabled);
    ghost var p2 := reg.formats;
    assert Plaintext !in p2 by { assert p2 == p1 + Opt(Yaml, enabled); }
    RegisterEnabled(reg, Plaintext, enabled);
    ghost var p3 := reg.formats;
    assert Csv !in p3 by { assert p3 == p2 + Opt(Plaintext, enabled); }
    RegisterEnabled(reg, Csv, enabled);
    ghost var p4 := reg.formats;
    assert Xml !in p4 by { assert p4 == p3 + Opt(Csv, enabled); }
    RegisterEnabled(reg, Xml, enabled);
    ghost var p5 := reg.formats;
    assert Markdown !in p5 by { assert p5 == p4 + Opt(Xml, enabled); }
    RegisterEnabled(reg, Markdown, enabled);
    ghost var kinds := p5 + Opt(Markdown, enabled);
    assert reg.formats == kinds == DefaultKinds(enabled);
  }

  /** One feature-gated `register` call of `default_registry`, on a kind
      not registered yet. */
  method RegisterEnabled(reg: FormatRegistry, k: FormatKind, enabled: set<FormatKind>)
    requires k !in reg.formats
    modifies reg
    ensures reg.formats == old(reg.formats) + Opt(k, enabled)
    ensures reg.customFormats == old(reg.customFormats)
  {
    if k in enabled {
      reg.Register(k);
    } else {
      assert old(reg.formats) + Opt(k, enabled) == old(reg.formats);
    }
  }
}
