// Format kinds, their names and extensions, format errors, and the
// dispatch of a built-in kind to its codec (src/format/mod.rs, first half).
module FormatKinds {
  import opened Wrappers
  import opened Values
  import opened Text

  datatype FormatKind =
    | Plaintext
    | Json
    | Yaml
    | Xml
    | Csv
    | Markdown
    | Custom(name: string)

  /** `Display for FormatKind`: a built-in kind shows a fixed lower-case
      word, a custom kind its own name. */
  function Name(k: FormatKind): (n: string)
    ensures k.Custom? ==> n == k.name
    ensures !k.Custom? ==> |n| >= 3 && NoUpper(n)
  {
    match k
    case Plaintext => "plaintext"
    case Json => "json"
    case Yaml => "yaml"
    case Xml => "xml"
    case Csv => "csv"
    case Markdown => "markdown"
    case Custom(n) => n
  }

  /** `FormatKind::from_str` on a name already folded to lower case. */
  function ParseLower(lower: string): Result<FormatKind, ()>
  {
    if StartsWith(lower, "custom:") then Ok(Custom(lower[|"custom:"|..]))
    else if lower == "plaintext" || lower == "text" || lower == "txt" then Ok(Plaintext)
    else if lower == "json" then Ok(Json)
    else if lower == "yaml" || lower == "yml" then Ok(Yaml)
    else if lower == "xml" then Ok(Xml)
    else if lower == "csv" then Ok(Csv)
    else if lower == "markdown" || lower == "md" then Ok(Markdown)
    else Err(())
  }

  /** `FormatKind::from_str`: case-insensitive names and aliases, and
      `custom:<name>` for a custom kind (its name lower-cased too). */
  function ParseFormat(s: string): (r: Result<FormatKind, ()>)
    ensures r.Ok? && r.value.Custom? <==> StartsWith(AsciiLower(s), "custom:")
    ensures r.Ok? && r.value.Custom? ==> r.value.name == AsciiLower(s)[7..]
  {
    ParseLower(AsciiLower(s))
  }

  /** `FormatKind::extensions`: lower-case, and empty for a custom kind. */
  function Extensions(k: FormatKind): (exts: seq<string>)
    ensures k.Custom? <==> exts == []
  {
    match k
    case Plaintext => ["txt", "text"]
    case Json => ["json"]
    case Yaml => ["yaml", "yml"]
    case Xml => ["xml"]
    case Csv => ["csv"]
    case Markdown => ["md", "markdown"]
    case Custom(_) => []
  }

  /** The built-in kinds: every kind but a custom one. */
  const BuiltIns: seq<FormatKind> := [Plaintext, Json, Yaml, Xml, Csv, Markdown]

  /** `FormatKind::is_available`: a built-in kind when its codec is
      compiled in (`enabled` stands for the crate's features), a custom kind
      always. */
  predicate IsAvailable(k: FormatKind, enabled: set<FormatKind>)
    ensures IsAvailable(k, enabled) <==> (k in BuiltIns ==> k in enabled)
  {
    k.Custom? || k in enabled
  }

  datatype FormatError =
    | UnknownFormat(kind: FormatKind)
    | NoFormatMatched
    | NotEnabled(kind: FormatKind)
    | Io(message: string)
    | Serde(message: string)
    | Other(message: string)

  /** `Display for FormatError`. */
  function ErrorText(e: FormatError): string
  {
    match e
    case UnknownFormat(k) => "Unknown format: " + Name(k)
    case NoFormatMatched => "No format matched the input"
    case NotEnabled(k) => "Format '" + Name(k) + "' is not enabled. Enable the corresponding feature."
    case Io(m) => "I/O error: " + m
    case Serde(m) => "Serde error: " + m
    case Other(m) => "Format error: " + m
  }

  /** The compiled-in codecs of the built-in kinds: which ones the crate's
      features enable, and what each one's decoder, encoder and streaming
      decoder do. Their internals belong to the serde libraries, so they
      are parameters of the model. */
  datatype Codecs = Codecs(
    enabled: set<FormatKind>,
    decode: (FormatKind, Bytes) -> Result<Value, FormatError>,
    encode: (FormatKind, Value) -> Result<Bytes, FormatError>,
    stream: (FormatKind, Bytes) -> seq<Result<Value, FormatError>>)

  /** `format::deserialize`: a built-in kind whose feature is on goes to its
      decoder, any other kind is `NotEnabled`. */
  function Deserialize(c: Codecs, kind: FormatKind, bytes: Bytes): (r: Result<Value, FormatError>)
    ensures !kind.Custom? && kind in c.enabled ==> r == c.decode(kind, bytes)
    ensures kind.Custom? || kind !in c.enabled ==> r == Err(NotEnabled(kind))
  {
    if !kind.Custom? && kind in c.enabled then c.decode(kind, bytes) else Err(NotEnabled(kind))
  }

  /** `format::serialize`, the same dispatch for encoding. */
  function Serialize(c: Codecs, kind: FormatKind, v: Value): (r: Result<Bytes, FormatError>)
    ensures !kind.Custom? && kind in c.enabled ==> r == c.encode(kind, v)
    ensures kind.Custom? || kind !in c.enabled ==> r == Err(NotEnabled(kind))
  {
    if !kind.Custom? && kind in c.enabled then c.encode(kind, v) else Err(NotEnabled(kind))
  }

  // ------------------------------------------------------------- lemmas

  /** Parsing ignores ASCII case. */
  lemma ParseIgnoresCase(s: string)
    ensures ParseFormat(s) == ParseFormat(AsciiLower(s))
  {
    AsciiLowerIdempotent(s);
  }

  /** Every built-in kind's display name parses back to that kind. */
  lemma ParseName(k: FormatKind)
    requires !k.Custom?
    ensures ParseFormat(Name(k)) == Ok(k)
  {
    var n := Name(k);
    assert NoUpper(n);
    NoUpperFixed(n);
    ParseLowerName(k);
  }

  /** A built-in kind's display name names it in any letter case. */
  lemma ParseNameAnyCase(s: string, k: FormatKind)
    requires !k.Custom? && AsciiLower(s) == Name(k)
    ensures ParseFormat(s) == Ok(k)
  {
    ParseLowerName(k);
  }

  /** A built-in kind's display name, already lower case, names it. */
  lemma ParseLowerName(k: FormatKind)
    requires !k.Custom?
    ensures ParseLower(Name(k)) == Ok(k)
  {
    var n := Name(k);
    assert !StartsWith(n, "custom:") by {
      if |n| >= 7 {
        assert n[..7][0] != 'c';
      }
    }
  }

  /** `custom:<name>` parses to the custom kind of the lower-cased name. */
  lemma ParseCustomName(n: string)
    ensures ParseFormat("custom:" + n) == Ok(Custom(AsciiLower(n)))
  {
    assert NoUpper("custom:");
    LowerKeepsPrefix("custom:", n);
    var l := "custom:" + AsciiLower(n);
    assert l[..7] == "custom:" && l[7..] == AsciiLower(n);
    ParsePrefixed(l);
  }

  lemma ParsePrefixed(lower: string)
    requires StartsWith(lower, "custom:")
    ensures ParseLower(lower) == Ok(Custom(lower[7..]))
  {
  }

  /** A custom kind's display name is its bare name, so it does not parse
      back to the custom kind: `custom:` has to be written in front. */
  lemma BareCustomName(n: string)
    ensures ParseFormat(Name(Custom(n))) != Ok(Custom(n)) || StartsWith(AsciiLower(n), "custom:")
  {
  }

  /** Every stored extension is already lower case. */
  lemma ExtensionsLower(k: FormatKind)
    ensures forall e :: e in Extensions(k) ==> AsciiLower(e) == e
  {
    forall e | e in Extensions(k)
      ensures AsciiLower(e) == e
    {
      assert NoUpper(e);
      NoUpperFixed(e);
    }
  }

  /** Each extension of a built-in kind is also one of its names. */
  lemma ExtensionsAreNames(k: FormatKind, e: string)
    requires e in Extensions(k)
    ensures ParseFormat(e) == Ok(k)
  {
    ExtensionsLower(k);
    ParseLowerExtension(k, e);
  }

  lemma ParseLowerExtension(k: FormatKind, e: string)
    requires e in Extensions(k)
    ensures ParseLower(e) == Ok(k)
  {
    match k
    case Plaintext => assert e == "txt" || e == "text";
    case Json => assert e == "json";
    case Yaml => assert e == "yaml" || e == "yml";
    case Xml => assert e == "xml";
    case Csv => assert e == "csv";
    case Markdown =>
      assert e == "md" || e == "markdown";
      assert !StartsWith(e, "custom:") by {
        if |e| >= 7 {
          assert e[..7][0] == 'm';
        }
      }
  }

  /** The names and aliases `from_str` accepts, and nothing else that does
      not start with `custom:`. */
  lemma {:induction false} ParseAccepts(s: string)
    requires !StartsWith(AsciiLower(s), "custom:")
    ensures ParseFormat(s).Ok? <==>
      AsciiLower(s) in ["plaintext", "text", "txt", "json", "yaml", "yml", "xml", "csv", "markdown", "md"]
    ensures ParseFormat(s).Ok? ==> !ParseFormat(s).value.Custom?
  {
  }
}
