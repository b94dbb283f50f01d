// Input and output specifications (src/config/spec.rs): what to read or
// write, how the format is chosen, and what to do with an existing file.
module Specs {
  import opened Wrappers
  import opened Text
  import opened FormatKinds
  import opened Providers

  /** What to do with an output file that already exists. */
  datatype FileExistsPolicy = Overwrite | Append | Error

  /** `FileExistsPolicy::default()`. */
  const DefaultFileExistsPolicy: FileExistsPolicy := Error

  /** The lower-case name `from_str` accepts for each policy. */
  function PolicyName(p: FileExistsPolicy): string
  {
    match p
    case Overwrite => "overwrite"
    case Append => "append"
    case Error => "error"
  }

  /** `FileExistsPolicy::from_str`: case-insensitive, `None` otherwise. */
  function ParseFileExistsPolicy(s: string): (r: Option<FileExistsPolicy>)
    ensures r.Some? <==> AsciiLower(s) in {"overwrite", "append", "error"}
    ensures r.Some? ==> PolicyName(r.value) == AsciiLower(s)
  {
    match AsciiLower(s)
    case "overwrite" => Some(Overwrite)
    case "append" => Some(Append)
    case "error" => Some(Error)
    case _ => None
  }

  /** How an output is opened under a policy: `Error` is not enforced and
      opens like `Overwrite`. */
  function ModeFor(p: FileExistsPolicy): (m: OpenMode)
    ensures m == Appending <==> p == Append
  {
    match p
    case Overwrite => Truncating
    case Append => Appending
    case Error => Truncating
  }

  datatype InputSpec = InputSpec(
    raw: string,
    provider: InputProvider,
    explicitFormat: Option<FormatKind>,
    formatCandidates: seq<FormatKind>)

  /** `InputSpec::new`: no explicit format and no candidates. */
  function NewInputSpec(raw: string, provider: InputProvider): (s: InputSpec)
    ensures s.raw == raw && s.provider == provider
    ensures s.explicitFormat.None? && s.formatCandidates == []
  {
    InputSpec(raw, provider, None, [])
  }

  function InputWithFormat(s: InputSpec, k: FormatKind): (t: InputSpec)
    ensures t.explicitFormat == Some(k)
    ensures t.raw == s.raw && t.provider == s.provider && t.formatCandidates == s.formatCandidates
  {
    s.(explicitFormat := Some(k))
  }

  function InputWithCandidates(s: InputSpec, cs: seq<FormatKind>): (t: InputSpec)
    ensures t.formatCandidates == cs
    ensures t.raw == s.raw && t.provider == s.provider && t.explicitFormat == s.explicitFormat
  {
    s.(formatCandidates := cs)
  }

  datatype OutputSpec = OutputSpec(
    raw: string,
    target: OutputTarget,
    explicitFormat: Option<FormatKind>,
    formatCandidates: seq<FormatKind>,
    fileExistsPolicy: FileExistsPolicy)

  /** `OutputSpec::new`: no format choice, and the default policy. */
  function NewOutputSpec(raw: string, target: OutputTarget): (s: OutputSpec)
    ensures s.raw == raw && s.target == target
    ensures s.explicitFormat.None? && s.formatCandidates == []
    ensures s.fileExistsPolicy == DefaultFileExistsPolicy
  {
    OutputSpec(raw, target, None, [], DefaultFileExistsPolicy)
  }

  function OutputWithFormat(s: OutputSpec, k: FormatKind): (t: OutputSpec)
    ensures t.explicitFormat == Some(k)
    ensures t.raw == s.raw && t.target == s.target && t.formatCandidates == s.formatCandidates
    ensures t.fileExistsPolicy == s.fileExistsPolicy
  {
    s.(explicitFormat := Some(k))
  }

  function OutputWithCandidates(s: OutputSpec, cs: seq<FormatKind>): (t: OutputSpec)
    ensures t.formatCandidates == cs
    ensures t.raw == s.raw && t.target == s.target && t.explicitFormat == s.explicitFormat
    ensures t.fileExistsPolicy == s.fileExistsPolicy
  {
    s.(formatCandidates := cs)
  }

  function OutputWithFileExistsPolicy(s: OutputSpec, p: FileExistsPolicy): (t: OutputSpec)
    ensures t.fileExistsPolicy == p
    ensures t.raw == s.raw && t.target == s.target && t.explicitFormat == s.explicitFormat
    ensures t.formatCandidates == s.formatCandidates
  {
    s.(fileExistsPolicy := p)
  }

  // ------------------------------------------------------------- lemmas

  /** Each policy's name parses back to it, in any letter case. */
  lemma PolicyNameRoundTrip(p: FileExistsPolicy, s: string)
    requires AsciiLower(s) == PolicyName(p)
    ensures ParseFileExistsPolicy(s) == Some(p)
  {
  }

  /** The builder-style setters touch disjoint fields, so their order does
      not matter, and a second call to the same setter wins. */
  lemma OutputSettersCommute(s: OutputSpec, k: FormatKind, cs: seq<FormatKind>, p: FileExistsPolicy,
                             q: FileExistsPolicy)
    ensures OutputWithCandidates(OutputWithFormat(s, k), cs) == OutputWithFormat(OutputWithCandidates(s, cs), k)
    ensures OutputWithFileExistsPolicy(OutputWithFormat(s, k), p)
            == OutputWithFormat(OutputWithFileExistsPolicy(s, p), k)
    ensures OutputWithFileExistsPolicy(OutputWithFileExistsPolicy(s, q), p) == OutputWithFileExistsPolicy(s, p)
  {
  }

  lemma InputSettersCommute(s: InputSpec, k: FormatKind, j: FormatKind, cs: seq<FormatKind>)
    ensures InputWithCandidates(InputWithFormat(s, k), cs) == InputWithFormat(InputWithCandidates(s, cs), k)
    ensures InputWithFormat(InputWithFormat(s, j), k) == InputWithFormat(s, k)
  {
  }
}
