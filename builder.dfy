// The builder that turns command-line tokens, prebuilt specifications or
// a pipeline configuration into a synchronous engine (src/builder.rs).
module Builders {
  import opened Wrappers
  import opened Seqs
  import opened Text
  import opened Paths
  import opened FormatKinds
  import FR = FormatRegistries
  import opened CustomFormats
  import opened Memory
  import opened Providers
  import opened Specs
  import opened Errors
  import opened Collecting
  import opened Engines
  import opened Pipelines
  import opened Cli

  datatype MultiioBuilder = MultiioBuilder(
    inputArgs: seq<string>,
    outputArgs: seq<string>,
    inputSpecs: seq<InputSpec>,
    outputSpecs: seq<OutputSpec>,
    registry: FR.Registry,
    errorPolicy: ErrorPolicy,
    defaultInputFormats: seq<FormatKind>,
    defaultOutputFormats: seq<FormatKind>,
    fileExistsPolicy: FileExistsPolicy)

  /** `MultiioBuilder::new`: nothing to read or write yet, accumulate
      errors, overwrite outputs, and try `defaultOrder` (the library's
      default format order) when nothing else decides. */
  function NewBuilder(registry: FR.Registry, defaultOrder: seq<FormatKind>): (b: MultiioBuilder)
    ensures b.inputArgs == [] && b.outputArgs == [] && b.inputSpecs == [] && b.outputSpecs == []
    ensures b.registry == registry && b.errorPolicy == Accumulate && b.fileExistsPolicy == Overwrite
    ensures b.defaultInputFormats == defaultOrder && b.defaultOutputFormats == defaultOrder
  {
    MultiioBuilder([], [], [], [], registry, Accumulate, defaultOrder, defaultOrder, Overwrite)
  }

  /** `Default for MultiioBuilder`: over the default registry, which holds
      each compiled-in built-in kind once and no custom format. */
  function DefaultBuilder(enabled: set<FormatKind>, defaultOrder: seq<FormatKind>): (b: MultiioBuilder)
    ensures Distinct(b.registry.formats) && b.registry.customs == []
    ensures forall k :: k in b.registry.formats <==> !k.Custom? && k in enabled
    ensures b.inputArgs == [] && b.outputArgs == [] && b.inputSpecs == [] && b.outputSpecs == []
    ensures b.errorPolicy == Accumulate && b.fileExistsPolicy == Overwrite
    ensures b.defaultInputFormats == defaultOrder && b.defaultOutputFormats == defaultOrder
  {
    FR.DefaultKindsMeaning(enabled);
    NewBuilder(FR.Registry(FR.DefaultKinds(enabled), []), defaultOrder)
  }

  function WithCustomFormat(b: MultiioBuilder, c: CustomFormat): (b': MultiioBuilder)
    ensures b'.registry == FR.WithCustomFormat(b.registry, c)
    ensures b' == b.(registry := b'.registry)
  {
    b.(registry := FR.WithCustomFormat(b.registry, c))
  }

  /** `inputs_from_args` replaces the input tokens; `add_input` appends. */
  function InputsFromArgs(b: MultiioBuilder, args: seq<string>): (b': MultiioBuilder)
    ensures b'.inputArgs == args && b' == b.(inputArgs := args)
  {
    b.(inputArgs := args)
  }

  function WithInputArgs(b: MultiioBuilder, args: InputArgs): MultiioBuilder
  {
    InputsFromArgs(b, args.args)
  }

  function OutputsFromArgs(b: MultiioBuilder, args: seq<string>): (b': MultiioBuilder)
    ensures b'.outputArgs == args && b' == b.(outputArgs := args)
  {
    b.(outputArgs := args)
  }

  function WithOutputArgs(b: MultiioBuilder, args: OutputArgs): MultiioBuilder
  {
    OutputsFromArgs(b, args.args)
  }

  function AddInput(b: MultiioBuilder, arg: string): (b': MultiioBuilder)
    ensures b'.inputArgs == b.inputArgs + [arg] && b' == b.(inputArgs := b'.inputArgs)
  {
    b.(inputArgs := b.inputArgs + [arg])
  }

  function AddOutput(b: MultiioBuilder, arg: string): (b': MultiioBuilder)
    ensures b'.outputArgs == b.outputArgs + [arg] && b' == b.(outputArgs := b'.outputArgs)
  {
    b.(outputArgs := b.outputArgs + [arg])
  }

  function AddInputSpec(b: MultiioBuilder, s: InputSpec): (b': MultiioBuilder)
    ensures b'.inputSpecs == b.inputSpecs + [s] && b' == b.(inputSpecs := b'.inputSpecs)
  {
    b.(inputSpecs := b.inputSpecs + [s])
  }

  function AddOutputSpec(b: MultiioBuilder, s: OutputSpec): (b': MultiioBuilder)
    ensures b'.outputSpecs == b.outputSpecs + [s] && b' == b.(outputSpecs := b'.outputSpecs)
  {
    b.(outputSpecs := b.outputSpecs + [s])
  }

  function WithOrder(b: MultiioBuilder, order: seq<FormatKind>): (b': MultiioBuilder)
    ensures b'.defaultInputFormats == order && b'.defaultOutputFormats == order
    ensures b' == b.(defaultInputFormats := order, defaultOutputFormats := order)
  {
    b.(defaultInputFormats := order, defaultOutputFormats := order)
  }

  function WithInputOrder(b: MultiioBuilder, order: seq<FormatKind>): (b': MultiioBuilder)
    ensures b'.defaultInputFormats == order && b' == b.(defaultInputFormats := order)
  {
    b.(defaultInputFormats := order)
  }

  function WithOutputOrder(b: MultiioBuilder, order: seq<FormatKind>): (b': MultiioBuilder)
    ensures b'.defaultOutputFormats == order && b' == b.(defaultOutputFormats := order)
  {
    b.(defaultOutputFormats := order)
  }

  function WithMode(b: MultiioBuilder, policy: ErrorPolicy): (b': MultiioBuilder)
    ensures b'.errorPolicy == policy && b' == b.(errorPolicy := policy)
  {
    b.(errorPolicy := policy)
  }

  function WithFileExistsPolicy(b: MultiioBuilder, policy: FileExistsPolicy): (b': MultiioBuilder)
    ensures b'.fileExistsPolicy == policy && b' == b.(fileExistsPolicy := policy)
  {
    b.(fileExistsPolicy := policy)
  }

  // ------------------------------------------------ resolving a token

  /** `infer_format_from_path`: the lower-cased extension looked up in the
      builder's registry. */
  function InferFormat(b: MultiioBuilder, path: string): (r: Option<FormatKind>)
    ensures Extension(path).None? ==> r.None?
    ensures Extension(path).Some? ==> r == FR.KindForExtension(b.registry, AsciiLower(Extension(path).value))
  {
    match Extension(path)
    case None => None
    case Some(ext) => FR.KindForExtension(b.registry, AsciiLower(ext))
  }

  const ForcedPathMissing := "expected a path after '@'"

  /** The width of the hasher's output. */
  const HashModulus: nat := 0x1_0000_0000_0000_0000

  /** The identifier of inline content: `inline:` and the content's 64-bit
      hash in 16 lower-case hex digits. */
  function InlineId(contentHash: string -> nat, content: string): (id: string)
    ensures |id| == 23 && id[..7] == "inline:"
    ensures forall i :: 7 <= i < |id| ==> ('0' <= id[i] <= '9' || 'a' <= id[i] <= 'f')
  {
    var h := Hex(contentHash(content) % HashModulus, 16);
    assert forall i :: 7 <= i < 23 ==> ("inline:" + h)[i] == h[i - 7];
    "inline:" + h
  }

  /** The forms a trimmed input token takes, tried in this order. */
  datatype InputToken =
    | ForcedInputPath(path: string)   // `@path`, possibly with an empty path
    | StdinToken                      // `-` or `stdin` in any case
    | InlineContent(content: string)  // `=content`
    | PlainInputPath(path: string)    // anything else

  /** A trimmed input token that is read as a plain file path. */
  predicate PlainInputToken(raw: string)
  {
    (|raw| == 0 || (raw[0] != '@' && raw[0] != '=')) && !IsStdinToken(raw)
  }

  /** A trimmed output token that is written as a plain file path. */
  predicate PlainOutputToken(raw: string)
  {
    (|raw| == 0 || raw[0] != '@') && !IsStdoutToken(raw) && !IsStderrToken(raw)
  }

  /** The reserved stream names start with neither `@` nor `=`, and
      `stderr` is not a stdout name. */
  lemma ReservedTokenStart(raw: string)
    ensures IsStdinToken(raw) || IsStdoutToken(raw) || IsStderrToken(raw)
            ==> |raw| > 0 && raw[0] != '@' && raw[0] != '='
    ensures IsStderrToken(raw) ==> !IsStdoutToken(raw)
  {
    if raw != "-" && (IsStdinToken(raw) || IsStdoutToken(raw) || IsStderrToken(raw)) {
      assert AsciiLower(raw)[0] == 's';
      assert ToAsciiLower(raw[0]) == 's';
    }
    if IsStderrToken(raw) && raw != "-" {
      assert AsciiLower(raw)[3] == 'e' != AsciiLower("stdout")[3];
    }
  }

  function ClassifyInput(raw: string): (t: InputToken)
    ensures t.ForcedInputPath? <==> |raw| > 0 && raw[0] == '@'
    ensures t.ForcedInputPath? ==> t.path == raw[1..]
    ensures t == ForcedInputPath("") <==> raw == "@"
    ensures t.InlineContent? <==> |raw| > 0 && raw[0] == '=' && !IsStdinToken(raw)
    ensures t.InlineContent? ==> t.content == raw[1..]
    ensures t.StdinToken? ==> IsStdinToken(raw)
    ensures t.PlainInputPath? ==> t.path == raw
  {
    if |raw| > 0 && raw[0] == '@' then ForcedInputPath(raw[1..])
    else if IsStdinToken(raw) then StdinToken
    else if |raw| > 0 && raw[0] == '=' then InlineContent(raw[1..])
    else PlainInputPath(raw)
  }

  /** Inline content is read from memory under an identifier that starts
      with `inline:`; the specification keeps that identifier as its text
      and the source holds the content's UTF-8 bytes. */
  function InlineSpec(b: MultiioBuilder, contentHash: string -> nat, content: string): (spec: InputSpec)
    ensures spec.provider.MemoryInput? && spec.explicitFormat.None?
    ensures spec.raw == spec.provider.source.id == InlineId(contentHash, content)
    ensures spec.raw[..7] == "inline:"
    ensures spec.provider.source.data == Utf8(content)
    ensures spec.formatCandidates == b.defaultInputFormats
  {
    var id := InlineId(contentHash, content);
    InputSpec(id, MemoryInput(SourceFromString(id, content)), None, b.defaultInputFormats)
  }

  /** The specification for a classified input token; `raw` is the
      trimmed token an error reports. */
  function InputForToken(b: MultiioBuilder, contentHash: string -> nat, raw: string, t: InputToken)
    : (r: Step<InputSpec>)
    ensures r.Err? <==> t == ForcedInputPath("")
    ensures r.Err? ==> r.error == SingleIoError(ResolveInput, raw, IoFailure(ForcedPathMissing))
    ensures r.Ok? ==> r.value.raw == InputId(r.value.provider) && r.value.formatCandidates == b.defaultInputFormats
  {
    match t
    case ForcedInputPath(path) =>
      if path == "" then Err(SingleIoError(ResolveInput, raw, IoFailure(ForcedPathMissing)))
      else Ok(InputSpec(path, FileInput(path), InferFormat(b, path), b.defaultInputFormats))
    case StdinToken =>
      Ok(InputSpec("-", StdinInput, None, b.defaultInputFormats))
    case InlineContent(content) => Ok(InlineSpec(b, contentHash, content))
    case PlainInputPath(path) =>
      Ok(InputSpec(path, FileInput(path), InferFormat(b, path), b.defaultInputFormats))
  }

  /** `resolve_single_input`: the token is trimmed, then `@path` is always
      a file (an empty path is an error), `-` or `stdin` is stdin,
      `=content` is inline content, and anything else is a file path. */
  function ResolveSingleInput(b: MultiioBuilder, contentHash: string -> nat, token: string): (r: Step<InputSpec>)
    ensures r.Err? <==> Trim(RustBlanks, token) == "@"
    ensures r.Err? ==> r.error == SingleIoError(ResolveInput, "@", IoFailure(ForcedPathMissing))
    ensures r.Ok? ==> r.value.raw == InputId(r.value.provider) && r.value.formatCandidates == b.defaultInputFormats
  {
    var raw := Trim(RustBlanks, token);
    InputForToken(b, contentHash, raw, ClassifyInput(raw))
  }

  /** The forms a trimmed output token takes, tried in this order. */
  datatype OutputToken =
    | ForcedOutputPath(path: string)  // `@path`, possibly with an empty path
    | StdoutToken                     // `-` or `stdout` in any case
    | StderrToken                     // `stderr` in any case
    | PlainOutputPath(path: string)   // anything else

  function ClassifyOutput(raw: string): (t: OutputToken)
    ensures t.ForcedOutputPath? <==> |raw| > 0 && raw[0] == '@'
    ensures t.ForcedOutputPath? ==> t.path == raw[1..]
    ensures t == ForcedOutputPath("") <==> raw == "@"
    ensures t.StdoutToken? ==> IsStdoutToken(raw)
    ensures t.StderrToken? ==> IsStderrToken(raw)
    ensures t.PlainOutputPath? ==> t.path == raw
  {
    if |raw| > 0 && raw[0] == '@' then ForcedOutputPath(raw[1..])
    else if IsStdoutToken(raw) then StdoutToken
    else if IsStderrToken(raw) then StderrToken
    else PlainOutputPath(raw)
  }

  /** The specification for a classified output token. */
  function OutputForToken(b: MultiioBuilder, raw: string, t: OutputToken): (r: Step<OutputSpec>)
    ensures r.Err? <==> t == ForcedOutputPath("")
    ensures r.Err? ==> r.error == SingleIoError(ResolveOutput, raw, IoFailure(ForcedPathMissing))
    ensures r.Ok? ==> && r.value.raw == OutputId(r.value.target)
                      && r.value.formatCandidates == b.defaultOutputFormats
                      && r.value.fileExistsPolicy == b.fileExistsPolicy
  {
    match t
    case ForcedOutputPath(path) =>
      if path == "" then Err(SingleIoError(ResolveOutput, raw, IoFailure(ForcedPathMissing)))
      else Ok(OutputSpec(path, FileOutput(path), InferFormat(b, path), b.defaultOutputFormats, b.fileExistsPolicy))
    case StdoutToken =>
      Ok(OutputSpec("-", StdoutOutput, None, b.defaultOutputFormats, b.fileExistsPolicy))
    case StderrToken =>
      Ok(OutputSpec("stderr", StderrOutput, None, b.defaultOutputFormats, b.fileExistsPolicy))
    case PlainOutputPath(path) =>
      Ok(OutputSpec(path, FileOutput(path), InferFormat(b, path), b.defaultOutputFormats, b.fileExistsPolicy))
  }

  /** `resolve_single_output`: trimmed, then `@path` is always a file,
      `-` or `stdout` is stdout, `stderr` is stderr, anything else a file;
      every output gets the builder's file-exists policy. */
  function ResolveSingleOutput(b: MultiioBuilder, token: string): (r: Step<OutputSpec>)
    ensures r.Err? <==> Trim(RustBlanks, token) == "@"
    ensures r.Err? ==> r.error == SingleIoError(ResolveOutput, "@", IoFailure(ForcedPathMissing))
    ensures r.Ok? ==> && r.value.raw == OutputId(r.value.target)
                      && r.value.formatCandidates == b.defaultOutputFormats
                      && r.value.fileExistsPolicy == b.fileExistsPolicy
  {
    var raw := Trim(RustBlanks, token);
    OutputForToken(b, raw, ClassifyOutput(raw))
  }

  function InputSteps(b: MultiioBuilder, contentHash: string -> nat): (rs: seq<Step<InputSpec>>)
    ensures |rs| == |b.inputArgs|
    ensures forall i :: 0 <= i < |rs| ==> rs[i] == ResolveSingleInput(b, contentHash, b.inputArgs[i])
  {
    seq(|b.inputArgs|, i requires 0 <= i < |b.inputArgs| => ResolveSingleInput(b, contentHash, b.inputArgs[i]))
  }

  function OutputSteps(b: MultiioBuilder): (rs: seq<Step<OutputSpec>>)
    ensures |rs| == |b.outputArgs|
    ensures forall i :: 0 <= i < |rs| ==> rs[i] == ResolveSingleOutput(b, b.outputArgs[i])
  {
    seq(|b.outputArgs|, i requires 0 <= i < |b.outputArgs| => ResolveSingleOutput(b, b.outputArgs[i]))
  }

  /** `resolve_inputs`. */
  method ResolveInputs(b: MultiioBuilder, contentHash: string -> nat)
    returns (r: Result<seq<InputSpec>, AggregateError>)
    ensures r == Collect(b.errorPolicy, InputSteps(b, contentHash))
  {
    ghost var rs := InputSteps(b, contentHash);
    var specs: seq<InputSpec> := [];
    var errors: seq<SingleIoError> := [];
    for i := 0 to |b.inputArgs|
      invariant specs == Collecting.Values(rs[..i]) && errors == Failures(rs[..i])
      invariant b.errorPolicy == FastFail ==> errors == []
    {
      PrefixStep(rs, i);
      var step := ResolveSingleInput(b, contentHash, b.inputArgs[i]);
      assert step == rs[i];
      match step
      case Ok(spec) =>
        specs := specs + [spec];
      case Err(err) =>
        if b.errorPolicy == FastFail {
          StopAtFirstFailure(rs, i);
          assert errors + [err] == [rs[i].error];
          return Err(AggregateError(errors + [err]));
        }
        errors := errors + [err];
    }
    assert rs[..|b.inputArgs|] == rs;
    CollectAtEnd(b.errorPolicy, rs);
    if errors == [] {
      return Ok(specs);
    }
    return Err(AggregateError(errors));
  }

  /** `resolve_outputs`. */
  method ResolveOutputs(b: MultiioBuilder) returns (r: Result<seq<OutputSpec>, AggregateError>)
    ensures r == Collect(b.errorPolicy, OutputSteps(b))
  {
    ghost var rs := OutputSteps(b);
    var specs: seq<OutputSpec> := [];
    var errors: seq<SingleIoError> := [];
    for i := 0 to |b.outputArgs|
      invariant specs == Collecting.Values(rs[..i]) && errors == Failures(rs[..i])
      invariant b.errorPolicy == FastFail ==> errors == []
    {
      PrefixStep(rs, i);
      var step := ResolveSingleOutput(b, b.outputArgs[i]);
      assert step == rs[i];
      match step
      case Ok(spec) =>
        specs := specs + [spec];
      case Err(err) =>
        if b.errorPolicy == FastFail {
          StopAtFirstFailure(rs, i);
          assert errors + [err] == [rs[i].error];
          return Err(AggregateError(errors + [err]));
        }
        errors := errors + [err];
    }
    assert rs[..|b.outputArgs|] == rs;
    CollectAtEnd(b.errorPolicy, rs);
    if errors == [] {
      return Ok(specs);
    }
    return Err(AggregateError(errors));
  }

  /** `build`: the tokens' specifications first, then the prebuilt ones.
      Output tokens are only looked at once every input token resolved. */
  method Build(b: MultiioBuilder, contentHash: string -> nat) returns (r: Result<IoEngine, AggregateError>)
    ensures var ins := Collect(b.errorPolicy, InputSteps(b, contentHash));
            var outs := Collect(b.errorPolicy, OutputSteps(b));
            && (ins.Err? ==> r == Err(ins.error))
            && (ins.Ok? && outs.Err? ==> r == Err(outs.error))
            && (ins.Ok? && outs.Ok? ==>
                  r == Ok(IoEngine(b.registry, b.errorPolicy, ins.value + b.inputSpecs, outs.value + b.outputSpecs)))
  {
    var ins := ResolveInputs(b, contentHash);
    if ins.Err? {
      return Err(ins.error);
    }
    var outs := ResolveOutputs(b);
    if outs.Err? {
      return Err(outs.error);
    }
    return Ok(IoEngine(b.registry, b.errorPolicy, ins.value + b.inputSpecs, outs.value + b.outputSpecs));
  }

  // --------------------------------------------- pipeline configuration

  /** The policy names a configuration may give; any other name, and any
      other letter case, means accumulate. */
  function PolicyFromName(s: string): (p: ErrorPolicy)
    ensures p == FastFail <==> s == "fast_fail" || s == "fastfail"
  {
    if s == "fast_fail" || s == "fastfail" then FastFail else Accumulate
  }

  /** The configured format order: the names that parse, in order, the
      others dropped. */
  function ParseOrder(names: seq<string>): (ks: seq<FormatKind>)
    ensures |ks| <= |names|
  {
    FilterMap(names, (n: string) => ParseFormat(n).ToOption())
  }

  /** The builder before the configuration's inputs and outputs. */
  function ConfiguredBuilder(config: PipelineConfig, registry: FR.Registry, defaultOrder: seq<FormatKind>)
    : (b: MultiioBuilder)
    ensures b.errorPolicy == (if config.errorPolicy.Some? then PolicyFromName(config.errorPolicy.value) else Accumulate)
    ensures config.formatOrder.Some? ==> b.defaultInputFormats == b.defaultOutputFormats == ParseOrder(config.formatOrder.value)
    ensures config.formatOrder.None? ==> b.defaultInputFormats == b.defaultOutputFormats == defaultOrder
    ensures b.inputArgs == [] && b.outputArgs == [] && b.inputSpecs == [] && b.outputSpecs == []
    ensures b.registry == registry && b.fileExistsPolicy == Overwrite
  {
    var b0 := NewBuilder(registry, defaultOrder);
    var b1 := if config.errorPolicy.Some? then WithMode(b0, PolicyFromName(config.errorPolicy.value)) else b0;
    if config.formatOrder.Some? then WithOrder(b1, ParseOrder(config.formatOrder.value)) else b1
  }

  /** `input_from_config`: `stdin` or `-`, or `file` with a path; the format
      name is taken when it parses and ignored otherwise. */
  function InputFromConfig(b: MultiioBuilder, cfg: InputConfig): (r: Step<InputSpec>)
    ensures r.Ok? <==> cfg.kind == "stdin" || cfg.kind == "-" || (cfg.kind == "file" && cfg.path.Some?)
    ensures r.Ok? ==> r.value.raw == cfg.id && r.value.formatCandidates == b.defaultInputFormats
    ensures r.Ok? && cfg.kind == "file" ==> r.value.provider == FileInput(cfg.path.value)
    ensures r.Err? ==> r.error.stage == ResolveInput && r.error.target == cfg.id
  {
    var explicit := if cfg.format.Some? then ParseFormat(cfg.format.value).ToOption() else None;
    if cfg.kind == "stdin" || cfg.kind == "-" then
      Ok(InputSpec(cfg.id, StdinInput, explicit, b.defaultInputFormats))
    else if cfg.kind == "file" then
      if cfg.path.None? then Err(SingleIoError(ResolveInput, cfg.id, IoFailure("file input requires 'path' field")))
      else Ok(InputSpec(cfg.id, FileInput(cfg.path.value), explicit, b.defaultInputFormats))
    else Err(SingleIoError(ResolveInput, cfg.id, IoFailure("unknown input kind: " + cfg.kind)))
  }

  /** `output_from_config`: `stdout` or `-`, `stderr`, or `file` with a
      path; an unparsable file-exists policy falls back to the builder's. */
  function OutputFromConfig(b: MultiioBuilder, cfg: OutputConfig): (r: Step<OutputSpec>)
    ensures r.Ok? <==>
      cfg.kind == "stdout" || cfg.kind == "-" || cfg.kind == "stderr" || (cfg.kind == "file" && cfg.path.Some?)
    ensures r.Ok? ==> r.value.raw == cfg.id && r.value.formatCandidates == b.defaultOutputFormats
    ensures r.Ok? ==>
      r.value.fileExistsPolicy ==
        (if cfg.fileExistsPolicy.Some? && ParseFileExistsPolicy(cfg.fileExistsPolicy.value).Some?
         then ParseFileExistsPolicy(cfg.fileExistsPolicy.value).value else b.fileExistsPolicy)
    ensures r.Err? ==> r.error.stage == ResolveOutput && r.error.target == cfg.id
  {
    var explicit := if cfg.format.Some? then ParseFormat(cfg.format.value).ToOption() else None;
    var policy :=
      if cfg.fileExistsPolicy.Some? then ParseFileExistsPolicy(cfg.fileExistsPolicy.value).UnwrapOr(b.fileExistsPolicy)
      else b.fileExistsPolicy;
    if cfg.kind == "stdout" || cfg.kind == "-" then
      Ok(OutputSpec(cfg.id, StdoutOutput, explicit, b.defaultOutputFormats, policy))
    else if cfg.kind == "stderr" then
      Ok(OutputSpec(cfg.id, StderrOutput, explicit, b.defaultOutputFormats, policy))
    else if cfg.kind == "file" then
      if cfg.path.None? then Err(SingleIoError(ResolveOutput, cfg.id, IoFailure("file output requires 'path' field")))
      else Ok(OutputSpec(cfg.id, FileOutput(cfg.path.value), explicit, b.defaultOutputFormats, policy))
    else Err(SingleIoError(ResolveOutput, cfg.id, IoFailure("unknown output kind: " + cfg.kind)))
  }

  /** One configured entry, input or output. */
  datatype Entry = In(input: InputSpec) | Out(output: OutputSpec)

  function LiftInput(r: Step<InputSpec>): Step<Entry>
  {
    match r case Ok(s) => Ok(In(s)) case Err(e) => Err(e)
  }

  function LiftOutput(r: Step<OutputSpec>): Step<Entry>
  {
    match r case Ok(s) => Ok(Out(s)) case Err(e) => Err(e)
  }

  /** The configuration's entries in the order they are resolved: the
      inputs, then the outputs. */
  function ConfigSteps(b: MultiioBuilder, config: PipelineConfig): (rs: seq<Step<Entry>>)
    ensures |rs| == |config.inputs| + |config.outputs|
  {
    seq(|config.inputs|, i requires 0 <= i < |config.inputs| => LiftInput(InputFromConfig(b, config.inputs[i])))
    + seq(|config.outputs|, i requires 0 <= i < |config.outputs| => LiftOutput(OutputFromConfig(b, config.outputs[i])))
  }

  lemma ConfigInputStep(b: MultiioBuilder, config: PipelineConfig, i: nat)
    requires i < |config.inputs|
    ensures ConfigSteps(b, config)[i] == LiftInput(InputFromConfig(b, config.inputs[i]))
  {
  }

  lemma ConfigOutputStep(b: MultiioBuilder, config: PipelineConfig, j: nat)
    requires j < |config.outputs|
    ensures ConfigSteps(b, config)[|config.inputs| + j] == LiftOutput(OutputFromConfig(b, config.outputs[j]))
  {
  }

  /** The input specifications among entries, in order. */
  function Ins(es: seq<Entry>): seq<InputSpec>
  {
    if |es| == 0 then [] else Ins(es[..|es| - 1]) + (if es[|es| - 1].In? then [es[|es| - 1].input] else [])
  }

  function Outs(es: seq<Entry>): seq<OutputSpec>
  {
    if |es| == 0 then [] else Outs(es[..|es| - 1]) + (if es[|es| - 1].Out? then [es[|es| - 1].output] else [])
  }

  lemma InsOutsStep(es: seq<Entry>, e: Entry)
    ensures Ins(es + [e]) == Ins(es) + (if e.In? then [e.input] else [])
    ensures Outs(es + [e]) == Outs(es) + (if e.Out? then [e.output] else [])
  {
    assert (es + [e])[..|es|] == es;
  }

  /** What the loops of `from_pipeline_config` know after the first `k`
      entries: the specifications and errors so far, and no error yet
      under fast-fail. */
  ghost predicate Tracked(policy: ErrorPolicy, rs: seq<Step<Entry>>, k: nat, vals: seq<Entry>,
                          errors: seq<SingleIoError>, ins: seq<InputSpec>, outs: seq<OutputSpec>)
  {
    && k <= |rs| && vals == Collecting.Values(rs[..k]) && errors == Failures(rs[..k])
    && ins == Ins(vals) && outs == Outs(vals)
    && (policy == FastFail ==> errors == [])
  }

  lemma TrackStart(policy: ErrorPolicy, rs: seq<Step<Entry>>)
    ensures Tracked(policy, rs, 0, [], [], [], [])
  {
    assert rs[..0] == [];
  }

  lemma TrackInput(policy: ErrorPolicy, rs: seq<Step<Entry>>, k: nat, vals: seq<Entry>,
                   errors: seq<SingleIoError>, ins: seq<InputSpec>, outs: seq<OutputSpec>, spec: InputSpec)
    requires Tracked(policy, rs, k, vals, errors, ins, outs) && k < |rs| && rs[k] == Ok(In(spec))
    ensures Tracked(policy, rs, k + 1, vals + [In(spec)], errors, ins + [spec], outs)
  {
    PrefixStep(rs, k);
    InsOutsStep(vals, In(spec));
  }

  lemma TrackOutput(policy: ErrorPolicy, rs: seq<Step<Entry>>, k: nat, vals: seq<Entry>,
                    errors: seq<SingleIoError>, ins: seq<InputSpec>, outs: seq<OutputSpec>, spec: OutputSpec)
    requires Tracked(policy, rs, k, vals, errors, ins, outs) && k < |rs| && rs[k] == Ok(Out(spec))
    ensures Tracked(policy, rs, k + 1, vals + [Out(spec)], errors, ins, outs + [spec])
  {
    PrefixStep(rs, k);
    InsOutsStep(vals, Out(spec));
  }

  lemma TrackError(policy: ErrorPolicy, rs: seq<Step<Entry>>, k: nat, vals: seq<Entry>,
                   errors: seq<SingleIoError>, ins: seq<InputSpec>, outs: seq<OutputSpec>, err: SingleIoError)
    requires Tracked(policy, rs, k, vals, errors, ins, outs) && k < |rs| && rs[k] == Err(err)
    ensures policy == FastFail ==> Collect(FastFail, rs) == Err(AggregateError(errors + [err]))
    ensures policy == Accumulate ==> Tracked(policy, rs, k + 1, vals, errors + [err], ins, outs)
  {
    PrefixStep(rs, k);
    if policy == FastFail {
      StopAtFirstFailure(rs, k);
      assert errors + [err] == [rs[k].error];
    }
  }

  lemma TrackEnd(policy: ErrorPolicy, rs: seq<Step<Entry>>, vals: seq<Entry>,
                 errors: seq<SingleIoError>, ins: seq<InputSpec>, outs: seq<OutputSpec>)
    requires Tracked(policy, rs, |rs|, vals, errors, ins, outs)
    ensures errors == [] ==> Collect(policy, rs) == Ok(vals)
    ensures errors != [] ==> Collect(policy, rs) == Err(AggregateError(errors))
  {
    assert rs[..|rs|] == rs;
    CollectAtEnd(policy, rs);
  }

  /** The input loop of `from_pipeline_config`: `stopped` when fast-fail
      met an error, which is then the whole outcome. */
  method ConfigInputs(b: MultiioBuilder, config: PipelineConfig, ghost rs: seq<Step<Entry>>)
    returns (ins: seq<InputSpec>, ghost vals: seq<Entry>, errors: seq<SingleIoError>, stopped: bool)
    requires rs == ConfigSteps(b, config)
    ensures stopped ==> b.errorPolicy == FastFail && Collect(FastFail, rs) == Err(AggregateError(errors))
    ensures !stopped ==> Tracked(b.errorPolicy, rs, |config.inputs|, vals, errors, ins, [])
  {
    ins, vals, errors, stopped := [], [], [], false;
    TrackStart(b.errorPolicy, rs);
    for i := 0 to |config.inputs|
      invariant Tracked(b.errorPolicy, rs, i, vals, errors, ins, [])
    {
      var step := InputFromConfig(b, config.inputs[i]);
      ConfigInputStep(b, config, i);
      if step.Ok? {
        TrackInput(b.errorPolicy, rs, i, vals, errors, ins, [], step.value);
        vals := vals + [In(step.value)];
        ins := ins + [step.value];
      } else {
        TrackError(b.errorPolicy, rs, i, vals, errors, ins, [], step.error);
        if b.errorPolicy == FastFail {
          return ins, vals, errors + [step.error], true;
        }
        errors := errors + [step.error];
      }
    }
  }

  /** The entries that follow the inputs are the outputs' results. */
  ghost predicate OutputEntries(b: MultiioBuilder, config: PipelineConfig, rs: seq<Step<Entry>>)
  {
    && |rs| == |config.inputs| + |config.outputs|
    && forall j :: 0 <= j < |config.outputs| ==> rs[|config.inputs| + j] == LiftOutput(OutputFromConfig(b, config.outputs[j]))
  }

  lemma ConfigOutputEntries(b: MultiioBuilder, config: PipelineConfig)
    ensures OutputEntries(b, config, ConfigSteps(b, config))
  {
    forall j | 0 <= j < |config.outputs|
      ensures ConfigSteps(b, config)[|config.inputs| + j] == LiftOutput(OutputFromConfig(b, config.outputs[j]))
    {
      ConfigOutputStep(b, config, j);
    }
  }

  /** One step of the output loop: the `k`-th entry is the output
      `k - |config.inputs|`, and what it does to the tracked state. */
  lemma TrackOutputStep(b: MultiioBuilder, config: PipelineConfig, rs: seq<Step<Entry>>, k: nat, vals: seq<Entry>,
                        errors: seq<SingleIoError>, ins: seq<InputSpec>, outs: seq<OutputSpec>)
    requires OutputEntries(b, config, rs)
    requires |config.inputs| <= k < |config.inputs| + |config.outputs|
    requires Tracked(b.errorPolicy, rs, k, vals, errors, ins, outs)
    ensures var step := OutputFromConfig(b, config.outputs[k - |config.inputs|]);
      && (step.Ok? ==> Tracked(b.errorPolicy, rs, k + 1, vals + [Out(step.value)], errors, ins, outs + [step.value]))
      && (step.Err? && b.errorPolicy == FastFail ==>
            Collect(FastFail, rs) == Err(AggregateError(errors + [step.error])))
      && (step.Err? && b.errorPolicy == Accumulate ==>
            Tracked(b.errorPolicy, rs, k + 1, vals, errors + [step.error], ins, outs))
  {
    var step := OutputFromConfig(b, config.outputs[k - |config.inputs|]);
    assert rs[|config.inputs| + (k - |config.inputs|)] == LiftOutput(step);
    if step.Ok? {
      TrackOutput(b.errorPolicy, rs, k, vals, errors, ins, outs, step.value);
    } else {
      TrackError(b.errorPolicy, rs, k, vals, errors, ins, outs, step.error);
    }
  }

  /** The output loop of `from_pipeline_config`, carrying on the inputs'
      specifications and errors. */
  method ConfigOutputs(b: MultiioBuilder, config: PipelineConfig, ghost rs: seq<Step<Entry>>,
                       ins: seq<InputSpec>, ghost vals0: seq<Entry>, errors0: seq<SingleIoError>)
    returns (outs: seq<OutputSpec>, ghost vals: seq<Entry>, errors: seq<SingleIoError>, stopped: bool)
    requires OutputEntries(b, config, rs)
    requires Tracked(b.errorPolicy, rs, |config.inputs|, vals0, errors0, ins, [])
    ensures stopped ==> b.errorPolicy == FastFail && Collect(FastFail, rs) == Err(AggregateError(errors))
    ensures !stopped ==> Tracked(b.errorPolicy, rs, |rs|, vals, errors, ins, outs)
  {
    var n := |config.inputs|;
    outs, vals, errors, stopped := [], vals0, errors0, false;
    for k := n to n + |config.outputs|
      invariant Tracked(b.errorPolicy, rs, k, vals, errors, ins, outs)
    {
      var step := OutputFromConfig(b, config.outputs[k - n]);
      TrackOutputStep(b, config, rs, k, vals, errors, ins, outs);
      if step.Ok? {
        vals := vals + [Out(step.value)];
        outs := outs + [step.value];
      } else {
        if b.errorPolicy == FastFail {
          return outs, vals, errors + [step.error], true;
        }
        errors := errors + [step.error];
      }
    }
  }

  /** `from_pipeline_config`: one error list across inputs and outputs;
      under fast-fail the first error ends it. */
  method FromPipelineConfig(config: PipelineConfig, registry: FR.Registry, defaultOrder: seq<FormatKind>)
    returns (r: Result<MultiioBuilder, AggregateError>)
    ensures var b := ConfiguredBuilder(config, registry, defaultOrder);
            var c := Collect(b.errorPolicy, ConfigSteps(b, config));
            && (c.Err? ==> r == Err(c.error))
            && (c.Ok? ==> r == Ok(b.(inputSpecs := Ins(c.value), outputSpecs := Outs(c.value))))
  {
    var b := ConfiguredBuilder(config, registry, defaultOrder);
    ghost var rs := ConfigSteps(b, config);
    var ins, vals0, errors0, stopped := ConfigInputs(b, config, rs);
    if stopped {
      return Err(AggregateError(errors0));
    }
    ConfigOutputEntries(b, config);
    var outs, vals, errors, stopped' := ConfigOutputs(b, config, rs, ins, vals0, errors0);
    if stopped' {
      return Err(AggregateError(errors));
    }
    TrackEnd(b.errorPolicy, rs, vals, errors, ins, outs);
    if errors != [] {
      return Err(AggregateError(errors));
    }
    return Ok(b.(inputSpecs := ins, outputSpecs := outs));
  }

  // ------------------------------------------------------------- lemmas

  /** Setting one order is setting the input and the output order. */
  lemma WithOrderSetsBoth(b: MultiioBuilder, order: seq<FormatKind>)
    ensures WithOrder(b, order) == WithOutputOrder(WithInputOrder(b, order), order)
  {
  }

  /** Adding tokens one at a time is the same as giving them all at once
      after the ones already there. */
  lemma {:induction false} AddInputsAppend(b: MultiioBuilder, args: seq<string>)
    ensures AddInputs(b, args) == InputsFromArgs(b, b.inputArgs + args)
  {
    if |args| > 0 {
      var n := |args| - 1;
      AddInputsAppend(b, args[..n]);
      assert b.inputArgs + args[..n] + [args[n]] == b.inputArgs + args;
    }
  }

  /** `add_input` once for each token. */
  function AddInputs(b: MultiioBuilder, args: seq<string>): MultiioBuilder
  {
    if |args| == 0 then b else AddInput(AddInputs(b, args[..|args| - 1]), args[|args| - 1])
  }

  /** `-` and `stdin` in any letter case, with white space around them,
      read standard input. */
  lemma StdinTokenReadsStdin(b: MultiioBuilder, contentHash: string -> nat, token: string)
    requires IsStdinToken(Trim(RustBlanks, token))
    ensures ResolveSingleInput(b, contentHash, token) == Ok(InputSpec("-", StdinInput, None, b.defaultInputFormats))
  {
    StdinIsNotForced(Trim(RustBlanks, token));
  }

  lemma StdinIsNotForced(raw: string)
    requires IsStdinToken(raw)
    ensures ClassifyInput(raw) == StdinToken
  {
    if raw != "-" {
      assert AsciiLower(raw) == "stdin";
      assert |raw| == 5 && ToAsciiLower(raw[0]) == 's';
    }
  }

  /** The input classification is exact: a token is classified as stdin
      exactly when it is a stdin name, and as a plain path exactly when
      it is none of the other forms. */
  lemma ClassifyInputMeaning(raw: string)
    ensures ClassifyInput(raw).StdinToken? <==> IsStdinToken(raw)
    ensures ClassifyInput(raw).PlainInputPath? <==> PlainInputToken(raw)
  {
    ReservedTokenStart(raw);
  }

  /** The output classification is exact in the same way, for the stdout
      and stderr names. */
  lemma ClassifyOutputMeaning(raw: string)
    ensures ClassifyOutput(raw).StdoutToken? <==> IsStdoutToken(raw)
    ensures ClassifyOutput(raw).StderrToken? <==> IsStderrToken(raw)
    ensures ClassifyOutput(raw).PlainOutputPath? <==> PlainOutputToken(raw)
  {
    ReservedTokenStart(raw);
  }

  /** What each form of input token becomes: stdin as `-` with no
      format, inline content in memory, and a path (forced or plain) a
      file with its format inferred from the path. */
  lemma InputTokenSpecs(b: MultiioBuilder, contentHash: string -> nat, raw: string, t: InputToken)
    ensures t.StdinToken? ==> InputForToken(b, contentHash, raw, t) == Ok(InputSpec("-", StdinInput, None, b.defaultInputFormats))
    ensures t.InlineContent? ==> InputForToken(b, contentHash, raw, t) == Ok(InlineSpec(b, contentHash, t.content))
    ensures (t.ForcedInputPath? && t.path != "") || t.PlainInputPath? ==>
              InputForToken(b, contentHash, raw, t) == Ok(InputSpec(t.path, FileInput(t.path), InferFormat(b, t.path), b.defaultInputFormats))
  {
  }

  /** What each form of output token becomes: stdout as `-`, stderr as
      `stderr`, both with no format, and a path (forced or plain) a file
      with its format inferred from the path; all under the builder's
      policy. */
  lemma OutputTokenSpecs(b: MultiioBuilder, raw: string, t: OutputToken)
    ensures t.StdoutToken? ==>
              OutputForToken(b, raw, t) == Ok(OutputSpec("-", StdoutOutput, None, b.defaultOutputFormats, b.fileExistsPolicy))
    ensures t.StderrToken? ==>
              OutputForToken(b, raw, t) == Ok(OutputSpec("stderr", StderrOutput, None, b.defaultOutputFormats, b.fileExistsPolicy))
    ensures (t.ForcedOutputPath? && t.path != "") || t.PlainOutputPath? ==>
              OutputForToken(b, raw, t)
              == Ok(OutputSpec(t.path, FileOutput(t.path), InferFormat(b, t.path), b.defaultOutputFormats, b.fileExistsPolicy))
  {
  }

  /** Any other trimmed input token is a file path, with its format
      inferred from the path. */
  lemma PlainInputIsFile(b: MultiioBuilder, contentHash: string -> nat, token: string)
    requires PlainInputToken(Trim(RustBlanks, token))
    ensures var raw := Trim(RustBlanks, token);
            ResolveSingleInput(b, contentHash, token)
            == Ok(InputSpec(raw, FileInput(raw), InferFormat(b, raw), b.defaultInputFormats))
  {
    ClassifyInputMeaning(Trim(RustBlanks, token));
  }

  /** `-` or `stdout`, in any case and with any padding, writes to
      standard output under the identifier `-`. */
  lemma StdoutTokenWritesStdout(b: MultiioBuilder, token: string)
    requires IsStdoutToken(Trim(RustBlanks, token))
    ensures ResolveSingleOutput(b, token)
            == Ok(OutputSpec("-", StdoutOutput, None, b.defaultOutputFormats, b.fileExistsPolicy))
  {
    ClassifyOutputMeaning(Trim(RustBlanks, token));
  }

  /** `stderr`, in any case and with any padding, writes to standard
      error under the identifier `stderr`. */
  lemma StderrTokenWritesStderr(b: MultiioBuilder, token: string)
    requires IsStderrToken(Trim(RustBlanks, token))
    ensures ResolveSingleOutput(b, token)
            == Ok(OutputSpec("stderr", StderrOutput, None, b.defaultOutputFormats, b.fileExistsPolicy))
  {
    ClassifyOutputMeaning(Trim(RustBlanks, token));
  }

  /** Any other trimmed output token is a file path, with its format
      inferred from the path and the builder's policy. */
  lemma PlainOutputIsFile(b: MultiioBuilder, token: string)
    requires PlainOutputToken(Trim(RustBlanks, token))
    ensures var raw := Trim(RustBlanks, token);
            ResolveSingleOutput(b, token)
            == Ok(OutputSpec(raw, FileOutput(raw), InferFormat(b, raw), b.defaultOutputFormats, b.fileExistsPolicy))
  {
    ClassifyOutputMeaning(Trim(RustBlanks, token));
  }

  /** `@path` is a file even when the path is a reserved token, and its
      format is inferred from the path. */
  lemma ForcedPathIsFile(b: MultiioBuilder, contentHash: string -> nat, path: string)
    requires |path| > 0 && !IsBlank(RustBlanks, path[|path| - 1])
    ensures ResolveSingleInput(b, contentHash, "@" + path)
            == Ok(InputSpec(path, FileInput(path), InferFormat(b, path), b.defaultInputFormats))
    ensures ResolveSingleOutput(b, "@" + path)
            == Ok(OutputSpec(path, FileOutput(path), InferFormat(b, path), b.defaultOutputFormats, b.fileExistsPolicy))
  {
    var t := "@" + path;
    assert t[|t| - 1] == path[|path| - 1];
    TrimOfUnpadded(RustBlanks, t);
    assert t[1..] == path;
  }

  /** `=content` is read from memory (see `InlineSpec`). */
  lemma InlineContentInMemory(b: MultiioBuilder, contentHash: string -> nat, content: string)
    requires |content| > 0 && !IsBlank(RustBlanks, content[|content| - 1])
    ensures ResolveSingleInput(b, contentHash, "=" + content) == Ok(InlineSpec(b, contentHash, content))
  {
    var t := "=" + content;
    assert t[|t| - 1] == content[|content| - 1];
    TrimOfUnpadded(RustBlanks, t);
    assert t[1..] == content;
    InlineIsNotStdin(t);
  }

  lemma InlineIsNotStdin(t: string)
    requires |t| > 0 && t[0] == '='
    ensures !IsStdinToken(t)
  {
    assert AsciiLower(t)[0] == '=';
    assert AsciiLower("stdin")[0] == 's';
  }

  /** Building fails exactly when some input or output token is a bare
      `@`. */
  lemma {:induction false} BuildOutcome(b: MultiioBuilder, contentHash: string -> nat)
    ensures Collect(b.errorPolicy, InputSteps(b, contentHash)).Ok?
            <==> forall i :: 0 <= i < |b.inputArgs| ==> Trim(RustBlanks, b.inputArgs[i]) != "@"
    ensures Collect(b.errorPolicy, OutputSteps(b)).Ok?
            <==> forall i :: 0 <= i < |b.outputArgs| ==> Trim(RustBlanks, b.outputArgs[i]) != "@"
  {
    var rs := InputSteps(b, contentHash);
    CollectOk(b.errorPolicy, rs);
    CollectOk(b.errorPolicy, OutputSteps(b));
  }

  /** The format order of a configuration that names built-in kinds is
      those kinds, in order. */
  lemma ParseOrderOfNames(names: seq<string>, ks: seq<FormatKind>)
    requires |names| == |ks|
    requires forall i :: 0 <= i < |ks| ==> !ks[i].Custom? && names[i] == Name(ks[i])
    ensures ParseOrder(names) == ks
  {
    var f := (n: string) => ParseFormat(n).ToOption();
    forall i | 0 <= i < |ks| ensures f(names[i]) == Some(ks[i]) {
      ParseName(ks[i]);
    }
    FilterMapTotal(names, f, ks);
  }

  /** Joining two lists of names joins their orders. */
  lemma ParseOrderConcat(xs: seq<string>, ys: seq<string>)
    ensures ParseOrder(xs + ys) == ParseOrder(xs) + ParseOrder(ys)
  {
    FilterMapConcat(xs, ys, (n: string) => ParseFormat(n).ToOption());
  }

  lemma OneUnparsableName(n: string)
    requires ParseFormat(n).Err?
    ensures ParseOrder([n]) == []
  {
    assert [n][..0] == [];
  }

  /** The order holds exactly the kinds that some name parses to. */
  lemma ParseOrderMembers(names: seq<string>)
    ensures forall k :: k in ParseOrder(names) <==> exists i :: 0 <= i < |names| && ParseFormat(names[i]) == Ok(k)
  {
    var f := (n: string) => ParseFormat(n).ToOption();
    FilterMapMembers(names, f);
    assert forall i, k :: 0 <= i < |names| ==> (f(names[i]) == Some(k) <==> ParseFormat(names[i]) == Ok(k));
  }

  /** A name that does not parse contributes nothing to the order,
      wherever it stands. */
  lemma UnparsableNameDropped(xs: seq<string>, n: string, ys: seq<string>)
    requires ParseFormat(n).Err?
    ensures ParseOrder(xs + [n] + ys) == ParseOrder(xs + ys)
  {
    ParseOrderConcat(xs + [n], ys);
    ParseOrderConcat(xs, [n]);
    ParseOrderConcat(xs, ys);
    OneUnparsableName(n);
    calc {
      ParseOrder(xs + [n] + ys);
      ParseOrder(xs + [n]) + ParseOrder(ys);
      ParseOrder(xs) + ParseOrder([n]) + ParseOrder(ys);
      { assert ParseOrder(xs) + [] == ParseOrder(xs); }
      ParseOrder(xs) + ParseOrder(ys);
      ParseOrder(xs + ys);
    }
  }

  lemma {:induction false} InsOfSplit(es: seq<Entry>, n: nat)
    requires n <= |es|
    requires forall j :: 0 <= j < n ==> es[j].In?
    requires forall j :: n <= j < |es| ==> es[j].Out?
    ensures |Ins(es)| == n && forall j :: 0 <= j < n ==> Ins(es)[j] == es[j].input
  {
    if |es| > 0 {
      var m := |es| - 1;
      var init := es[..m];
      assert forall j :: 0 <= j < m ==> init[j] == es[j];
      InsOfSplit(init, if m >= n then n else m);
    }
  }

  lemma {:induction false} OutsOfSplit(es: seq<Entry>, n: nat)
    requires n <= |es|
    requires forall j :: 0 <= j < n ==> es[j].In?
    requires forall j :: n <= j < |es| ==> es[j].Out?
    ensures |Outs(es)| == |es| - n && forall j :: 0 <= j < |es| - n ==> Outs(es)[j] == es[n + j].output
  {
    if |es| > 0 {
      var m := |es| - 1;
      var init := es[..m];
      assert forall j :: 0 <= j < m ==> init[j] == es[j];
      OutsOfSplit(init, if m >= n then n else m);
    }
  }

  /** A configuration that resolves gives the builder one input
      specification per configured input and one output specification per
      configured output, in order. */
  lemma {:induction false} ConfigKeepsOrder(b: MultiioBuilder, config: PipelineConfig)
    requires Collect(b.errorPolicy, ConfigSteps(b, config)).Ok?
    ensures var es := Collect(b.errorPolicy, ConfigSteps(b, config)).value;
      && |Ins(es)| == |config.inputs| && |Outs(es)| == |config.outputs|
      && (forall i :: 0 <= i < |config.inputs| ==> InputFromConfig(b, config.inputs[i]) == Ok(Ins(es)[i]))
      && (forall i :: 0 <= i < |config.outputs| ==> OutputFromConfig(b, config.outputs[i]) == Ok(Outs(es)[i]))
  {
    var n := |config.inputs|;
    ConfigEntries(b, config);
    var es := Collect(b.errorPolicy, ConfigSteps(b, config)).value;
    InsOfSplit(es, n);
    OutsOfSplit(es, n);
    forall i | 0 <= i < |config.outputs|
      ensures OutputFromConfig(b, config.outputs[i]) == Ok(Outs(es)[i])
    {
      assert Outs(es)[i] == es[n + i].output;
      assert n + i - n == i;
    }
  }

  /** The entries of a configuration that resolves: its inputs' and then
      its outputs' specifications. */
  lemma ConfigEntries(b: MultiioBuilder, config: PipelineConfig)
    requires Collect(b.errorPolicy, ConfigSteps(b, config)).Ok?
    ensures var es := Collect(b.errorPolicy, ConfigSteps(b, config)).value;
      && |es| == |config.inputs| + |config.outputs|
      && (forall j :: 0 <= j < |config.inputs| ==>
            es[j].In? && InputFromConfig(b, config.inputs[j]) == Ok(es[j].input))
      && (forall j :: |config.inputs| <= j < |es| ==>
            es[j].Out? && OutputFromConfig(b, config.outputs[j - |config.inputs|]) == Ok(es[j].output))
  {
    var rs := ConfigSteps(b, config);
    var n := |config.inputs|;
    CollectOk(b.errorPolicy, rs);
    var es := Collect(b.errorPolicy, rs).value;
    forall j | 0 <= j < n
      ensures es[j].In? && InputFromConfig(b, config.inputs[j]) == Ok(es[j].input)
    {
      ConfigInputStep(b, config, j);
      assert rs[j].Ok? && es[j] == rs[j].value;
    }
    forall j | n <= j < |es|
      ensures es[j].Out? && OutputFromConfig(b, config.outputs[j - n]) == Ok(es[j].output)
    {
      ConfigOutputStep(b, config, j - n);
      assert rs[j].Ok? && es[j] == rs[j].value;
    }
  }
}
