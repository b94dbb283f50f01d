// The asynchronous builder (src/builder_async.rs). Its argument
// resolution is simpler than the synchronous one: `-` is the standard
// stream and everything else is a file path taken verbatim, with no
// trimming, no `@` forcing, no inline content and no stderr token, so it
// never reports an error. Building therefore always succeeds.
module AsyncBuilders {
  import opened Wrappers
  import opened Text
  import opened Paths
  import opened FormatKinds
  import opened AsyncFormats
  import opened Providers
  import opened Specs
  import opened AsyncSpecs
  import opened Errors
  import opened Collecting
  import opened AsyncEngines
  import opened Pipelines
  import Builders

  datatype AsyncBuilder = AsyncBuilder(
    inputArgs: seq<string>,
    outputArgs: seq<string>,
    inputSpecs: seq<AsyncInputSpec>,
    outputSpecs: seq<AsyncOutputSpec>,
    registry: AsyncRegistry,
    errorPolicy: ErrorPolicy,
    defaultInputFormats: seq<FormatKind>,
    defaultOutputFormats: seq<FormatKind>,
    fileExistsPolicy: FileExistsPolicy)

  /** The order a new asynchronous builder tries formats in. */
  const AsyncDefaultOrder: seq<FormatKind> := [Json, Yaml, Plaintext]

  /** `MultiioAsyncBuilder::new`. */
  function NewAsyncBuilder(registry: AsyncRegistry): (b: AsyncBuilder)
    ensures b.inputArgs == [] && b.outputArgs == [] && b.inputSpecs == [] && b.outputSpecs == []
    ensures b.registry == registry && b.errorPolicy == Accumulate && b.fileExistsPolicy == Overwrite
    ensures b.defaultInputFormats == b.defaultOutputFormats == [Json, Yaml, Plaintext]
  {
    AsyncBuilder([], [], [], [], registry, Accumulate, AsyncDefaultOrder, AsyncDefaultOrder, Overwrite)
  }

  // ------------------------------------------------------------ setters

  function InputsFromArgs(b: AsyncBuilder, args: seq<string>): (b': AsyncBuilder)
    ensures b' == b.(inputArgs := args)
  {
    b.(inputArgs := args)
  }

  function OutputsFromArgs(b: AsyncBuilder, args: seq<string>): (b': AsyncBuilder)
    ensures b' == b.(outputArgs := args)
  {
    b.(outputArgs := args)
  }

  function AddInput(b: AsyncBuilder, arg: string): (b': AsyncBuilder)
    ensures b' == b.(inputArgs := b.inputArgs + [arg])
  {
    b.(inputArgs := b.inputArgs + [arg])
  }

  function AddOutput(b: AsyncBuilder, arg: string): (b': AsyncBuilder)
    ensures b' == b.(outputArgs := b.outputArgs + [arg])
  {
    b.(outputArgs := b.outputArgs + [arg])
  }

  function AddInputSpec(b: AsyncBuilder, spec: AsyncInputSpec): (b': AsyncBuilder)
    ensures b' == b.(inputSpecs := b.inputSpecs + [spec])
  {
    b.(inputSpecs := b.inputSpecs + [spec])
  }

  function AddOutputSpec(b: AsyncBuilder, spec: AsyncOutputSpec): (b': AsyncBuilder)
    ensures b' == b.(outputSpecs := b.outputSpecs + [spec])
  {
    b.(outputSpecs := b.outputSpecs + [spec])
  }

  function WithOrder(b: AsyncBuilder, order: seq<FormatKind>): (b': AsyncBuilder)
    ensures b' == b.(defaultInputFormats := order, defaultOutputFormats := order)
  {
    b.(defaultInputFormats := order, defaultOutputFormats := order)
  }

  function WithMode(b: AsyncBuilder, policy: ErrorPolicy): (b': AsyncBuilder)
    ensures b' == b.(errorPolicy := policy)
  {
    b.(errorPolicy := policy)
  }

  function WithFileExistsPolicy(b: AsyncBuilder, policy: FileExistsPolicy): (b': AsyncBuilder)
    ensures b' == b.(fileExistsPolicy := policy)
  {
    b.(fileExistsPolicy := policy)
  }

  // --------------------------------------------------------- resolution

  /** The kind a path's extension names in the registry; the extension is
      folded to lower case first. */
  function AsyncInferFormat(b: AsyncBuilder, path: string): (r: Option<FormatKind>)
    ensures Extension(path).None? ==> r.None?
    ensures r.Some? ==> Extension(path).Some? && r.value in b.registry.formats && !r.value.Custom?
    ensures r.Some? ==> AsciiLower(Extension(path).value) in Extensions(r.value)
    ensures Extension(path).Some? ==> r == AsyncKindForExtension(b.registry, AsciiLower(Extension(path).value))
    ensures Extension(path).Some?
            && (exists i :: 0 <= i < |b.registry.formats| && AsciiLower(Extension(path).value) in Extensions(b.registry.formats[i]))
            ==> r.Some?
  {
    match Extension(path)
    case None => None
    case Some(ext) =>
      AsyncExtensionsAreBuiltIn(b.registry, AsciiLower(ext));
      AsyncKindForExtensionFinds(b.registry, ext);
      AsciiLowerIdempotent(ext);
      AsyncKindForExtension(b.registry, AsciiLower(ext))
  }

  /** `resolve_single_input`: `-` reads standard input, anything else is a
      file path; the argument is the spec's identity either way. */
  function ResolveSingleAsyncInput(b: AsyncBuilder, raw: string): (r: Step<AsyncInputSpec>)
    ensures r.Ok?
    ensures r.value.raw == raw && AsyncInputId(r.value.provider) == raw
    ensures r.value.formatCandidates == b.defaultInputFormats
    ensures raw == "-" ==> r.value.provider == AsyncStdinInput && r.value.explicitFormat.None?
    ensures raw != "-" ==> r.value.provider == AsyncFileInput(raw) && r.value.explicitFormat == AsyncInferFormat(b, raw)
  {
    if raw == "-" then
      Ok(AsyncInputSpec(raw, AsyncStdinInput, None, b.defaultInputFormats))
    else
      Ok(AsyncInputSpec(raw, AsyncFileInput(raw), AsyncInferFormat(b, raw), b.defaultInputFormats))
  }

  /** `resolve_single_output`: `-` writes standard output, anything else
      is a file path; every output takes the builder's file-exists policy. */
  function ResolveSingleAsyncOutput(b: AsyncBuilder, raw: string): (r: Step<AsyncOutputSpec>)
    ensures r.Ok?
    ensures r.value.raw == raw && AsyncOutputId(r.value.target) == raw
    ensures r.value.formatCandidates == b.defaultOutputFormats
    ensures r.value.fileExistsPolicy == b.fileExistsPolicy
    ensures raw == "-" ==> r.value.target == AsyncStdoutOutput && r.value.explicitFormat.None?
    ensures raw != "-" ==> r.value.target == AsyncFileOutput(raw) && r.value.explicitFormat == AsyncInferFormat(b, raw)
  {
    if raw == "-" then
      Ok(AsyncOutputSpec(raw, AsyncStdoutOutput, None, b.defaultOutputFormats, b.fileExistsPolicy))
    else
      Ok(AsyncOutputSpec(raw, AsyncFileOutput(raw), AsyncInferFormat(b, raw), b.defaultOutputFormats,
                         b.fileExistsPolicy))
  }

  /** Every argument's resolution, in order. */
  function AsyncInputSteps(b: AsyncBuilder): (rs: seq<Step<AsyncInputSpec>>)
    ensures |rs| == |b.inputArgs|
    ensures forall i :: 0 <= i < |rs| ==> rs[i] == ResolveSingleAsyncInput(b, b.inputArgs[i])
  {
    seq(|b.inputArgs|, i requires 0 <= i < |b.inputArgs| => ResolveSingleAsyncInput(b, b.inputArgs[i]))
  }

  function AsyncOutputSteps(b: AsyncBuilder): (rs: seq<Step<AsyncOutputSpec>>)
    ensures |rs| == |b.outputArgs|
    ensures forall i :: 0 <= i < |rs| ==> rs[i] == ResolveSingleAsyncOutput(b, b.outputArgs[i])
  {
    seq(|b.outputArgs|, i requires 0 <= i < |b.outputArgs| => ResolveSingleAsyncOutput(b, b.outputArgs[i]))
  }

  /** `resolve_inputs`: the collecting loop, under the builder's policy. */
  method ResolveAsyncInputs(b: AsyncBuilder) returns (r: Result<seq<AsyncInputSpec>, AggregateError>)
    ensures r == Collect(b.errorPolicy, AsyncInputSteps(b))
  {
    ghost var rs := AsyncInputSteps(b);
    var specs: seq<AsyncInputSpec> := [];
    for i := 0 to |b.inputArgs|
      invariant specs == Collecting.Values(rs[..i]) && Failures(rs[..i]) == []
    {
      PrefixStep(rs, i);
      var spec := ResolveSingleAsyncInput(b, b.inputArgs[i]).value;
      specs := specs + [spec];
    }
    assert rs[..|b.inputArgs|] == rs;
    CollectAtEnd(b.errorPolicy, rs);
    return Ok(specs);
  }

  /** `resolve_outputs`. */
  method ResolveAsyncOutputs(b: AsyncBuilder) returns (r: Result<seq<AsyncOutputSpec>, AggregateError>)
    ensures r == Collect(b.errorPolicy, AsyncOutputSteps(b))
  {
    ghost var rs := AsyncOutputSteps(b);
    var specs: seq<AsyncOutputSpec> := [];
    for i := 0 to |b.outputArgs|
      invariant specs == Collecting.Values(rs[..i]) && Failures(rs[..i]) == []
    {
      PrefixStep(rs, i);
      var spec := ResolveSingleAsyncOutput(b, b.outputArgs[i]).value;
      specs := specs + [spec];
    }
    assert rs[..|b.outputArgs|] == rs;
    CollectAtEnd(b.errorPolicy, rs);
    return Ok(specs);
  }

  /** `build`: the resolved arguments come first, then the prebuilt specs,
      in an engine without a synchronous registry. It always succeeds, and
      the engine holds one spec per argument, in argument order. */
  method AsyncBuild(b: AsyncBuilder) returns (r: Result<AsyncIoEngine, AggregateError>)
    ensures r.Ok?
    ensures r.value.syncRegistry.None? && r.value.registry == b.registry && r.value.errorPolicy == b.errorPolicy
    ensures |r.value.inputs| == |b.inputArgs| + |b.inputSpecs|
    ensures |r.value.outputs| == |b.outputArgs| + |b.outputSpecs|
    ensures forall i :: 0 <= i < |b.inputArgs| ==> r.value.inputs[i] == ResolveSingleAsyncInput(b, b.inputArgs[i]).value
    ensures forall i :: 0 <= i < |b.outputArgs| ==> r.value.outputs[i] == ResolveSingleAsyncOutput(b, b.outputArgs[i]).value
    ensures r.value.inputs[|b.inputArgs|..] == b.inputSpecs
    ensures r.value.outputs[|b.outputArgs|..] == b.outputSpecs
  {
    var ins := ResolveAsyncInputs(b);
    AsyncInputsSucceed(b);
    var outs := ResolveAsyncOutputs(b);
    AsyncOutputsSucceed(b);
    return Ok(NewAsyncEngine(b.registry, b.errorPolicy, ins.value + b.inputSpecs, outs.value + b.outputSpecs));
  }

  // -------------------------------------------------------- configuration

  /** `from_pipeline_config`: only the error policy and the format order
      are taken from the configuration; its inputs and outputs are not
      read, and there is no error to report. */
  function AsyncFromPipelineConfig(config: PipelineConfig, registry: AsyncRegistry)
    : (r: Result<AsyncBuilder, AggregateError>)
    ensures r.Ok?
    ensures r.value.errorPolicy == (if config.errorPolicy.Some? then Builders.PolicyFromName(config.errorPolicy.value) else Accumulate)
    ensures config.formatOrder.Some? ==>
      r.value.defaultInputFormats == r.value.defaultOutputFormats == Builders.ParseOrder(config.formatOrder.value)
    ensures config.formatOrder.None? ==> r.value.defaultInputFormats == r.value.defaultOutputFormats == AsyncDefaultOrder
    ensures r.value.inputArgs == [] && r.value.outputArgs == [] && r.value.inputSpecs == [] && r.value.outputSpecs == []
    ensures r.value.registry == registry && r.value.fileExistsPolicy == Overwrite
  {
    var b0 := NewAsyncBuilder(registry);
    var b1 := if config.errorPolicy.Some? then WithMode(b0, Builders.PolicyFromName(config.errorPolicy.value)) else b0;
    Ok(if config.formatOrder.Some? then WithOrder(b1, Builders.ParseOrder(config.formatOrder.value)) else b1)
  }

  // ------------------------------------------------------------- lemmas

  /** Resolving the input arguments never fails, under either policy, and
      yields one spec per argument in order. */
  lemma AsyncInputsSucceed(b: AsyncBuilder)
    ensures Collect(b.errorPolicy, AsyncInputSteps(b)).Ok?
    ensures |Collect(b.errorPolicy, AsyncInputSteps(b)).value| == |b.inputArgs|
    ensures forall i :: 0 <= i < |b.inputArgs| ==>
      Collect(b.errorPolicy, AsyncInputSteps(b)).value[i] == ResolveSingleAsyncInput(b, b.inputArgs[i]).value
  {
    CollectOk(b.errorPolicy, AsyncInputSteps(b));
  }

  lemma AsyncOutputsSucceed(b: AsyncBuilder)
    ensures Collect(b.errorPolicy, AsyncOutputSteps(b)).Ok?
    ensures |Collect(b.errorPolicy, AsyncOutputSteps(b)).value| == |b.outputArgs|
    ensures forall i :: 0 <= i < |b.outputArgs| ==>
      Collect(b.errorPolicy, AsyncOutputSteps(b)).value[i] == ResolveSingleAsyncOutput(b, b.outputArgs[i]).value
  {
    CollectOk(b.errorPolicy, AsyncOutputSteps(b));
  }

  /** The configuration's inputs and outputs do not affect the builder. */
  lemma ConfigEntriesIgnored(config: PipelineConfig, other: PipelineConfig, registry: AsyncRegistry)
    requires config.errorPolicy == other.errorPolicy && config.formatOrder == other.formatOrder
    ensures AsyncFromPipelineConfig(config, registry) == AsyncFromPipelineConfig(other, registry)
  {
  }
}
