// The asynchronous engine (src/engine_async.rs). It differs from the
// synchronous one in its order of steps: inputs are read before their
// format is resolved, and outputs are encoded before they are opened.
// With a synchronous registry attached, resolution and the codec
// dispatch go through it, so custom formats take part.
module AsyncEngines {
  import opened Wrappers
  import opened Values
  import opened FormatKinds
  import opened FormatRegistries
  import opened AsyncFormats
  import opened Errors
  import opened Collecting
  import opened Providers
  import opened Specs
  import opened AsyncSpecs
  import Engines

  datatype AsyncIoEngine = AsyncIoEngine(
    registry: AsyncRegistry,
    syncRegistry: Option<Registry>,
    errorPolicy: ErrorPolicy,
    inputs: seq<AsyncInputSpec>,
    outputs: seq<AsyncOutputSpec>)

  /** `AsyncIoEngine::new`: no synchronous registry. */
  function NewAsyncEngine(registry: AsyncRegistry, policy: ErrorPolicy, inputs: seq<AsyncInputSpec>,
                          outputs: seq<AsyncOutputSpec>): (e: AsyncIoEngine)
    ensures e.syncRegistry.None? && e.registry == registry && e.errorPolicy == policy
    ensures e.inputs == inputs && e.outputs == outputs
  {
    AsyncIoEngine(registry, None, policy, inputs, outputs)
  }

  /** `new_with_sync_registry`. */
  function NewWithSyncRegistry(registry: AsyncRegistry, sync: Registry, policy: ErrorPolicy,
                               inputs: seq<AsyncInputSpec>, outputs: seq<AsyncOutputSpec>): (e: AsyncIoEngine)
    ensures e.syncRegistry == Some(sync) && e.registry == registry && e.errorPolicy == policy
    ensures e.inputs == inputs && e.outputs == outputs
  {
    AsyncIoEngine(registry, Some(sync), policy, inputs, outputs)
  }

  /** The format errors the engine files under a resolution stage when
      the synchronous registry reports them. */
  predicate IsResolutionError(fe: FormatError)
  {
    fe.UnknownFormat? || fe.NoFormatMatched? || fe.NotEnabled?
  }

  // ------------------------------------------------------------ reading

  /** Resolution and decoding of bytes already read. */
  function DecodeRead(e: AsyncIoEngine, c: Codecs, spec: AsyncInputSpec, data: Bytes): (r: Step<Value>)
    ensures r.Err? ==> r.error.target == spec.raw && r.error.stage in {ResolveInput, Parse}
    ensures e.syncRegistry.Some? ==>
      var d := DeserializeValue(e.syncRegistry.value, c, spec.explicitFormat, spec.formatCandidates, data);
      (r.Ok? <==> d.Ok?) && (r.Ok? ==> r.value == d.value)
    ensures e.syncRegistry.None? && r.Ok? ==>
      AsyncResolve(e.registry, c.enabled, spec.explicitFormat, spec.formatCandidates).Ok?
  {
    match e.syncRegistry
    case Some(r) =>
      (match DeserializeValue(r, c, spec.explicitFormat, spec.formatCandidates, data)
       case Ok(v) => Ok(v)
       case Err(fe) =>
         Err(SingleIoError(if IsResolutionError(fe) then ResolveInput else Parse, spec.raw, FormatFailure(fe))))
    case None =>
      match AsyncResolve(e.registry, c.enabled, spec.explicitFormat, spec.formatCandidates)
      case Err(fe) => Err(SingleIoError(ResolveInput, spec.raw, FormatFailure(fe)))
      case Ok(k) =>
        match Deserialize(c, k, data)
        case Err(fe) => Err(SingleIoError(Parse, spec.raw, FormatFailure(fe)))
        case Ok(v) => Ok(v)
  }

  /** `read_one`: open and read to the end (both failures are `Open`),
      then resolve and decode. */
  function AsyncReadOne(e: AsyncIoEngine, c: Codecs, env: Environment, spec: AsyncInputSpec): (r: Step<Value>)
    ensures r.Err? ==> r.error.target == spec.raw && r.error.stage in {Open, ResolveInput, Parse}
    ensures r.Ok? ==> env.readAsync(spec.provider).Readable?
  {
    match env.readAsync(spec.provider)
    case OpenFailed(m) => Err(SingleIoError(Open, spec.raw, IoFailure(m)))
    case ReadFailed(m) => Err(SingleIoError(Open, spec.raw, IoFailure(m)))
    case Readable(data) => DecodeRead(e, c, spec, data)
  }

  /** The reusable buffer after a read: left alone when the open fails,
      cleared and then filled otherwise. */
  function BufferAfter(env: Environment, spec: AsyncInputSpec, buffer: Bytes): Bytes
  {
    match env.readAsync(spec.provider)
    case OpenFailed(_) => buffer
    case ReadFailed(_) => []
    case Readable(data) => data
  }

  /** `read_one_with_buffer`: the result never depends on what the buffer
      held before. */
  method ReadOneWithBuffer(e: AsyncIoEngine, c: Codecs, env: Environment, spec: AsyncInputSpec, buffer: Bytes)
    returns (r: Step<Value>, buffer': Bytes)
    ensures r == AsyncReadOne(e, c, env, spec)
    ensures buffer' == BufferAfter(env, spec, buffer)
  {
    var outcome := env.readAsync(spec.provider);
    if outcome.OpenFailed? {
      return Err(SingleIoError(Open, spec.raw, IoFailure(outcome.message))), buffer;
    }
    buffer' := [];
    if outcome.ReadFailed? {
      return Err(SingleIoError(Open, spec.raw, IoFailure(outcome.message))), buffer';
    }
    buffer' := buffer' + outcome.data;
    assert buffer' == outcome.data;
    r := DecodeRead(e, c, spec, buffer');
  }

  function AsyncReadSteps(e: AsyncIoEngine, c: Codecs, env: Environment): (rs: seq<Step<Value>>)
    ensures |rs| == |e.inputs|
    ensures forall i :: 0 <= i < |rs| ==> rs[i] == AsyncReadOne(e, c, env, e.inputs[i])
  {
    seq(|e.inputs|, i requires 0 <= i < |e.inputs| => AsyncReadOne(e, c, env, e.inputs[i]))
  }

  /** `read_all`: the inputs in order through one reused buffer. */
  method AsyncReadAll(e: AsyncIoEngine, c: Codecs, env: Environment)
    returns (r: Result<seq<Value>, AggregateError>)
    ensures r == Collect(e.errorPolicy, AsyncReadSteps(e, c, env))
  {
    ghost var rs := AsyncReadSteps(e, c, env);
    var results: seq<Value> := [];
    var errors: seq<SingleIoError> := [];
    var buffer: Bytes := [];
    for i := 0 to |e.inputs|
      invariant results == Collecting.Values(rs[..i]) && errors == Failures(rs[..i])
      invariant e.errorPolicy == FastFail ==> errors == []
    {
      PrefixStep(rs, i);
      var step;
      step, buffer := ReadOneWithBuffer(e, c, env, e.inputs[i], buffer);
      match step
      case Ok(v) =>
        results := results + [v];
      case Err(err) =>
        if e.errorPolicy == FastFail {
          StopAtFirstFailure(rs, i);
          assert errors + [err] == [rs[i].error];
          return Err(AggregateError(errors + [err]));
        }
        errors := errors + [err];
    }
    assert rs[..|e.inputs|] == rs;
    CollectAtEnd(e.errorPolicy, rs);
    if errors == [] {
      return Ok(results);
    }
    return Err(AggregateError(errors));
  }

  // ------------------------------------------------------------ writing

  /** Resolution and encoding, before anything is opened. */
  function Encode(e: AsyncIoEngine, c: Codecs, spec: AsyncOutputSpec, payload: Value): (r: Result<Bytes, SingleIoError>)
    ensures r.Err? ==> r.error.target == spec.raw && r.error.stage in {ResolveOutput, Stage.Serialize}
    ensures e.syncRegistry.Some? ==>
      var enc := SerializeValue(e.syncRegistry.value, c, spec.explicitFormat, spec.formatCandidates, payload);
      (r.Ok? <==> enc.Ok?) && (r.Ok? ==> r.value == enc.value)
    ensures e.syncRegistry.None? && r.Ok? ==>
      AsyncResolve(e.registry, c.enabled, spec.explicitFormat, spec.formatCandidates).Ok?
  {
    match e.syncRegistry
    case Some(r) =>
      (match SerializeValue(r, c, spec.explicitFormat, spec.formatCandidates, payload)
       case Ok(bytes) => Ok(bytes)
       case Err(fe) =>
         Err(SingleIoError(if IsResolutionError(fe) then ResolveOutput else Stage.Serialize, spec.raw,
                           FormatFailure(fe))))
    case None =>
      match AsyncResolve(e.registry, c.enabled, spec.explicitFormat, spec.formatCandidates)
      case Err(fe) => Err(SingleIoError(ResolveOutput, spec.raw, FormatFailure(fe)))
      case Ok(k) =>
        match FormatKinds.Serialize(c, k, payload)
        case Err(fe) => Err(SingleIoError(Stage.Serialize, spec.raw, FormatFailure(fe)))
        case Ok(bytes) => Ok(bytes)
  }

  /** `open_output`: the same modes as the synchronous engine. */
  function AsyncOpenOutput(env: Environment, spec: AsyncOutputSpec): (r: Result<OpenMode, SingleIoError>)
    ensures r.Ok? <==> !env.openAsync(spec.target, ModeFor(spec.fileExistsPolicy)).Refuses?
    ensures r.Ok? ==> r.value == ModeFor(spec.fileExistsPolicy)
    ensures r.Err? ==> r.error.stage == Open && r.error.target == spec.raw
  {
    var mode := ModeFor(spec.fileExistsPolicy);
    match env.openAsync(spec.target, mode)
    case Refuses(m) => Err(SingleIoError(Open, spec.raw, IoFailure(m)))
    case _ => Ok(mode)
  }

  /** `write_one` / `write_single`: encode, then open, then write the
      bytes; a failed write is a `Serialize` error. */
  function AsyncWriteOne(e: AsyncIoEngine, c: Codecs, env: Environment, spec: AsyncOutputSpec, payload: Value)
    : (w: Engines.WriteOutcome)
    ensures w.result.Err? ==> w.result.error.target == spec.raw
                              && w.result.error.stage in {ResolveOutput, Open, Stage.Serialize}
    ensures w.effect.Opened? ==> Encode(e, c, spec, payload).Ok? && w.effect.mode == ModeFor(spec.fileExistsPolicy)
  {
    match Encode(e, c, spec, payload)
    case Err(err) => Engines.WriteOutcome(Err(err), Untouched)
    case Ok(bytes) =>
      match AsyncOpenOutput(env, spec)
      case Err(err) => Engines.WriteOutcome(Err(err), Untouched)
      case Ok(mode) =>
        var b := env.openAsync(spec.target, mode);
        if b.FailsOnWrite? then
          Engines.WriteOutcome(Err(SingleIoError(Stage.Serialize, spec.raw, IoFailure(b.message))), Opened(mode, []))
        else Engines.WriteOutcome(Ok(()), Opened(mode, bytes))
  }

  function AsyncWriteSteps(e: AsyncIoEngine, c: Codecs, env: Environment, payload: Value): (rs: seq<Step<()>>)
    ensures |rs| == |e.outputs|
    ensures forall i :: 0 <= i < |rs| ==> rs[i] == AsyncWriteOne(e, c, env, e.outputs[i], payload).result
  {
    seq(|e.outputs|, i requires 0 <= i < |e.outputs| => AsyncWriteOne(e, c, env, e.outputs[i], payload).result)
  }

  /** The loop shared by `write_all` and `write_one_value`. */
  method AsyncWriteToOutputs(e: AsyncIoEngine, c: Codecs, env: Environment, payload: Value)
    returns (r: Result<(), AggregateError>)
    ensures r == Discard(Collect(e.errorPolicy, AsyncWriteSteps(e, c, env, payload)))
  {
    ghost var rs := AsyncWriteSteps(e, c, env, payload);
    var errors: seq<SingleIoError> := [];
    for i := 0 to |e.outputs|
      invariant errors == Failures(rs[..i])
      invariant e.errorPolicy == FastFail ==> errors == []
    {
      PrefixStep(rs, i);
      var w := AsyncWriteOne(e, c, env, e.outputs[i], payload);
      if w.result.Err? {
        if e.errorPolicy == FastFail {
          StopAtFirstFailure(rs, i);
          assert errors + [w.result.error] == [rs[i].error];
          return Err(AggregateError(errors + [w.result.error]));
        }
        errors := errors + [w.result.error];
      }
    }
    assert rs[..|e.outputs|] == rs;
    CollectAtEnd(e.errorPolicy, rs);
    if errors == [] {
      return Ok(());
    }
    return Err(AggregateError(errors));
  }

  /** `write_all`: the whole sequence, as one array, to every output. */
  method AsyncWriteAll(e: AsyncIoEngine, c: Codecs, env: Environment, values: seq<Value>)
    returns (r: Result<(), AggregateError>)
    ensures r == Discard(Collect(e.errorPolicy, AsyncWriteSteps(e, c, env, Array(values))))
  {
    r := AsyncWriteToOutputs(e, c, env, Array(values));
  }

  /** `write_one_value`: the one value to every output. */
  method AsyncWriteOneValue(e: AsyncIoEngine, c: Codecs, env: Environment, value: Value)
    returns (r: Result<(), AggregateError>)
    ensures r == Discard(Collect(e.errorPolicy, AsyncWriteSteps(e, c, env, value)))
  {
    r := AsyncWriteToOutputs(e, c, env, value);
  }

  // ---------------------------------------------------- record streams

  /** `iter_to_stream`: every item error becomes a `Parse` error. */
  function ToSteps(target: string, items: seq<Result<Value, FormatError>>): (rs: seq<Step<Value>>)
    ensures |rs| == |items|
    ensures forall i :: 0 <= i < |items| ==>
      rs[i] == match items[i] case Ok(v) => Ok(v) case Err(fe) => Err(SingleIoError(Parse, target, FormatFailure(fe)))
  {
    seq(|items|, i requires 0 <= i < |items| =>
      match items[i] case Ok(v) => Ok(v) case Err(fe) => Err(SingleIoError(Parse, target, FormatFailure(fe))))
  }

  function ParseFailure(raw: string, fe: FormatError): seq<Step<Value>>
  {
    [Err(SingleIoError(Parse, raw, FormatFailure(fe)))]
  }

  /** The kind a record stream resolves to: through the synchronous
      registry when there is one. */
  function RecordKind(e: AsyncIoEngine, c: Codecs, spec: AsyncInputSpec): Result<FormatKind, FormatError>
  {
    match e.syncRegistry
    case Some(r) => Resolve(r, c.enabled, spec.explicitFormat, spec.formatCandidates)
    case None => AsyncResolve(e.registry, c.enabled, spec.explicitFormat, spec.formatCandidates)
  }

  /** The records of one resolved input. */
  function RecordsOf(e: AsyncIoEngine, c: Codecs, raw: string, k: FormatKind, data: Bytes): (rs: seq<Step<Value>>)
    ensures forall i :: 0 <= i < |rs| && rs[i].Err? ==> rs[i].error.target == raw && rs[i].error.stage == Parse
    ensures !Streams(k) && !k.Custom? ==> |rs| == 1
    ensures Streams(k) && k in c.enabled ==> rs == ToSteps(raw, c.stream(k, data))
    ensures Streams(k) && k !in c.enabled ==> rs == ParseFailure(raw, NotEnabled(k))
    ensures e.syncRegistry.Some? && k.Custom? ==>
      var items := StreamDeserializeInto(e.syncRegistry.value, c, Some(k), [], data);
      rs == (if items.Ok? then ToSteps(raw, items.value) else ParseFailure(raw, items.error))
    ensures !Streams(k) && (e.syncRegistry.None? || !k.Custom?) ==>
      var d := Deserialize(c, k, data);
      rs == (if d.Ok? then [Ok(d.value)] else ParseFailure(raw, d.error))
  {
    if k == Json then
      if Json in c.enabled then ToSteps(raw, c.stream(Json, data)) else ParseFailure(raw, NotEnabled(Json))
    else if e.syncRegistry.Some? && k.Custom? then
      match StreamDeserializeInto(e.syncRegistry.value, c, Some(k), [], data)
      case Err(fe) => ParseFailure(raw, fe)
      case Ok(items) => ToSteps(raw, items)
    else if k == Csv || k == Yaml || k == Plaintext then
      if k in c.enabled then ToSteps(raw, c.stream(k, data)) else ParseFailure(raw, NotEnabled(k))
    else
      match Deserialize(c, k, data)
      case Ok(v) => [Ok(v)]
      case Err(fe) => ParseFailure(raw, fe)
  }

  /** `records_stream_for_spec_async`: the records of one input; a failure
      to open, read or resolve is a single error item, and resolution
      failures are filed at `Parse`. */
  function RecordsStreamForSpec(e: AsyncIoEngine, c: Codecs, env: Environment, spec: AsyncInputSpec)
    : (rs: seq<Step<Value>>)
    ensures !env.readAsync(spec.provider).Readable? ==> |rs| == 1 && rs[0].Err? && rs[0].error.stage == Open
    ensures forall i :: 0 <= i < |rs| && rs[i].Err? && rs[i].error.stage != Open ==> rs[i].error.stage == Parse
  {
    match env.readAsync(spec.provider)
    case OpenFailed(m) => [Err(SingleIoError(Open, spec.raw, IoFailure(m)))]
    case ReadFailed(m) => [Err(SingleIoError(Open, spec.raw, IoFailure(m)))]
    case Readable(data) =>
      match RecordKind(e, c, spec)
      case Err(fe) => ParseFailure(spec.raw, fe)
      case Ok(k) => RecordsOf(e, c, spec.raw, k, data)
  }

  // ------------------------------------------------------------- lemmas

  /** What each stage tag of a failed asynchronous read means. Without a
      synchronous registry the tags follow the steps; with one, the
      resolution-like errors of its dispatch are filed at `ResolveInput`. */
  lemma AsyncReadStages(e: AsyncIoEngine, c: Codecs, env: Environment, spec: AsyncInputSpec)
    ensures var r := AsyncReadOne(e, c, env, spec);
            var outcome := env.readAsync(spec.provider);
            && (r.Err? ==> r.error.target == spec.raw && r.error.stage in {Open, ResolveInput, Parse})
            && (r.Err? && r.error.stage == Open <==> !outcome.Readable?)
            && (e.syncRegistry.None? ==>
                  (r.Err? && r.error.stage == ResolveInput
                   <==> outcome.Readable? && AsyncResolve(e.registry, c.enabled, spec.explicitFormat,
                                                          spec.formatCandidates).Err?))
            && (e.syncRegistry.Some? && outcome.Readable? ==>
                  var d := DeserializeValue(e.syncRegistry.value, c, spec.explicitFormat, spec.formatCandidates,
                                            outcome.data);
                  (r.Ok? <==> d.Ok?) && (r.Ok? ==> r.value == d.value)
                  && (r.Err? ==> r.error.error == FormatFailure(d.error)
                                 && (r.error.stage == ResolveInput <==> IsResolutionError(d.error))))
  {
  }

  /** A synchronous registry lets the asynchronous engine decode with a
      registered custom format's own decoder. */
  lemma SyncRegistryDecodesCustom(e: AsyncIoEngine, c: Codecs, env: Environment, spec: AsyncInputSpec,
                                  cf: CustomFormats.CustomFormat, data: Bytes, v: Value)
    requires e.syncRegistry.Some? && env.readAsync(spec.provider) == Readable(data)
    requires Resolve(e.syncRegistry.value, c.enabled, spec.explicitFormat, spec.formatCandidates) == Ok(Custom(cf.name))
    requires GetCustom(e.syncRegistry.value, cf.name) == Some(cf)
    requires CustomFormats.Deserialize(cf, data) == Ok(v)
    ensures AsyncReadOne(e, c, env, spec) == Ok(v)
  {
  }

  /** Without a synchronous registry, the asynchronous engine agrees with
      the synchronous one on every input that can be read and resolves to
      a built-in kind; a custom kind fails at `Parse` in both, for want of
      a descriptor. They differ when the read fails and the format cannot
      be resolved, because the synchronous engine resolves before reading
      and the asynchronous one after. */
  lemma AsyncReadAgreesWithSync(se: Engines.IoEngine, ae: AsyncIoEngine, c: Codecs, env: Environment,
                                sspec: InputSpec, aspec: AsyncInputSpec)
    requires ae.syncRegistry.None? && se.registry == AsSync(ae.registry)
    requires sspec.raw == aspec.raw && sspec.explicitFormat == aspec.explicitFormat
    requires sspec.formatCandidates == aspec.formatCandidates
    requires ReadInput(env, sspec.provider) == env.readAsync(aspec.provider)
    ensures var k := AsyncResolve(ae.registry, c.enabled, aspec.explicitFormat, aspec.formatCandidates);
            env.readAsync(aspec.provider).Readable? && !(k.Ok? && k.value.Custom?) ==>
              Engines.ReadOne(se, c, env, sspec) == AsyncReadOne(ae, c, env, aspec)
    ensures var k := AsyncResolve(ae.registry, c.enabled, aspec.explicitFormat, aspec.formatCandidates);
            env.readAsync(aspec.provider).Readable? && k.Ok? && k.value.Custom? ==>
              Engines.ReadOne(se, c, env, sspec).Err? && Engines.ReadOne(se, c, env, sspec).error.stage == Parse
              && AsyncReadOne(ae, c, env, aspec).Err? && AsyncReadOne(ae, c, env, aspec).error.stage == Parse
    ensures env.readAsync(aspec.provider).ReadFailed?
            && AsyncResolve(ae.registry, c.enabled, aspec.explicitFormat, aspec.formatCandidates).Err? ==>
              Engines.ReadOne(se, c, env, sspec).error.stage == ResolveInput
              && AsyncReadOne(ae, c, env, aspec).error.stage == Open
  {
  }

  /** What each stage tag of a failed asynchronous write means, and that a
      target is opened only once the value is encoded. */
  lemma AsyncWriteStages(e: AsyncIoEngine, c: Codecs, env: Environment, spec: AsyncOutputSpec, payload: Value)
    ensures var w := AsyncWriteOne(e, c, env, spec, payload);
            var enc := Encode(e, c, spec, payload);
            var b := env.openAsync(spec.target, ModeFor(spec.fileExistsPolicy));
            && (w.result.Err? ==> w.result.error.target == spec.raw)
            && (enc.Err? ==> w.result == Err(enc.error) && w.effect.Untouched?)
            && (w.result.Err? && w.result.error.stage == Open <==> enc.Ok? && b.Refuses?)
            && (w.effect.Untouched? <==> enc.Err? || b.Refuses?)
            && (w.result.Ok? <==> enc.Ok? && b.Accepts?)
            && (w.result.Ok? ==> w.effect == Opened(ModeFor(spec.fileExistsPolicy), enc.value))
  {
  }

  /** The contrast with the synchronous engine: a value the codec cannot
      encode leaves an asynchronous target untouched, while the
      synchronous engine has already opened, and so truncated, it. */
  lemma EncodingFailureOrder(se: Engines.IoEngine, ae: AsyncIoEngine, c: Codecs, env: Environment,
                             sspec: OutputSpec, aspec: AsyncOutputSpec, payload: Value)
    requires ae.syncRegistry.None? && se.registry == AsSync(ae.registry)
    requires sspec.explicitFormat == aspec.explicitFormat && sspec.formatCandidates == aspec.formatCandidates
    requires sspec.target.MemoryOutput? && sspec.fileExistsPolicy == aspec.fileExistsPolicy
    requires AsyncResolve(ae.registry, c.enabled, aspec.explicitFormat, aspec.formatCandidates).Ok?
    requires FormatKinds.Serialize(c, AsyncResolve(ae.registry, c.enabled, aspec.explicitFormat,
                                                   aspec.formatCandidates).value, payload).Err?
    ensures AsyncWriteOne(ae, c, env, aspec, payload).effect.Untouched?
    ensures Engines.WriteOne(se, c, env, sspec, payload).effect == Opened(ModeFor(sspec.fileExistsPolicy), [])
  {
  }

  /** Every error item of a record stream names the input and is filed at
      `Open` or `Parse`; resolution failures too are `Parse` items. */
  lemma RecordErrorStages(e: AsyncIoEngine, c: Codecs, env: Environment, spec: AsyncInputSpec)
    ensures var rs := RecordsStreamForSpec(e, c, env, spec);
            forall i :: 0 <= i < |rs| && rs[i].Err? ==>
              rs[i].error.target == spec.raw && (rs[i].error.stage == Open || rs[i].error.stage == Parse)
  {
  }

  /** When opening, reading or resolving fails, the stream is that one
      error; failing to read gives the same error as `read_one`. */
  lemma RecordStreamFailsEarly(e: AsyncIoEngine, c: Codecs, env: Environment, spec: AsyncInputSpec)
    ensures !env.readAsync(spec.provider).Readable? ==>
              RecordsStreamForSpec(e, c, env, spec) == [AsyncReadOne(e, c, env, spec)]
    ensures env.readAsync(spec.provider).Readable? && RecordKind(e, c, spec).Err? ==>
              RecordsStreamForSpec(e, c, env, spec) == ParseFailure(spec.raw, RecordKind(e, c, spec).error)
  {
  }

  /** An input of a streaming kind whose feature is on yields the
      codec's items, each error tagged `Parse`. */
  lemma StreamingKindRecords(e: AsyncIoEngine, c: Codecs, env: Environment, spec: AsyncInputSpec, data: Bytes)
    requires env.readAsync(spec.provider) == Readable(data)
    requires RecordKind(e, c, spec).Ok? && Streams(RecordKind(e, c, spec).value)
    requires RecordKind(e, c, spec).value in c.enabled
    ensures RecordsStreamForSpec(e, c, env, spec) == ToSteps(spec.raw, c.stream(RecordKind(e, c, spec).value, data))
  {
  }

  /** With a synchronous registry, a custom kind's records are what the
      registry's `stream_deserialize_into` yields for that kind. */
  lemma SyncRegistryStreamsCustom(e: AsyncIoEngine, c: Codecs, env: Environment, spec: AsyncInputSpec, data: Bytes)
    requires e.syncRegistry.Some? && env.readAsync(spec.provider) == Readable(data)
    requires RecordKind(e, c, spec).Ok? && RecordKind(e, c, spec).value.Custom?
    ensures var items := StreamDeserializeInto(e.syncRegistry.value, c, Some(RecordKind(e, c, spec).value), [], data);
            RecordsStreamForSpec(e, c, env, spec)
            == if items.Ok? then ToSteps(spec.raw, items.value) else ParseFailure(spec.raw, items.error)
  {
  }

  /** A kind without a streaming decoder yields one record, the value
      `read_one` yields, whether or not the engine holds a synchronous
      registry (a custom kind under one has its own streaming rule). */
  lemma NonStreamingKindIsOneRecord(e: AsyncIoEngine, c: Codecs, env: Environment, spec: AsyncInputSpec, v: Value)
    requires RecordKind(e, c, spec).Ok? && !Streams(RecordKind(e, c, spec).value)
    requires e.syncRegistry.None? || !RecordKind(e, c, spec).value.Custom?
    ensures AsyncReadOne(e, c, env, spec) == Ok(v) <==> RecordsStreamForSpec(e, c, env, spec) == [Ok(v)]
  {
  }
}
