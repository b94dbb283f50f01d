// The synchronous engine (src/engine.rs): reads every input into a value
// and writes values to every output, under an error policy.
module Engines {
  import opened Wrappers
  import opened Values
  import opened FormatKinds
  import opened FormatRegistries
  import opened Errors
  import opened Collecting
  import opened Memory
  import opened Providers
  import opened Specs

  datatype IoEngine = IoEngine(
    registry: Registry,
    errorPolicy: ErrorPolicy,
    inputs: seq<InputSpec>,
    outputs: seq<OutputSpec>)

  // ------------------------------------------------------------ reading

  /** `read_one`: open the provider, resolve the format, then read and
      decode with the registry's decoder for the resolved kind (a custom
      kind with its descriptor); a read failure surfaces from the decoder,
      so at `Parse`. */
  function ReadOne(e: IoEngine, c: Codecs, env: Environment, spec: InputSpec): (r: Step<Value>)
    ensures r.Err? ==> r.error.target == spec.raw && r.error.stage in {Open, ResolveInput, Parse}
    ensures r.Ok? ==> ReadInput(env, spec.provider).Readable?
  {
    var outcome := ReadInput(env, spec.provider);
    if outcome.OpenFailed? then Err(SingleIoError(Open, spec.raw, IoFailure(outcome.message)))
    else
      match Resolve(e.registry, c.enabled, spec.explicitFormat, spec.formatCandidates)
      case Err(fe) => Err(SingleIoError(ResolveInput, spec.raw, FormatFailure(fe)))
      case Ok(k) =>
        if outcome.ReadFailed? then Err(SingleIoError(Parse, spec.raw, FormatFailure(Io(outcome.message))))
        else
          match DecodeAs(e.registry, c, k, outcome.data)
          case Err(fe) => Err(SingleIoError(Parse, spec.raw, FormatFailure(fe)))
          case Ok(v) => Ok(v)
  }

  /** `read_stream`: one `read_one` per input, in order. */
  function ReadStream(e: IoEngine, c: Codecs, env: Environment): (rs: seq<Step<Value>>)
    ensures |rs| == |e.inputs|
    ensures forall i :: 0 <= i < |rs| ==> rs[i] == ReadOne(e, c, env, e.inputs[i])
  {
    seq(|e.inputs|, i requires 0 <= i < |e.inputs| => ReadOne(e, c, env, e.inputs[i]))
  }

  /** `read_all`: the inputs in order, under the engine's error policy. */
  method ReadAll(e: IoEngine, c: Codecs, env: Environment) returns (r: Result<seq<Value>, AggregateError>)
    ensures r == Collect(e.errorPolicy, ReadStream(e, c, env))
  {
    ghost var rs := ReadStream(e, c, env);
    var results: seq<Value> := [];
    var errors: seq<SingleIoError> := [];
    for i := 0 to |e.inputs|
      invariant results == Collecting.Values(rs[..i]) && errors == Failures(rs[..i])
      invariant e.errorPolicy == FastFail ==> errors == []
    {
      PrefixStep(rs, i);
      match ReadOne(e, c, env, e.inputs[i])
      case Ok(v) =>
        results := results + [v];
      case Err(err) =>
        if e.errorPolicy == FastFail {
          StopAtFirstFailure(rs, i);
          assert errors + [err] == [rs[i].error];
          return Err(AggregateError(errors + [err]));
        }
        errors := errors + [err];
    }
    assert rs[..|e.inputs|] == rs;
    CollectAtEnd(e.errorPolicy, rs);
    if errors == [] {
      return Ok(results);
    }
    return Err(AggregateError(errors));
  }

  // ------------------------------------------------------------ writing

  /** `open_output`: the policy picks the mode; a refusal is an `Open`
      error. */
  function OpenOutput(env: Environment, spec: OutputSpec): (r: Result<OpenMode, SingleIoError>)
    ensures r.Ok? <==> !OpenTarget(env, spec.target, ModeFor(spec.fileExistsPolicy)).Refuses?
    ensures r.Ok? ==> r.value == ModeFor(spec.fileExistsPolicy)
    ensures r.Err? ==> r.error.stage == Open && r.error.target == spec.raw
  {
    var mode := ModeFor(spec.fileExistsPolicy);
    match OpenTarget(env, spec.target, mode)
    case Refuses(m) => Err(SingleIoError(Open, spec.raw, IoFailure(m)))
    case _ => Ok(mode)
  }

  /** The result of writing to one output, and what it did to it. */
  datatype WriteOutcome = WriteOutcome(result: Result<(), SingleIoError>, effect: Effect)

  /** `write_one` / `write_single`: resolve, open, then encode into the
      opened writer with the registry's encoder for the resolved kind. An
      encoding failure comes after the open, so a truncating open has
      already emptied the target. */
  function WriteOne(e: IoEngine, c: Codecs, env: Environment, spec: OutputSpec, payload: Value): (w: WriteOutcome)
    ensures w.result.Err? ==> w.result.error.target == spec.raw
                              && w.result.error.stage in {ResolveOutput, Open, Stage.Serialize}
    ensures w.result.Ok? ==> w.effect.Opened? && w.effect.mode == ModeFor(spec.fileExistsPolicy)
  {
    match Resolve(e.registry, c.enabled, spec.explicitFormat, spec.formatCandidates)
    case Err(fe) => WriteOutcome(Err(SingleIoError(ResolveOutput, spec.raw, FormatFailure(fe))), Untouched)
    case Ok(k) =>
      match OpenOutput(env, spec)
      case Err(err) => WriteOutcome(Err(err), Untouched)
      case Ok(mode) =>
        var behaviour := OpenTarget(env, spec.target, mode);
        match EncodeAs(e.registry, c, k, payload)
        case Err(fe) => WriteOutcome(Err(SingleIoError(Stage.Serialize, spec.raw, FormatFailure(fe))), Opened(mode, []))
        case Ok(bytes) =>
          if behaviour.FailsOnWrite? then
            WriteOutcome(Err(SingleIoError(Stage.Serialize, spec.raw, FormatFailure(Io(behaviour.message)))), Opened(mode, []))
          else WriteOutcome(Ok(()), Opened(mode, bytes))
  }

  function WriteOutcomes(e: IoEngine, c: Codecs, env: Environment, payload: Value): (ws: seq<WriteOutcome>)
    ensures |ws| == |e.outputs|
    ensures forall i :: 0 <= i < |ws| ==> ws[i] == WriteOne(e, c, env, e.outputs[i], payload)
  {
    seq(|e.outputs|, i requires 0 <= i < |e.outputs| => WriteOne(e, c, env, e.outputs[i], payload))
  }

  function Results(ws: seq<WriteOutcome>): (rs: seq<Step<()>>)
    ensures |rs| == |ws| && forall i :: 0 <= i < |ws| ==> rs[i] == ws[i].result
  {
    seq(|ws|, i requires 0 <= i < |ws| => ws[i].result)
  }

  /** The in-memory sinks among the outputs. */
  function Sinks(outputs: seq<OutputSpec>): set<InMemorySink>
  {
    set i | 0 <= i < |outputs| && outputs[i].target.MemoryOutput? :: outputs[i].target.sink
  }

  /** The effects, in order, of the writes that went to `s`. */
  function EffectsOn(s: InMemorySink, outputs: seq<OutputSpec>, ws: seq<WriteOutcome>): seq<Effect>
    requires |outputs| == |ws|
  {
    if |outputs| == 0 then []
    else
      var n := |outputs| - 1;
      EffectsOn(s, outputs[..n], ws[..n]) + (if outputs[n].target == MemoryOutput(s) then [ws[n].effect] else [])
  }

  /** Carries out one effect on a sink through its own handles. */
  method PerformEffect(sink: InMemorySink, eff: Effect)
    modifies sink
    ensures sink.buf == Apply(old(sink.buf), eff)
  {
    match eff
    case Untouched =>
    case Opened(mode, written) =>
      var h;
      if mode == Truncating {
        h := sink.OpenOverwrite();
      } else {
        h := sink.OpenAppend();
      }
      var _ := h.Write(written);
  }

  /** The effect of the `i`-th write on sink `s`. */
  function EffectOn(s: InMemorySink, spec: OutputSpec, w: WriteOutcome): Effect
  {
    if spec.target == MemoryOutput(s) then w.effect else Untouched
  }

  /** One more write extends each sink's history by its effect there. */
  lemma {:induction false} EffectsOnStep(contents: Bytes, s: InMemorySink, outputs: seq<OutputSpec>,
                                        ws: seq<WriteOutcome>, i: nat)
    requires |outputs| == |ws| && i < |outputs|
    ensures ApplyAll(contents, EffectsOn(s, outputs[..i + 1], ws[..i + 1]))
            == Apply(ApplyAll(contents, EffectsOn(s, outputs[..i], ws[..i])), EffectOn(s, outputs[i], ws[i]))
  {
    assert outputs[..i + 1][..i] == outputs[..i];
    assert ws[..i + 1][..i] == ws[..i];
    var es := EffectsOn(s, outputs[..i], ws[..i]);
    if outputs[i].target == MemoryOutput(s) {
      assert (es + [ws[i].effect])[..|es|] == es;
    } else {
      assert es + [] == es;
    }
  }

  /** Carries out the `i`-th write's effect on its target, when that is an
      in-memory sink. */
  method Deliver(outputs: seq<OutputSpec>, spec: OutputSpec, w: WriteOutcome)
    requires spec in outputs
    modifies Sinks(outputs)
    ensures forall s :: s in Sinks(outputs) ==> s.buf == Apply(old(s.buf), EffectOn(s, spec, w))
  {
    if spec.target.MemoryOutput? {
      assert spec.target.sink in Sinks(outputs);
      PerformEffect(spec.target.sink, w.effect);
    }
  }

  /** The loop shared by `write_all` and `write_one_value`, which differ
      only in what they encode. */
  method WriteToOutputs(e: IoEngine, c: Codecs, env: Environment, payload: Value)
    returns (r: Result<(), AggregateError>)
    modifies Sinks(e.outputs)
    ensures var ws := WriteOutcomes(e, c, env, payload);
            r == Discard(Collect(e.errorPolicy, Results(ws)))
    ensures var ws := WriteOutcomes(e, c, env, payload);
            var n := Attempted(e.errorPolicy, Results(ws));
            forall s :: s in Sinks(e.outputs) ==> s.buf == ApplyAll(old(s.buf), EffectsOn(s, e.outputs[..n], ws[..n]))
  {
    ghost var ws := WriteOutcomes(e, c, env, payload);
    ghost var rs := Results(ws);
    var errors: seq<SingleIoError> := [];
    for i := 0 to |e.outputs|
      invariant errors == Failures(rs[..i])
      invariant e.errorPolicy == FastFail ==> errors == []
      invariant forall s :: s in Sinks(e.outputs) ==> s.buf == ApplyAll(old(s.buf), EffectsOn(s, e.outputs[..i], ws[..i]))
    {
      PrefixStep(rs, i);
      var w := WriteOne(e, c, env, e.outputs[i], payload);
      assert w == ws[i] && w.result == rs[i];
      Deliver(e.outputs, e.outputs[i], w);
      forall s | s in Sinks(e.outputs)
        ensures s.buf == ApplyAll(old(s.buf), EffectsOn(s, e.outputs[..i + 1], ws[..i + 1]))
      {
        EffectsOnStep(old(s.buf), s, e.outputs, ws, i);
      }
      if w.result.Err? {
        if e.errorPolicy == FastFail {
          StopAtFirstFailure(rs, i);
          assert errors + [w.result.error] == [rs[i].error];
          return Err(AggregateError(errors + [w.result.error]));
        }
        errors := errors + [w.result.error];
      }
    }
    assert rs[..|e.outputs|] == rs;
    assert e.outputs[..|e.outputs|] == e.outputs && ws[..|ws|] == ws;
    CollectAtEnd(e.errorPolicy, rs);
    if errors == [] {
      return Ok(());
    }
    return Err(AggregateError(errors));
  }

  /** `write_all`: every output receives the whole sequence, encoded as one
      array. */
  method WriteAll(e: IoEngine, c: Codecs, env: Environment, values: seq<Value>)
    returns (r: Result<(), AggregateError>)
    modifies Sinks(e.outputs)
    ensures var ws := WriteOutcomes(e, c, env, Array(values));
            r == Discard(Collect(e.errorPolicy, Results(ws)))
    ensures var ws := WriteOutcomes(e, c, env, Array(values));
            var n := Attempted(e.errorPolicy, Results(ws));
            forall s :: s in Sinks(e.outputs) ==> s.buf == ApplyAll(old(s.buf), EffectsOn(s, e.outputs[..n], ws[..n]))
  {
    r := WriteToOutputs(e, c, env, Array(values));
  }

  /** `write_one_value`: every output receives the one value. */
  method WriteOneValue(e: IoEngine, c: Codecs, env: Environment, value: Value)
    returns (r: Result<(), AggregateError>)
    modifies Sinks(e.outputs)
    ensures var ws := WriteOutcomes(e, c, env, value);
            r == Discard(Collect(e.errorPolicy, Results(ws)))
    ensures var ws := WriteOutcomes(e, c, env, value);
            var n := Attempted(e.errorPolicy, Results(ws));
            forall s :: s in Sinks(e.outputs) ==> s.buf == ApplyAll(old(s.buf), EffectsOn(s, e.outputs[..n], ws[..n]))
  {
    r := WriteToOutputs(e, c, env, value);
  }

  // ------------------------------------------------------------- lemmas

  /** What each stage tag of a failed read means. Every failure names the
      input's raw argument. */
  lemma ReadOneStages(e: IoEngine, c: Codecs, env: Environment, spec: InputSpec)
    ensures var r := ReadOne(e, c, env, spec);
            var outcome := ReadInput(env, spec.provider);
            var res := Resolve(e.registry, c.enabled, spec.explicitFormat, spec.formatCandidates);
            && (r.Err? && r.error.stage == Open <==> outcome.OpenFailed?)
            && (r.Err? && r.error.stage == ResolveInput <==> !outcome.OpenFailed? && res.Err?)
            && (r.Err? && r.error.stage == ResolveInput ==> r.error.error == FormatFailure(res.error))
            && (outcome.ReadFailed? && res.Ok? ==> r == Err(SingleIoError(Parse, spec.raw, FormatFailure(Io(outcome.message)))))
  {
  }

  /** A readable input is decoded exactly as the registry's
      `deserialize_value` decodes its bytes: the value it gives, or its
      error at `Parse` when the format resolved. */
  lemma ReadOneDecodesAsRegistry(e: IoEngine, c: Codecs, env: Environment, spec: InputSpec)
    requires ReadInput(env, spec.provider).Readable?
    ensures var d := DeserializeValue(e.registry, c, spec.explicitFormat, spec.formatCandidates,
                                      ReadInput(env, spec.provider).data);
            var r := ReadOne(e, c, env, spec);
            && (r.Ok? <==> d.Ok?) && (r.Ok? ==> r.value == d.value)
            && (r.Err? ==> r.error.error == FormatFailure(d.error))
            && (Resolve(e.registry, c.enabled, spec.explicitFormat, spec.formatCandidates).Ok? && r.Err? ==>
                  r.error.stage == Parse)
  {
  }

  /** A registered custom format reads through its own decoder: with its
      descriptor the first under its name, an input naming its kind yields
      what the descriptor decodes. */
  lemma CustomKindReadsThroughDescriptor(e: IoEngine, c: Codecs, env: Environment, spec: InputSpec,
                                         i: nat, v: Value)
    requires ReadInput(env, spec.provider).Readable?
    requires i < |e.registry.customs| && FirstNamed(e.registry, e.registry.customs[i].name, i)
    requires HasFormat(e.registry, Custom(e.registry.customs[i].name))
    requires spec.explicitFormat == Some(Custom(e.registry.customs[i].name))
    requires CustomFormats.Deserialize(e.registry.customs[i], ReadInput(env, spec.provider).data) == Ok(v)
    ensures ReadOne(e, c, env, spec) == Ok(v)
  {
  }

  /** A registered custom format writes through its own encoder: an
      output naming its kind receives exactly the descriptor's bytes. */
  lemma CustomKindWritesThroughDescriptor(e: IoEngine, c: Codecs, env: Environment, spec: OutputSpec,
                                          i: nat, v: Value, bytes: Bytes)
    requires i < |e.registry.customs| && FirstNamed(e.registry, e.registry.customs[i].name, i)
    requires HasFormat(e.registry, Custom(e.registry.customs[i].name))
    requires spec.explicitFormat == Some(Custom(e.registry.customs[i].name))
    requires OpenTarget(env, spec.target, ModeFor(spec.fileExistsPolicy)).Accepts?
    requires CustomFormats.Serialize(e.registry.customs[i], v) == Ok(bytes)
    ensures WriteOne(e, c, env, spec, v) == WriteOutcome(Ok(()), Opened(ModeFor(spec.fileExistsPolicy), bytes))
  {
  }

  /** What each stage tag of a failed write means, and what the write did
      to its target: a resolution or open failure leaves it untouched; once
      opened, the target is opened in the policy's mode whether or not the
      encoding then succeeds. */
  lemma WriteOneStages(e: IoEngine, c: Codecs, env: Environment, spec: OutputSpec, payload: Value)
    ensures var w := WriteOne(e, c, env, spec, payload);
            var res := Resolve(e.registry, c.enabled, spec.explicitFormat, spec.formatCandidates);
            var mode := ModeFor(spec.fileExistsPolicy);
            var b := OpenTarget(env, spec.target, mode);
            var enc := SerializeValue(e.registry, c, spec.explicitFormat, spec.formatCandidates, payload);
            && (w.result.Err? && w.result.error.stage == ResolveOutput <==> res.Err?)
            && (w.result.Err? && w.result.error.stage == Open <==> res.Ok? && b.Refuses?)
            && (w.effect.Untouched? <==> res.Err? || b.Refuses?)
            && (w.effect.Opened? ==> w.effect.mode == mode)
            && (w.result.Ok? <==> res.Ok? && b.Accepts? && enc.Ok?)
            && (w.result.Ok? ==> w.effect.written == enc.value)
            && (w.result.Err? ==> w.effect.Untouched? || w.effect.written == [])
  {
  }

  /** A failed encoding into a truncating output still empties it: the
      output is opened before the value is encoded. */
  lemma FailedEncodingTruncates(e: IoEngine, c: Codecs, env: Environment, spec: OutputSpec, payload: Value,
                                before: Bytes)
    requires spec.target.MemoryOutput? && spec.fileExistsPolicy != Append
    requires Resolve(e.registry, c.enabled, spec.explicitFormat, spec.formatCandidates).Ok?
    requires SerializeValue(e.registry, c, spec.explicitFormat, spec.formatCandidates, payload).Err?
    ensures WriteOne(e, c, env, spec, payload).result.Err?
    ensures WriteOne(e, c, env, spec, payload).result.error.stage == Stage.Serialize
    ensures Apply(before, WriteOne(e, c, env, spec, payload).effect) == []
  {
  }

  /** Whether the registry's codec for a format choice gives `v` back from
      its own encoding. */
  predicate RoundTripsAt(r: Registry, c: Codecs, explicit: Option<FormatKind>, candidates: seq<FormatKind>, v: Value)
  {
    SerializeValue(r, c, explicit, candidates, v).Ok? ==>
      DeserializeValue(r, c, explicit, candidates, SerializeValue(r, c, explicit, candidates, v).value) == Ok(v)
  }

  /** Writing a value to an in-memory sink, overwriting it, and reading the
      sink's contents back with the same format choice yields the value,
      for any codec that round-trips it. */
  lemma {:induction false} WriteThenReadBack(e: IoEngine, c: Codecs, env: Environment, out: OutputSpec,
                                             input: InputSpec, v: Value, before: Bytes)
    requires out.target.MemoryOutput? && out.fileExistsPolicy != Append
    requires WriteOne(e, c, env, out, v).result.Ok?
    requires input.provider == MemoryInput(InMemorySource(out.target.sink.id,
                                                          Apply(before, WriteOne(e, c, env, out, v).effect)))
    requires input.explicitFormat == out.explicitFormat && input.formatCandidates == out.formatCandidates
    requires RoundTripsAt(e.registry, c, out.explicitFormat, out.formatCandidates, v)
    ensures ReadOne(e, c, env, input) == Ok(v)
  {
    WriteOneStages(e, c, env, out, v);
  }

  /** Reading succeeds exactly when every input reads, and then yields the
      inputs' values in order, under either policy. */
  lemma ReadAllMeaning(e: IoEngine, c: Codecs, env: Environment)
    ensures var r := Collect(e.errorPolicy, ReadStream(e, c, env));
            && (r.Ok? <==> forall i :: 0 <= i < |e.inputs| ==> ReadOne(e, c, env, e.inputs[i]).Ok?)
            && (r.Ok? ==> |r.value| == |e.inputs|
                          && forall i :: 0 <= i < |e.inputs| ==> r.value[i] == ReadOne(e, c, env, e.inputs[i]).value)
  {
    CollectOk(e.errorPolicy, ReadStream(e, c, env));
  }

  /** A sink that none of the attempted outputs targets keeps its contents;
      under fast-fail, outputs after the first failure are not attempted. */
  lemma {:induction false} UntargetedSinkUnchanged(s: InMemorySink, outputs: seq<OutputSpec>, ws: seq<WriteOutcome>,
                                                 n: nat, contents: Bytes)
    requires |outputs| == |ws| && n <= |outputs|
    requires forall j :: 0 <= j < n ==> outputs[j].target != MemoryOutput(s)
    ensures EffectsOn(s, outputs[..n], ws[..n]) == []
    ensures ApplyAll(contents, EffectsOn(s, outputs[..n], ws[..n])) == contents
  {
    if n > 0 {
      assert outputs[..n][..n - 1] == outputs[..n - 1];
      assert ws[..n][..n - 1] == ws[..n - 1];
      UntargetedSinkUnchanged(s, outputs, ws, n - 1, contents);
    }
  }
}
