# multiio, modelled in Dafny

This project models the core of `multiio`, a Rust crate that reads values
from several inputs and writes them to several outputs in many formats. The
model covers these parts of the crate:

- **Format vocabulary.** `FormatKind`, its case-insensitive name parser,
  its extension lists and whether it is available.
- **Registries.** The synchronous `FormatRegistry` and the
  `AsyncFormatRegistry`: registration in place, extension lookup,
  resolution by explicit format or candidate list, and dispatch to
  built-in codecs or to custom descriptors.
- **Custom descriptors.** `CustomFormat`, with optional decode, encode and
  stream functions.
- **Endpoint settings.** Input and output specifications (synchronous and
  asynchronous), the file-exists policy and the pipeline configuration.
- **Errors.** The error policy (fast-fail or accumulate), the stage tags,
  and the single and aggregate errors with their display text.
- **Command line.** The argument helpers of `src/cli/mod.rs`.
- **Builders.** Both builders: token classification (`@path`, `-`/`stdin`,
  `=inline`, `stdout`/`stderr`), the resolution loops, `build` and
  `from_pipeline_config`.
- **Engines.** Both engines: `read_all`, `read_stream`, `write_all` and
  `write_one_value` under either error policy, with a stage tag for every
  failure and the asynchronous per-input record stream.
- **In-memory I/O.** `InMemorySource` and `InMemorySink`, whose byte buffer
  is a class field changed in place by its write handles.
- **Two formats.** The CSV format at the level of records, and the
  Markdown format's fenced-code-block extraction.
- **README sync.** The features-table part of `scripts/sync_readme.py`:
  collecting feature keys from the manifest, rendering the table, and
  splicing the table into the README.

## How the model is built

**Value.** Values are a JSON-like `Value` datatype, which stands for
`serde_json::Value`.

**Codecs.** The serde codecs are parameters. `FormatKinds.Codecs` holds:

- the set of kinds whose cargo feature is compiled in;
- a decode, an encode and a streaming function for the built-in kinds.

Custom descriptors carry their own optional functions.

**The outside world.** `Providers.Environment` is a parameter. It says what
opening and reading each file or standard stream yields, and whether each
target can be opened. In-memory sources and sinks are modelled directly.

**Error policy.** The fast-fail and accumulate rule is defined once, as
`Collecting.Collect`. Every resolution, read and write loop is a method whose
`ensures` ties its result to `Collect` over the per-endpoint outcomes. The
lemmas in `collect.dfy` state what that means:

- the first error alone, with nothing after it attempted;
- or every error, in endpoint order.

**Where the code and the documentation disagree, the model follows the code.**

- The synchronous `read_one` tags a resolution failure `ResolveInput`
  (src/engine.rs:97-104). The crate's own test at
  src/tests/builder/pipeline_e2e.rs:199 expects `Parse`.
- The CSV writer skips array elements that are not objects
  (src/format/csv.rs:55-67). src/tests/format/csv_tests.rs:52-57 expects an
  error.
- The synchronous engine calls `FormatKind::deserialize` and
  `FormatKind::serialize` on the resolved kind (src/engine.rs:107, 182 and
  209). src/format/mod.rs defines no such methods, only the free functions
  `deserialize(kind, bytes)` and `serialize(kind, value)` at
  src/format/mod.rs:186 and 212, which refuse custom kinds. The crate's tests
  (src/tests/engine/business_tests.rs:127-162) expect a custom kind to read
  and write through its descriptor. The model gives the synchronous engine
  the registry's own dispatch, `deserialize_value` and `serialize_value`
  (src/format/mod.rs:421-465), applied to the kind already resolved.
- `FileExistsPolicy::Error` opens like `Overwrite` (src/engine.rs:225-229
  and src/engine_async.rs:385-389).

## Model

| member | source | states |
|---|---|---|
| Seqs.IndexWhere | src/format/mod.rs:368-383 | The early-return search loop returns exactly the first index whose element satisfies the predicate, or none when no element does. |
| Seqs.FirstIndex | src/format/mod.rs:368-376 | The first index whose element satisfies the predicate, with none before it satisfied, or none at all. |
| Seqs.FindFirst | src/format/mod.rs:359-361 | `Iterator::find` gives an element exactly when one satisfies the predicate, and it is the one at the first such index. |
| Values.Keys | src/format/csv.rs:47-53 | An object's keys, one per entry, in entry order. |
| Values.Insert | src/format/csv.rs:20-34 | Inserting a present key keeps the keys and their order. Inserting a new key appends the pair. The pair is in the result either way. |
| Text.AsciiLower | src/format/mod.rs:78 | Lower-casing keeps the length and maps each character by ASCII case folding. |
| Text.AsciiLowerIdempotent | src/format/mod.rs:78 | Lower-casing twice is lower-casing once. |
| Text.AnyEqIgnoreCaseMeaning | src/format/custom.rs:131-136 | Some listed string equals `x` ignoring ASCII case exactly when some listed string lower-cases to what `x` lower-cases to. |
| Text.AnyEqIgnoreCaseLower | src/format/mod.rs:369-372 | For lists and keys already in lower case, case-insensitive membership is plain membership. |
| Text.TrimStart | src/builder.rs:154 | The result is a suffix of the input. Everything cut off is white space, and the result does not start with white space. |
| Text.TrimEnd | src/format/markdown.rs:90-93 | The result is a prefix of the input. Everything cut off is white space, and the result does not end with white space. |
| Text.Trim | src/builder.rs:154 | The result neither starts nor ends with white space. |
| Text.TrimIsSlice | src/builder.rs:154 | `trim` is the slice that `trim_start` leaves, with its trailing white space removed. |
| Text.Find | src/format/markdown.rs:79 | `str::find` gives the first position where the pattern occurs, or none when it occurs nowhere. |
| Text.LastIndexOf | src/cli/mod.rs:137-142 | The last position holding the character, or none when it does not occur. |
| Text.NatToString | src/error/mod.rs:77-79 | A count prints as a non-empty run of decimal digits. |
| Text.DecimalRoundTrip | src/error/mod.rs:77-79 | Reading back the printed count gives the count. |
| Text.Hex | src/builder.rs:192-194 | `{:016x}` gives exactly the width asked for, in lower-case hexadecimal digits. |
| Text.EncodeChar | src/io/memory.rs:25-27 | A character's UTF-8 encoding has one to four bytes, and one byte exactly when it is ASCII. |
| Text.Utf8 | src/io/memory.rs:25-27 | At least one byte per character, and exactly one per character for ASCII text. |
| Text.Utf8Concat | src/io/memory.rs:25-27 | Encoding a concatenation concatenates the encodings. |
| Paths.FileName | src/cli/mod.rs:137-142 | The file name is a suffix of the path. |
| Paths.NameExtension | src/builder.rs:304-310 | An extension has no dot and follows the last dot of a name that has more than the dot. |
| Paths.FileNameAfterSlash | src/cli/mod.rs:137-142 | The file name is what follows the last `/`. |
| Paths.NameExtensionOf | src/builder.rs:304-310 | `stem.ext` has extension `ext` when the stem is not empty. |
| Paths.ExtensionOf | src/cli/mod.rs:137-142 | `dir/stem.ext` has extension `ext`. |
| Memory.SourceFromString | src/io/memory.rs:25-27 | A source made from a string keeps its identifier and holds at least one byte per character, exactly one for ASCII text. |
| Memory.InMemorySink.constructor | src/io/memory.rs:50-55 | A new sink has the given identifier and an empty buffer. |
| Memory.InMemorySink.Contents | src/io/memory.rs:58-60 | The contents are the buffer, which is left unchanged. |
| Memory.InMemorySink.Clear | src/io/memory.rs:75-77 | Clearing empties the buffer. |
| Memory.InMemorySink.OpenOverwrite | src/io/memory.rs:85-91 | Opening to overwrite empties the buffer and gives a fresh handle on this sink. |
| Memory.InMemorySink.OpenAppend | src/io/memory.rs:93-97 | Opening to append leaves the buffer alone and gives a fresh handle on this sink. |
| Memory.InMemoryWriteHandle.Write | src/io/memory.rs:111-116 | A write appends the data to the shared buffer and reports the data's length. |
| Memory.OverwriteThenAppend | src/io/memory.rs:85-116 | Overwriting with any bytes a and then appending any bytes b leaves the sink holding a followed by b, and each write reports its own length. |
| Providers.ReadInput | src/io/memory.rs:35-38 | Every open of an in-memory source reads all of its original data. |
| Providers.OpenTarget | src/io/memory.rs:85-97 | An in-memory sink always accepts an open, in either mode. |
| Providers.Apply | src/io/std_io.rs:162-171 | An untouched target keeps its bytes. A truncating open leaves only what was written; an appending one adds it at the end. |
| Providers.AppendsKeepPrefix | src/io/std_io.rs:171 | Under appends only, the earlier contents stay a prefix of the final contents. |
| Providers.TruncateForgets | src/io/std_io.rs:162-166 | Once any write truncates, the final contents do not depend on what the target held before. |
| FormatKinds.Extensions | src/format/mod.rs:105-115 | A kind has no extensions exactly when it is a custom kind. |
| FormatKinds.Name | src/format/mod.rs:50-62 | A custom kind displays as its own name. A built-in kind displays as a lower-case name of at least three letters. |
| FormatKinds.ParseFormat | src/format/mod.rs:74-99 | The result is a custom kind exactly when the lower-cased name starts with `custom:`, and then its name is the rest of the lower-cased text. |
| FormatKinds.IsAvailable | src/format/mod.rs:118-153 | A built-in kind is available exactly when its feature is compiled in. A custom kind always is. |
| FormatKinds.Deserialize | src/format/mod.rs:186-209 | A built-in, enabled kind decodes with its codec. A custom or disabled kind is `NotEnabled`. |
| FormatKinds.Serialize | src/format/mod.rs:212-235 | A built-in, enabled kind encodes with its codec. A custom or disabled kind is `NotEnabled`. |
| FormatKinds.ParseIgnoresCase | src/format/mod.rs:77-98 | Parsing a name gives the same result as parsing its lower-case form. |
| FormatKinds.ParseName | src/format/mod.rs:50-62 | Parsing a built-in kind's display name gives that kind back. |
| FormatKinds.ParseCustomName | src/format/mod.rs:79-86 | `custom:` followed by any name parses as the custom kind of the lower-cased name. |
| FormatKinds.BareCustomName | src/format/mod.rs:50-62 | A custom kind's display name parses back to that kind only when the name itself starts with `custom:`. |
| FormatKinds.ExtensionsLower | src/format/mod.rs:105-115 | Every listed extension is already lower case. |
| FormatKinds.ExtensionsAreNames | src/format/mod.rs:88-115 | Every extension of a kind parses as that kind. |
| FormatKinds.ParseAccepts | src/format/mod.rs:88-96 | Apart from the `custom:` prefix, exactly the ten names and aliases parse, and never to a custom kind. |
| CustomFormats.New | src/format/custom.rs:70-77 | A new descriptor keeps its name and extensions and has no decode, encode or stream function. |
| CustomFormats.DeserializeAs | src/format/custom.rs:98-111 | Without a decoder the result is the "does not support deserialization" error. It succeeds only when the decoder succeeds. |
| CustomFormats.SerializeFrom | src/format/custom.rs:114-128 | Without an encoder the result is the "does not support serialization" error. It succeeds only when the value converts. |
| CustomFormats.NewSupportsNothing | src/format/custom.rs:98-128 | A new descriptor refuses both directions with the messages that name it. |
| CustomFormats.WithDeserialize | src/format/custom.rs:80-86 | The decoder is installed. The name, extensions, encoder and streaming decoder are kept. |
| CustomFormats.WithSerialize | src/format/custom.rs:89-95 | The encoder is installed. The name, extensions, decoder and streaming decoder are kept. |
| CustomFormats.SettersAreIndependent | src/format/custom.rs:80-95 | Each setter installs its own function and leaves the other direction unchanged. |
| CustomFormats.RoundTrip | src/format/custom.rs:109-127 | If the encoder and decoder are mutually inverse, and so are the serde conversions, decoding an encoded value gives it back. |
| CustomFormats.MatchesExtensionMeaning | src/format/custom.rs:131-136 | A descriptor matches an extension exactly when one of its extensions is equal to it ignoring case. |
| FormatRegistries.GetCustom | src/format/mod.rs:359-361 | A descriptor is found exactly when one has the name, and the one found is a registered descriptor with that name. |
| FormatRegistries.WithFormat | src/format/mod.rs:306-318 | The kind is registered afterwards, every kind registered before still is, at most one kind is added, and the descriptors are untouched. |
| FormatRegistries.WithCustomFormat | src/format/mod.rs:338-351 | The descriptor's kind is registered afterwards, at most one kind is added, and the descriptor is appended to the descriptor list. |
| FormatRegistries.KindForExtension | src/format/mod.rs:364-386 | A built-in kind found is registered. A custom kind found has a descriptor of that name that claims the extension. |
| FormatRegistries.DecodeAs | src/format/mod.rs:429-438 | A built-in kind decodes with the built-in codec. A custom kind decodes with the first descriptor of its name, and is `UnknownFormat` when there is none. |
| FormatRegistries.EncodeAs | src/format/mod.rs:452-461 | A built-in kind encodes with the built-in codec. A custom kind encodes with the first descriptor of its name, and is `UnknownFormat` when there is none. |
| FormatRegistries.DeserializeValue | src/format/mod.rs:421-442 | A resolution failure is returned as it is. A resolved built-in kind decodes with its codec. A resolved custom kind decodes with the first descriptor of its name, or is `UnknownFormat` without one. |
| FormatRegistries.SerializeValue | src/format/mod.rs:444-465 | A resolution failure is returned as it is. A resolved built-in kind encodes with its codec. A resolved custom kind encodes with the first descriptor of its name, or is `UnknownFormat` without one. |
| FormatRegistries.FirstNamedIsFound | src/format/mod.rs:359-361 | `get_custom` finds nothing exactly when no descriptor has the name, and otherwise the first descriptor that has it. |
| FormatRegistries.StreamDeserializeInto | src/format/mod.rs:469-556 | A resolution failure is returned as it is. Only a streaming or custom kind can give other than one item. A JSON, CSV, YAML or plaintext kind gives the codec's stream when its feature is on, and `NotEnabled` otherwise. A custom kind without a descriptor gives `UnknownFormat`. A custom kind with a descriptor gives that first descriptor's streaming decoder when it has one, and its one decoded item otherwise. Any other built-in kind gives exactly its whole-buffer decode. |
| FormatRegistries.RegisteredCustomStreams | src/format/mod.rs:528-548 | After a descriptor is registered under a fresh name, streaming that kind uses the descriptor's streaming decoder when it has one, and otherwise yields its one decoded item. |
| FormatRegistries.Resolve | src/format/mod.rs:389-406 | An explicit kind is tried alone: ok if and only if it is registered and available, else `UnknownFormat` of that kind. Without one, the first candidate that is registered and available is chosen; if none is, `NoFormatMatched`. |
| FormatRegistries.WithFormatKeepsSet | src/format/mod.rs:306-316 | Registering keeps the kinds distinct and the old order as a prefix, adds exactly the new kind, is idempotent, and leaves the descriptors alone. |
| FormatRegistries.WithCustomFormatKeepsAll | src/format/mod.rs:338-351 | Registering a descriptor makes its kind registered at most once, always appends the descriptor, and makes the name findable. |
| FormatRegistries.GetCustomFirstWins | src/format/mod.rs:338-361 | A later descriptor with an already-registered name is never found; the first one wins. |
| FormatRegistries.ResolveExplicitIgnoresCandidates | src/format/mod.rs:394-398 | With an explicit kind, the candidate list makes no difference. |
| FormatRegistries.ResolveRegistered | src/format/mod.rs:389-406 | A usable kind resolves when it is given explicitly, and when it is the first candidate. |
| FormatRegistries.KindClaimsMeaning | src/format/mod.rs:369-372 | A kind claims a lower-cased extension exactly when the extension is in its list. |
| FormatRegistries.KindForExtensionMeaning | src/format/mod.rs:364-386 | Registered kinds are searched first, in order, and the first that lists the extension wins. Descriptors are asked only when no kind does. A custom kind is found only when no kind lists the extension. |
| FormatRegistries.KindForExtensionIgnoresCase | src/format/mod.rs:364-386 | Extensions that differ only in case find the same kind. |
| FormatRegistries.DeserializeRegisteredCustom | src/format/mod.rs:421-462 | A custom kind asked for explicitly decodes any bytes with, and encodes any value with, the descriptor that registered it. |
| FormatRegistries.CustomKindWithoutDescriptor | src/format/mod.rs:427-434 | A custom kind registered without a descriptor resolves, but decoding and encoding it give `UnknownFormat`. |
| FormatRegistries.StreamFallback | src/format/mod.rs:528-556 | A kind with no streaming decoder streams exactly one item, the whole-buffer decode. |
| FormatRegistries.ResolveFailurePropagates | src/format/mod.rs:421-478 | A resolution failure is what decoding, encoding and streaming all return, and it is `UnknownFormat` or `NoFormatMatched`. |
| FormatRegistries.DefaultKindsMeaning | src/format/mod.rs:561-583 | The default registry holds each enabled built-in kind once and nothing else. |
| FormatRegistries.FormatRegistry.constructor | src/format/mod.rs:298-303 | A new registry has no kinds and no descriptors. |
| FormatRegistries.FormatRegistry.Register | src/format/mod.rs:306-310 | Registering updates the kind list in place, as `WithFormat` describes. |
| FormatRegistries.FormatRegistry.RegisterCustom | src/format/mod.rs:338-345 | Registering a descriptor updates both lists in place, as `WithCustomFormat` describes. |
| FormatRegistries.FormatRegistry.FindKindForExtension | src/format/mod.rs:364-386 | The two search loops return what `KindForExtension` describes. |
| FormatRegistries.FormatRegistry.ResolveKind | src/format/mod.rs:389-406 | The resolution loop returns what `Resolve` describes. |
| FormatRegistries.DefaultRegistry | src/format/mod.rs:561-583 | A fresh registry holding the enabled built-in kinds in their fixed order. |
| FormatRegistries.RegisterEnabled | src/format/mod.rs:564-580 | A feature-gated registration appends the kind exactly when it is enabled. |
| AsyncFormats.MirrorsSync | src/format/async_format.rs:71-101 | The async registry registers and looks up extensions as a sync registry with the same kinds and no descriptors. |
| AsyncFormats.AsyncExtensionsAreBuiltIn | src/format/async_format.rs:89-101 | An extension only ever finds a registered built-in kind that lists it, never a custom kind. |
| AsyncFormats.AsyncKindForExtension | src/format/async_format.rs:89-101 | A kind found is a registered built-in kind. |
| AsyncFormats.AsyncKindForExtensionFinds | src/format/async_format.rs:89-101 | When some registered kind lists the lower-cased extension, a kind is found. |
| AsyncFormats.AsyncResolve | src/format/async_format.rs:104-121 | A kind chosen is registered and available. An explicit kind succeeds exactly when it is registered and available, and is then the kind chosen. |
| AsyncFormats.AsyncFormatRegistry.constructor | src/format/async_format.rs:64-68 | A new async registry is empty. |
| AsyncFormats.AsyncFormatRegistry.Register | src/format/async_format.rs:71-75 | Registering appends an absent kind in place and is idempotent. |
| AsyncFormats.AsyncFormatRegistry.FindKindForExtension | src/format/async_format.rs:89-101 | The search loop returns what `AsyncKindForExtension` describes. |
| AsyncFormats.AsyncFormatRegistry.ResolveKind | src/format/async_format.rs:104-121 | The resolution loop follows the same rule as the sync registry's. |
| AsyncFormats.DefaultAsyncRegistry | src/format/async_format.rs:130-152 | A fresh async registry holding the enabled built-ins, in the same order as the sync default. |
| AsyncFormats.AsyncRegisterEnabled | src/format/async_format.rs:133-149 | A feature-gated registration appends the kind exactly when it is enabled. |
| Specs.ParseFileExistsPolicy | src/config/spec.rs:22-29 | A policy parses exactly from `overwrite`, `append` or `error` in any case, and to the one of that name. |
| Specs.PolicyNameRoundTrip | src/config/spec.rs:22-29 | Any spelling of a policy's name, in any case, parses to that policy. |
| Specs.ModeFor | src/engine.rs:222-230 | Only `Append` opens in append mode; `Overwrite` and `Error` both truncate. |
| Specs.NewInputSpec | src/config/spec.rs:47-54 | A new input spec has no explicit format and no candidates. |
| Specs.InputWithFormat | src/config/spec.rs:57-60 | Sets the explicit format and nothing else. |
| Specs.InputWithCandidates | src/config/spec.rs:63-66 | Replaces the candidate list wholesale and nothing else. |
| Specs.InputSettersCommute | src/config/spec.rs:57-66 | The input setters commute, and a later format replaces an earlier one. |
| Specs.NewOutputSpec | src/config/spec.rs:86-94 | A new output spec has no explicit format, no candidates and the default policy, which is `Error`. |
| Specs.OutputWithFormat | src/config/spec.rs:97-100 | Sets the explicit format and nothing else. |
| Specs.OutputWithCandidates | src/config/spec.rs:103-106 | Replaces the candidate list and nothing else. |
| Specs.OutputWithFileExistsPolicy | src/config/spec.rs:109-112 | Sets the policy and nothing else. |
| Specs.OutputSettersCommute | src/config/spec.rs:97-112 | The output setters commute, and a later policy replaces an earlier one. |
| AsyncSpecs.NewAsyncInputSpec | src/config/async_spec.rs:21-28 | A new async input spec has no explicit format and no candidates. |
| AsyncSpecs.AsyncInputWithFormat | src/config/async_spec.rs:31-34 | Sets the explicit format and nothing else. |
| AsyncSpecs.AsyncInputWithCandidates | src/config/async_spec.rs:37-40 | Replaces the candidate list and nothing else. |
| AsyncSpecs.NewAsyncOutputSpec | src/config/async_spec.rs:58-66 | A new async output spec has the default policy `Error`. |
| AsyncSpecs.AsyncOutputWithFormat | src/config/async_spec.rs:69-72 | Sets the explicit format and nothing else. |
| AsyncSpecs.AsyncOutputWithCandidates | src/config/async_spec.rs:75-78 | Replaces the candidate list and nothing else. |
| AsyncSpecs.AsyncOutputWithFileExistsPolicy | src/config/async_spec.rs:81-84 | Sets the policy and nothing else. |
| AsyncSpecs.AsyncOutputMatchesSync | src/config/async_spec.rs:58-84 | An async output spec built by the same calls as a sync one agrees with it field by field. |
| Pipelines.NewPipelineConfig | src/config/pipeline.rs:58-73 | A new configuration has no inputs, no outputs, no policy and no order. |
| Pipelines.AddInput | src/config/pipeline.rs:76-79 | Appends one input at the end and changes nothing else. |
| Pipelines.AddOutput | src/config/pipeline.rs:82-85 | Appends one output at the end and changes nothing else. |
| Pipelines.WithErrorPolicy | src/config/pipeline.rs:88-91 | Sets the policy name and changes nothing else. |
| Pipelines.WithFormatOrder | src/config/pipeline.rs:94-97 | Sets the format order and changes nothing else. |
| Pipelines.AddsKeepOrder | src/config/pipeline.rs:76-85 | Interleaved additions keep the inputs and the outputs each in the order they were added. |
| Errors.SingleIsOne | src/error/mod.rs:87-108 | `single` and `From` give an aggregate of length one, not empty, holding that error. |
| Errors.StageName | src/error/mod.rs:32-43 | A stage's name is non-empty and holds neither `]` nor a line break. |
| Errors.SingleText | src/error/mod.rs:54-59 | The text is the stage's name in brackets, followed by the target and the cause. |
| Errors.SingleTextShowsStage | src/error/mod.rs:54-59 | Two errors with the same text have the same stage. |
| Errors.NumberedLine | src/error/mod.rs:79 | An error's line is non-empty and ends in a line break. |
| Errors.AggregateText | src/error/mod.rs:75-82 | The text starts with the count header. With no errors it is the header alone. |
| Errors.AggregateTextLineByLine | src/error/mod.rs:75-82 | The i-th error's numbered line starts right after the i-th line break of the text and is line i+2 of it, when no error's text contains a line break. |
| Errors.AggregateTextLines | src/error/mod.rs:75-82 | The display text starts with the count header and has one line break more than there are errors, when no error's own text contains a line break. |
| Collecting.FirstFailure | src/engine.rs:68-72 | The first failing step, with every step before it a success, or none when every step succeeds. |
| Collecting.FailuresNoneIffAllOk | src/engine.rs:77-81 | There are no errors exactly when every step succeeded, and then there is one value per step, in order. |
| Collecting.FailuresCount | src/engine.rs:58-82 | Each step is either a value or an error. |
| Collecting.StopAtFirstFailure | src/engine.rs:68-72 | Under fast-fail, an error with only successes before it is the single error reported, and it is the last step attempted. |
| Collecting.FailuresAreTheErrors | src/engine.rs:77-81 | The error list holds exactly the steps' errors. |
| Collecting.CollectOk | src/engine.rs:58-82 | Under either policy the loop succeeds exactly when every step did, and then yields every value in order. |
| Collecting.FastFailReportsFirst | src/engine.rs:68-72 | Under fast-fail, a failure reports the first error alone, and nothing after it is attempted. |
| Collecting.AccumulateReportsAll | src/engine.rs:77-81 | Under accumulate, a failure reports every error in order, and every step is attempted. |
| Collecting.FastFailIgnoresRest | src/engine.rs:68-72 | Under fast-fail, what comes after the first failure does not affect the result. |
| Engines.ReadStream | src/engine.rs:242-247 | One result per input, in order, each being that input's `read_one`. |
| Engines.ReadAll | src/engine.rs:58-82 | The reading loop gives what the error policy makes of the inputs' `read_one` results. |
| Engines.ReadAllMeaning | src/engine.rs:58-82 | Reading succeeds exactly when every input reads, and then yields each input's value in order. |
| Engines.ReadOne | src/engine.rs:85-115 | A failure names the input and is `Open`, `ResolveInput` or `Parse`. A success means the input was read. |
| Engines.ReadOneDecodesAsRegistry | src/engine.rs:95-115 | Once the input is read, the result is what the registry's `deserialize_value` gives on its bytes, and a failure after resolution is `Parse`. |
| Engines.CustomKindReadsThroughDescriptor | src/engine.rs:95-115 | An input asked to be read as a registered custom kind gives whatever that kind's first descriptor decodes. |
| Engines.CustomKindWritesThroughDescriptor | src/engine.rs:164-215 | An output asked to be written as a registered custom kind receives whatever that kind's first descriptor encodes. |
| Engines.ReadOneStages | src/engine.rs:85-115 | A failure is `Open` exactly when the provider cannot be opened, and `ResolveInput`, holding the resolution error, exactly when it opened but resolution fails. A read failure after resolution is a `Parse` I/O error. The read succeeds exactly when it was read, resolved and decoded, with the decoded value. |
| Engines.OpenOutput | src/engine.rs:218-237 | The policy's mode is used, and a refused open is an `Open` error naming the output. |
| Engines.WriteOne | src/engine.rs:164-215 | A failure names the output and is `ResolveOutput`, `Open` or `Serialize`. A success means the target was opened in the policy's mode. |
| Engines.WriteOneStages | src/engine.rs:164-215 | Resolution first, with nothing opened on failure, then open, then the registry's encoding: each failure carries its stage tag. A target once opened has been truncated or appended to even if encoding then fails. |
| Engines.FailedEncodingTruncates | src/engine.rs:179-187 | A value that fails to encode still leaves a truncated in-memory output empty. |
| Engines.WriteOutcomes | src/engine.rs:118-138 | One outcome per output, in order, each being that output's `write_one`. |
| Engines.WriteToOutputs | src/engine.rs:118-161 | The writing loop returns what the policy makes of the outputs' results. Each in-memory sink ends up with the effects of the attempted writes that targeted it, in order. |
| Engines.WriteAll | src/engine.rs:118-138 | Every output receives the whole sequence as one encoded array, under the error policy. |
| Engines.WriteOneValue | src/engine.rs:141-161 | Every output receives the one value, under the error policy. |
| Engines.PerformEffect | src/io/memory.rs:85-116 | Opening and writing through the sink's own handles changes its buffer as the effect describes. |
| Engines.Deliver | src/engine.rs:128-135 | One write changes only the sink it targeted, by its effect. |
| Engines.WriteThenReadBack | src/engine.rs:85-215 | A value written to an in-memory sink and read back from its bytes, in formats whose codec round-trips, is the value. |
| Engines.UntargetedSinkUnchanged | src/engine.rs:118-138 | A sink that no attempted output targets keeps its contents. |
| AsyncEngines.NewAsyncEngine | src/engine_async.rs:22-35 | The engine has the given registry, policy and specs, and no sync registry. |
| AsyncEngines.NewWithSyncRegistry | src/engine_async.rs:42-56 | The engine also holds the sync registry. |
| AsyncEngines.DecodeRead | src/engine_async.rs:167-212 | A failure names the input and is `ResolveInput` or `Parse`. With a sync registry, success and value are those of its `deserialize_value`. Without one, success needs the async registry to resolve. |
| AsyncEngines.AsyncReadOne | src/engine_async.rs:141-213 | A failure names the input and is `Open`, `ResolveInput` or `Parse`. A success means the input was opened and read to the end. |
| AsyncEngines.ReadOneWithBuffer | src/engine_async.rs:141-213 | The result is the single read `AsyncReadOne`, whatever the reused buffer held before. A failed open leaves the buffer alone; otherwise it holds what was read, modelled as empty after a failed read. |
| AsyncEngines.AsyncReadSteps | src/engine_async.rs:79-104 | One read per input, in order. |
| AsyncEngines.AsyncReadAll | src/engine_async.rs:79-104 | The reading loop, through one reused buffer, gives what the error policy makes of the inputs' reads. |
| AsyncEngines.AsyncReadStages | src/engine_async.rs:133-213 | Open and read-to-end failures are both `Open`. With a sync registry, its resolution errors are `ResolveInput` and other decode errors are `Parse`. |
| AsyncEngines.SyncRegistryDecodesCustom | src/engine_async.rs:178-183 | With a sync registry, a custom kind decodes with its descriptor. |
| AsyncEngines.AsyncReadAgreesWithSync | src/engine_async.rs:150-213 | Without a sync registry, an async read that resolves to a built-in kind gives the sync read's result; one that resolves to a custom kind fails at `Parse` where the sync read delegates to the descriptor. A read-to-end failure is still `Open` even when resolution would fail. |
| AsyncEngines.AsyncOpenOutput | src/engine_async.rs:381-396 | The same modes as the sync engine, and a refused open is an `Open` error. |
| AsyncEngines.Encode | src/engine_async.rs:262-302 | A failure names the output and is `ResolveOutput` or `Serialize`. With a sync registry, success and bytes are those of its `serialize_value`. Without one, success needs the async registry to resolve. |
| AsyncEngines.AsyncWriteOne | src/engine_async.rs:262-316 | A failure names the output and is `ResolveOutput`, `Open` or `Serialize`. A target is opened only after encoding succeeded, and in the policy's mode. |
| AsyncEngines.AsyncWriteSteps | src/engine_async.rs:216-259 | One write per output, in order. |
| AsyncEngines.AsyncWriteToOutputs | src/engine_async.rs:216-259 | The writing loop returns what the error policy makes of the outputs' writes. |
| AsyncEngines.AsyncWriteAll | src/engine_async.rs:216-236 | Every output receives the whole sequence, as one array. |
| AsyncEngines.AsyncWriteOneValue | src/engine_async.rs:239-259 | Every output receives the one value. |
| AsyncEngines.AsyncWriteStages | src/engine_async.rs:262-378 | A value is encoded before the target is opened: an encoding failure leaves the target untouched, and an open failure is `Open`. |
| AsyncEngines.EncodingFailureOrder | src/engine_async.rs:262-316 | A value that cannot be encoded leaves an async target untouched, where the sync engine has already truncated it. |
| AsyncEngines.ToSteps | src/engine_async.rs:598-612 | Record items pass through unchanged. Every item error becomes a `Parse` error naming the input. |
| AsyncEngines.RecordErrorStages | src/engine_async.rs:414-596 | Every error in a record stream names the input and is `Open` or `Parse`. |
| AsyncEngines.RecordsOf | src/engine_async.rs:480-596 | Every error item names the input and is `Parse`. A non-streaming built-in kind gives exactly one item. A streaming kind gives the codec's items when its feature is on, and a `NotEnabled` parse failure otherwise. With a sync registry, a custom kind gives the items of that registry's `stream_deserialize_into`, or its error as a parse failure. Any other kind gives its single decode or that decode's error. |
| AsyncEngines.StreamingKindRecords | src/engine_async.rs:483-585 | For an input that reads, a JSON, CSV, YAML or plaintext kind whose feature is on streams exactly the codec's items, each error tagged `Parse`. |
| AsyncEngines.SyncRegistryStreamsCustom | src/engine_async.rs:505-529 | For an input that reads, with a sync registry, a custom kind streams exactly what the registry's `stream_deserialize_into` yields for it. |
| AsyncEngines.RecordsStreamForSpec | src/engine_async.rs:414-596 | An input that cannot be opened or read is one `Open` error item. Every other error item is `Parse`. |
| AsyncEngines.RecordStreamFailsEarly | src/engine_async.rs:422-478 | A failed open, read or resolution makes the stream that one error, and a resolution failure is `Parse`. |
| AsyncEngines.NonStreamingKindIsOneRecord | src/engine_async.rs:586-595 | For a kind without a streaming decoder, the stream is exactly the one item `read_one` gives. This holds with or without a sync registry, except for a custom kind under a sync registry, which streams through its descriptor. |
| Cli.WithInput | src/cli/mod.rs:86-89 | Appends exactly one argument. |
| Cli.WithOutput | src/cli/mod.rs:105-108 | Appends exactly one argument. |
| Cli.IsStdin | src/cli/mod.rs:91-94 | True exactly when some argument is `-` or `stdin` in any case. |
| Cli.IsStdout | src/cli/mod.rs:111-114 | True exactly when some argument is `-` or `stdout` in any case. |
| Cli.IsStderr | src/cli/mod.rs:117-119 | True exactly when some argument is `stderr` in any case. |
| Cli.WithInputIsStdin | src/cli/mod.rs:86-94 | Adding an argument makes the list read stdin exactly when it already did or the new argument is a stdin token. |
| Cli.TokensOverlap | src/cli/mod.rs:91-119 | `-` is both a stdin and a stdout token; a stderr token is never a stdout token. |
| Cli.ParseFormatName | src/cli/mod.rs:132-134 | `parse_format` is the name parser with its error dropped. |
| Cli.InferFormatFromPath | src/cli/mod.rs:137-142 | The extension is fed to the name parser, with no registry; no extension gives nothing. |
| Cli.InferBuiltInExtension | src/cli/mod.rs:137-142 | A path whose extension is a built-in kind's name, in any case, infers that kind. |
| Builders.NewBuilder | src/builder.rs:30-42 | A new builder has no endpoints. Its defaults are accumulate, overwrite and the default format order for both directions. |
| Builders.DefaultBuilder | src/builder.rs:453-457 | The builder's registry holds each enabled built-in kind exactly once, nothing else and no descriptors. It has no arguments or specs, accumulates errors, overwrites existing files, and uses the default order for both inputs and outputs. |
| Builders.WithCustomFormat | src/builder.rs:45-48 | Registers the descriptor in the builder's registry and changes nothing else. |
| Builders.InputsFromArgs | src/builder.rs:50-57 | Replaces the input tokens and nothing else. |
| Builders.OutputsFromArgs | src/builder.rs:59-66 | Replaces the output tokens and nothing else. |
| Builders.AddInput | src/builder.rs:68-71 | Appends one input token and nothing else. |
| Builders.AddOutput | src/builder.rs:73-76 | Appends one output token and nothing else. |
| Builders.AddInputSpec | src/builder.rs:78-81 | Appends one prebuilt input spec and nothing else. |
| Builders.AddOutputSpec | src/builder.rs:83-86 | Appends one prebuilt output spec and nothing else. |
| Builders.AddInputsAppend | src/builder.rs:50-71 | Adding tokens one at a time is giving them all at once after the existing ones. |
| Builders.WithOrder | src/builder.rs:88-92 | Sets both format orders and nothing else. |
| Builders.WithOrderSetsBoth | src/builder.rs:88-102 | Setting one order is setting the input order and then the output order. |
| Builders.WithInputOrder | src/builder.rs:94-97 | Sets the input order and nothing else. |
| Builders.WithOutputOrder | src/builder.rs:99-102 | Sets the output order and nothing else. |
| Builders.WithMode | src/builder.rs:104-107 | Sets the error policy and nothing else. |
| Builders.WithFileExistsPolicy | src/builder.rs:109-112 | Sets the file-exists policy and nothing else. |
| Builders.InferFormat | src/builder.rs:304-310 | The registry's extension lookup of the lower-cased extension; no extension gives nothing. |
| Builders.InlineId | src/builder.rs:189-194 | An inline id is `inline:` followed by sixteen lower-case hexadecimal digits. |
| Builders.ClassifyInput | src/builder.rs:156-207 | `@` comes first and forces a path. Then come `-`/`stdin`, then `=content`, else a plain path. |
| Builders.InlineSpec | src/builder.rs:189-205 | Inline content is read from memory as its UTF-8 bytes, under its `inline:` id, with no explicit format. |
| Builders.InputForToken | src/builder.rs:156-216 | Only an empty `@` fails, as `ResolveInput`. Every spec's raw id is its provider's id, and its candidates are the builder's input order. |
| Builders.ResolveSingleInput | src/builder.rs:153-217 | After trimming, only a lone `@` fails. Every other token gives a spec whose raw id is its provider's id. Which provider each token form gets is stated by StdinTokenReadsStdin, ForcedPathIsFile, InlineContentInMemory and PlainInputIsFile. |
| Builders.ClassifyInputMeaning | src/builder.rs:156-216 | A trimmed token is classified as stdin exactly when it is `-` or `stdin` in any case. It is classified as a plain path exactly when it starts with neither `@` nor `=` and is not a stdin name. |
| Builders.InputTokenSpecs | src/builder.rs:156-216 | A stdin token becomes stdin as `-` with no format. `=content` becomes the inline in-memory spec. A forced or plain path becomes `FileInput(path)` under the raw id `path`, with the format inferred from the path. |
| Builders.PlainInputIsFile | src/builder.rs:207-216 | A trimmed token that is none of `@…`, `=…` or a stdin name is the file of that name, with its inferred format and the builder's input order. |
| Builders.StdinTokenReadsStdin | src/builder.rs:180-187 | `-` or `stdin`, in any case or padding, reads stdin as `-` with no explicit format. |
| Builders.StdinIsNotForced | src/builder.rs:156-187 | A stdin token is classified as stdin, never as a forced path or inline content. |
| Builders.ForcedPathIsFile | src/builder.rs:156-178 | `@path` is the file `path` with its inferred format, even when `path` is a reserved token; likewise for outputs. |
| Builders.InlineContentInMemory | src/builder.rs:189-205 | `=content` resolves to the inline in-memory spec. |
| Builders.ClassifyOutput | src/builder.rs:242-302 | `@` comes first. Then come `-`/`stdout`, then `stderr`, else a plain path. |
| Builders.OutputForToken | src/builder.rs:245-301 | Only an empty `@` fails, as `ResolveOutput`. Every spec's raw id is its target's id, and carries the builder's order and policy. |
| Builders.ResolveSingleOutput | src/builder.rs:242-302 | After trimming, only a lone `@` fails. Every other token gives a spec whose raw id is its target's id, under the builder's order and policy. Which target each token form gets is stated by StdoutTokenWritesStdout, StderrTokenWritesStderr, ForcedPathIsFile and PlainOutputIsFile. |
| Builders.ClassifyOutputMeaning | src/builder.rs:245-301 | A trimmed token is classified as stdout exactly when it is `-` or `stdout` in any case. It is classified as stderr exactly when it is `stderr` in any case. It is classified as a plain path exactly when it does not start with `@` and is neither name. |
| Builders.OutputTokenSpecs | src/builder.rs:245-301 | A stdout token becomes `StdoutOutput` as `-`, and a stderr token `StderrOutput` as `stderr`, both with no format. A forced or plain path becomes `FileOutput(path)` under the raw id `path`, with the format inferred from the path. All carry the builder's order and policy. |
| Builders.StdoutTokenWritesStdout | src/builder.rs:270-278 | `-` or `stdout`, in any case or padding, writes to standard output under the id `-`, with no format. |
| Builders.StderrTokenWritesStderr | src/builder.rs:280-288 | `stderr`, in any case or padding, writes to standard error under the id `stderr`, with no format. |
| Builders.PlainOutputIsFile | src/builder.rs:290-301 | Any other trimmed token that does not start with `@` is the file of that name, with its inferred format and the builder's policy. |
| Builders.InputSteps | src/builder.rs:130-151 | One resolution per input token, in order. |
| Builders.OutputSteps | src/builder.rs:219-240 | One resolution per output token, in order. |
| Builders.ResolveInputs | src/builder.rs:130-151 | The input loop gives what the error policy makes of the tokens' resolutions. |
| Builders.ResolveOutputs | src/builder.rs:219-240 | The output loop gives what the error policy makes of the tokens' resolutions. |
| Builders.Build | src/builder.rs:114-128 | Input errors come first, then output errors. On success the engine holds the token specs followed by the prebuilt ones. |
| Builders.BuildOutcome | src/builder.rs:114-151 | Resolution fails exactly when some token is a lone `@`. |
| Builders.PolicyFromName | src/builder.rs:318-324 | `fast_fail` and `fastfail` mean fast-fail; every other name means accumulate. |
| Builders.ParseOrder | src/builder.rs:326-332 | Names that do not parse are dropped. |
| Builders.ParseOrderOfNames | src/builder.rs:326-332 | Built-in kinds' names give those kinds, in order. |
| Builders.ParseOrderConcat | src/builder.rs:326-332 | Parsing preserves concatenation. |
| Builders.ParseOrderMembers | src/builder.rs:326-332 | A kind is in the parsed order exactly when some name parses to it. |
| Builders.UnparsableNameDropped | src/builder.rs:326-332 | A name that does not parse can be removed from anywhere in the list without changing the result. |
| Builders.ConfiguredBuilder | src/builder.rs:312-332 | The configured policy and order, or the defaults when they are absent. |
| Builders.InputFromConfig | src/builder.rs:366-403 | `stdin`, `-`, or `file` with a path resolve; anything else is a `ResolveInput` error naming the entry's id. |
| Builders.OutputFromConfig | src/builder.rs:405-450 | `stdout`, `-`, `stderr`, or `file` with a path resolve; anything else is a `ResolveOutput` error naming the entry's id. |
| Builders.ConfigSteps | src/builder.rs:335-357 | The inputs' resolutions, then the outputs'. |
| Builders.ConfigInputs | src/builder.rs:335-345 | The configured-input loop; under fast-fail it stops with the first error. |
| Builders.ConfigOutputs | src/builder.rs:347-357 | The configured-output loop, carrying on the same error list. |
| Builders.FromPipelineConfig | src/builder.rs:312-364 | The builder gets the specs when every entry resolves; otherwise one error list across inputs and outputs, under the configured policy. |
| Builders.ConfigKeepsOrder | src/builder.rs:335-363 | A configuration that resolves gives one spec per entry, in order. |
| AsyncBuilders.NewAsyncBuilder | src/builder_async.rs:30-42 | A new async builder has accumulate, overwrite and the order Json, Yaml, Plaintext. |
| AsyncBuilders.InputsFromArgs | src/builder_async.rs:45-48 | Replaces the input tokens. |
| AsyncBuilders.OutputsFromArgs | src/builder_async.rs:51-54 | Replaces the output tokens. |
| AsyncBuilders.AddInput | src/builder_async.rs:57-60 | Appends one input token. |
| AsyncBuilders.AddOutput | src/builder_async.rs:63-66 | Appends one output token. |
| AsyncBuilders.AddInputSpec | src/builder_async.rs:69-72 | Appends one prebuilt input spec. |
| AsyncBuilders.AddOutputSpec | src/builder_async.rs:75-78 | Appends one prebuilt output spec. |
| AsyncBuilders.WithOrder | src/builder_async.rs:81-85 | Sets both format orders. |
| AsyncBuilders.WithMode | src/builder_async.rs:88-91 | Sets the error policy. |
| AsyncBuilders.WithFileExistsPolicy | src/builder_async.rs:94-97 | Sets the file-exists policy. |
| AsyncBuilders.AsyncInferFormat | src/builder_async.rs:151-160 | With an extension, the result is the async registry's lookup of its lower-cased form. A kind is inferred whenever some registered kind lists that extension, and it is a registered built-in kind that lists it. |
| AsyncBuilders.ResolveSingleAsyncInput | src/builder_async.rs:141-169 | Never fails. Only the exact token `-` is stdin; anything else is a file path taken verbatim, with its inferred format. |
| AsyncBuilders.ResolveSingleAsyncOutput | src/builder_async.rs:196-226 | Never fails. Only the exact token `-` is stdout; anything else is a file with the builder's policy. |
| AsyncBuilders.AsyncInputSteps | src/builder_async.rs:117-138 | One resolution per input token, in order. |
| AsyncBuilders.AsyncOutputSteps | src/builder_async.rs:172-193 | One resolution per output token, in order. |
| AsyncBuilders.ResolveAsyncInputs | src/builder_async.rs:117-138 | The input loop gives what the error policy makes of the resolutions. |
| AsyncBuilders.ResolveAsyncOutputs | src/builder_async.rs:172-193 | The output loop gives what the error policy makes of the resolutions. |
| AsyncBuilders.AsyncInputsSucceed | src/builder_async.rs:117-169 | Input resolution always succeeds, with one spec per token, in order. |
| AsyncBuilders.AsyncOutputsSucceed | src/builder_async.rs:172-226 | Output resolution always succeeds, with one spec per token, in order. |
| AsyncBuilders.AsyncBuild | src/builder_async.rs:100-114 | Always succeeds. The engine has no sync registry and holds the token specs, in order, followed by the prebuilt ones. |
| AsyncBuilders.AsyncFromPipelineConfig | src/builder_async.rs:229-254 | Only the policy and the order come from the configuration, and no spec is created. |
| AsyncBuilders.ConfigEntriesIgnored | src/builder_async.rs:229-254 | The configuration's inputs and outputs make no difference. |
| CsvFormat.RecordEntries | src/format/csv.rs:20-34 | A record's object has only header keys, and no more entries than fields. |
| CsvFormat.BuildRecordObject | src/format/csv.rs:20-34 | The enumerate loop builds exactly the record's object. |
| CsvFormat.RecordEntriesOfDistinct | src/format/csv.rs:20-34 | With distinct headers, the object maps header i to field i as a string, in order, and drops fields past the last header. |
| CsvFormat.CsvDeserialize | src/format/csv.rs:7-38 | A reader error is a serde error. Otherwise the result is an array with one object per data row, in row order. |
| CsvFormat.ValueRow | src/format/csv.rs:60-66 | One cell per entry, in order: strings verbatim, other values as JSON text. |
| CsvFormat.HeaderRows | src/format/csv.rs:47-53 | A header row exactly when the first element is an object, made of its keys. |
| CsvFormat.CsvRows | src/format/csv.rs:40-94 | An object gives its keys and then its values. An array gives the header and a row per object element. Any other value is the "requires an array or object" error. |
| CsvFormat.WriteRows | src/format/csv.rs:40-94 | The writing loop produces exactly those rows. |
| CsvFormat.CsvSerialize | src/format/csv.rs:40-94 | The rows go to the writer; a shape error is returned before anything is written. |
| CsvFormat.ReadThenWrite | src/format/csv.rs:7-94 | Reading a table with distinct headers and full rows, then writing it, gives back its header and its records. |
| CsvFormat.NonObjectsWriteNothing | src/format/csv.rs:47-67 | An array without objects writes no rows at all. |
| MarkdownFormat.BodyStart | src/format/markdown.rs:79-88 | No opening fence means no body. The body starts after the first fence, past at most one newline. |
| MarkdownFormat.ExtractCodeBlock | src/format/markdown.rs:75-94 | Nothing without an opening fence. Once a body starts, nothing exactly when no closing fence follows it. Any text found holds no fence and does not end in white space. |
| MarkdownFormat.LeadingBlock | src/format/markdown.rs:75-94 | A block at the start of the text yields its body with trailing white space trimmed. |
| MarkdownFormat.UnclosedBlock | src/format/markdown.rs:91 | An unclosed block yields nothing. |
| MarkdownFormat.BlockAfter | src/format/markdown.rs:75-94 | A block after any text that holds no opening fence of the language yields its body with trailing white space trimmed. |
| MarkdownFormat.OpeningAfter | src/format/markdown.rs:79 | The opening fence is found where it first occurs, after text that holds none. |
| MarkdownFormat.ClosingAfter | src/format/markdown.rs:90-91 | The closing fence is found right after a body that holds none. |
| MarkdownFormat.SerdeError | src/format/markdown.rs:40-49 | A codec error becomes a serde format error. |
| MarkdownFormat.MarkdownDeserialize | src/format/markdown.rs:33-50 | A json block first, when JSON is compiled in. Otherwise a yaml block when YAML is compiled in, decoded by the YAML reader. Otherwise the whole text as a string. Errors are serde errors. |
| MarkdownFormat.MarkdownRead | src/format/markdown.rs:29-51 | The read fails with an I/O error exactly when the bytes cannot be read as text. Otherwise the result is that of decoding the text. |
| MarkdownFormat.MarkdownSerialize | src/format/markdown.rs:53-71 | The output is wrapped in a fence. It fails exactly when the JSON encoder does. |
| MarkdownFormat.SerializeRoundTrip | src/format/markdown.rs:53-94 | Reading back what was written gives what the JSON reader makes of the JSON text, whenever that text has no fence. |
| PyStrings.SplitLinesKeep | scripts/sync_readme.py:180 | Lines keep their terminators, none is empty, and joining them gives the text back. |
| PyStrings.SplitLines | scripts/sync_readme.py:55 | The same lines, without their terminators. |
| PyStrings.Join | scripts/sync_readme.py:160-175 | Joining nothing gives the empty string. |
| PyStrings.JoinLength | scripts/sync_readme.py:160-175 | A join is as long as its parts plus one separator between each pair. |
| PyStrings.Ljust | scripts/sync_readme.py:162-173 | Pads with spaces to the width and never cuts. |
| PyStrings.BeforeFirst | scripts/sync_readme.py:68 | The text before the first `#`, or all of it when there is none. |
| PyStrings.Sort | scripts/sync_readme.py:103 | A sorted permutation. |
| PyStrings.SortedUnique | scripts/sync_readme.py:103 | A sorted permutation is unique, so `sorted` is fully determined. |
| ReadmeSync.KeyRun | scripts/sync_readme.py:69 | The longest leading run of key characters. |
| ReadmeSync.KeyOf | scripts/sync_readme.py:69-71 | A key is a leading run of `[A-Za-z0-9_-]` followed by optional white space and `=`. Otherwise there is no key. |
| ReadmeSync.ClassifyManifestLine | scripts/sync_readme.py:56-71 | An entry's key is always a feature name. |
| ReadmeSync.Classified | scripts/sync_readme.py:55 | Every line, classified, in order. |
| ReadmeSync.ScanKeys | scripts/sync_readme.py:52-72 | The scan loop over the classified lines collects what `KeysFrom` describes. |
| ReadmeSync.ParseFeatureKeys | scripts/sync_readme.py:52-72 | `parse_feature_keys_from_manifest` returns the manifest's feature keys. |
| ReadmeSync.KeysAreNames | scripts/sync_readme.py:56-71 | Every key the scan collects, inside or outside the table, is a feature name. |
| ReadmeSync.ManifestKeysAreNames | scripts/sync_readme.py:52-72 | Every key found is a feature name. |
| ReadmeSync.NoFeaturesNoKeys | scripts/sync_readme.py:59-63 | Without a `[features]` heading there are no keys. |
| ReadmeSync.SectionKeys | scripts/sync_readme.py:56-71 | Inside the table, blank, comment and entry lines give their keys, in order. |
| ReadmeSync.KeysAfterHeading | scripts/sync_readme.py:59-63 | Lines before the heading contribute nothing, and what follows it is read as the table. |
| ReadmeSync.RemoveFirst | scripts/sync_readme.py:102 | `list.remove` takes out one occurrence, or nothing when there is none. |
| ReadmeSync.NonDefault | scripts/sync_readme.py:83 | The keys other than `default`. |
| ReadmeSync.OrderFrom | scripts/sync_readme.py:98-103 | The ordering is a permutation of the names. |
| ReadmeSync.OrderedFeatures | scripts/sync_readme.py:83-103 | A permutation of the declared keys other than `default`. |
| ReadmeSync.OrderNames | scripts/sync_readme.py:98-103 | The ordering loop gives what `OrderFrom` describes. |
| ReadmeSync.OrderFeatures | scripts/sync_readme.py:83-103 | The ordering loop over the fixed preferred list. |
| ReadmeSync.NonDefaultDistinct | scripts/sync_readme.py:83 | Distinct keys stay distinct once `default` is removed. |
| ReadmeSync.OrderOfDistinct | scripts/sync_readme.py:98-103 | With no repeats, the preferred names present come first in preference order, then all other names, sorted. |
| ReadmeSync.PreferredFirst | scripts/sync_readme.py:83-103 | The table lists the declared preferred features in their fixed order, then every other feature except `default`, sorted. |
| ReadmeSync.StringItems | scripts/sync_readme.py:81 | Exactly the list's string items. |
| ReadmeSync.DefaultFeatures | scripts/sync_readme.py:76-81 | A missing or null entry gives no defaults, and a non-list entry is an error. The result is exactly the string items. |
| ReadmeSync.Implied | scripts/sync_readme.py:122-132 | Only declared keys other than `default`. |
| ReadmeSync.Declared | scripts/sync_readme.py:122-132 | Every name kept is a declared key other than `default`. |
| ReadmeSync.Dedup | scripts/sync_readme.py:134-136 | The same names without repeats. |
| ReadmeSync.FullMissing | scripts/sync_readme.py:134-136 | Nothing without `full`, otherwise sorted and without repeats. |
| ReadmeSync.FullMissingMembers | scripts/sync_readme.py:134-136 | Exactly the declared features other than `default` and `full` that `full` does not enable. |
| ReadmeSync.Backticked | scripts/sync_readme.py:146-148 | Each name in backticks. |
| ReadmeSync.Notes | scripts/sync_readme.py:143-148 | `full` lists what it excludes; another feature lists what it enables. The note is empty exactly when that list is empty. |
| ReadmeSync.FeatureRow | scripts/sync_readme.py:138-150 | The name in backticks, its description, the check mark when it is a default, and its note. |
| ReadmeSync.Rows | scripts/sync_readme.py:138-150 | One row per ordered feature. |
| ReadmeSync.BuildRows | scripts/sync_readme.py:138-150 | The row loop builds those rows. |
| ReadmeSync.ColumnWidth | scripts/sync_readme.py:155-157 | The widest cell in the column, the header's included. |
| ReadmeSync.Widths | scripts/sync_readme.py:155-157 | Every column is at least as wide as each of its cells. |
| ReadmeSync.Padded | scripts/sync_readme.py:162-173 | Each cell is padded to its column's width. |
| ReadmeSync.TableLines | scripts/sync_readme.py:159-176 | The header line, the separator line, then one line per row. |
| ReadmeSync.RenderRows | scripts/sync_readme.py:170-175 | One line per row. |
| ReadmeSync.RenderLines | scripts/sync_readme.py:159-176 | The line loop gives the header, the separator and the rows' lines. |
| ReadmeSync.AppendRows | scripts/sync_readme.py:170-175 | The loop appends one rendered line per row after what came before. |
| ReadmeSync.FeaturesTable | scripts/sync_readme.py:75-176 | A table has one line per ordered feature plus two. |
| ReadmeSync.GenerateFeaturesTable | scripts/sync_readme.py:75-176 | The script's loops give what `FeaturesTable` describes. |
| ReadmeSync.TableLinesShape | scripts/sync_readme.py:155-175 | Every line of the table has the same length, and each row's line opens with its feature cell. |
| ReadmeSync.TableRows | scripts/sync_readme.py:138-176 | A rendered table is one row per ordered feature, each built from that feature alone. |
| ReadmeSync.TableErrors | scripts/sync_readme.py:76-154 | The table fails exactly when the default entry is malformed or no feature other than `default` is declared. |
| ReadmeSync.NothingButDefault | scripts/sync_readme.py:153-154 | No rows exactly when every key is `default`. |
| ReadmeSync.FirstFrom | scripts/sync_readme.py:182-193 | The first line from a position on that matches, or none when none does. |
| ReadmeSync.RunEnd | scripts/sync_readme.py:197-199 | The end of the run of matching lines. |
| ReadmeSync.Terminated | scripts/sync_readme.py:201 | Each table line gets a newline. |
| ReadmeSync.ReplaceTable | scripts/sync_readme.py:179-203 | The only errors are the missing heading and the missing table. |
| ReadmeSync.ReplaceFeaturesTable | scripts/sync_readme.py:179-203 | The three scans and the splice give what `ReplaceTable` describes. |
| ReadmeSync.ReplaceKeepsRest | scripts/sync_readme.py:197-203 | Only the run of `|` lines that starts at the table head is replaced; the text before and after it is kept. |
| ReadmeSync.MissingHeadingExactly | scripts/sync_readme.py:181-187 | The heading error happens exactly when no line reads `## Features`. |
| ReadmeSync.MissingTableExactly | scripts/sync_readme.py:189-195 | The table error happens exactly when there is a heading and no `| Feature` line from it on. |
| ReadmeSync.MarkIsMisread | scripts/sync_readme.py:141 | The mark as written is the check mark's UTF-8 bytes read as code page 1252: three characters instead of one. |

## Left out

- Codec bodies: the JSON, YAML, XML, INI, plaintext and streaming codecs are parameters. They wrap serde libraries that are not part of this model.
- FormatRegistries.DecodeAs: in the registry dispatch (`Deserialize`/`Serialize`, `DecodeAs`/`EncodeAs`), CSV and Markdown also go through the `decode`/`encode` parameters. Those parameters are not tied to `CsvFormat.CsvDeserialize`/`CsvSerialize` or `MarkdownFormat.MarkdownDeserialize`/`MarkdownSerialize`, which are modelled and proved on their own.
- The `serde` conversions `to_value` and `from_value` are parameters.
- The csv crate's byte-level field splitting, quoting and escaping are parameters. Rows are sequences of strings.
- File, stdin, stdout and stderr I/O is the `Environment` parameter. The model does not read or write real files.
- `InMemorySink::contents_string` and `InMemorySink::into_inner` (src/io/memory.rs:63-72) are not modelled. The first is the contents under a lossy UTF-8 decoding, which the model has no text decoder for. The second gives back the same bytes as `contents` while consuming the sink, and the model has no ownership.
- The async in-memory and standard-stream providers are covered only by that parameter.
- The Mutex around the sink buffer, and sharing the sink across threads, are left out. The buffer is a plain field shared by reference.
- Concurrency: the unordered fan-out of `read_stream_async` and `read_records_async` is left out, because its order depends on scheduling. Only the sequential loops and the per-input record stream are modelled.
- `read_records`, `read_json_records`, `read_csv_records`, `with_stream_deserialize`, the `Format` trait, `FormatKind::Toml` and `FormatKind::Ini` are not defined in the source files modelled. The streaming decoder of a custom descriptor is an optional field.
- Engines.ReadStream: the laziness of the synchronous iterator is not modelled; it is the sequence of its items.
- `DEFAULT_FORMAT_ORDER` is not defined in the source files modelled. The synchronous builder takes it as the `defaultOrder` parameter.
- Builders.InlineId: `DefaultHasher` is the `contentHash` parameter, taken modulo 2^64. Only the `inline:` prefix and the sixteen hex digits are stated.
- Paths.FileName: `Path::extension` is modelled as the text after the last dot of the last `/`-separated component. Trailing slashes and other platform path rules are not modelled.
- Compile-time cargo features are the `enabled` set. `DefaultRegistry` registers a kind exactly when it is in that set.
- MarkdownFormat.ExtractCodeBlock: works on characters rather than UTF-8 bytes.
- MarkdownFormat: the serde codecs it delegates to are parameters.
- MarkdownFormat.MarkdownRead: the UTF-8 check of `read_to_string` is the `readToString` parameter; its error is the I/O error the model returns.
- Values.Insert: keeps objects in insertion order, as `serde_json::Map` does with its `preserve_order` feature. The crate's Cargo.toml is not part of this model, and without that feature the map sorts its keys.
- CsvFormat.RecordEntries: its entry order is insertion order; under the default sorted `serde_json::Map` a record's keys come out sorted.
- CsvFormat.RecordEntriesOfDistinct: maps header i to field i in header order; under the default sorted `serde_json::Map` the entries are in key order instead.
- CsvFormat.ReadThenWrite: gives back the header in its original order only for insertion-ordered objects; under the default sorted `serde_json::Map` the header written back is the sorted header.
- AsyncEngines.BufferAfter: after a failed read to the end the buffer is modelled as empty; the partial bytes `read_to_end` leaves in it are not modelled.
- AsyncEngines.ReadOneWithBuffer: its buffer after a failed read is `BufferAfter`'s empty buffer, not the partial bytes.
- Engines.ReadOne: the source calls `FormatKind::deserialize`, which src/format/mod.rs does not define; the model decodes through the registry (see the disagreements above).
- Engines.WriteOne: likewise for `FormatKind::serialize`, which the model replaces by the registry's encoding.
- `FileExistsPolicy::Error` does not refuse existing files, matching the code, which opens with overwrite.
- The `Box::leak` of custom names is not modelled; names are plain strings.
- src/format/csv_format.rs is not part of this model: no module declares it.
- Rendering through miette (src/error/miette_impl.rs) and the unfinished src/cli/sarge.rs are not part of this model.
- The re-export modules, binaries, examples, benchmarks and end-to-end tests are not part of this model.
- In scripts/sync_readme.py, these are not part of this model: `run_cargo_metadata` and `select_root_package` (a subprocess and its JSON), `replace_readme_versions` (regular expressions) and `main` (file I/O).
- ReadmeSync.ParseFeatureKeys: every line is classified before the scan. This gives the same keys, because a line's class does not depend on the scan's state.
- ReadmeSync.FeatureRow: uses the intended check mark rather than the mis-encoded one (see Findings).

## Findings

| source | as written | input that shows it | evidently intended | confidence | as-written member | corrected member |
|---|---|---|---|---|---|---|
| scripts/sync_readme.py:141 | The Default column's mark is the three characters `âœ“`, the UTF-8 bytes of a check mark decoded as code page 1252 | Any feature listed in `default`, e.g. `json` with `default = ["json"]`, gets `âœ“` in its row | A single check mark, U+2713 | not executed | ReadmeSync.MarkIsMisread | ReadmeSync.FeatureRow |
