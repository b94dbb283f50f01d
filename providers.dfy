// Where bytes come from and go to (src/io/std_io.rs, src/io/memory.rs,
// src/io/async_std_io.rs). Files and the standard streams belong to the
// outside world: what opening, reading or writing them does is a
// parameter, an `Environment`. In-memory sources and sinks are modelled
// exactly.
module Providers {
  import opened Wrappers
  import opened Values
  import opened Memory

  /** The synchronous input providers. */
  datatype InputProvider =
    | FileInput(path: string)
    | StdinInput
    | MemoryInput(source: InMemorySource)

  /** `InputProvider::id`. */
  function InputId(p: InputProvider): string
  {
    match p
    case FileInput(path) => path
    case StdinInput => "-"
    case MemoryInput(src) => src.id
  }

  /** The synchronous output targets. */
  datatype OutputTarget =
    | FileOutput(path: string)
    | StdoutOutput
    | StderrOutput
    | MemoryOutput(sink: InMemorySink)

  /** `OutputTarget::id`. */
  function OutputId(t: OutputTarget): string
  {
    match t
    case FileOutput(path) => path
    case StdoutOutput => "-"
    case StderrOutput => "stderr"
    case MemoryOutput(sink) => sink.id
  }

  /** The asynchronous input providers. */
  datatype AsyncInputProvider = AsyncFileInput(path: string) | AsyncStdinInput

  function AsyncInputId(p: AsyncInputProvider): string
  {
    match p
    case AsyncFileInput(path) => path
    case AsyncStdinInput => "-"
  }

  /** The asynchronous output targets the async builder creates. */
  datatype AsyncOutputTarget = AsyncFileOutput(path: string) | AsyncStdoutOutput

  function AsyncOutputId(t: AsyncOutputTarget): string
  {
    match t
    case AsyncFileOutput(path) => path
    case AsyncStdoutOutput => "-"
  }

  /** What opening an input and reading it to the end gives. */
  datatype ReadOutcome = OpenFailed(message: string) | ReadFailed(message: string) | Readable(data: Bytes)

  /** `open_overwrite` truncates, `open_append` keeps what is there. */
  datatype OpenMode = Truncating | Appending

  /** What opening an output in a mode and writing to it does. */
  datatype Behaviour = Refuses(message: string) | Accepts | FailsOnWrite(message: string)

  /** The outside world: files, stdin, stdout and stderr. */
  datatype Environment = Environment(
    read: InputProvider -> ReadOutcome,
    open: (OutputTarget, OpenMode) -> Behaviour,
    readAsync: AsyncInputProvider -> ReadOutcome,
    openAsync: (AsyncOutputTarget, OpenMode) -> Behaviour)

  /** Opening and reading a synchronous provider; an in-memory source always
      yields its data. */
  function ReadInput(env: Environment, p: InputProvider): (r: ReadOutcome)
    ensures p.MemoryInput? ==> r == Readable(p.source.data)
  {
    match p
    case MemoryInput(src) => Readable(OpenSource(src))
    case _ => env.read(p)
  }

  /** Opening a synchronous target; an in-memory sink never fails. */
  function OpenTarget(env: Environment, t: OutputTarget, mode: OpenMode): (b: Behaviour)
    ensures t.MemoryOutput? ==> b == Accepts
  {
    match t
    case MemoryOutput(_) => Accepts
    case _ => env.open(t, mode)
  }

  /** What one write did to its target, as far as its contents go. */
  datatype Effect = Untouched | Opened(mode: OpenMode, written: Bytes)

  /** A target's contents after an effect. */
  function Apply(contents: Bytes, e: Effect): (r: Bytes)
    ensures e.Untouched? ==> r == contents
    ensures e.Opened? && e.mode == Truncating ==> r == e.written
    ensures e.Opened? && e.mode == Appending ==> r == contents + e.written
  {
    match e
    case Untouched => contents
    case Opened(Truncating, w) => w
    case Opened(Appending, w) => contents + w
  }

  /** Effects in turn. */
  function ApplyAll(contents: Bytes, es: seq<Effect>): Bytes
  {
    if |es| == 0 then contents else Apply(ApplyAll(contents, es[..|es| - 1]), es[|es| - 1])
  }

  /** Appending writes leave what was there as a prefix. */
  lemma {:induction false} AppendsKeepPrefix(contents: Bytes, es: seq<Effect>)
    requires forall j :: 0 <= j < |es| ==> es[j].Untouched? || es[j].mode == Appending
    ensures contents <= ApplyAll(contents, es)
  {
    if |es| > 0 {
      AppendsKeepPrefix(contents, es[..|es| - 1]);
    }
  }

  /** After a truncating write, what came before is forgotten. */
  lemma {:induction false} TruncateForgets(a: Bytes, b: Bytes, es: seq<Effect>, i: nat)
    requires i < |es| && es[i].Opened? && es[i].mode == Truncating
    ensures ApplyAll(a, es) == ApplyAll(b, es)
  {
    if i < |es| - 1 {
      TruncateForgets(a, b, es[..|es| - 1], i);
    }
  }
}
