// Specifications of asynchronous inputs and outputs
// (src/config/async_spec.rs): the same choices as the synchronous ones,
// over asynchronous providers and targets.
module AsyncSpecs {
  import opened Wrappers
  import opened FormatKinds
  import opened Providers
  import opened Specs

  datatype AsyncInputSpec = AsyncInputSpec(
    raw: string,
    provider: AsyncInputProvider,
    explicitFormat: Option<FormatKind>,
    formatCandidates: seq<FormatKind>)

  function NewAsyncInputSpec(raw: string, provider: AsyncInputProvider): (s: AsyncInputSpec)
    ensures s.raw == raw && s.provider == provider
    ensures s.explicitFormat.None? && s.formatCandidates == []
  {
    AsyncInputSpec(raw, provider, None, [])
  }

  function AsyncInputWithFormat(s: AsyncInputSpec, k: FormatKind): (t: AsyncInputSpec)
    ensures t.explicitFormat == Some(k)
    ensures t.raw == s.raw && t.provider == s.provider && t.formatCandidates == s.formatCandidates
  {
    s.(explicitFormat := Some(k))
  }

  function AsyncInputWithCandidates(s: AsyncInputSpec, cs: seq<FormatKind>): (t: AsyncInputSpec)
    ensures t.formatCandidates == cs
    ensures t.raw == s.raw && t.provider == s.provider && t.explicitFormat == s.explicitFormat
  {
    s.(formatCandidates := cs)
  }

  datatype AsyncOutputSpec = AsyncOutputSpec(
    raw: string,
    target: AsyncOutputTarget,
    explicitFormat: Option<FormatKind>,
    formatCandidates: seq<FormatKind>,
    fileExistsPolicy: FileExistsPolicy)

  function NewAsyncOutputSpec(raw: string, target: AsyncOutputTarget): (s: AsyncOutputSpec)
    ensures s.raw == raw && s.target == target
    ensures s.explicitFormat.None? && s.formatCandidates == []
    ensures s.fileExistsPolicy == DefaultFileExistsPolicy
  {
    AsyncOutputSpec(raw, target, None, [], DefaultFileExistsPolicy)
  }

  function AsyncOutputWithFormat(s: AsyncOutputSpec, k: FormatKind): (t: AsyncOutputSpec)
    ensures t.explicitFormat == Some(k)
    ensures t.raw == s.raw && t.target == s.target && t.formatCandidates == s.formatCandidates
    ensures t.fileExistsPolicy == s.fileExistsPolicy
  {
    s.(explicitFormat := Some(k))
  }

  function AsyncOutputWithCandidates(s: AsyncOutputSpec, cs: seq<FormatKind>): (t: AsyncOutputSpec)
    ensures t.formatCandidates == cs
    ensures t.raw == s.raw && t.target == s.target && t.explicitFormat == s.explicitFormat
    ensures t.fileExistsPolicy == s.fileExistsPolicy
  {
    s.(formatCandidates := cs)
  }

  function AsyncOutputWithFileExistsPolicy(s: AsyncOutputSpec, p: FileExistsPolicy): (t: AsyncOutputSpec)
    ensures t.fileExistsPolicy == p
    ensures t.raw == s.raw && t.target == s.target && t.explicitFormat == s.explicitFormat
    ensures t.formatCandidates == s.formatCandidates
  {
    s.(fileExistsPolicy := p)
  }

  /** An asynchronous output spec starts with the same defaults as a
      synchronous one, and its setters agree field by field. */
  lemma AsyncOutputMatchesSync(raw: string, t: AsyncOutputTarget, st: OutputTarget, k: FormatKind,
                               cs: seq<FormatKind>, p: FileExistsPolicy)
    ensures var a := AsyncOutputWithFileExistsPolicy(AsyncOutputWithCandidates(AsyncOutputWithFormat(
              NewAsyncOutputSpec(raw, t), k), cs), p);
            var s := OutputWithFileExistsPolicy(OutputWithCandidates(OutputWithFormat(
              NewOutputSpec(raw, st), k), cs), p);
            a.raw == s.raw && a.explicitFormat == s.explicitFormat
            && a.formatCandidates == s.formatCandidates && a.fileExistsPolicy == s.fileExistsPolicy
  {
  }
}
