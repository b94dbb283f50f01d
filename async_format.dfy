// The async format registry: registered kinds only, no custom descriptors
// (src/format/async_format.rs). Its async codec entry points decode and
// encode through the same dispatch as the sync ones
// (`FormatKinds.Deserialize` / `FormatKinds.Serialize`).
module AsyncFormats {
  import opened Wrappers
  import opened Seqs
  import opened Text
  import opened FormatKinds
  import opened FormatRegistries

  datatype AsyncRegistry = AsyncRegistry(formats: seq<FormatKind>)

  /** The sync registry with the same kinds and no custom descriptors. */
  function AsSync(a: AsyncRegistry): Registry
  {
    Registry(a.formats, [])
  }

  /** `register` / `with_format`. */
  function AsyncWithFormat(a: AsyncRegistry, k: FormatKind): AsyncRegistry
  {
    if k in a.formats then a else AsyncRegistry(a.formats + [k])
  }

  /** `kind_for_extension`: the first registered kind claiming the
      extension; there are no custom descriptors to ask. */
  function AsyncKindForExtension(a: AsyncRegistry, ext: string): (r: Option<FormatKind>)
    ensures r.Some? ==> r.value in a.formats && !r.value.Custom?
  {
    match FirstIndex(a.formats, ClaimsPredicate(AsciiLower(ext)))
    case Some(i) => Some(a.formats[i])
    case None => None
  }

  /** `resolve`: the same rule as the sync registry's. */
  function AsyncResolve(a: AsyncRegistry, enabled: set<FormatKind>, explicit: Option<FormatKind>,
                        candidates: seq<FormatKind>): (res: Result<FormatKind, FormatError>)
    ensures res.Ok? ==> res.value in a.formats && IsAvailable(res.value, enabled)
    ensures explicit.Some? ==> (res.Ok? <==> explicit.value in a.formats && IsAvailable(explicit.value, enabled))
    ensures explicit.Some? && res.Ok? ==> res.value == explicit.value
  {
    Resolve(AsSync(a), enabled, explicit, candidates)
  }

  // ------------------------------------------------------------- lemmas

  /** The async registry behaves as a sync registry holding the same kinds
      and no custom formats. */
  lemma MirrorsSync(a: AsyncRegistry, k: FormatKind, ext: string)
    ensures AsSync(AsyncWithFormat(a, k)) == WithFormat(AsSync(a), k)
    ensures AsyncKindForExtension(a, ext) == KindForExtension(AsSync(a), ext)
  {
  }

  /** A custom kind is never found by extension in the async registry,
      even when it is registered. */
  lemma {:induction false} AsyncExtensionsAreBuiltIn(a: AsyncRegistry, ext: string)
    ensures AsyncKindForExtension(a, ext).Some? ==>
      var k := AsyncKindForExtension(a, ext).value;
      !k.Custom? && k in a.formats && AsciiLower(ext) in Extensions(k)
  {
    if AsyncKindForExtension(a, ext).Some? {
      var i := FirstIndex(a.formats, ClaimsPredicate(AsciiLower(ext))).value;
      KindClaimsMeaning(a.formats[i], ext);
    }
  }

  /** An extension that some registered kind claims is always found. */
  lemma {:induction false} AsyncKindForExtensionFinds(a: AsyncRegistry, ext: string)
    ensures (exists i :: 0 <= i < |a.formats| && AsciiLower(ext) in Extensions(a.formats[i])) ==>
      AsyncKindForExtension(a, ext).Some?
  {
    if exists i :: 0 <= i < |a.formats| && AsciiLower(ext) in Extensions(a.formats[i]) {
      var i :| 0 <= i < |a.formats| && AsciiLower(ext) in Extensions(a.formats[i]);
      KindClaimsMeaning(a.formats[i], ext);
      assert ClaimsPredicate(AsciiLower(ext))(a.formats[i]);
    }
  }

  // --------------------------------------------------------- the object

  class AsyncFormatRegistry {
    var formats: seq<FormatKind>

    function View(): AsyncRegistry
      reads this
    {
      AsyncRegistry(formats)
    }

    constructor ()
      ensures View() == AsyncRegistry([])
    {
      formats := [];
    }

    method Register(k: FormatKind)
      modifies this
      ensures View() == AsyncWithFormat(old(View()), k)
    {
      if k !in formats {
        formats := formats + [k];
      }
    }

    /** `kind_for_extension`, the loop with its early return. */
    method FindKindForExtension(ext: string) returns (res: Option<FormatKind>)
      ensures res == AsyncKindForExtension(View(), ext)
    {
      var i := IndexWhere(formats, ClaimsPredicate(AsciiLower(ext)));
      if i.Some? {
        return Some(formats[i.value]);
      }
      return None;
    }

    /** `resolve`, with its loop over the candidates. */
    method ResolveKind(enabled: set<FormatKind>, explicit: Option<FormatKind>, candidates: seq<FormatKind>)
      returns (res: Result<FormatKind, FormatError>)
      ensures res == AsyncResolve(View(), enabled, explicit, candidates)
    {
      if explicit.Some? {
        var k := explicit.value;
        if k in formats && IsAvailable(k, enabled) {
          return Ok(k);
        }
        return Err(UnknownFormat(k));
      }
      var usable := UsablePredicate(AsSync(View()), enabled);
      var i := 0;
      while i < |candidates|
        invariant 0 <= i <= |candidates|
        invariant forall j :: 0 <= j < i ==> !usable(candidates[j])
      {
        var k := candidates[i];
        if k in formats && IsAvailable(k, enabled) {
          UniqueFirst(candidates, usable, i);
          return Ok(k);
        }
        i := i + 1;
      }
      return Err(NoFormatMatched);
    }
  }

  /** `default_async_registry`: the same kinds in the same order as
      `default_registry`. */
  method DefaultAsyncRegistry(enabled: set<FormatKind>) returns (reg: AsyncFormatRegistry)
    ensures fresh(reg)
    ensures AsSync(reg.View()) == Registry(DefaultKinds(enabled), [])
  {
    reg := new AsyncFormatRegistry();
    ghost var kinds: seq<FormatKind> := [];
    AsyncRegisterEnabled(reg, Json, enabled);
    kinds := kinds + Opt(Json, enabled);
    AsyncRegisterEnabled(reg, Yaml, enabled);
    kinds := kinds + Opt(Yaml, enabled);
    AsyncRegisterEnabled(reg, Plaintext, enabled);
    kinds := kinds + Opt(Plaintext, enabled);
    AsyncRegisterEnabled(reg, Csv, enabled);
    kinds := kinds + Opt(Csv, enabled);
    AsyncRegisterEnabled(reg, Xml, enabled);
    kinds := kinds + Opt(Xml, enabled);
    AsyncRegisterEnabled(reg, Markdown, enabled);
    kinds := kinds + Opt(Markdown, enabled);
    assert reg.formats == kinds == DefaultKinds(enabled);
  }

  /** One feature-gated `register` call of `default_async_registry`, on a
      kind not registered yet. */
  method AsyncRegisterEnabled(reg: AsyncFormatRegistry, k: FormatKind, enabled: set<FormatKind>)
    requires k !in reg.formats
    modifies reg
    ensures reg.formats == old(reg.formats) + Opt(k, enabled)
  {
    if k in enabled {
      reg.Register(k);
    } else {
      assert old(reg.formats) + Opt(k, enabled) == old(reg.formats);
    }
  }
}
