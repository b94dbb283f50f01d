// Helpers for command-line front ends (src/cli/mod.rs): argument lists,
// the stdin/stdout/stderr tokens, and format names and extensions.
module Cli {
  import opened Wrappers
  import opened Text
  import opened Paths
  import opened FormatKinds

  datatype InputArgs = InputArgs(args: seq<string>)

  datatype OutputArgs = OutputArgs(args: seq<string>)

  function WithInput(a: InputArgs, path: string): (b: InputArgs)
    ensures b.args == a.args + [path]
  {
    InputArgs(a.args + [path])
  }

  function WithOutput(a: OutputArgs, path: string): (b: OutputArgs)
    ensures b.args == a.args + [path]
  {
    OutputArgs(a.args + [path])
  }

  /** The tokens that stand for stdin. */
  predicate IsStdinToken(s: string)
  {
    s == "-" || EqIgnoreAsciiCase(s, "stdin")
  }

  predicate IsStdoutToken(s: string)
  {
    s == "-" || EqIgnoreAsciiCase(s, "stdout")
  }

  predicate IsStderrToken(s: string)
  {
    EqIgnoreAsciiCase(s, "stderr")
  }

  /** `is_stdin`: some argument is a stdin token, compared as given
      (untrimmed). */
  function IsStdin(a: InputArgs): (b: bool)
    ensures b <==> exists i :: 0 <= i < |a.args| && (a.args[i] == "-" || AsciiLower(a.args[i]) == "stdin")
  {
    assert NoUpper("stdin");
    NoUpperFixed("stdin");
    exists i :: 0 <= i < |a.args| && IsStdinToken(a.args[i])
  }

  function IsStdout(a: OutputArgs): (b: bool)
    ensures b <==> exists i :: 0 <= i < |a.args| && (a.args[i] == "-" || AsciiLower(a.args[i]) == "stdout")
  {
    assert NoUpper("stdout");
    NoUpperFixed("stdout");
    exists i :: 0 <= i < |a.args| && IsStdoutToken(a.args[i])
  }

  function IsStderr(a: OutputArgs): (b: bool)
    ensures b <==> exists i :: 0 <= i < |a.args| && AsciiLower(a.args[i]) == "stderr"
  {
    assert NoUpper("stderr");
    NoUpperFixed("stderr");
    exists i :: 0 <= i < |a.args| && IsStderrToken(a.args[i])
  }

  /** `parse_format`: the name parser, with its error dropped. */
  function ParseFormatName(s: string): (r: Option<FormatKind>)
    ensures r.Some? <==> ParseFormat(s).Ok?
    ensures r.Some? ==> r.value == ParseFormat(s).value
  {
    ParseFormat(s).ToOption()
  }

  /** `infer_format_from_path`: the extension read as a format name (so
      aliases such as `yml` count, and `custom:` names are possible). */
  function InferFormatFromPath(path: string): (r: Option<FormatKind>)
    ensures Extension(path).None? ==> r.None?
    ensures Extension(path).Some? ==> r == ParseFormatName(Extension(path).value)
  {
    match Extension(path)
    case None => None
    case Some(ext) => ParseFormatName(ext)
  }

  // ------------------------------------------------------------- lemmas

  /** Adding an argument adds to the stdin test exactly that argument's
      own answer. */
  lemma {:induction false} WithInputIsStdin(a: InputArgs, path: string)
    ensures IsStdin(WithInput(a, path)) <==> IsStdin(a) || IsStdinToken(path)
  {
    var b := WithInput(a, path);
    if IsStdin(a) {
      var i :| 0 <= i < |a.args| && IsStdinToken(a.args[i]);
      assert b.args[i] == a.args[i];
    }
    if IsStdinToken(path) {
      assert b.args[|a.args|] == path;
    }
    if IsStdin(b) {
      var i :| 0 <= i < |b.args| && IsStdinToken(b.args[i]);
      if i < |a.args| {
        assert a.args[i] == b.args[i];
      }
    }
  }

  /** `-` is both the stdin and the stdout token; a stderr token is never
      a stdout token. */
  lemma TokensOverlap(s: string)
    ensures IsStdinToken("-") && IsStdoutToken("-")
    ensures IsStderrToken(s) ==> !IsStdoutToken(s)
  {
  }

  /** A path with a built-in kind's extension, in any letter case, infers
      that kind. */
  lemma InferBuiltInExtension(dir: string, stem: string, ext: string, k: FormatKind)
    requires dir == "" || dir[|dir| - 1] == '/'
    requires |stem| > 0 && '/' !in stem && '/' !in ext && '.' !in ext && stem + "." + ext != ".."
    requires !k.Custom? && AsciiLower(ext) == Name(k)
    ensures InferFormatFromPath(dir + stem + "." + ext) == Some(k)
  {
    var path := dir + stem + "." + ext;
    ExtensionOf(dir, stem, ext);
    ParseNameAnyCase(ext, k);
    InferOfExtension(path, ext, k);
  }

  /** A path whose extension parses as a kind infers that kind. */
  lemma InferOfExtension(path: string, ext: string, k: FormatKind)
    requires Extension(path) == Some(ext) && ParseFormat(ext) == Ok(k)
    ensures InferFormatFromPath(path) == Some(k)
  {
  }
}
