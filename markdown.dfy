// The Markdown format (src/format/markdown.rs): structured data travels in
// a fenced code block. Reading prefers a ```json block, then a ```yaml
// block, and otherwise takes the whole text as a string; writing wraps
// pretty-printed JSON in a ```json block. The JSON and YAML text codecs
// belong to the serde libraries and are parameters.
module MarkdownFormat {
  import opened Wrappers
  import opened Values
  import opened Text
  import opened FormatKinds

  const Fence := "```"

  /** Whether `pat` occurs nowhere in `s`. */
  predicate Absent(s: string, pat: string)
  {
    forall j :: 0 <= j <= |s| ==> !OccursAt(s, pat, j)
  }

  /** The text codecs the Markdown format delegates to, and which of them
      the crate's features compile in; `readToString` is the UTF-8 check of
      `read_to_string`, failing with its I/O message. */
  datatype MarkdownCodecs = MarkdownCodecs(
    readToString: Bytes -> Result<string, string>,
    jsonEnabled: bool,
    yamlEnabled: bool,
    fromJson: string -> Result<Value, string>,
    fromYaml: string -> Result<Value, string>,
    toPrettyJson: Value -> Result<string, string>,
    debug: Value -> string)

  /** Where the body of the first ```lang block starts: right after the
      opening fence, past one newline if there is one. */
  function BodyStart(content: string, lang: string): (r: Option<nat>)
    ensures r.Some? ==> r.value <= |content|
    ensures Absent(content, Fence + lang) ==> r.None?
  {
    match Find(content, Fence + lang)
    case None => None
    case Some(i) =>
      var s := i + |Fence + lang|;
      Some(if s < |content| && content[s] == '\n' then s + 1 else s)
  }

  /** `extract_code_block`: the text of the first ```lang block up to the
      next fence, trailing white space trimmed; nothing when there is no
      opening fence or no closing one after it. The text never contains a
      fence and never ends in white space. */
  function ExtractCodeBlock(content: string, lang: string): (r: Option<string>)
    ensures Absent(content, Fence + lang) ==> r.None?
    ensures BodyStart(content, lang).Some? ==>
      (r.None? <==> Absent(content[BodyStart(content, lang).value..], Fence))
    ensures r.Some? ==> Absent(r.value, Fence)
    ensures r.Some? ==> |r.value| > 0 ==> !IsBlank(RustBlanks, r.value[|r.value| - 1])
  {
    match BodyStart(content, lang)
    case None => None
    case Some(s) =>
      var remaining := content[s..];
      match Find(remaining, Fence)
      case None => None
      case Some(e) =>
        var t := TrimEnd(RustBlanks, remaining[..e]);
        assert t == remaining[..|t|];
        PrefixAbsent(remaining, e, t);
        Some(t)
  }

  function SerdeError(r: Result<Value, string>): (fr: Result<Value, FormatError>)
    ensures r.Ok? ==> fr == Ok(r.value)
    ensures r.Err? ==> fr == Err(Serde(r.error))
  {
    match r
    case Ok(v) => Ok(v)
    case Err(m) => Err(Serde(m))
  }

  /** `deserialize` on the text read: a json block when JSON is compiled
      in, else a yaml block when YAML is compiled in, else the whole text
      as a string. */
  function MarkdownDeserialize(c: MarkdownCodecs, content: string): (r: Result<Value, FormatError>)
    ensures c.jsonEnabled && ExtractCodeBlock(content, "json").Some? ==>
      r == SerdeError(c.fromJson(ExtractCodeBlock(content, "json").value))
    ensures (!c.jsonEnabled || ExtractCodeBlock(content, "json").None?)
            && c.yamlEnabled && ExtractCodeBlock(content, "yaml").Some? ==>
      r == SerdeError(c.fromYaml(ExtractCodeBlock(content, "yaml").value))
    ensures r.Err? ==> r.error.Serde?
    ensures ((!c.jsonEnabled || ExtractCodeBlock(content, "json").None?)
             && (!c.yamlEnabled || ExtractCodeBlock(content, "yaml").None?))
            ==> r == Ok(Str(content))
  {
    var json := ExtractCodeBlock(content, "json");
    var yaml := ExtractCodeBlock(content, "yaml");
    if c.jsonEnabled && json.Some? then SerdeError(c.fromJson(json.value))
    else if c.yamlEnabled && yaml.Some? then SerdeError(c.fromYaml(yaml.value))
    else Ok(Str(content))
  }

  /** `deserialize` on the reader's bytes: text that is not UTF-8 is an
      I/O error before any block is looked for, and the only one the
      format reports. */
  function MarkdownRead(c: MarkdownCodecs, bytes: Bytes): (r: Result<Value, FormatError>)
    ensures r.Err? && r.error.Io? <==> c.readToString(bytes).Err?
    ensures c.readToString(bytes).Err? ==> r == Err(Io(c.readToString(bytes).error))
    ensures c.readToString(bytes).Ok? ==> r == MarkdownDeserialize(c, c.readToString(bytes).value)
  {
    match c.readToString(bytes)
    case Err(m) => Err(Io(m))
    case Ok(content) => MarkdownDeserialize(c, content)
  }

  /** `serialize`: pretty JSON in a ```json block, or the value's debug
      text in a bare block when JSON is not compiled in. */
  function MarkdownSerialize(c: MarkdownCodecs, v: Value): (r: Result<string, FormatError>)
    ensures r.Err? <==> c.jsonEnabled && c.toPrettyJson(v).Err?
    ensures r.Err? ==> r.error == Serde(c.toPrettyJson(v).error)
    ensures r.Ok? ==> StartsWith(r.value, Fence) && |r.value| >= 8 && r.value[|r.value| - 4..] == "\n" + Fence
  {
    if c.jsonEnabled then
      match c.toPrettyJson(v)
      case Ok(t) => Ok(Fence + "json\n" + t + "\n" + Fence)
      case Err(m) => Err(Serde(m))
    else Ok(Fence + "\n" + c.debug(v) + "\n" + Fence)
  }

  // ------------------------------------------------------------- lemmas

  lemma FindAt(s: string, pat: string, i: nat)
    requires OccursAt(s, pat, i) && forall j :: 0 <= j < i ==> !OccursAt(s, pat, j)
    ensures Find(s, pat) == Some(i)
  {
  }

  /** A block after any text in which no opening fence begins is found,
      and its text is its body with trailing white space trimmed, when the
      body holds no fence and does not end in a backtick (which would run
      into the closing fence). */
  lemma {:induction false} BlockAfter(pre: string, lang: string, body: string, rest: string)
    requires forall j :: 0 <= j < |pre| ==> !OccursAt(pre + Fence + lang, Fence + lang, j)
    requires Absent(body, Fence) && (|body| > 0 ==> body[|body| - 1] != '`')
    ensures ExtractCodeBlock(pre + Fence + lang + "\n" + body + Fence + rest, lang) == Some(TrimEnd(RustBlanks, body))
  {
    var content := pre + Fence + lang + "\n" + body + Fence + rest;
    var tail := "\n" + body + Fence + rest;
    assert content == pre + Fence + lang + tail;
    BodyAfterOpening(pre, lang, tail);
    var s := |pre| + |Fence + lang| + 1;
    assert content[s..] == tail[1..] == body + Fence + rest;
    BlockFrom(content, lang, s, body, rest);
  }

  /** The body of the first block starts right after its opening fence and
      the newline that follows it. */
  lemma BodyAfterOpening(pre: string, lang: string, tail: string)
    requires forall j :: 0 <= j < |pre| ==> !OccursAt(pre + Fence + lang, Fence + lang, j)
    requires |tail| > 0 && tail[0] == '\n'
    ensures BodyStart(pre + Fence + lang + tail, lang) == Some(|pre| + |Fence + lang| + 1)
  {
    OpeningAfter(pre, lang, tail);
    var content := pre + Fence + lang + tail;
    assert content[|pre| + |Fence + lang|] == tail[0];
  }

  /** A body that starts at `s` and runs up to a fence is the block's text,
      trimmed. */
  lemma BlockFrom(content: string, lang: string, s: nat, body: string, rest: string)
    requires BodyStart(content, lang) == Some(s)
    requires content[s..] == body + Fence + rest
    requires Absent(body, Fence) && (|body| > 0 ==> body[|body| - 1] != '`')
    ensures ExtractCodeBlock(content, lang) == Some(TrimEnd(RustBlanks, body))
  {
    ClosingAfter(body, rest);
    assert content[s..][..|body|] == body;
  }

  /** A prefix of the text before the first fence holds no fence. */
  lemma PrefixAbsent(s: string, e: nat, t: string)
    requires e <= |s| && forall j :: 0 <= j < e ==> !OccursAt(s, Fence, j)
    requires |t| <= e && t == s[..|t|]
    ensures Absent(t, Fence)
  {
    forall j | 0 <= j <= |t|
      ensures !OccursAt(t, Fence, j)
    {
      if j + |Fence| <= |t| {
        assert !OccursAt(s, Fence, j);
        assert s[j..j + |Fence|] == t[j..j + |Fence|];
      }
    }
  }

  /** The first opening fence is the one right after a text in which none
      begins. */
  lemma OpeningAfter(pre: string, lang: string, tail: string)
    requires forall j :: 0 <= j < |pre| ==> !OccursAt(pre + Fence + lang, Fence + lang, j)
    ensures Find(pre + Fence + lang + tail, Fence + lang) == Some(|pre|)
  {
    var open := Fence + lang;
    var head := pre + Fence + lang;
    var content := head + tail;
    assert head == pre + open;
    assert content[..|head|] == head;
    assert OccursAt(content, open, |pre|) by {
      assert content[|pre|..|pre| + |open|] == head[|pre|..] == open;
    }
    forall j | 0 <= j < |pre|
      ensures !OccursAt(content, open, j)
    {
      assert !OccursAt(head, open, j);
      assert content[j..j + |open|] == head[j..j + |open|];
    }
    FindAt(content, open, |pre|);
  }

  /** The closing fence is the first fence after a body that holds none
      and does not end in a backtick. */
  lemma ClosingAfter(body: string, rest: string)
    requires Absent(body, Fence) && (|body| > 0 ==> body[|body| - 1] != '`')
    ensures Find(body + Fence + rest, Fence) == Some(|body|)
  {
    var remaining := body + Fence + rest;
    assert OccursAt(remaining, Fence, |body|) by {
      assert remaining[|body|..|body| + 3] == Fence;
    }
    forall j | 0 <= j < |body|
      ensures !OccursAt(remaining, Fence, j)
    {
      if j + 3 <= |body| {
        assert remaining[j..j + 3] == body[j..j + 3];
        assert !OccursAt(body, Fence, j);
      } else {
        assert remaining[|body| - 1] == body[|body| - 1] != '`';
      }
    }
    FindAt(remaining, Fence, |body|);
  }

  /** A block at the very front is found. */
  lemma LeadingBlock(lang: string, body: string, rest: string)
    requires Absent(body, Fence) && (|body| > 0 ==> body[|body| - 1] != '`')
    ensures ExtractCodeBlock(Fence + lang + "\n" + body + Fence + rest, lang) == Some(TrimEnd(RustBlanks, body))
  {
    BlockAfter("", lang, body, rest);
    assert "" + Fence == Fence;
  }

  /** Trailing white space does not change what a trim leaves. */
  lemma TrimEndNewline(t: string)
    ensures TrimEnd(RustBlanks, t + "\n") == TrimEnd(RustBlanks, t)
  {
    assert (t + "\n")[..|t|] == t;
  }

  /** A newline after a text without fences does not make one. */
  lemma AbsentThroughNewline(t: string)
    requires Absent(t, Fence)
    ensures Absent(t + "\n", Fence)
  {
    var body := t + "\n";
    forall j | 0 <= j <= |body|
      ensures !OccursAt(body, Fence, j)
    {
      if j + 3 <= |t| {
        assert body[j..j + 3] == t[j..j + 3];
        assert !OccursAt(t, Fence, j);
      } else if j + 3 <= |body| {
        assert body[j..j + 3][|t| - j] == body[|t|] == '\n';
      }
    }
  }

  /** A block opened and never closed yields nothing. */
  lemma {:induction false} UnclosedBlock(lang: string, body: string)
    requires Absent(body, Fence)
    ensures ExtractCodeBlock(Fence + lang + "\n" + body, lang).None?
  {
    var content := Fence + lang + "\n" + body;
    var open := Fence + lang;
    assert content[..|open|] == open;
    assert OccursAt(content, open, 0);
    FindAt(content, open, 0);
    assert content[|open|] == '\n';
    assert content[|open| + 1..] == body;
  }

  /** Reading back what was written yields what the JSON reader makes of
      the pretty JSON text, whenever that text holds no fence; with a JSON
      codec that reads its own output back, the value itself. */
  lemma {:induction false} SerializeRoundTrip(c: MarkdownCodecs, v: Value)
    requires c.jsonEnabled && c.toPrettyJson(v).Ok?
    requires Absent(c.toPrettyJson(v).value, Fence)
    ensures MarkdownSerialize(c, v).Ok?
    ensures MarkdownDeserialize(c, MarkdownSerialize(c, v).value)
         == SerdeError(c.fromJson(TrimEnd(RustBlanks, c.toPrettyJson(v).value)))
    ensures c.fromJson(TrimEnd(RustBlanks, c.toPrettyJson(v).value)) == Ok(v)
         ==> MarkdownDeserialize(c, MarkdownSerialize(c, v).value) == Ok(v)
  {
    var t := c.toPrettyJson(v).value;
    var body := t + "\n";
    AbsentThroughNewline(t);
    LeadingBlock("json", body, "");
    TrimEndNewline(t);
    WrittenBlock(t);
    var content := MarkdownSerialize(c, v).value;
    assert ExtractCodeBlock(content, "json") == Some(TrimEnd(RustBlanks, t));
  }

  /** The text `serialize` writes is a leading json block. */
  lemma WrittenBlock(t: string)
    ensures Fence + "json\n" + t + "\n" + Fence == Fence + "json" + "\n" + (t + "\n") + Fence + ""
  {
  }
}
