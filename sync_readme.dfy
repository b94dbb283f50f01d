// The features-table part of the README sync script
// (scripts/sync_readme.py): collecting the feature names declared in the
// manifest's [features] table, rendering the README's features table from
// them and from the package metadata, and splicing that table into the
// README in place of the old one.
module ReadmeSync {
  import opened Wrappers
  import opened Seqs
  import opened Values
  import opened Text
  import opened PyStrings

  // ------------------------------------------------------ manifest keys

  predicate IsKeyChar(c: char)
  {
    ('A' <= c <= 'Z') || ('a' <= c <= 'z') || ('0' <= c <= '9') || c == '_' || c == '-'
  }

  /** A feature name as the key pattern accepts it. */
  predicate IsKeyName(k: string)
  {
    |k| > 0 && forall i :: 0 <= i < |k| ==> IsKeyChar(k[i])
  }

  /** The length of the longest prefix made of key characters. */
  function KeyRun(s: string): (n: nat)
    ensures n <= |s| && forall i :: 0 <= i < n ==> IsKeyChar(s[i])
    ensures n < |s| ==> !IsKeyChar(s[n])
  {
    if |s| == 0 || !IsKeyChar(s[0]) then 0 else 1 + KeyRun(s[1..])
  }

  /** The key pattern `^([A-Za-z0-9_-]+)\s*=`: the run of key characters at
      the start, when white space and then `=` follow it. The run is
      maximal, so backtracking into it could never reach an `=`. */
  function KeyOf(line: string): (k: Option<string>)
    ensures k.Some? ==> IsKeyName(k.value) && StartsWith(line, k.value)
    ensures k.Some? ==> var rest := TrimStart(PythonBlanks, line[|k.value|..]); |rest| > 0 && rest[0] == '='
    ensures k.None? ==> KeyRun(line) == 0 || var rest := TrimStart(PythonBlanks, line[KeyRun(line)..]); |rest| == 0 || rest[0] != '='
  {
    var n := KeyRun(line);
    var rest := TrimStart(PythonBlanks, line[n..]);
    if n > 0 && |rest| > 0 && rest[0] == '=' then Some(line[..n]) else None
  }

  /** What one manifest line is to the key scanner. */
  datatype ManifestLine =
    | Skipped                    // blank or a comment
    | Section(isFeatures: bool)  // a `[table]` heading
    | Stray                      // starts with `[` but is no heading
    | Entry(key: Option<string>) // anything else: a key line or not

  function ClassifyManifestLine(raw: string): (c: ManifestLine)
    ensures c.Entry? && c.key.Some? ==> IsKeyName(c.key.value)
  {
    var line := Trim(PythonBlanks, raw);
    if line == "" || StartsWith(line, "#") then Skipped
    else if StartsWith(line, "[") && EndsWith(line, "]") then Section(line == "[features]")
    else if StartsWith(line, "[") then Stray
    else Entry(KeyOf(Trim(PythonBlanks, BeforeFirst(line, '#'))))
  }

  /** Every line of a text, classified. */
  function Classified(lines: seq<string>): (cs: seq<ManifestLine>)
    ensures |cs| == |lines| && forall i :: 0 <= i < |lines| ==> cs[i] == ClassifyManifestLine(lines[i])
  {
    seq(|lines|, i requires 0 <= i < |lines| => ClassifyManifestLine(lines[i]))
  }

  /** The keys the scanner collects from classified lines, starting inside
      or outside the [features] table: headings switch the table, and a
      stray `[` line inside it ends the scan. */
  function KeysFrom(cs: seq<ManifestLine>, inFeatures: bool): (keys: seq<string>)
    ensures |keys| <= |cs|
  {
    if |cs| == 0 then []
    else
      match cs[0]
      case Skipped => KeysFrom(cs[1..], inFeatures)
      case Section(f) => KeysFrom(cs[1..], f)
      case Stray => if inFeatures then [] else KeysFrom(cs[1..], inFeatures)
      case Entry(k) =>
        if inFeatures && k.Some? then [k.value] + KeysFrom(cs[1..], inFeatures)
        else KeysFrom(cs[1..], inFeatures)
  }

  /** The feature keys of a manifest's text. */
  function FeatureKeys(manifest: string): seq<string>
  {
    KeysFrom(Classified(SplitLines(manifest)), false)
  }

  /** The scan loop of `parse_feature_keys_from_manifest`, over the
      classified lines: it keeps whether it is inside the table and the
      keys so far, and stops at a stray `[` line inside the table. */
  method ScanKeys(cs: seq<ManifestLine>) returns (keys: seq<string>)
    ensures keys == KeysFrom(cs, false)
  {
    var inFeatures := false;
    keys := [];
    var i := 0;
    while i < |cs|
      invariant 0 <= i <= |cs|
      invariant keys + KeysFrom(cs[i..], inFeatures) == KeysFrom(cs, false)
    {
      assert cs[i..][1..] == cs[i + 1..];
      match cs[i] {
        case Skipped =>
        case Section(f) =>
          inFeatures := f;
        case Stray =>
          if inFeatures {
            return;
          }
        case Entry(k) =>
          if inFeatures && k.Some? {
            keys := keys + [k.value];
          }
      }
      i := i + 1;
    }
  }

  /** `parse_feature_keys_from_manifest`. What a line is does not depend
      on the scan's state, so each line is classified and the scan runs
      over the classes. */
  method ParseFeatureKeys(manifest: string) returns (keys: seq<string>)
    ensures keys == FeatureKeys(manifest)
  {
    keys := ScanKeys(Classified(SplitLines(manifest)));
  }

  // ------------------------------------------------------ table order

  const Preferred: seq<string> :=
    ["plaintext", "json", "yaml", "toml", "ini", "xml", "csv", "custom", "async", "miette", "sarge", "full"]

  /** `list.remove`: the first occurrence goes. */
  function RemoveFirst(s: seq<string>, x: string): (r: seq<string>)
    ensures x in s ==> multiset(r) == multiset(s) - multiset{x} && |r| == |s| - 1
    ensures x !in s ==> r == s
  {
    if |s| == 0 then []
    else if s[0] == x then
      assert s == [s[0]] + s[1..];
      s[1..]
    else
      assert s == [s[0]] + s[1..];
      [s[0]] + RemoveFirst(s[1..], x)
  }

  /** The names that are not `default`, in order. */
  function NonDefault(keys: seq<string>): (names: seq<string>)
    ensures forall i :: 0 <= i < |names| ==> names[i] != "default"
    ensures forall x :: x in names <==> x in keys && x != "default"
  {
    if |keys| == 0 then []
    else (if keys[0] == "default" then [] else [keys[0]]) + NonDefault(keys[1..])
  }

  /** The preferred names present, in their fixed order, then the rest
      sorted, each present name taken out of the rest once. */
  function OrderFrom(prefs: seq<string>, names: seq<string>): (r: seq<string>)
    ensures multiset(r) == multiset(names)
  {
    if |prefs| == 0 then Sort(names)
    else if prefs[0] in names then
      var rest := OrderFrom(prefs[1..], RemoveFirst(names, prefs[0]));
      assert multiset(names) == multiset(RemoveFirst(names, prefs[0])) + multiset{prefs[0]};
      [prefs[0]] + rest
    else OrderFrom(prefs[1..], names)
  }

  function OrderedFeatures(keys: seq<string>): (ordered: seq<string>)
    ensures multiset(ordered) == multiset(NonDefault(keys))
    ensures forall i :: 0 <= i < |ordered| ==> ordered[i] != "default" && ordered[i] in keys
  {
    var r := OrderFrom(Preferred, NonDefault(keys));
    assert forall i :: 0 <= i < |r| ==> r[i] in multiset(NonDefault(keys));
    r
  }

  /** The ordering loop of `generate_features_table`. */
  method OrderFeatures(keys: seq<string>) returns (ordered: seq<string>)
    ensures ordered == OrderedFeatures(keys)
  {
    ordered := OrderNames(Preferred, NonDefault(keys));
  }

  /** The loop itself, over any list of preferred names. */
  method OrderNames(prefs: seq<string>, names: seq<string>) returns (ordered: seq<string>)
    ensures ordered == OrderFrom(prefs, names)
  {
    var rest := names;
    ordered := [];
    for i := 0 to |prefs|
      invariant ordered + OrderFrom(prefs[i..], rest) == OrderFrom(prefs, names)
    {
      var p := prefs[i];
      OrderStep(prefs[i..], rest);
      assert prefs[i..][0] == p && prefs[i..][1..] == prefs[i + 1..];
      if p in rest {
        AppendAssoc(ordered, [p], OrderFrom(prefs[i + 1..], RemoveFirst(rest, p)));
        ordered := ordered + [p];
        rest := RemoveFirst(rest, p);
      }
    }
    assert prefs[|prefs|..] == [];
    ordered := ordered + Sort(rest);
  }

  /** One step of the ordering: the first preferred name is taken when it
      is present and skipped otherwise. */
  lemma OrderStep(prefs: seq<string>, names: seq<string>)
    requires |prefs| > 0
    ensures prefs[0] in names ==>
      OrderFrom(prefs, names) == [prefs[0]] + OrderFrom(prefs[1..], RemoveFirst(names, prefs[0]))
    ensures prefs[0] !in names ==> OrderFrom(prefs, names) == OrderFrom(prefs[1..], names)
  {
  }

  // ------------------------------------------------------- table rows

  /** The description column. */
  function Description(name: string): string
  {
    match name
    case "plaintext" => "Plaintext format support"
    case "json" => "JSON format support"
    case "yaml" => "YAML format support"
    case "toml" => "TOML format support"
    case "ini" => "INI/\".ini\" config support"
    case "xml" => "XML format support"
    case "csv" => "CSV format support"
    case "custom" => "Custom formats via registry"
    case "async" => "Async I/O with Tokio"
    case "miette" => "Pretty error reporting"
    case "sarge" => "Sarge-based CLI helpers"
    case "full" => "All core features"
    case _ => "Optional feature"
  }

  /** The mark the Default column carries, as the script spells it. */
  const DefaultMarkAsWritten := "\U{E2}\U{153}\U{201C}"

  /** The mark the Default column is meant to carry: a check mark. */
  const DefaultMark := "\U{2713}"

  const DefaultsMessage := "cargo metadata features.default must be an array."
  const NoFeaturesMessage := "No features found in Cargo.toml [features] section."

  /** The strings among a list's items. */
  function StringItems(items: seq<Value>): (r: seq<string>)
    ensures forall x :: x in r <==> Str(x) in items
  {
    if |items| == 0 then []
    else (if items[0].Str? then [items[0].s] else []) + StringItems(items[1..])
  }

  /** The default features: a missing or null entry is none, a non-list
      entry is an error, and non-string items are ignored. */
  function DefaultFeatures(fmap: map<string, Value>): (r: Result<set<string>, string>)
    ensures r.Err? <==> "default" in fmap && !fmap["default"].Null? && !fmap["default"].Array?
    ensures r.Err? ==> r.error == DefaultsMessage
    ensures r.Ok? ==> forall x :: x in r.value <==> "default" in fmap && fmap["default"].Array? && Str(x) in fmap["default"].items
  {
    var raw := if "default" in fmap then fmap["default"] else Array([]);
    if raw.Null? then Ok({})
    else if !raw.Array? then Err(DefaultsMessage)
    else Ok(set x | x in StringItems(raw.items))
  }

  /** `implied_features`: the listed features that are declared keys,
      `default` excepted, in list order. */
  function Implied(keys: seq<string>, fmap: map<string, Value>, name: string): (r: seq<string>)
    ensures forall i :: 0 <= i < |r| ==> r[i] in keys && r[i] != "default"
  {
    if name in fmap && fmap[name].Array? then Declared(keys, StringItems(fmap[name].items)) else []
  }

  function Declared(keys: seq<string>, xs: seq<string>): (r: seq<string>)
    ensures forall i :: 0 <= i < |r| ==> r[i] in keys && r[i] != "default"
  {
    if |xs| == 0 then []
    else (if xs[0] in keys && xs[0] != "default" then [xs[0]] else []) + Declared(keys, xs[1..])
  }

  /** The names of `s` without repeats, first occurrences kept. */
  function Dedup(s: seq<string>): (r: seq<string>)
    ensures Distinct(r) && forall x :: x in r <==> x in s
  {
    if |s| == 0 then []
    else
      var rest := Dedup(s[..|s| - 1]);
      assert forall x :: x in s <==> x in s[..|s| - 1] || x == s[|s| - 1] by {
        assert s == s[..|s| - 1] + [s[|s| - 1]];
      }
      if s[|s| - 1] in rest then rest else rest + [s[|s| - 1]]
  }

  /** `full_missing`: when `full` is declared, the other declared features
      it does not enable, sorted; otherwise none. */
  function FullMissing(keys: seq<string>, fmap: map<string, Value>): (r: seq<string>)
    ensures "full" !in keys ==> r == []
    ensures Sorted(r) && Distinct(r)
  {
    if "full" in keys then
      var missing := Dedup(Without(NonDefault(keys), Implied(keys, fmap, "full") + ["full"]));
      SortedDistinct(missing);
      Sort(missing)
    else []
  }

  /** The elements of `s` not in `out`, in order. */
  function Without(s: seq<string>, out: seq<string>): seq<string>
  {
    if |s| == 0 then []
    else (if s[0] in out then [] else [s[0]]) + Without(s[1..], out)
  }

  lemma {:induction false} WithoutMembers(s: seq<string>, out: seq<string>)
    ensures forall x :: x in Without(s, out) <==> x in s && x !in out
  {
    if |s| > 0 {
      WithoutMembers(s[1..], out);
      InTail(s);
    }
  }

  /** What `full` leaves out: every declared feature other than `default`
      and `full` itself that `full` does not list, and nothing else. */
  lemma FullMissingMembers(keys: seq<string>, fmap: map<string, Value>)
    ensures forall x :: x in FullMissing(keys, fmap) <==>
      "full" in keys && x in keys && x != "default" && x != "full" && x !in Implied(keys, fmap, "full")
  {
    if "full" in keys {
      var out := Implied(keys, fmap, "full") + ["full"];
      var w := Without(NonDefault(keys), out);
      var missing := Dedup(w);
      WithoutMembers(NonDefault(keys), out);
      var r := Sort(missing);
      assert forall x :: x in r <==> x in missing by {
        assert forall x :: x in r <==> x in multiset(missing);
      }
    }
  }

  function Backticked(xs: seq<string>): (r: seq<string>)
    ensures |r| == |xs| && forall i :: 0 <= i < |xs| ==> r[i] == "`" + xs[i] + "`"
  {
    seq(|xs|, i requires 0 <= i < |xs| => "`" + xs[i] + "`")
  }

  /** The Notes column: what `full` leaves out, or what another feature
      enables. */
  function Notes(keys: seq<string>, fmap: map<string, Value>, name: string): (n: string)
    ensures name == "full" && FullMissing(keys, fmap) != [] ==>
      n == "Excludes " + Join(", ", Backticked(FullMissing(keys, fmap)))
    ensures name != "full" && Implied(keys, fmap, name) != [] ==>
      n == "Enables " + Join(", ", Backticked(Implied(keys, fmap, name)))
    ensures n == "" <==> (name == "full" && FullMissing(keys, fmap) == []) || (name != "full" && Implied(keys, fmap, name) == [])
  {
    if name == "full" && FullMissing(keys, fmap) != [] then
      "Excludes " + Join(", ", Backticked(FullMissing(keys, fmap)))
    else if name != "full" && Implied(keys, fmap, name) != [] then
      "Enables " + Join(", ", Backticked(Implied(keys, fmap, name)))
    else ""
  }

  type Cells = seq<string>

  const Header: Cells := ["Feature", "Description", "Default", "Notes"]

  /** A feature's name as its table cell shows it. */
  function NameCell(name: string): string
  {
    "`" + name + "`"
  }

  /** One feature's row. */
  function FeatureRow(keys: seq<string>, fmap: map<string, Value>, defaults: set<string>, name: string): (row: Cells)
    ensures |row| == 4 && row[0] == NameCell(name) && row[1] == Description(name)
    ensures row[2] == (if name in defaults then DefaultMark else "")
    ensures row[3] == Notes(keys, fmap, name)
  {
    [NameCell(name), Description(name), if name in defaults then DefaultMark else "", Notes(keys, fmap, name)]
  }

  function Rows(keys: seq<string>, fmap: map<string, Value>, defaults: set<string>, ordered: seq<string>)
    : (rows: seq<Cells>)
    ensures |rows| == |ordered|
    ensures forall i :: 0 <= i < |ordered| ==> rows[i] == FeatureRow(keys, fmap, defaults, ordered[i])
  {
    seq(|ordered|, i requires 0 <= i < |ordered| => FeatureRow(keys, fmap, defaults, ordered[i]))
  }

  // -------------------------------------------------------- rendering

  function Max(a: nat, b: nat): nat
  {
    if a < b then b else a
  }

  /** The widest cell of column `c`, the header's included. */
  function ColumnWidth(rows: seq<Cells>, c: nat, w: nat): (r: nat)
    requires forall i :: 0 <= i < |rows| ==> c < |rows[i]|
    ensures r >= w && forall i :: 0 <= i < |rows| ==> r >= |rows[i][c]|
    ensures r == w || exists i :: 0 <= i < |rows| && r == |rows[i][c]|
  {
    if |rows| == 0 then w
    else
      var r := ColumnWidth(rows[1..], c, Max(w, |rows[0][c]|));
      assert forall i :: 1 <= i < |rows| ==> rows[1..][i - 1] == rows[i];
      r
  }

  function Widths(rows: seq<Cells>): (ws: seq<nat>)
    requires forall i :: 0 <= i < |rows| ==> |rows[i]| == 4
    ensures |ws| == 4
    ensures forall c :: 0 <= c < 4 ==> ws[c] >= |Header[c]|
    ensures forall c, i :: 0 <= c < 4 && 0 <= i < |rows| ==> ws[c] >= |rows[i][c]|
  {
    seq(4, c requires 0 <= c < 4 => ColumnWidth(rows, c, |Header[c]|))
  }

  function Padded(cells: Cells, ws: seq<nat>): (ps: seq<string>)
    requires |cells| == |ws|
    ensures |ps| == |ws| && forall i :: 0 <= i < |ws| ==> ps[i] == Ljust(cells[i], ws[i])
  {
    seq(|ws|, i requires 0 <= i < |ws| => Ljust(cells[i], ws[i]))
  }

  /** A table line: the cells padded to the column widths, between bars. */
  function RenderRow(cells: Cells, ws: seq<nat>): string
    requires |cells| == |ws|
  {
    "| " + Join(" | ", Padded(cells, ws)) + " |"
  }

  function SeparatorRow(ws: seq<nat>): string
  {
    "| " + Join(" | ", seq(|ws|, i requires 0 <= i < |ws| => Repeat('-', ws[i]))) + " |"
  }

  /** `generate_features_table`. */
  function FeaturesTable(keys: seq<string>, fmap: map<string, Value>): (r: Result<seq<string>, string>)
    ensures r.Ok? ==> |r.value| == |OrderedFeatures(keys)| + 2
  {
    match DefaultFeatures(fmap)
    case Err(m) => Err(m)
    case Ok(defaults) =>
      var ordered := OrderedFeatures(keys);
      var rows := Rows(keys, fmap, defaults, ordered);
      if |rows| == 0 then Err(NoFeaturesMessage)
      else
        Ok(TableLines(rows))
  }

  /** The header line, the separator line and a line per row, every
      column as wide as its widest cell. */
  function TableLines(rows: seq<Cells>): (lines: seq<string>)
    requires forall i :: 0 <= i < |rows| ==> |rows[i]| == 4
    ensures |lines| == |rows| + 2
  {
    var ws := Widths(rows);
    [RenderRow(Header, ws), SeparatorRow(ws)] + RenderRows(rows, ws)
  }

  function RenderRows(rows: seq<Cells>, ws: seq<nat>): (lines: seq<string>)
    requires forall i :: 0 <= i < |rows| ==> |rows[i]| == |ws|
    ensures |lines| == |rows| && forall i :: 0 <= i < |rows| ==> lines[i] == RenderRow(rows[i], ws)
  {
    seq(|rows|, i requires 0 <= i < |rows| => RenderRow(rows[i], ws))
  }

  /** The row loop: one row per ordered feature. */
  method BuildRows(keys: seq<string>, fmap: map<string, Value>, defaults: set<string>, ordered: seq<string>)
    returns (rows: seq<Cells>)
    ensures rows == Rows(keys, fmap, defaults, ordered)
  {
    rows := [];
    for i := 0 to |ordered|
      invariant |rows| == i
      invariant forall k :: 0 <= k < i ==> rows[k] == FeatureRow(keys, fmap, defaults, ordered[k])
    {
      var row := FeatureRow(keys, fmap, defaults, ordered[i]);
      rows := rows + [row];
    }
  }

  /** The line loop: the header line, the separator, then one line per row. */
  method RenderLines(rows: seq<Cells>, ws: seq<nat>) returns (lines: seq<string>)
    requires forall i :: 0 <= i < |rows| ==> |rows[i]| == 4
    requires |ws| == 4
    ensures lines == [RenderRow(Header, ws), SeparatorRow(ws)] + RenderRows(rows, ws)
  {
    var head := [RenderRow(Header, ws), SeparatorRow(ws)];
    lines := AppendRows(head, rows, ws);
  }

  /** The loop that appends one rendered line per row. */
  method AppendRows(head: seq<string>, rows: seq<Cells>, ws: seq<nat>) returns (lines: seq<string>)
    requires forall i :: 0 <= i < |rows| ==> |rows[i]| == |ws|
    ensures lines == head + RenderRows(rows, ws)
  {
    lines := head;
    for i := 0 to |rows|
      invariant |lines| == |head| + i
      invariant lines[..|head|] == head
      invariant forall k :: 0 <= k < i ==> lines[|head| + k] == RenderRow(rows[k], ws)
    {
      lines := lines + [RenderRow(rows[i], ws)];
    }
    assert lines == head + RenderRows(rows, ws);
  }

  /** The table as the script builds it: the ordering loop, the row loop,
      then the line loop. */
  method GenerateFeaturesTable(keys: seq<string>, fmap: map<string, Value>) returns (r: Result<seq<string>, string>)
    ensures r == FeaturesTable(keys, fmap)
  {
    var d := DefaultFeatures(fmap);
    if d.Err? {
      return Err(d.error);
    }
    var ordered := OrderFeatures(keys);
    var rows := BuildRows(keys, fmap, d.value, ordered);
    if |rows| == 0 {
      return Err(NoFeaturesMessage);
    }
    var lines := RenderLines(rows, Widths(rows));
    return Ok(lines);
  }

  // ------------------------------------------------------------ splice

  const Heading := "## Features"
  const MissingHeading := "README.md is missing a '## Features' section."
  const MissingTable := "README.md is missing a features table under '## Features'."

  predicate IsHeading(line: string)
  {
    Trim(PythonBlanks, line) == Heading
  }

  predicate IsTableHead(line: string)
  {
    StartsWith(TrimStart(PythonBlanks, line), "| Feature")
  }

  predicate IsTableLine(line: string)
  {
    StartsWith(TrimStart(PythonBlanks, line), "|")
  }

  /** The first line at or after `k` that satisfies `p`. */
  function FirstFrom(lines: seq<string>, k: nat, p: string -> bool): (r: Option<nat>)
    requires k <= |lines|
    ensures r.Some? ==> k <= r.value < |lines| && p(lines[r.value])
    ensures r.Some? ==> forall j :: k <= j < r.value ==> !p(lines[j])
    ensures r.None? ==> forall j :: k <= j < |lines| ==> !p(lines[j])
    decreases |lines| - k
  {
    if k == |lines| then None else if p(lines[k]) then Some(k) else FirstFrom(lines, k + 1, p)
  }

  /** The end of the run of lines satisfying `p` that starts at `k`. */
  function RunEnd(lines: seq<string>, k: nat, p: string -> bool): (e: nat)
    requires k <= |lines|
    ensures k <= e <= |lines|
    ensures forall j :: k <= j < e ==> p(lines[j])
    ensures e < |lines| ==> !p(lines[e])
    decreases |lines| - k
  {
    if k < |lines| && p(lines[k]) then RunEnd(lines, k + 1, p) else k
  }

  /** The first heading line at or after `k`. */
  function HeadingFrom(lines: seq<string>, k: nat): Option<nat>
    requires k <= |lines|
  {
    FirstFrom(lines, k, IsHeading)
  }

  /** The first table head at or after `k`. */
  function TableHeadFrom(lines: seq<string>, k: nat): Option<nat>
    requires k <= |lines|
  {
    FirstFrom(lines, k, IsTableHead)
  }

  /** The end of the run of table lines starting at `k`. */
  function TableEnd(lines: seq<string>, k: nat): nat
    requires k <= |lines|
  {
    RunEnd(lines, k, IsTableLine)
  }

  function Terminated(table: seq<string>): (r: seq<string>)
    ensures |r| == |table| && forall i :: 0 <= i < |table| ==> r[i] == table[i] + "\n"
  {
    seq(|table|, i requires 0 <= i < |table| => table[i] + "\n")
  }

  /** `replace_features_table`. */
  function ReplaceTable(readme: string, table: seq<string>): (r: Result<string, string>)
    ensures r.Err? ==> r.error == MissingHeading || r.error == MissingTable
  {
    var lines := SplitLinesKeep(readme);
    match HeadingFrom(lines, 0)
    case None => Err(MissingHeading)
    case Some(h) =>
      match TableHeadFrom(lines, h)
      case None => Err(MissingTable)
      case Some(s) =>
        var e := TableEnd(lines, s);
        Ok(Concat(lines[..s] + Terminated(table) + lines[e..]))
  }

  /** The script's three scans (heading, table head, table end) and the
      splice. */
  method ReplaceFeaturesTable(readme: string, table: seq<string>) returns (r: Result<string, string>)
    ensures r == ReplaceTable(readme, table)
  {
    var lines := SplitLinesKeep(readme);
    var heading: Option<nat> := None;
    for idx := 0 to |lines|
      invariant HeadingFrom(lines, 0) == HeadingFrom(lines, idx)
    {
      if IsHeading(lines[idx]) {
        heading := Some(idx);
        break;
      }
    }
    if heading.None? {
      return Err(MissingHeading);
    }
    var h := heading.value;
    var start: Option<nat> := None;
    for idx := h to |lines|
      invariant TableHeadFrom(lines, h) == TableHeadFrom(lines, idx)
    {
      if IsTableHead(lines[idx]) {
        start := Some(idx);
        break;
      }
    }
    if start.None? {
      return Err(MissingTable);
    }
    var s := start.value;
    var e := s;
    while e < |lines| && IsTableLine(lines[e])
      invariant s <= e <= |lines| && TableEnd(lines, s) == TableEnd(lines, e)
    {
      e := e + 1;
    }
    var replacement := Terminated(table);
    r := Ok(Concat(lines[..s] + replacement + lines[e..]));
  }

  // ------------------------------------------------------------- lemmas

  /** Every key collected is a feature name. */
  lemma {:induction false} KeysAreNames(cs: seq<ManifestLine>, inFeatures: bool)
    requires forall i :: 0 <= i < |cs| && cs[i].Entry? && cs[i].key.Some? ==> IsKeyName(cs[i].key.value)
    ensures forall k :: k in KeysFrom(cs, inFeatures) ==> IsKeyName(k)
  {
    if |cs| > 0 {
      var next := if cs[0].Section? then cs[0].isFeatures else inFeatures;
      assert forall i :: 0 <= i < |cs[1..]| ==> cs[1..][i] == cs[i + 1];
      KeysAreNames(cs[1..], next);
    }
  }

  /** The keys of a manifest are feature names. */
  lemma ManifestKeysAreNames(manifest: string)
    ensures forall k :: k in FeatureKeys(manifest) ==> IsKeyName(k)
  {
    KeysAreNames(Classified(SplitLines(manifest)), false);
  }

  /** Without a [features] heading there are no keys. */
  lemma {:induction false} NoFeaturesNoKeys(cs: seq<ManifestLine>)
    requires forall i :: 0 <= i < |cs| ==> cs[i] != Section(true)
    ensures KeysFrom(cs, false) == []
  {
    if |cs| > 0 {
      assert forall i :: 0 <= i < |cs[1..]| ==> cs[1..][i] == cs[i + 1];
      NoFeaturesNoKeys(cs[1..]);
    }
  }

  /** The key an entry contributes inside the table. */
  function EntryKey(c: ManifestLine): Option<string>
  {
    if c.Entry? then c.key else None
  }

  /** Inside the table, a run of comment, blank and entry lines gives the
      keys of its entry lines, in order. */
  lemma {:induction false} SectionKeys(body: seq<ManifestLine>)
    requires forall i :: 0 <= i < |body| ==> body[i].Skipped? || body[i].Entry?
    ensures KeysFrom(body, true) == FilterMap(body, EntryKey)
  {
    if |body| > 0 {
      var rest := body[1..];
      assert forall i :: 0 <= i < |rest| ==> rest[i] == body[i + 1];
      SectionKeys(rest);
      FilterMapCons(body[0], rest, EntryKey);
      assert [body[0]] + rest == body;
    }
  }

  /** A [features] heading starts the table: what precedes it without a
      heading contributes nothing, and what follows it is read as the
      table's body. */
  lemma {:induction false} KeysAfterHeading(pre: seq<ManifestLine>, body: seq<ManifestLine>)
    requires forall i :: 0 <= i < |pre| ==> !pre[i].Section?
    ensures KeysFrom(pre + [Section(true)] + body, false) == KeysFrom(body, true)
  {
    if |pre| > 0 {
      assert (pre + [Section(true)] + body)[1..] == pre[1..] + [Section(true)] + body;
      KeysAfterHeading(pre[1..], body);
    } else {
      assert (pre + [Section(true)] + body)[1..] == body;
    }
  }

  /** The splice changes the table's lines and nothing else: the text
      before the table and after its run of `|` lines is kept as it was. */
  lemma ReplaceKeepsRest(readme: string, table: seq<string>)
    requires ReplaceTable(readme, table).Ok?
    ensures var lines := SplitLinesKeep(readme);
            var h := HeadingFrom(lines, 0).value;
            var s := TableHeadFrom(lines, h).value;
            var e := TableEnd(lines, s);
            readme == Concat(lines[..s]) + Concat(lines[s..e]) + Concat(lines[e..])
            && ReplaceTable(readme, table).value == Concat(lines[..s]) + Concat(Terminated(table)) + Concat(lines[e..])
            && h <= s < e
  {
    var lines := SplitLinesKeep(readme);
    var h := HeadingFrom(lines, 0).value;
    var s := TableHeadFrom(lines, h).value;
    var e := TableEnd(lines, s);
    HeadIsLine(lines[s]);
    SpliceParts(lines, s, e, Terminated(table));
    assert ReplaceTable(readme, table).value == Concat(lines[..s] + Terminated(table) + lines[e..]);
  }

  lemma HeadIsLine(line: string)
    requires IsTableHead(line)
    ensures IsTableLine(line)
  {
    var t := TrimStart(PythonBlanks, line);
    assert t[..|"| Feature"|][0] == '|';
  }

  /** Putting `middle` in place of `lines[s..e]` keeps the text on
      either side. */
  lemma SpliceParts(lines: seq<string>, s: nat, e: nat, middle: seq<string>)
    requires s <= e <= |lines|
    ensures Concat(lines) == Concat(lines[..s]) + Concat(lines[s..e]) + Concat(lines[e..])
    ensures Concat(lines[..s] + middle + lines[e..]) == Concat(lines[..s]) + Concat(middle) + Concat(lines[e..])
  {
    SplitAt(lines, s, e);
    ConcatAppend(lines[..s] + middle, lines[e..]);
    ConcatAppend(lines[..s], middle);
  }

  /** The splice fails for want of a heading exactly when no line reads
      `## Features`. */
  lemma MissingHeadingExactly(readme: string, table: seq<string>)
    ensures (ReplaceTable(readme, table) == Err(MissingHeading))
        <==> (forall i :: 0 <= i < |SplitLinesKeep(readme)| ==> !IsHeading(SplitLinesKeep(readme)[i]))
  {
    var lines := SplitLinesKeep(readme);
    match HeadingFrom(lines, 0)
    case None =>
    case Some(h) =>
      assert ReplaceTable(readme, table) != Err(MissingHeading);
      assert IsHeading(lines[h]);
  }

  /** The splice fails for want of a table exactly when there is a heading
      and no line from the first heading on opens with `| Feature`. */
  lemma MissingTableExactly(readme: string, table: seq<string>)
    ensures var lines := SplitLinesKeep(readme);
            (ReplaceTable(readme, table) == Err(MissingTable))
            <==> (HeadingFrom(lines, 0).Some?
                  && forall i :: HeadingFrom(lines, 0).value <= i < |lines| ==> !IsTableHead(lines[i]))
  {
  }

  /** The sort of distinct strings is distinct. */
  lemma SortedDistinct(s: seq<string>)
    requires Distinct(s)
    ensures Distinct(Sort(s))
  {
    var r := Sort(s);
    forall i, j | 0 <= i < j < |r|
      ensures r[i] != r[j]
    {
      if r[i] == r[j] {
        RepeatCounts(r, i, j);
        DistinctCount(s, r[i]);
      }
    }
  }

  /** An element at two places is counted at least twice. */
  lemma RepeatCounts(r: seq<string>, i: nat, j: nat)
    requires i < j < |r| && r[i] == r[j]
    ensures multiset(r)[r[i]] >= 2
  {
    assert r == r[..j] + r[j..];
    assert multiset(r) == multiset(r[..j]) + multiset(r[j..]);
    assert r[..j][i] == r[i];
    assert r[j..][0] == r[i];
  }

  lemma {:induction false} DistinctCount(s: seq<string>, x: string)
    requires Distinct(s)
    ensures multiset(s)[x] <= 1
  {
    if |s| > 0 {
      assert s == [s[0]] + s[1..];
      assert Distinct(s[1..]) by {
        assert forall i, j :: 0 <= i < j < |s[1..]| ==> s[1..][i] == s[i + 1] && s[1..][j] == s[j + 1];
      }
      DistinctCount(s[1..], x);
      if s[0] == x {
        assert x !in s[1..];
      }
    }
  }

  // ------------------------------------------------- ordering, proved

  /** The preferred names that occur in `names`, in preference order. */
  function PresentIn(prefs: seq<string>, names: seq<string>): seq<string>
  {
    if |prefs| == 0 then []
    else (if prefs[0] in names then [prefs[0]] else []) + PresentIn(prefs[1..], names)
  }

  lemma {:induction false} PresentInSame(ps: seq<string>, a: seq<string>, b: seq<string>)
    requires forall i :: 0 <= i < |ps| ==> (ps[i] in a <==> ps[i] in b)
    ensures PresentIn(ps, a) == PresentIn(ps, b)
  {
    if |ps| > 0 {
      assert forall i :: 0 <= i < |ps[1..]| ==> ps[1..][i] == ps[i + 1];
      PresentInSame(ps[1..], a, b);
    }
  }

  lemma {:induction false} WithoutSame(s: seq<string>, a: seq<string>, b: seq<string>)
    requires forall i :: 0 <= i < |s| ==> (s[i] in a <==> s[i] in b)
    ensures Without(s, a) == Without(s, b)
  {
    if |s| > 0 {
      assert forall i :: 0 <= i < |s[1..]| ==> s[1..][i] == s[i + 1];
      WithoutSame(s[1..], a, b);
    }
  }

  lemma DistinctTail(s: seq<string>)
    requires Distinct(s) && |s| > 0
    ensures Distinct(s[1..]) && s[0] !in s[1..]
  {
    assert forall i :: 0 <= i < |s[1..]| ==> s[1..][i] == s[i + 1];
  }

  /** Taking the only occurrence of the first preferred name out of a
      list without repeats drops the same element as filtering by it. */
  lemma {:induction false} WithoutRemoved(s: seq<string>, prefs: seq<string>)
    requires Distinct(s) && |prefs| > 0
    ensures Without(RemoveFirst(s, prefs[0]), prefs[1..]) == Without(s, prefs)
  {
    if |s| > 0 {
      DistinctTail(s);
      InTail(prefs);
      if s[0] == prefs[0] {
        WithoutSame(s[1..], prefs[1..], prefs);
      } else {
        WithoutRemoved(s[1..], prefs);
        var x := RemoveFirst(s[1..], prefs[0]);
        assert ([s[0]] + x)[0] == s[0] && ([s[0]] + x)[1..] == x;
      }
    }
  }

  lemma RemoveFirstDistinct(s: seq<string>, p: string)
    requires Distinct(s) && p in s
    ensures Distinct(RemoveFirst(s, p)) && p !in RemoveFirst(s, p)
    ensures forall x :: x in RemoveFirst(s, p) <==> x in s && x != p
  {
    var r := RemoveFirst(s, p);
    DistinctCount(s, p);
    assert multiset(r)[p] == 0;
    forall x
      ensures x in r <==> x in s && x != p
    {
      assert x in r <==> x in multiset(r);
      assert x in s <==> x in multiset(s);
    }
    forall i, j | 0 <= i < j < |r|
      ensures r[i] != r[j]
    {
      if r[i] == r[j] {
        RepeatCounts(r, i, j);
        DistinctCount(s, r[i]);
      }
    }
  }

  /** With no name repeated, the order is the preferred names present, in
      preference order, followed by all the other names sorted. */
  lemma {:induction false} OrderOfDistinct(prefs: seq<string>, names: seq<string>)
    requires Distinct(prefs) && Distinct(names)
    ensures OrderFrom(prefs, names) == PresentIn(prefs, names) + Sort(Without(names, prefs))
    decreases |prefs|
  {
    if |prefs| == 0 {
      WithoutNothing(names);
    } else {
      DistinctTail(prefs);
      if prefs[0] in names {
        RemoveFirstDistinct(names, prefs[0]);
        OrderOfDistinct(prefs[1..], RemoveFirst(names, prefs[0]));
        OrderTaken(prefs, names);
      } else {
        OrderOfDistinct(prefs[1..], names);
        OrderSkipped(prefs, names);
      }
    }
  }

  /** A preferred name that is present goes first, and out of the rest. */
  lemma OrderTaken(prefs: seq<string>, names: seq<string>)
    requires |prefs| > 0 && prefs[0] in names && prefs[0] !in prefs[1..]
    requires Distinct(names)
    requires var rest := RemoveFirst(names, prefs[0]);
      OrderFrom(prefs[1..], rest) == PresentIn(prefs[1..], rest) + Sort(Without(rest, prefs[1..]))
    ensures OrderFrom(prefs, names) == PresentIn(prefs, names) + Sort(Without(names, prefs))
  {
    var p, ps := prefs[0], prefs[1..];
    var rest := RemoveFirst(names, p);
    RemoveFirstDistinct(names, p);
    AgreeOutside(ps, rest, names, p);
    PresentInSame(ps, rest, names);
    WithoutRemoved(names, prefs);
    assert OrderFrom(prefs, names) == [p] + OrderFrom(ps, rest);
    PresentTake(prefs, names);
    AppendAssoc([p], PresentIn(ps, names), Sort(Without(names, prefs)));
  }

  lemma AgreeOutside(ps: seq<string>, a: seq<string>, b: seq<string>, p: string)
    requires p !in ps && forall x :: x in a <==> x in b && x != p
    ensures forall i :: 0 <= i < |ps| ==> (ps[i] in a <==> ps[i] in b)
  {
  }

  lemma AppendAssoc(a: seq<string>, b: seq<string>, c: seq<string>)
    ensures a + (b + c) == (a + b) + c
  {
  }

  /** A preferred name that is absent changes nothing. */
  lemma OrderSkipped(prefs: seq<string>, names: seq<string>)
    requires |prefs| > 0 && prefs[0] !in names
    requires OrderFrom(prefs[1..], names) == PresentIn(prefs[1..], names) + Sort(Without(names, prefs[1..]))
    ensures OrderFrom(prefs, names) == PresentIn(prefs, names) + Sort(Without(names, prefs))
  {
    assert OrderFrom(prefs, names) == OrderFrom(prefs[1..], names);
    PresentSkip(prefs, names);
    InTail(prefs);
    WithoutSame(names, prefs, prefs[1..]);
  }

  lemma PresentSkip(prefs: seq<string>, names: seq<string>)
    requires |prefs| > 0 && prefs[0] !in names
    ensures PresentIn(prefs, names) == PresentIn(prefs[1..], names)
  {
  }

  lemma PresentTake(prefs: seq<string>, names: seq<string>)
    requires |prefs| > 0 && prefs[0] in names
    ensures PresentIn(prefs, names) == [prefs[0]] + PresentIn(prefs[1..], names)
  {
  }

  lemma InTail(s: seq<string>)
    requires |s| > 0
    ensures forall x :: x in s <==> x == s[0] || x in s[1..]
  {
    assert s == [s[0]] + s[1..];
  }

  lemma {:induction false} WithoutNothing(s: seq<string>)
    ensures Without(s, []) == s
  {
    if |s| > 0 {
      WithoutNothing(s[1..]);
      assert s == [s[0]] + s[1..];
    }
  }

  lemma {:induction false} NonDefaultDistinct(keys: seq<string>)
    requires Distinct(keys)
    ensures Distinct(NonDefault(keys))
  {
    if |keys| > 0 {
      DistinctTail(keys);
      NonDefaultDistinct(keys[1..]);
      var rest := NonDefault(keys[1..]);
      assert keys[0] !in rest;
      if keys[0] != "default" {
        assert NonDefault(keys) == [keys[0]] + rest;
        forall i, j | 0 <= i < j < |NonDefault(keys)|
          ensures NonDefault(keys)[i] != NonDefault(keys)[j]
        {
          if i > 0 {
            assert NonDefault(keys)[i] == rest[i - 1];
          }
          assert NonDefault(keys)[j] == rest[j - 1];
        }
      }
    }
  }

  lemma PreferredDistinct()
    ensures Distinct(Preferred) && "default" !in Preferred
  {
  }

  /** When the manifest declares each feature once (TOML keys are unique),
      the table lists the preferred features it declares in their fixed
      order, then every other declared feature except `default`, sorted. */
  lemma PreferredFirst(keys: seq<string>)
    requires Distinct(keys)
    ensures OrderedFeatures(keys) == PresentIn(Preferred, keys) + Sort(Without(NonDefault(keys), Preferred))
  {
    PreferredDistinct();
    NonDefaultDistinct(keys);
    OrderOfDistinct(Preferred, NonDefault(keys));
    AgreeOutside(Preferred, NonDefault(keys), keys, "default");
    PresentInSame(Preferred, NonDefault(keys), keys);
  }

  // --------------------------------------------------- table, proved

  /** A join begins with its first part. */
  lemma {:induction false} JoinHead(sep: string, parts: seq<string>)
    requires |parts| > 0
    ensures |parts[0]| <= |Join(sep, parts)| && Join(sep, parts)[..|parts[0]|] == parts[0]
  {
  }

  /** A line whose cells all fit their columns is as long as the widths
      and the bars between them. */
  lemma RowLength(cells: Cells, ws: seq<nat>)
    requires |cells| == |ws| > 0 && forall i :: 0 <= i < |ws| ==> |cells[i]| <= ws[i]
    ensures |RenderRow(cells, ws)| == 4 + Sum(ws) + (|ws| - 1) * 3
  {
    var ps := Padded(cells, ws);
    JoinLength(" | ", ps);
    assert Lengths(ps) == ws;
  }

  lemma SeparatorLength(ws: seq<nat>)
    requires |ws| > 0
    ensures |SeparatorRow(ws)| == 4 + Sum(ws) + (|ws| - 1) * 3
  {
    var ps := seq(|ws|, i requires 0 <= i < |ws| => Repeat('-', ws[i]));
    JoinLength(" | ", ps);
    assert Lengths(ps) == ws;
  }

  /** Rendered rows all have the same length, and each row's line opens
      with its first cell. */
  lemma TableLinesShape(rows: seq<Cells>)
    requires forall i :: 0 <= i < |rows| ==> |rows[i]| == 4
    ensures var lines := TableLines(rows);
            (forall i :: 0 <= i < |lines| ==> |lines[i]| == |lines[0]|)
            && forall i :: 0 <= i < |rows| ==> StartsWith(lines[i + 2], "| " + rows[i][0])
  {
    var ws := Widths(rows);
    var n := 4 + Sum(ws) + 9;
    RowLength(Header, ws);
    SeparatorLength(ws);
    forall i | 0 <= i < |rows|
      ensures |RenderRow(rows[i], ws)| == n
      ensures StartsWith(RenderRow(rows[i], ws), "| " + rows[i][0])
    {
      RowShape(rows[i], ws);
    }
    var lines := TableLines(rows);
    assert lines[2..] == RenderRows(rows, ws);
  }

  /** One rendered row: its length, and its first cell at the front. */
  lemma RowShape(cells: Cells, ws: seq<nat>)
    requires |cells| == |ws| == 4 && forall i :: 0 <= i < 4 ==> |cells[i]| <= ws[i]
    ensures |RenderRow(cells, ws)| == 4 + Sum(ws) + 9
    ensures StartsWith(RenderRow(cells, ws), "| " + cells[0])
  {
    RowLength(cells, ws);
    var ps := Padded(cells, ws);
    JoinHead(" | ", ps);
    var c := cells[0];
    assert ps[0][..|c|] == c;
    assert RenderRow(cells, ws)[..2 + |c|] == "| " + c;
  }

  /** A table that renders is the rendering of one row per ordered
      feature, each row built from that feature alone. */
  lemma TableRows(keys: seq<string>, fmap: map<string, Value>)
    requires FeaturesTable(keys, fmap).Ok?
    ensures DefaultFeatures(fmap).Ok?
    ensures var rows := Rows(keys, fmap, DefaultFeatures(fmap).value, OrderedFeatures(keys));
            FeaturesTable(keys, fmap).value == TableLines(rows)
            && forall i :: 0 <= i < |rows| ==> rows[i][0] == NameCell(OrderedFeatures(keys)[i])
  {
  }

  /** The table fails exactly when the default entry is malformed or when
      no feature but `default` is declared. */
  lemma TableErrors(keys: seq<string>, fmap: map<string, Value>)
    ensures DefaultFeatures(fmap).Err? ==> FeaturesTable(keys, fmap) == Err(DefaultsMessage)
    ensures DefaultFeatures(fmap).Ok? ==>
      (FeaturesTable(keys, fmap) == Err(NoFeaturesMessage) <==> forall i :: 0 <= i < |keys| ==> keys[i] == "default")
    ensures FeaturesTable(keys, fmap).Err? <==>
      DefaultFeatures(fmap).Err? || forall i :: 0 <= i < |keys| ==> keys[i] == "default"
  {
    NothingButDefault(keys);
  }

  /** No feature is left once `default` is set aside exactly when every
      key is `default`. */
  lemma NothingButDefault(keys: seq<string>)
    ensures |OrderedFeatures(keys)| == 0 <==> forall i :: 0 <= i < |keys| ==> keys[i] == "default"
  {
    var ordered := OrderedFeatures(keys);
    assert |ordered| == |NonDefault(keys)| by {
      assert |multiset(ordered)| == |multiset(NonDefault(keys))|;
    }
    if |NonDefault(keys)| > 0 {
      var x := NonDefault(keys)[0];
      assert x in keys && x != "default";
      var i :| 0 <= i < |keys| && keys[i] == x;
    } else {
      forall i | 0 <= i < |keys|
        ensures keys[i] == "default"
      {
        assert keys[i] !in NonDefault(keys);
      }
    }
  }

  // ------------------------------------------------ the default mark

  /** Windows code page 1252 reading one byte; the five bytes it leaves
      undefined read as nothing. */
  function Cp1252(b: byte): Option<char>
  {
    if b < 0x80 || b >= 0xA0 then Some(b as int as char)
    else
      match b
      case 0x80 => Some('\U{20AC}')
      case 0x82 => Some('\U{201A}')
      case 0x83 => Some('\U{192}')
      case 0x84 => Some('\U{201E}')
      case 0x85 => Some('\U{2026}')
      case 0x86 => Some('\U{2020}')
      case 0x87 => Some('\U{2021}')
      case 0x88 => Some('\U{2C6}')
      case 0x89 => Some('\U{2030}')
      case 0x8A => Some('\U{160}')
      case 0x8B => Some('\U{2039}')
      case 0x8C => Some('\U{152}')
      case 0x8E => Some('\U{17D}')
      case 0x91 => Some('\U{2018}')
      case 0x92 => Some('\U{2019}')
      case 0x93 => Some('\U{201C}')
      case 0x94 => Some('\U{201D}')
      case 0x95 => Some('\U{2022}')
      case 0x96 => Some('\U{2013}')
      case 0x97 => Some('\U{2014}')
      case 0x98 => Some('\U{2DC}')
      case 0x99 => Some('\U{2122}')
      case 0x9A => Some('\U{161}')
      case 0x9B => Some('\U{203A}')
      case 0x9C => Some('\U{153}')
      case 0x9E => Some('\U{17E}')
      case 0x9F => Some('\U{178}')
      case _ => None
  }

  function Cp1252Text(bs: Bytes): Option<string>
  {
    if |bs| == 0 then Some("")
    else
      var c := Cp1252(bs[0]);
      var rest := Cp1252Text(bs[1..]);
      if c.Some? && rest.Some? then Some([c.value] + rest.value) else None
  }

  /** The mark the script writes is not a check mark: it is the check
      mark's UTF-8 bytes read back as code page 1252, three characters
      where one was meant. */
  lemma MarkIsMisread()
    ensures DefaultMarkAsWritten != DefaultMark && |DefaultMarkAsWritten| == 3 && |DefaultMark| == 1
    ensures Cp1252Text(Utf8(DefaultMark)) == Some(DefaultMarkAsWritten)
  {
    var bs: Bytes := [0xE2, 0x9C, 0x93];
    assert Utf8(DefaultMark) == bs;
    var t3 := Cp1252Text(bs[3..]);
    assert t3 == Some("");
    var t2 := Cp1252Text(bs[2..]);
    assert bs[2..][1..] == bs[3..] && bs[2..][0] == 0x93;
    assert Cp1252(0x93) == Some('\U{201C}');
    assert t2 == Some(['\U{201C}'] + "");
    var t1 := Cp1252Text(bs[1..]);
    assert bs[1..][1..] == bs[2..] && bs[1..][0] == 0x9C;
    assert Cp1252(0x9C) == Some('\U{153}');
    assert t1 == Some(['\U{153}'] + t2.value);
    assert bs[0] == 0xE2;
    assert Cp1252(0xE2) == Some('\U{E2}');
    assert Cp1252Text(bs) == Some(['\U{E2}'] + t1.value);
    assert ['\U{E2}'] + (['\U{153}'] + (['\U{201C}'] + "")) == DefaultMarkAsWritten;
  }
}
