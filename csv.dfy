// The CSV format (src/format/csv.rs), at the level of records: reading
// turns each data row into an object keyed by the header row, and writing
// turns an array of objects, or one object, into a header row and value
// rows. Splitting bytes into fields and quoting fields into bytes belong
// to the csv library and are parameters.
module CsvFormat {
  import opened Wrappers
  import opened Seqs
  import opened Values
  import opened FormatKinds

  /** What the csv reader yields: the header row and the data rows. */
  datatype CsvTable = CsvTable(headers: seq<string>, records: seq<seq<string>>)

  type Row = seq<string>

  const ShapeMessage := "CSV format requires an array or object"

  // ------------------------------------------------------------ reading

  /** The object built from one record: each field that has a header is
      inserted under that header as a string, a repeated header keeping
      its first place and its last value. */
  function RecordEntries(headers: seq<string>, record: Row): (es: seq<(string, Value)>)
    ensures forall k :: k in Keys(es) ==> k in headers
    ensures |es| <= |record|
  {
    if |record| == 0 then []
    else
      var n := |record| - 1;
      var prev := RecordEntries(headers, record[..n]);
      if n < |headers| then
        var r := Insert(prev, headers[n], Str(record[n]));
        assert forall k :: k in Keys(r) ==> k in Keys(prev) || k == headers[n] by {
          if headers[n] in Keys(prev) {
            assert Keys(r) == Keys(prev);
          } else {
            assert r == prev + [(headers[n], Str(record[n]))];
            assert Keys(r) == Keys(prev) + [headers[n]];
          }
        }
        r
      else prev
  }

  /** The enumerate loop that fills one record's object. */
  method BuildRecordObject(headers: seq<string>, record: Row) returns (es: seq<(string, Value)>)
    ensures es == RecordEntries(headers, record)
  {
    es := [];
    for i := 0 to |record|
      invariant es == RecordEntries(headers, record[..i])
    {
      assert record[..i + 1][..i] == record[..i];
      if i < |headers| {
        es := Insert(es, headers[i], Str(record[i]));
      }
    }
    assert record[..|record|] == record;
  }

  /** `deserialize`: one object per data row, in row order; a reader error
      is a serde error. */
  function CsvDeserialize(read: Result<CsvTable, string>): (r: Result<Value, FormatError>)
    ensures read.Err? ==> r == Err(Serde(read.error))
    ensures read.Ok? ==> r.Ok? && r.value.Array? && |r.value.items| == |read.value.records|
    ensures read.Ok? ==> forall i :: 0 <= i < |read.value.records| ==>
      r.value.items[i] == Object(RecordEntries(read.value.headers, read.value.records[i]))
  {
    match read
    case Err(m) => Err(Serde(m))
    case Ok(t) =>
      Ok(Array(seq(|t.records|, i requires 0 <= i < |t.records| => Object(RecordEntries(t.headers, t.records[i])))))
  }

  // ------------------------------------------------------------ writing

  /** A cell: a string verbatim, any other value as its JSON text. */
  function CellText(v: Value, json: Value -> string): string
  {
    if v.Str? then v.s else json(v)
  }

  /** An object's values as a row, in entry order. */
  function ValueRow(es: seq<(string, Value)>, json: Value -> string): (row: Row)
    ensures |row| == |es|
    ensures forall i :: 0 <= i < |es| ==> row[i] == CellText(es[i].1, json)
  {
    seq(|es|, i requires 0 <= i < |es| => CellText(es[i].1, json))
  }

  /** An array item's row: objects have one, other values none. */
  function ItemRow(json: Value -> string): Value -> Option<Row>
  {
    (item: Value) => if item.Object? then Some(ValueRow(item.entries, json)) else None
  }

  /** The header row of an array: the first element's keys, when it is an
      object. */
  function HeaderRows(items: seq<Value>): (rows: seq<Row>)
    ensures |rows| <= 1
    ensures |rows| == 1 <==> |items| > 0 && items[0].Object?
    ensures |rows| == 1 ==> rows[0] == Keys(items[0].entries)
  {
    if |items| > 0 && items[0].Object? then [Keys(items[0].entries)] else []
  }

  /** The rows `serialize` writes, in order. */
  function CsvRows(v: Value, json: Value -> string): (r: Result<seq<Row>, FormatError>)
    ensures r.Err? <==> !v.Array? && !v.Object?
    ensures r.Err? ==> r.error == Other(ShapeMessage)
    ensures v.Object? ==> r == Ok([Keys(v.entries), ValueRow(v.entries, json)])
    ensures v.Array? ==> r == Ok(HeaderRows(v.items) + FilterMap(v.items, ItemRow(json)))
  {
    match v
    case Array(items) => Ok(HeaderRows(items) + FilterMap(items, ItemRow(json)))
    case Object(es) => Ok([Keys(es), ValueRow(es, json)])
    case _ => Err(Other(ShapeMessage))
  }

  /** The writing loop of `serialize`: the header row, then a row for each
      object element in order, non-object elements skipped. */
  method WriteRows(v: Value, json: Value -> string) returns (r: Result<seq<Row>, FormatError>)
    ensures r == CsvRows(v, json)
  {
    match v {
      case Array(items) =>
        var rows := HeaderRows(items);
        for i := 0 to |items|
          invariant rows == HeaderRows(items) + FilterMap(items[..i], ItemRow(json))
        {
          assert items[..i + 1][..i] == items[..i];
          if items[i].Object? {
            rows := rows + [ValueRow(items[i].entries, json)];
          }
        }
        assert items[..|items|] == items;
        r := Ok(rows);
      case Object(es) =>
        r := Ok([Keys(es), ValueRow(es, json)]);
      case _ =>
        r := Err(Other(ShapeMessage));
    }
  }

  /** `serialize`: the rows, handed to the csv writer. */
  function CsvSerialize(v: Value, json: Value -> string, write: seq<Row> -> Result<Bytes, FormatError>)
    : (r: Result<Bytes, FormatError>)
    ensures CsvRows(v, json).Err? ==> r == Err(Other(ShapeMessage))
    ensures CsvRows(v, json).Ok? ==> r == write(CsvRows(v, json).value)
  {
    match CsvRows(v, json)
    case Err(e) => Err(e)
    case Ok(rows) => write(rows)
  }

  // ------------------------------------------------------------- lemmas

  /** Header i paired with field i, for every field that has a header. */
  function Zipped(headers: seq<string>, record: Row): (es: seq<(string, Value)>)
    ensures |es| == if |record| < |headers| then |record| else |headers|
    ensures forall i :: 0 <= i < |es| ==> es[i] == (headers[i], Str(record[i]))
  {
    var n := if |record| < |headers| then |record| else |headers|;
    seq(n, i requires 0 <= i < n => (headers[i], Str(record[i])))
  }

  /** With distinct headers, a record's object maps header i to field i
      for every field that has a header, in order. */
  lemma {:induction false} RecordEntriesOfDistinct(headers: seq<string>, record: Row)
    requires Distinct(headers)
    ensures RecordEntries(headers, record) == Zipped(headers, record)
  {
    if |record| > 0 {
      var n := |record| - 1;
      var prev := RecordEntries(headers, record[..n]);
      RecordEntriesOfDistinct(headers, record[..n]);
      LastField(headers, record);
      if n < |headers| {
        NewHeader(headers, record[..n], n);
        ZippedGrows(headers, record);
      } else {
        ZippedFull(headers, record);
      }
    }
  }

  /** A record's object is its shorter prefix's, with the last field
      inserted when it has a header. */
  lemma LastField(headers: seq<string>, record: Row)
    requires |record| > 0
    ensures var n := |record| - 1;
      RecordEntries(headers, record)
      == if n < |headers| then Insert(RecordEntries(headers, record[..n]), headers[n], Str(record[n]))
         else RecordEntries(headers, record[..n])
  {
  }

  /** With distinct headers, the next header is not yet a key. */
  lemma NewHeader(headers: seq<string>, record: Row, n: nat)
    requires Distinct(headers) && |record| == n < |headers|
    ensures headers[n] !in Keys(Zipped(headers, record))
  {
    var z := Zipped(headers, record);
    forall j | 0 <= j < |z|
      ensures Keys(z)[j] != headers[n]
    {
      assert z[j].0 == headers[j];
    }
  }

  /** One more headed field adds one more pair at the end. */
  lemma ZippedGrows(headers: seq<string>, record: Row)
    requires 0 < |record| <= |headers|
    ensures var n := |record| - 1;
      Zipped(headers, record) == Zipped(headers, record[..n]) + [(headers[n], Str(record[n]))]
  {
  }

  /** Fields past the last header add nothing. */
  lemma ZippedFull(headers: seq<string>, record: Row)
    requires |headers| < |record|
    ensures Zipped(headers, record) == Zipped(headers, record[..|record| - 1])
  {
  }

  /** Arrays of objects whose entries are the header's, as reading
      produces from a well-formed table, write back the header row and the
      records themselves: reading then writing is the identity on such a
      table's records. */
  lemma {:induction false} ReadThenWrite(t: CsvTable, json: Value -> string)
    requires Distinct(t.headers) && |t.records| > 0
    requires forall i :: 0 <= i < |t.records| ==> |t.records[i]| == |t.headers|
    ensures CsvRows(CsvDeserialize(Ok(t)).value, json) == Ok([t.headers] + t.records)
  {
    var items := CsvDeserialize(Ok(t)).value.items;
    forall i | 0 <= i < |t.records|
      ensures Keys(RecordEntries(t.headers, t.records[i])) == t.headers
      ensures ItemRow(json)(items[i]) == Some(t.records[i])
    {
      RecordEntriesOfDistinct(t.headers, t.records[i]);
      var es := RecordEntries(t.headers, t.records[i]);
      assert Keys(es) == t.headers;
      assert ValueRow(es, json) == t.records[i];
    }
    FilterMapTotal(items, ItemRow(json), t.records);
  }

  /** Elements that are not objects write nothing, wherever they are. */
  lemma NonObjectsWriteNothing(items: seq<Value>, json: Value -> string)
    requires forall i :: 0 <= i < |items| ==> !items[i].Object?
    ensures CsvRows(Array(items), json) == Ok([])
  {
    var f := ItemRow(json);
    assert forall i :: 0 <= i < |items| ==> f(items[i]).None?;
    FilterMapNone(items, f);
    assert HeaderRows(items) == [];
    assert CsvRows(Array(items), json) == Ok(HeaderRows(items) + FilterMap(items, f));
    assert HeaderRows(items) + FilterMap(items, f) == [];
  }
}
