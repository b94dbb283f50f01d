// Bytes and the self-describing value every codec converts to and from
// (the serde data model, as `serde_json::Value` carries it).
module Values {

  newtype byte = x: int | 0 <= x < 256

  type Bytes = seq<byte>

  /** A JSON-like value. Numbers are integers and an object keeps its
      entries in order with distinct keys. */
  datatype Value =
    | Null
    | Bool(b: bool)
    | Number(n: int)
    | Str(s: string)
    | Array(items: seq<Value>)
    | Object(entries: seq<(string, Value)>)

  function Keys(entries: seq<(string, Value)>): (ks: seq<string>)
    ensures |ks| == |entries|
    ensures forall i :: 0 <= i < |entries| ==> ks[i] == entries[i].0
  {
    if |entries| == 0 then [] else [entries[0].0] + Keys(entries[1..])
  }

  function EntryValues(entries: seq<(string, Value)>): (vs: seq<Value>)
    ensures |vs| == |entries|
    ensures forall i :: 0 <= i < |entries| ==> vs[i] == entries[i].1
  {
    if |entries| == 0 then [] else [entries[0].1] + EntryValues(entries[1..])
  }

  /** `Map::insert`: a present key keeps its place and takes the new value;
      a new key goes at the end. */
  function Insert(entries: seq<(string, Value)>, key: string, v: Value): (r: seq<(string, Value)>)
    ensures key in Keys(entries) ==> |r| == |entries| && Keys(r) == Keys(entries)
    ensures key !in Keys(entries) ==> r == entries + [(key, v)]
    ensures (key, v) in r
  {
    if |entries| == 0 then [(key, v)]
    else if entries[0].0 == key then [(key, v)] + entries[1..]
    else
      assert Keys(entries) == [entries[0].0] + Keys(entries[1..]);
      [entries[0]] + Insert(entries[1..], key, v)
  }
}
