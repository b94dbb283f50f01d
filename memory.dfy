// In-memory inputs and outputs (src/io/memory.rs): a source serving a
// fixed byte string, and a sink whose buffer is shared by every write
// handle opened on it.
module Memory {
  import opened Values
  import opened Text

  /** An immutable in-memory input. */
  datatype InMemorySource = InMemorySource(id: string, data: Bytes)

  /** `InMemorySource::from_string`: the string's UTF-8 bytes. */
  function SourceFromString(id: string, s: string): (src: InMemorySource)
    ensures src.id == id && |src.data| >= |s|
    ensures (forall i :: 0 <= i < |s| ==> s[i] as int < 0x80) ==> |src.data| == |s|
  {
    InMemorySource(id, Utf8(s))
  }

  /** `open`: every open reads the whole data again from the start. */
  function OpenSource(src: InMemorySource): Bytes
  {
    src.data
  }

  /** An in-memory output. Clones of a sink share the one buffer, which a
      reference to this object stands for. */
  class InMemorySink {
    const id: string
    var buf: Bytes

    constructor (id: string)
      ensures this.id == id && buf == []
    {
      this.id := id;
      buf := [];
    }

    /** `contents` / `into_inner`: a copy of what was written. */
    method Contents() returns (data: Bytes)
      ensures data == buf
    {
      data := buf;
    }

    method Clear()
      modifies this
      ensures buf == []
    {
      buf := [];
    }

    /** `open_overwrite`: empties the buffer, then hands out a writer. */
    method OpenOverwrite() returns (h: InMemoryWriteHandle)
      modifies this
      ensures buf == []
      ensures fresh(h) && h.sink == this
    {
      buf := [];
      h := new InMemoryWriteHandle(this);
    }

    /** `open_append`: hands out a writer and leaves the buffer alone. */
    method OpenAppend() returns (h: InMemoryWriteHandle)
      ensures fresh(h) && h.sink == this
    {
      h := new InMemoryWriteHandle(this);
    }
  }

  /** A writer on a sink's shared buffer. */
  class InMemoryWriteHandle {
    const sink: InMemorySink

    constructor (sink: InMemorySink)
      ensures this.sink == sink
    {
      this.sink := sink;
    }

    /** `write`: appends all of `data` and reports its length. */
    method Write(data: Bytes) returns (n: nat)
      modifies sink
      ensures sink.buf == old(sink.buf) + data
      ensures n == |data|
    {
      sink.buf := sink.buf + data;
      n := |data|;
    }
  }

  /** Whatever a sink held, overwriting it with `a` and then appending
      `b` through a second handle leaves exactly `a + b`, and each write
      reports its full length. */
  method OverwriteThenAppend(sink: InMemorySink, a: Bytes, b: Bytes) returns (contents: Bytes, n1: nat, n2: nat)
    modifies sink
    ensures contents == a + b && sink.buf == a + b
    ensures n1 == |a| && n2 == |b|
  {
    var w1 := sink.OpenOverwrite();
    n1 := w1.Write(a);
    var w2 := sink.OpenAppend();
    n2 := w2.Write(b);
    contents := sink.Contents();
  }
}
