/** Content of a module entry: a repeatable supplier of bytes, the stream a
    supplier call opens, reading that stream to completion, and comparing the
    content of two suppliers byte for byte. */
module Content {

  type byte = bv8

  /** A zero-argument, repeatable content source. Being a pure function, every
      call yields the same logical bytes; `Open` turns one call into a fresh
      stream positioned at offset 0. */
  type Supplier = () -> seq<byte>

  /** An input stream over `data`, with `pos` bytes already consumed. */
  datatype Stream = Stream(data: seq<byte>, pos: nat) {
    ghost predicate Valid() {
      pos <= |data|
    }

    /** The bytes not yet consumed. */
    function Remaining(): seq<byte>
      requires Valid()
    {
      data[pos..]
    }
  }

  /** The bytes one read returned, and the stream after that read. */
  datatype Chunk = Chunk(bytes: seq<byte>, rest: Stream)

  /** Size of the buffer a full read uses for each chunk. */
  const BufferSize: nat := 8192

  /** Invokes the supplier once and opens an independent stream over its bytes. */
  function Open(supplier: Supplier): (s: Stream)
    ensures s.Valid()
    ensures s.Remaining() == supplier()
  {
    Stream(supplier(), 0)
  }

  /** Reads at most `max` bytes from the stream. An empty chunk signals end of
      stream; otherwise the chunk is the next bytes of the stream, in order,
      and the returned stream has consumed exactly them. */
  function ReadChunk(s: Stream, max: nat): (r: Chunk)
    requires s.Valid()
    requires max > 0
    ensures r.rest.Valid() && r.rest.data == s.data
    ensures r.bytes == [] <==> s.Remaining() == []
    ensures |r.bytes| <= max
    ensures r.bytes + r.rest.Remaining() == s.Remaining()
  {
    var n := if |s.data| - s.pos < max then |s.data| - s.pos else max;
    Chunk(s.data[s.pos..s.pos + n], s.(pos := s.pos + n))
  }

  /** The bytes a reader gets by reading the stream chunk after chunk until
      end of stream; the functional counterpart of `ToByteArray`. */
  function ReadAll(s: Stream): seq<byte>
    requires s.Valid()
    decreases |s.data| - s.pos
  {
    var c := ReadChunk(s, BufferSize);
    if c.bytes == [] then [] else c.bytes + ReadAll(c.rest)
  }

  /** Reading a stream to its end yields exactly its remaining bytes: nothing
      is lost, duplicated or reordered across chunk boundaries. */
  lemma {:induction false} ReadAllIsRemaining(s: Stream)
    requires s.Valid()
    ensures ReadAll(s) == s.Remaining()
    decreases |s.data| - s.pos
  {
    var c := ReadChunk(s, BufferSize);
    if c.bytes != [] {
      ReadAllIsRemaining(c.rest);
    }
  }

  /** Opens a fresh stream from the supplier and reads it to completion. */
  method ToByteArray(supplier: Supplier) returns (bytes: seq<byte>)
    ensures bytes == supplier()
    ensures bytes == ReadAll(Open(supplier))
  {
    var s := Open(supplier);
    bytes := [];
    var c := ReadChunk(s, BufferSize);
    while c.bytes != []
      invariant c.rest.Valid() && c.rest.data == supplier()
      invariant bytes + c.bytes + c.rest.Remaining() == supplier()
      invariant c.bytes == [] ==> c.rest.Remaining() == []
      decreases |c.rest.Remaining()| + |c.bytes|
    {
      bytes := bytes + c.bytes;
      c := ReadChunk(c.rest, BufferSize);
    }
    ReadAllIsRemaining(Open(supplier));
  }

  /** Compares the content of two suppliers: reads both in full, then
      compares the lengths and the bytes. */
  method ContentEquals(a: Supplier, b: Supplier) returns (eq: bool)
    ensures eq <==> a() == b()
  {
    var x := ToByteArray(a);
    var y := ToByteArray(b);
    if |x| != |y| {
      return false;
    }
    var i := 0;
    while i < |x|
      invariant 0 <= i <= |x|
      invariant x[..i] == y[..i]
    {
      if x[i] != y[i] {
        return false;
      }
      i := i + 1;
    }
    assert x == x[..i] && y == y[..i];
    return true;
  }
}
