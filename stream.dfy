/** The chunked copy loop that streams a download body into the destination
    file (TransferManager.readStreamFromServer). */
module Stream {

  /** One byte of a response body or of a local file. */
  newtype Byte = b: int | 0 <= b < 256

  /** Size of the read buffer `data` (`new byte[1024]`). */
  const BufferSize: nat := 1024

  /** The chunks `read` delivered, oldest first. */
  type Chunks = seq<seq<Byte>>

  /** The bytes of a sequence of chunks, in the order they were read. */
  function Concat(chunks: Chunks): (r: seq<Byte>)
    decreases |chunks|
  {
    if chunks == [] then [] else Concat(chunks[..|chunks| - 1]) + chunks[|chunks| - 1]
  }

  /** A chunk one call of `read(data)` can deliver: at least one byte, at most the buffer. */
  predicate ChunkSized(c: seq<Byte>) {
    1 <= |c| <= BufferSize
  }

  predicate AllChunkSized(chunks: Chunks) {
    forall k :: 0 <= k < |chunks| ==> ChunkSized(chunks[k])
  }

  /** `input.read(data)` on a stream whose remaining bytes are `body[pos..]`:
      -1 at the end of the stream, otherwise some count between one and the
      buffer size, with that many bytes placed at the front of `data`. How many
      bytes one read delivers is up to the network, so it is left open. */
  method Read(data: array<Byte>, body: seq<Byte>, pos: nat) returns (count: int)
    requires data.Length == BufferSize && pos <= |body|
    modifies data
    ensures count == -1 <==> pos == |body|
    ensures count != -1 ==> 1 <= count <= BufferSize && pos + count <= |body|
    ensures count != -1 ==> data[..count] == body[pos..pos + count]
    ensures count != -1 ==> data[count..] == old(data[count..])
    ensures count == -1 ==> data[..] == old(data[..])
  {
    if pos == |body| {
      count := -1;
    } else {
      var avail := if |body| - pos < BufferSize then |body| - pos else BufferSize;
      count :| 1 <= count <= avail;
      forall k | 0 <= k < count {
        data[k] := body[pos + k];
      }
    }
  }

  /** The copy loop: read the body chunk by chunk into `data` and write each
      chunk after the bytes written so far, accumulating `total`. Returns what
      was written, the final `total` and the chunks in the order they were read. */
  method ReadStream(body: seq<Byte>) returns (written: seq<Byte>, total: int, chunks: Chunks)
    ensures written == body
    ensures written == Concat(chunks)
    ensures total == |written|
    ensures AllChunkSized(chunks)
  {
    var data := new Byte[BufferSize];
    written, total, chunks := [], 0, [];
    var pos := 0;
    var count := Read(data, body, pos);
    while count != -1
      invariant 0 <= pos <= |body|
      invariant count == -1 <==> pos == |body|
      invariant count != -1 ==> 1 <= count <= BufferSize && pos + count <= |body|
      invariant count != -1 ==> data[..count] == body[pos..pos + count]
      invariant written == body[..pos] == Concat(chunks)
      invariant total == |written|
      invariant AllChunkSized(chunks)
      decreases |body| - pos
    {
      ghost var before := chunks;
      total := total + count;
      written := written + data[..count];
      chunks := chunks + [data[..count]];
      assert chunks[..|chunks| - 1] == before;
      pos := pos + count;
      count := Read(data, body, pos);
    }
    assert body[..pos] == body;
  }
}
