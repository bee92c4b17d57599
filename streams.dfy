/** System.IO.MemoryStream, as far as the response path uses it: its bytes,
    its read/write position and whether it has been disposed. */
module Streams {
  import opened Types

  /** The bytes after writing `bytes` at offset `at` of `data`: a write past
      the end first fills the gap with zeros, and whatever lies beyond the
      written span is kept. */
  function Overwrite(data: seq<byte>, at: nat, bytes: seq<byte>): (r: seq<byte>)
    ensures |r| == if at + |bytes| < |data| then |data| else at + |bytes|
    ensures forall i :: 0 <= i < at ==> r[i] == if i < |data| then data[i] else 0
    ensures r[at..at + |bytes|] == bytes
    ensures forall i :: at + |bytes| <= i < |r| ==> r[i] == data[i]
    ensures at == |data| ==> r == data + bytes
  {
    var padded := if at <= |data| then data else data + seq(at - |data|, _ => 0);
    padded[..at] + bytes + (if at + |bytes| < |padded| then padded[at + |bytes|..] else [])
  }

  class MemoryStream {
    var data: seq<byte>
    var position: nat
    var disposed: bool

    /** `new MemoryStream()` (empty) and `new MemoryStream(bytes)`. */
    constructor (bytes: seq<byte>)
      ensures data == bytes && position == 0 && !disposed
    {
      data, position, disposed := bytes, 0, false;
    }

    /** Disposing is idempotent and leaves the bytes and position alone. */
    method Dispose()
      modifies this`disposed
      ensures disposed
    {
      disposed := true;
    }

    /** `Seek(0, SeekOrigin.Begin)`; a disposed stream throws. */
    method SeekToBegin() returns (r: Outcome)
      modifies this`position
      ensures r == if disposed then Fail(ObjectDisposed) else Pass
      ensures position == if disposed then old(position) else 0
    {
      if disposed {
        return Fail(ObjectDisposed);
      }
      position := 0;
      return Pass;
    }

    /** `Write(bytes)` at the current position; a disposed stream throws. */
    method Write(bytes: seq<byte>) returns (r: Outcome)
      modifies this`data, this`position
      ensures r == if disposed then Fail(ObjectDisposed) else Pass
      ensures disposed ==> data == old(data) && position == old(position)
      ensures !disposed ==> data == Overwrite(old(data), old(position), bytes) && position == old(position) + |bytes|
    {
      if disposed {
        return Fail(ObjectDisposed);
      }
      data := Overwrite(data, position, bytes);
      position := position + |bytes|;
      return Pass;
    }
  }
}
