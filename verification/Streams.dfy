/** The byte streams of the Rust proxy: a writer that counts what it has sent, and a reader
    over a blob whose reads may be arbitrarily short and may fail. The ghost `faults` count the
    failures of the medium, so that contracts can say that nothing else makes an operation fail. */
module Streams {
  import opened Bytes

  class CountingWriter {
    var sent: bytes
    var contentLength: nat
    ghost var faults: nat

    constructor ()
      ensures sent == [] && contentLength == 0 && faults == 0
    {
      sent, contentLength, faults := [], 0, 0;
    }

    /** Either everything is written and counted, or the writer is broken and nothing is counted. */
    method WriteCounted(data: bytes) returns (ok: bool)
      modifies this
      ensures ok ==> sent == old(sent) + data && contentLength == old(contentLength) + |data|
      ensures !ok ==> contentLength == old(contentLength)
      ensures faults == if ok then old(faults) else old(faults) + 1
    {
      var accepted: int := *;
      if 0 <= accepted < |data| {
        sent := sent + data[..accepted];
        faults := faults + 1;
        return false;
      }
      sent := sent + data;
      contentLength := contentLength + |data|;
      ok := true;
    }
  }

  class BlobReader {
    const content: bytes
    var pos: nat
    ghost var faults: nat

    ghost predicate Valid()
      reads this
    {
      pos <= |content|
    }

    constructor (content: bytes)
      ensures Valid() && pos == 0 && this.content == content && faults == 0
    {
      this.content := content;
      pos, faults := 0, 0;
    }

    /** Fills some of `buf[from..to]`; nothing only at the end of the content. */
    method Read(buf: array<byte>, from: nat, to: nat) returns (ok: bool, n: nat)
      requires Valid() && from < to <= buf.Length
      modifies this, buf
      ensures Valid() && n <= to - from && pos == old(pos) + n
      ensures ok ==> (n == 0 <==> old(pos) == |content|)
      ensures !ok ==> n == 0
      ensures faults == if ok then old(faults) else old(faults) + 1
      ensures buf[..from] == old(buf[..from]) && buf[from..from + n] == content[old(pos)..pos]
    {
      var fails: bool, wanted: int := *, *;
      n := 0;
      if fails {
        faults := faults + 1;
        return false, 0;
      }
      ok := true;
      var most := if |content| - pos < to - from then |content| - pos else to - from;
      n := if 0 < wanted < most then wanted else most;
      forall i | from <= i < from + n {
        buf[i] := content[pos + i - from];
      }
      assert buf[from..from + n] == content[pos..pos + n];
      pos := pos + n;
    }
  }
}
