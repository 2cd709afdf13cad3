/** Writing a blob as base64 text, chunk by chunk, with a carry of at most two bytes. */
module Base64Encoder {
  import opened Bytes
  import opened Base64
  import opened Streams

  const CHUNK_BYTES: nat := 48 * 1024

  const OUTPUT_BYTES: nat := Groups(CHUNK_BYTES + 2) * 4

  /** The number of groups of three, rounded up. */
  function Groups(n: nat): nat {
    (n + 2) / 3
  }

  /** Encodes into a buffer; fails only if the buffer is too small. */
  method EncodeSlice(data: bytes, output: array<byte>) returns (ok: bool, written: nat)
    modifies output
    ensures ok <==> EncodedLen(|data|) <= output.Length
    ensures ok ==> written == EncodedLen(|data|) && output[..written] == Encode(data)
  {
    EncodeLength(data);
    var text := Encode(data);
    if |text| > output.Length {
      return false, 0;
    }
    forall i | 0 <= i < |text| {
      output[i] := text[i];
    }
    return true, |text|;
  }

  /** Bytes held inline are encoded in one piece. */
  method WriteBytes(writer: CountingWriter, data: bytes) returns (ok: bool)
    modifies writer
    ensures ok ==>
              writer.sent == old(writer.sent) + Encode(data) &&
              writer.contentLength == old(writer.contentLength) + |Encode(data)|
    ensures writer.faults >= old(writer.faults) && (ok <==> writer.faults == old(writer.faults))
  {
    if data == [] {
      return true;
    }
    var output := new byte[Groups(|data|) * 4];
    var written: nat;
    OutputIsExact(|data|);
    ok, written := EncodeSlice(data, output);
    if !ok {
      return;
    }
    ok := writer.WriteCounted(output[..written]);
  }

  lemma OutputIsExact(n: nat)
    ensures EncodedLen(n) == Groups(n) * 4
  {
  }

  /** Writes the whole groups of three among the first `totalLen` buffered bytes and moves
      the rest to the front. The output buffer is never too small. */
  method EmitGroups(writer: CountingWriter, input: array<byte>, output: array<byte>, totalLen: nat,
                    ghost buffered: bytes)
    returns (ok: bool, carryLen: nat)
    requires totalLen <= input.Length == CHUNK_BYTES + 2 && input != output && OUTPUT_BYTES == output.Length
    requires input[..totalLen] == buffered
    modifies writer, input, output
    ensures ok ==>
              carryLen <= 2 && carryLen <= totalLen && Whole(totalLen - carryLen) &&
              input[..carryLen] == buffered[totalLen - carryLen..]
    ensures ok ==> var text := Encode(buffered[..totalLen - carryLen]);
                   writer.sent == old(writer.sent) + text && writer.contentLength == old(writer.contentLength) + |text|
    ensures writer.faults >= old(writer.faults) && (ok <==> writer.faults == old(writer.faults))
  {
    carryLen := 0;
    var completeLen := totalLen / 3 * 3;
    LeftOver(totalLen);
    if completeLen == 0 {
      assert buffered[..totalLen - totalLen] == [];
      return true, totalLen;
    }
    var data := input[..completeLen];
    assert data == buffered[..completeLen];
    OutputSuffices(completeLen);
    var written: nat;
    ok, written := EncodeSlice(data, output);
    assert ok;
    ok := writer.WriteCounted(output[..written]);
    if !ok {
      return;
    }
    carryLen := totalLen - completeLen;
    if carryLen > 0 {
      CopyWithin(input, completeLen, totalLen, buffered);
    }
  }

  lemma OutputSuffices(n: nat)
    requires n <= CHUNK_BYTES + 2
    ensures EncodedLen(n) <= OUTPUT_BYTES
  {
  }

  /** A whole number of groups of three; a name for `n % 3 == 0` that keeps the remainder out of sight. */
  predicate Whole(n: nat) {
    n == 0 || (n >= 3 && Whole(n - 3))
  }

  lemma {:induction false} WholeIs(n: nat)
    ensures Whole(n) <==> n % 3 == 0
  {
    if n >= 3 { WholeIs(n - 3); }
  }

  lemma WholeGroups(a: nat, b: nat)
    requires Whole(a) && Whole(b)
    ensures Whole(a + b)
  {
    WholeIs(a);
    WholeIs(b);
    WholeIs(a + b);
  }

  lemma LeftOver(n: nat)
    ensures n / 3 * 3 <= n <= n / 3 * 3 + 2 && Whole(n / 3 * 3)
  {
    WholeIs(n / 3 * 3);
  }

  /** Extending the encoded prefix of the content by whole groups. */
  lemma PrefixGrows(content: bytes, done: nat, next: nat)
    requires done <= next <= |content| && Whole(done)
    ensures Encode(content[..next]) == Encode(content[..done]) + Encode(content[done..next])
  {
    assert content[..next] == content[..done] + content[done..next];
    WholeIs(done);
    EncodeAppend(content[..done], content[done..next]);
  }

  /** What was sent and counted is the text of the first `done` bytes. */
  ghost predicate Encoded(content: bytes, done: nat, sent: bytes, length: nat, start: bytes, count: nat) {
    && done <= |content| && Whole(done)
    && sent == start + Encode(content[..done]) && length == count + |Encode(content[..done])|
  }

  /** Between reads: the content read so far is encoded and sent, but for at most two
      carried bytes at the front of the input buffer. */
  ghost predicate Progress(writer: CountingWriter, reader: BlobReader, input: array<byte>, carryLen: nat, start: bytes,
                           count: nat)
    reads writer, reader, input
  {
    && reader.Valid() && carryLen <= 2 && Buffered(reader, input, carryLen)
    && Encoded(reader.content, reader.pos - carryLen, writer.sent, writer.contentLength, start, count)
  }

  /** The input buffer holds the last `n` bytes read. */
  ghost predicate Buffered(reader: BlobReader, input: array<byte>, n: nat)
    requires reader.Valid()
    reads reader, input
  {
    n <= reader.pos && n <= input.Length == CHUNK_BYTES + 2 && input[..n] == reader.content[reader.pos - n..reader.pos]
  }

  /** Reads once, behind the carry. */
  method Fill(reader: BlobReader, input: array<byte>, carryLen: nat) returns (ok: bool, read: nat)
    requires reader.Valid() && carryLen <= 2 && Buffered(reader, input, carryLen)
    modifies reader, input
    ensures reader.Valid() && reader.pos == old(reader.pos) + read && Buffered(reader, input, carryLen + read)
    ensures ok && read == 0 ==> reader.pos == |reader.content|
    ensures reader.faults >= old(reader.faults) && (ok <==> reader.faults == old(reader.faults))
  {
    ghost var pos := reader.pos;
    ok, read := reader.Read(input, carryLen, carryLen + CHUNK_BYTES);
    assert input[..carryLen + read] == input[..carryLen] + input[carryLen..carryLen + read];
    assert reader.content[pos - carryLen..reader.pos]
             == reader.content[pos - carryLen..pos] + reader.content[pos..reader.pos];
  }

  /** Emits what one read made complete. */
  method Emit(writer: CountingWriter, reader: BlobReader, input: array<byte>, output: array<byte>, totalLen: nat,
              ghost start: bytes, ghost count: nat)
    returns (ok: bool, carryLen: nat)
    requires reader.Valid() && Buffered(reader, input, totalLen) && input != output && output.Length == OUTPUT_BYTES
    requires Encoded(reader.content, reader.pos - totalLen, writer.sent, writer.contentLength, start, count)
    modifies writer, input, output
    ensures ok ==> Progress(writer, reader, input, carryLen, start, count)
    ensures writer.faults >= old(writer.faults) && (ok <==> writer.faults == old(writer.faults))
  {
    ghost var buffered, sent, length := input[..totalLen], writer.sent, writer.contentLength;
    assert buffered == reader.content[reader.pos - totalLen..reader.pos];
    ok, carryLen := EmitGroups(writer, input, output, totalLen, buffered);
    if ok {
      RoundIsProgress(writer, reader, input, totalLen, carryLen, buffered, sent, length, start, count);
    }
  }

  /** What one round leaves: the groups sent, and the carried bytes at the front. */
  lemma RoundIsProgress(writer: CountingWriter, reader: BlobReader, input: array<byte>, totalLen: nat, carryLen: nat,
                        buffered: bytes, sent: bytes, length: nat, start: bytes, count: nat)
    requires reader.Valid() && carryLen <= 2 && carryLen <= totalLen <= reader.pos && Whole(totalLen - carryLen)
    requires buffered == reader.content[reader.pos - totalLen..reader.pos]
    requires input.Length == CHUNK_BYTES + 2 && input[..carryLen] == buffered[totalLen - carryLen..]
    requires Encoded(reader.content, reader.pos - totalLen, sent, length, start, count)
    requires var text := Encode(buffered[..totalLen - carryLen]);
             writer.sent == sent + text && writer.contentLength == length + |text|
    ensures Progress(writer, reader, input, carryLen, start, count)
  {
    BufferEncoded(reader.content, reader.pos, totalLen, carryLen, buffered, sent, length, writer.sent,
                  writer.contentLength, start, count);
  }

  /** The whole groups of a buffer extend what is encoded, and leave the carried bytes. */
  lemma BufferEncoded(content: bytes, pos: nat, totalLen: nat, carryLen: nat, buffered: bytes, sent: bytes,
                      length: nat, sentAfter: bytes, lengthAfter: nat, start: bytes, count: nat)
    requires carryLen <= totalLen <= pos <= |content| && Whole(totalLen - carryLen)
    requires Encoded(content, pos - totalLen, sent, length, start, count) && buffered == content[pos - totalLen..pos]
    requires sentAfter == sent + Encode(buffered[..totalLen - carryLen])
    requires lengthAfter == length + |Encode(buffered[..totalLen - carryLen])|
    ensures Encoded(content, pos - carryLen, sentAfter, lengthAfter, start, count)
    ensures buffered[totalLen - carryLen..] == content[pos - carryLen..pos]
  {
    SliceOf(content, pos - totalLen, pos - carryLen, pos, buffered);
    EncodedGrows(content, pos - totalLen, pos - carryLen, buffered[..totalLen - carryLen], sent, length, sentAfter,
                 lengthAfter, start, count);
  }

  lemma SliceOf(content: bytes, from: nat, mid: nat, to: nat, slice: bytes)
    requires from <= mid <= to <= |content| && slice == content[from..to]
    ensures slice[..mid - from] == content[from..mid] && slice[mid - from..] == content[mid..to]
  {
  }

  lemma ConcatJoins(a: bytes, b: bytes, c: bytes, bc: bytes)
    requires bc == b + c
    ensures a + bc == a + b + c && |bc| == |b| + |c|
  {
  }

  /** Sending the text of the next whole groups extends what is encoded. */
  lemma EncodedGrows(content: bytes, done: nat, next: nat, emitted: bytes, sent: bytes, length: nat, sentAfter: bytes,
                     lengthAfter: nat, start: bytes, count: nat)
    requires Encoded(content, done, sent, length, start, count) && done <= next <= |content| && Whole(next - done)
    requires emitted == content[done..next]
    requires sentAfter == sent + Encode(emitted) && lengthAfter == length + |Encode(emitted)|
    ensures Encoded(content, next, sentAfter, lengthAfter, start, count)
  {
    WholeGroups(done, next - done);
    PrefixGrows(content, done, next);
    ConcatJoins(start, Encode(content[..done]), Encode(emitted), Encode(content[..next]));
  }

  /** Whatever the reader's schedule of short reads, what is written is the base64 text of
      the whole content. */
  method WriteStream(writer: CountingWriter, reader: BlobReader) returns (ok: bool)
    requires reader.Valid() && reader.pos == 0
    modifies writer, reader
    ensures ok ==> writer.sent == old(writer.sent) + Encode(reader.content)
    ensures ok ==> writer.contentLength == old(writer.contentLength) + |Encode(reader.content)|
    ensures writer.faults >= old(writer.faults) && reader.faults >= old(reader.faults)
    ensures ok <==> writer.faults == old(writer.faults) && reader.faults == old(reader.faults)
  {
    var input := new byte[CHUNK_BYTES + 2];
    var output := new byte[OUTPUT_BYTES];
    assert input[..0] == [] && reader.content[..0] == [];
    var carryLen: nat;
    ghost var start, count := writer.sent, writer.contentLength;
    ok, carryLen := Pump(writer, reader, input, output, start, count);
    if ok {
      ok := Flush(writer, reader, input, output, carryLen, start, count);
    }
  }

  /** Reads and emits until the end of the content. */
  method Pump(writer: CountingWriter, reader: BlobReader, input: array<byte>, output: array<byte>, ghost start: bytes,
              ghost count: nat)
    returns (ok: bool, carryLen: nat)
    requires Progress(writer, reader, input, 0, start, count) && output.Length == OUTPUT_BYTES && input != output
    modifies writer, reader, input, output
    ensures ok ==> Progress(writer, reader, input, carryLen, start, count) && reader.pos == |reader.content|
    ensures writer.faults >= old(writer.faults) && reader.faults >= old(reader.faults)
    ensures ok <==> writer.faults == old(writer.faults) && reader.faults == old(reader.faults)
  {
    carryLen := 0;
    while true
      invariant writer.faults == old(writer.faults) && reader.faults == old(reader.faults)
      invariant Progress(writer, reader, input, carryLen, start, count)
      decreases |reader.content| - reader.pos
    {
      var read: nat;
      ok, read := Fill(reader, input, carryLen);
      if !ok || read == 0 {
        return;
      }
      ok, carryLen := Emit(writer, reader, input, output, carryLen + read, start, count);
      if !ok {
        return;
      }
    }
  }

  /** Encodes the last carried bytes, with padding. */
  method Flush(writer: CountingWriter, reader: BlobReader, input: array<byte>, output: array<byte>, carryLen: nat,
               ghost start: bytes, ghost count: nat)
    returns (ok: bool)
    requires Progress(writer, reader, input, carryLen, start, count) && reader.pos == |reader.content|
    requires output.Length == OUTPUT_BYTES
    modifies writer, output
    ensures ok ==>
              writer.sent == start + Encode(reader.content) && writer.contentLength == count + |Encode(reader.content)|
    ensures writer.faults >= old(writer.faults) && (ok <==> writer.faults == old(writer.faults))
  {
    ghost var done := reader.pos - carryLen;
    PrefixGrows(reader.content, done, reader.pos);
    assert reader.content[..reader.pos] == reader.content;
    ok := true;
    if carryLen > 0 {
      var written: nat;
      ok, written := EncodeSlice(input[..carryLen], output);
      assert ok;
      ok := writer.WriteCounted(output[..written]);
    }
  }

  /** Moves `buf[from..to]` to the front. */
  method CopyWithin(buf: array<byte>, from: nat, to: nat, ghost whole: bytes)
    requires from <= to <= buf.Length && buf[..to] == whole
    modifies buf
    ensures buf[..to - from] == whole[from..]
  {
    assert forall i :: 0 <= i < to ==> buf[i] == whole[i];
    forall i | 0 <= i < to - from {
      buf[i] := buf[from + i];
    }
  }
}
