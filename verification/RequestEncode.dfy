/** Writing a request as a byte stream in which the images stand in place of their URLs. */
module RequestEncode {
  import opened Wrappers
  import opened Bytes
  import opened Decimal
  import opened Base64
  import opened Streams
  import opened Base64Encoder
  import opened Json
  import opened JsonPointer
  import opened StripOutput
  import opened BlobRuntime

  datatype RequestReplacement = RequestReplacement(jsonPointer: bytes, mimeType: bytes, blob: BlobHandle)

  /** What a replacement stands for. */
  datatype Image = Image(mimeType: bytes, data: bytes)

  const MIME_TYPE: bytes := Ascii("mimeType")
  const IMAGE_DATA: bytes := Ascii("data")

  function ImageNode(image: Image): Value {
    Obj([Member(MIME_TYPE, Str(image.mimeType)), Member(IMAGE_DATA, Str(Encode(image.data)))])
  }

  // ----- The request that is meant -----

  /** The tree with every outermost node whose pointer is a key put in its image's place. */
  function Substitute(v: Value, path: bytes, images: map<bytes, Image>): Value
    decreases v, 1
  {
    if path in images then ImageNode(images[path])
    else
      match v
      case Obj(ms) => Obj(SubstituteMembers(v, path, images))
      case Arr(items) => Arr(SubstituteItems(v, path, images))
      case _ => v
  }

  function SubstituteMembers(v: Value, path: bytes, images: map<bytes, Image>): (r: seq<Member>)
    requires v.Obj?
    ensures |r| == |v.members|
    decreases v, 0
  {
    var ms := v.members;
    seq(|ms|, i requires 0 <= i < |ms| => Member(ms[i].key, Substitute(ms[i].value, Extend(path, ms[i].key), images)))
  }

  function SubstituteItems(v: Value, path: bytes, images: map<bytes, Image>): (r: seq<Value>)
    requires v.Arr?
    ensures |r| == |v.items|
    decreases v, 0
  {
    var items := v.items;
    seq(|items|, i requires 0 <= i < |items| => Substitute(items[i], Extend(path, Dec(i)), images))
  }

  // ----- Writing -----

  /** What the counter is behind by; every write keeps it. */
  ghost function Behind(w: CountingWriter): int
    reads w
  {
    |w.sent| - w.contentLength
  }

  method Put(w: CountingWriter, data: bytes) returns (ok: bool)
    modifies w
    ensures ok ==> w.sent == old(w.sent) + data && Behind(w) == old(Behind(w))
    ensures w.faults >= old(w.faults) && (ok <==> w.faults == old(w.faults))
  {
    ok := w.WriteCounted(data);
  }

  method PutTwo(w: CountingWriter, a: bytes, b: bytes) returns (ok: bool)
    modifies w
    ensures ok ==> w.sent == old(w.sent) + (a + b) && Behind(w) == old(Behind(w))
    ensures w.faults >= old(w.faults) && (ok <==> w.faults == old(w.faults))
  {
    ok := Put(w, a);
    if ok {
      ok := Put(w, b);
      ConcatJoins(old(w.sent), a, b, a + b);
    }
  }

  method PutThree(w: CountingWriter, a: bytes, b: bytes, c: bytes) returns (ok: bool)
    modifies w
    ensures ok ==> w.sent == old(w.sent) + (a + b + c) && Behind(w) == old(Behind(w))
    ensures w.faults >= old(w.faults) && (ok <==> w.faults == old(w.faults))
  {
    ok := PutTwo(w, a, b);
    if ok {
      ok := Put(w, c);
      ConcatJoins(old(w.sent), a + b, c, a + b + c);
    }
  }

  /** The replacements stand for these images, unless a blob has become unreadable. */
  ghost predicate Depicts(replacements: map<bytes, RequestReplacement>, images: map<bytes, Image>, files: Files) {
    && replacements.Keys == images.Keys
    && forall p <- replacements :: IsImage(replacements[p], images[p], files)
  }

  ghost predicate IsImage(replacement: RequestReplacement, image: Image, files: Files) {
    && replacement.mimeType == image.mimeType
    && var content := ContentOf(replacement.blob.storage, files); content.None? || content == Some(image.data)
  }

  /** A write succeeds exactly when the writer and the file system did not fail and every blob
      it needed was there. */
  ghost predicate Faultless(ok: bool, w: CountingWriter, writerFaults: nat, runtime: BlobRuntime, fileFaults: nat,
                            readable: bool)
    reads w, runtime
  {
    && w.faults >= writerFaults && runtime.faults >= fileFaults
    && (ok ==> w.faults == writerFaults && runtime.faults == fileFaults)
    && (!ok && readable ==> w.faults > writerFaults || runtime.faults > fileFaults)
  }

  ghost predicate AllReadable(replacements: map<bytes, RequestReplacement>, files: Files) {
    forall p <- replacements :: ContentOf(replacements[p].blob.storage, files).Some?
  }

  method WriteBlobAsBase64(w: CountingWriter, runtime: BlobRuntime, blob: BlobHandle, ghost data: bytes)
    returns (ok: bool)
    requires var content := ContentOf(blob.storage, runtime.files); content.None? || content == Some(data)
    modifies w, runtime`faults
    ensures ok ==> w.sent == old(w.sent) + Encode(data) && Behind(w) == old(Behind(w))
    ensures Faultless(ok, w, old(w.faults), runtime, old(runtime.faults), ContentOf(blob.storage, runtime.files).Some?)
  {
    if blob.storage.Inline? {
      ok := WriteBytes(w, blob.storage.data);
      return;
    }
    var reader := runtime.OpenReader(blob);
    if reader.None? {
      return false;
    }
    ok := WriteStream(w, reader.value);
    if reader.value.faults > 0 {
      runtime.faults := runtime.faults + 1;
    }
  }

  method WriteReplacement(w: CountingWriter, replacement: RequestReplacement, runtime: BlobRuntime, ghost image: Image)
    returns (ok: bool)
    requires IsImage(replacement, image, runtime.files)
    modifies w, runtime`faults
    ensures ok ==> w.sent == old(w.sent) + Compact(ImageNode(image)) && Behind(w) == old(Behind(w))
    ensures Faultless(ok, w, old(w.faults), runtime, old(runtime.faults),
                      ContentOf(replacement.blob.storage, runtime.files).Some?)
  {
    var mimeKey, mimeValue, dataKey := Quote(MIME_TYPE), Quote(replacement.mimeType), Quote(IMAGE_DATA);
    ok := WriteHead(w, mimeKey, mimeValue, dataKey);
    if ok {
      ok := WriteBlobAsBase64(w, runtime, replacement.blob, image.data);
    }
    if ok {
      ok := Put(w, [QUOTE, CLOSE_BRACE]);
      ImageText(image);
      var head := Head(mimeKey, mimeValue, dataKey);
      ConcatJoins(old(w.sent), head, Encode(image.data), head + Encode(image.data));
      ConcatJoins(old(w.sent), head + Encode(image.data), [QUOTE, CLOSE_BRACE],
                  head + Encode(image.data) + [QUOTE, CLOSE_BRACE]);
    }
  }

  /** The text up to the image data. */
  function Head(mimeKey: bytes, mimeValue: bytes, dataKey: bytes): bytes {
    ([OPEN_BRACE] + mimeKey + [COLON]) + (mimeValue + [COMMA] + dataKey) + [COLON, QUOTE]
  }

  method WriteHead(w: CountingWriter, mimeKey: bytes, mimeValue: bytes, dataKey: bytes) returns (ok: bool)
    modifies w
    ensures ok ==> w.sent == old(w.sent) + Head(mimeKey, mimeValue, dataKey) && Behind(w) == old(Behind(w))
    ensures w.faults >= old(w.faults) && (ok <==> w.faults == old(w.faults))
  {
    ok := PutThree(w, [OPEN_BRACE], mimeKey, [COLON]);
    if ok {
      ok := PutThree(w, mimeValue, [COMMA], dataKey);
    }
    if ok {
      ok := Put(w, [COLON, QUOTE]);
      var a, b := [OPEN_BRACE] + mimeKey + [COLON], mimeValue + [COMMA] + dataKey;
      ConcatJoins(old(w.sent), a, b, a + b);
      ConcatJoins(old(w.sent), a + b, [COLON, QUOTE], a + b + [COLON, QUOTE]);
    }
  }

  /** The data needs no escapes, so writing it between quotes is the compact text of the node. */
  lemma ImageText(image: Image)
    ensures Compact(ImageNode(image)) ==
              Head(Quote(MIME_TYPE), Quote(image.mimeType), Quote(IMAGE_DATA)) + Encode(image.data) +
                [QUOTE, CLOSE_BRACE]
  {
    EncodeIsPlain(image.data);
    PlainText(Encode(image.data));
    TwoMembers(MIME_TYPE, Str(image.mimeType), IMAGE_DATA, Str(Encode(image.data)));
    HeadAndData(Quote(MIME_TYPE), Quote(image.mimeType), Quote(IMAGE_DATA), Encode(image.data));
  }

  lemma TwoMembers(k1: bytes, v1: Value, k2: bytes, v2: Value)
    ensures Compact(Obj([Member(k1, v1), Member(k2, v2)])) ==
            [OPEN_BRACE] + ((Quote(k1) + [COLON] + Compact(v1)) + [COMMA] + (Quote(k2) + [COLON] + Compact(v2))) +
              [CLOSE_BRACE]
  {
    var ms := [Member(k1, v1), Member(k2, v2)];
    var first := Quote(k1) + [COLON] + Compact(v1);
    assert MembersText(ms, 0) + Separator(true) + first == first;
    assert MembersText(ms, 1) == first;
  }

  lemma HeadAndData(mimeKey: bytes, mimeValue: bytes, dataKey: bytes, data: bytes)
    ensures [OPEN_BRACE] +
              ((mimeKey + [COLON] + mimeValue) + [COMMA] + (dataKey + [COLON] + ([QUOTE] + data + [QUOTE]))) +
              [CLOSE_BRACE]
            == Head(mimeKey, mimeValue, dataKey) + data + [QUOTE, CLOSE_BRACE]
  {
    var tail := data + [QUOTE];
    assert dataKey + [COLON] + ([QUOTE] + data + [QUOTE]) == dataKey + [COLON, QUOTE] + tail;
    assert [OPEN_BRACE] + ((mimeKey + [COLON] + mimeValue) + [COMMA] + (dataKey + [COLON, QUOTE] + tail))
             == Head(mimeKey, mimeValue, dataKey) + tail;
    assert data + [QUOTE, CLOSE_BRACE] == tail + [CLOSE_BRACE];
  }

  method WriteJsonValue(w: CountingWriter, path: bytes, value: Value, replacements: map<bytes, RequestReplacement>,
                        runtime: BlobRuntime, ghost images: map<bytes, Image>)
    returns (ok: bool)
    requires Depicts(replacements, images, runtime.files)
    modifies w, runtime`faults
    ensures ok ==> w.sent == old(w.sent) + Compact(Substitute(value, path, images)) && Behind(w) == old(Behind(w))
    ensures Faultless(ok, w, old(w.faults), runtime, old(runtime.faults), AllReadable(replacements, runtime.files))
    decreases value, 3
  {
    if path in replacements {
      ok := WriteReplacement(w, replacements[path], runtime, images[path]);
      return;
    }
    match value {
      case Obj(ms) => { ok := WriteObject(w, path, value, replacements, runtime, images); }
      case Arr(items) => { ok := WriteArray(w, path, value, replacements, runtime, images); }
      case _ => { ok := Put(w, Compact(value)); }
    }
  }

  method WriteObject(w: CountingWriter, path: bytes, value: Value, replacements: map<bytes, RequestReplacement>,
                     runtime: BlobRuntime, ghost images: map<bytes, Image>)
    returns (ok: bool)
    requires value.Obj? && Depicts(replacements, images, runtime.files)
    modifies w, runtime`faults
    ensures ok ==>
              w.sent == old(w.sent) + Compact(Obj(SubstituteMembers(value, path, images))) &&
              Behind(w) == old(Behind(w))
    ensures Faultless(ok, w, old(w.faults), runtime, old(runtime.faults), AllReadable(replacements, runtime.files))
    decreases value, 2
  {
    ghost var out := SubstituteMembers(value, path, images);
    ok := Put(w, [OPEN_BRACE]);
    if ok {
      ok := WriteMembers(w, path, value, replacements, runtime, images);
    }
    if ok {
      ok := Put(w, [CLOSE_BRACE]);
      MemberParts(old(w.sent), [OPEN_BRACE], MembersText(out, |out|), [CLOSE_BRACE]);
      assert [OPEN_BRACE] + (MembersText(out, |out|) + [CLOSE_BRACE]) == Compact(Obj(out));
    }
  }

  method WriteMembers(w: CountingWriter, path: bytes, value: Value, replacements: map<bytes, RequestReplacement>,
                      runtime: BlobRuntime, ghost images: map<bytes, Image>)
    returns (ok: bool)
    requires value.Obj? && Depicts(replacements, images, runtime.files)
    modifies w, runtime`faults
    ensures ok ==> Behind(w) == old(Behind(w))
    ensures ok ==> w.sent == old(w.sent) + MembersText(SubstituteMembers(value, path, images), |value.members|)
    ensures Faultless(ok, w, old(w.faults), runtime, old(runtime.faults), AllReadable(replacements, runtime.files))
    decreases value, 1
  {
    ghost var out, start := SubstituteMembers(value, path, images), w.sent;
    assert start + MembersText(out, 0) == start;
    var first := true;
    for i := 0 to |value.members|
      invariant first == (i == 0) && Behind(w) == old(Behind(w))
      invariant w.faults == old(w.faults) && runtime.faults == old(runtime.faults)
      invariant w.sent == start + MembersText(out, i)
    {
      ok := WriteMember(w, path, value, i, first, replacements, runtime, images);
      if !ok {
        return;
      }
      first := false;
      NextMember(start, out, i);
    }
    ok := true;
  }

  lemma NextMember(sent: bytes, ms: seq<Member>, i: nat)
    requires i < |ms|
    ensures (sent + MembersText(ms, i)) + (Separator(i == 0) + MemberText(ms[i])) == sent + MembersText(ms, i + 1)
  {
    var done, sep, part := MembersText(ms, i), Separator(i == 0), MemberText(ms[i]);
    assert done + sep + part == done + (sep + part);
    assert (sent + done) + (sep + part) == sent + (done + (sep + part));
  }

  function MemberText(m: Member): bytes {
    Quote(m.key) + [COLON] + Compact(m.value)
  }

  /** A comma unless this is the first member, the key, and the member's value. */
  method WriteMember(w: CountingWriter, path: bytes, value: Value, i: nat, first: bool,
                     replacements: map<bytes, RequestReplacement>, runtime: BlobRuntime,
                     ghost images: map<bytes, Image>)
    returns (ok: bool)
    requires value.Obj? && i < |value.members| && Depicts(replacements, images, runtime.files)
    modifies w, runtime`faults
    ensures ok ==> Behind(w) == old(Behind(w))
    ensures ok ==> w.sent == old(w.sent) + (Separator(first) + MemberText(SubstituteMembers(value, path, images)[i]))
    ensures Faultless(ok, w, old(w.faults), runtime, old(runtime.faults), AllReadable(replacements, runtime.files))
    decreases value, 0
  {
    var key, child := value.members[i].key, value.members[i].value;
    ok := true;
    if !first {
      ok := Put(w, [COMMA]);
    }
    if ok {
      ok := PutTwo(w, Quote(key), [COLON]);
    }
    if ok {
      ok := WriteJsonValue(w, Extend(path, key), child, replacements, runtime, images);
      MemberParts(old(w.sent), Separator(first), Quote(key) + [COLON],
                  Compact(Substitute(child, Extend(path, key), images)));
    }
  }

  lemma MemberParts(sent: bytes, sep: bytes, key: bytes, text: bytes)
    ensures sent + sep + key + text == sent + (sep + (key + text)) && sent + [] == sent
  {
    assert sent + sep + key + text == sent + sep + (key + text);
    assert sent + sep + (key + text) == sent + (sep + (key + text));
  }

  method WriteArray(w: CountingWriter, path: bytes, value: Value, replacements: map<bytes, RequestReplacement>,
                    runtime: BlobRuntime, ghost images: map<bytes, Image>)
    returns (ok: bool)
    requires value.Arr? && Depicts(replacements, images, runtime.files)
    modifies w, runtime`faults
    ensures ok ==>
              w.sent == old(w.sent) + Compact(Arr(SubstituteItems(value, path, images))) && Behind(w) == old(Behind(w))
    ensures Faultless(ok, w, old(w.faults), runtime, old(runtime.faults), AllReadable(replacements, runtime.files))
    decreases value, 2
  {
    ghost var out := SubstituteItems(value, path, images);
    ok := Put(w, [OPEN_BRACKET]);
    if ok {
      ok := WriteItems(w, path, value, replacements, runtime, images);
    }
    if ok {
      ok := Put(w, [CLOSE_BRACKET]);
      MemberParts(old(w.sent), [OPEN_BRACKET], ItemsText(out, |out|), [CLOSE_BRACKET]);
      assert [OPEN_BRACKET] + (ItemsText(out, |out|) + [CLOSE_BRACKET]) == Compact(Arr(out));
    }
  }

  method WriteItems(w: CountingWriter, path: bytes, value: Value, replacements: map<bytes, RequestReplacement>,
                    runtime: BlobRuntime, ghost images: map<bytes, Image>)
    returns (ok: bool)
    requires value.Arr? && Depicts(replacements, images, runtime.files)
    modifies w, runtime`faults
    ensures ok ==> Behind(w) == old(Behind(w))
    ensures ok ==> w.sent == old(w.sent) + ItemsText(SubstituteItems(value, path, images), |value.items|)
    ensures Faultless(ok, w, old(w.faults), runtime, old(runtime.faults), AllReadable(replacements, runtime.files))
    decreases value, 1
  {
    ghost var out, start := SubstituteItems(value, path, images), w.sent;
    assert start + ItemsText(out, 0) == start;
    for i := 0 to |value.items|
      invariant Behind(w) == old(Behind(w)) && w.faults == old(w.faults) && runtime.faults == old(runtime.faults)
      invariant w.sent == start + ItemsText(out, i)
    {
      ok := WriteItem(w, path, value, i, replacements, runtime, images);
      if !ok {
        return;
      }
      NextItem(out, i);
      ConcatJoins(start, ItemsText(out, i), Separator(i == 0) + Compact(out[i]),
                  ItemsText(out, i) + (Separator(i == 0) + Compact(out[i])));
    }
    ok := true;
  }

  lemma NextItem(items: seq<Value>, i: nat)
    requires i < |items|
    ensures ItemsText(items, i + 1) == ItemsText(items, i) + (Separator(i == 0) + Compact(items[i]))
  {
    ConcatJoins(ItemsText(items, i), Separator(i == 0), Compact(items[i]), Separator(i == 0) + Compact(items[i]));
  }

  method WriteItem(w: CountingWriter, path: bytes, value: Value, i: nat, replacements: map<bytes, RequestReplacement>,
                   runtime: BlobRuntime, ghost images: map<bytes, Image>)
    returns (ok: bool)
    requires value.Arr? && i < |value.items| && Depicts(replacements, images, runtime.files)
    modifies w, runtime`faults
    ensures ok ==> Behind(w) == old(Behind(w))
    ensures ok ==> w.sent == old(w.sent) + (Separator(i == 0) + Compact(SubstituteItems(value, path, images)[i]))
    ensures Faultless(ok, w, old(w.faults), runtime, old(runtime.faults), AllReadable(replacements, runtime.files))
    decreases value, 0
  {
    ok := true;
    if i > 0 {
      ok := Put(w, [COMMA]);
    }
    if ok {
      IndexIsPlain(i);
      ok := WriteJsonValue(w, path + [SLASH] + Dec(i), value.items[i], replacements, runtime, images);
      MemberParts(old(w.sent), Separator(i == 0), [],
                  Compact(Substitute(value.items[i], Extend(path, Dec(i)), images)));
      ConcatJoins(old(w.sent), Separator(i == 0), Compact(Substitute(value.items[i], Extend(path, Dec(i)), images)),
                  Separator(i == 0) + Compact(Substitute(value.items[i], Extend(path, Dec(i)), images)));
    }
  }

  // ----- The encoded body -----

  datatype EncodedRequestBody = EncodedRequestBody(bodyBlob: BlobHandle, contentLength: nat)

  /** The replacements by pointer; of two with the same pointer the later counts. */
  function ByPointer(replacements: seq<RequestReplacement>): map<bytes, RequestReplacement> {
    if replacements == [] then map[]
    else
      var last := replacements[|replacements| - 1];
      ByPointer(replacements[..|replacements| - 1])[last.jsonPointer := last]
  }

  method CollectByPointer(replacements: seq<RequestReplacement>) returns (byPointer: map<bytes, RequestReplacement>)
    ensures byPointer == ByPointer(replacements)
  {
    byPointer := map[];
    for i := 0 to |replacements|
      invariant byPointer == ByPointer(replacements[..i])
    {
      assert replacements[..i + 1][..i] == replacements[..i];
      byPointer := byPointer[replacements[i].jsonPointer := replacements[i]];
    }
    assert replacements[..|replacements|] == replacements;
  }

  function BodyText(request: Value, images: map<bytes, Image>): bytes {
    Compact(Substitute(Strip(request), [], images))
  }

  /** The stored body is the compact text of the stripped request with its images in place, and
      the content length is its size. */
  method EncodeRequestBody(request: Value, replacements: seq<RequestReplacement>, runtime: BlobRuntime,
                           ghost images: map<bytes, Image>)
    returns (r: Option<EncodedRequestBody>)
    requires runtime.Valid() && Depicts(ByPointer(replacements), images, runtime.files)
    modifies runtime
    ensures runtime.Valid()
    ensures var body := if r.Some? then Some(r.value.bodyBlob) else None;
            && runtime.Booked(old(runtime.handles), old(runtime.held), body) && (r.Some? ==> fresh(r.value.bodyBlob))
            && Stored(runtime.limits, old(runtime.Now()), BodyText(request, images), Ascii("application/json"), body,
                      runtime.Now())
    ensures r.Some? ==> r.value.contentLength == |BodyText(request, images)| == r.value.bodyBlob.sizeBytes
    ensures r.Some? && old(runtime.Tidy()) ==> runtime.Tidy()
    ensures runtime.faults >= old(runtime.faults) && (r.Some? ==> runtime.faults == old(runtime.faults))
    ensures r.None? && AllReadable(ByPointer(replacements), old(runtime.files)) ==> runtime.faults > old(runtime.faults)
  {
    var byPointer := CollectByPointer(replacements);
    var written, text, contentLength := WriteBody(request, byPointer, runtime, images);
    if !written {
      runtime.AbandonStream();
      return None;
    }
    r := StoreBody(text, contentLength, runtime);
  }

  method WriteRoot(w: CountingWriter, root: Value, byPointer: map<bytes, RequestReplacement>, runtime: BlobRuntime,
                   ghost images: map<bytes, Image>)
    returns (ok: bool)
    requires runtime.Valid() && Depicts(byPointer, images, runtime.files)
    modifies w, runtime`faults
    ensures runtime.Valid() && runtime.Now() == old(runtime.Now()) && (old(runtime.Tidy()) ==> runtime.Tidy())
    ensures ok ==> w.sent == old(w.sent) + Compact(Substitute(root, [], images)) && Behind(w) == old(Behind(w))
    ensures Faultless(ok, w, old(w.faults), runtime, old(runtime.faults), AllReadable(byPointer, runtime.files))
  {
    ok := WriteJsonValue(w, [], root, byPointer, runtime, images);
  }

  /** Writes the whole body; a writer that breaks counts as a fault of the runtime's medium. */
  method WriteBody(request: Value, byPointer: map<bytes, RequestReplacement>, runtime: BlobRuntime,
                   ghost images: map<bytes, Image>)
    returns (ok: bool, text: bytes, contentLength: nat)
    requires runtime.Valid() && Depicts(byPointer, images, runtime.files)
    modifies runtime`faults
    ensures runtime.Valid() && runtime.Now() == old(runtime.Now()) && (old(runtime.Tidy()) ==> runtime.Tidy())
    ensures ok ==> text == BodyText(request, images) && contentLength == |text|
    ensures runtime.faults >= old(runtime.faults) && (ok ==> runtime.faults == old(runtime.faults))
    ensures !ok && AllReadable(byPointer, runtime.files) ==> runtime.faults > old(runtime.faults)
  {
    var writer := new CountingWriter();
    ok := WriteRoot(writer, Strip(request), byPointer, runtime, images);
    runtime.NoteFault(writer.faults > 0);
    text, contentLength := writer.sent, writer.contentLength;
  }

  /** Stores the written body, which the store reads from the other end of a pipe. */
  method StoreBody(text: bytes, contentLength: nat, runtime: BlobRuntime) returns (r: Option<EncodedRequestBody>)
    requires runtime.Valid() && contentLength == |text|
    modifies runtime
    ensures runtime.Valid()
    ensures var body := if r.Some? then Some(r.value.bodyBlob) else None;
            && runtime.Booked(old(runtime.handles), old(runtime.held), body) && (r.Some? ==> fresh(r.value.bodyBlob))
            && Stored(runtime.limits, old(runtime.Now()), text, Ascii("application/json"), body, runtime.Now())
    ensures r.Some? ==> r.value.contentLength == |text| == r.value.bodyBlob.sizeBytes
    ensures r.Some? && old(runtime.Tidy()) ==> runtime.Tidy()
    ensures runtime.faults >= old(runtime.faults) && (r.Some? <==> runtime.faults == old(runtime.faults))
  {
    var reader := new BlobReader(text);
    assert reader.content[0..] == reader.content;
    var stored := runtime.StoreStream(reader, Ascii("application/json"));
    runtime.NoteFault(reader.faults > 0);
    r := if stored.None? then None else Some(EncodedRequestBody(stored.value, contentLength));
  }
}
