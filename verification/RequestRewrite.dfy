/** Fetching the images of a request and rewriting the request with them inside. */
module RequestRewrite {
  import opened Wrappers
  import opened Bytes
  import opened Decimal
  import opened Streams
  import opened Json
  import opened JsonText
  import opened JsonReader
  import opened JsonPointer
  import opened StripOutput
  import opened RequestScan
  import opened BlobBudget
  import opened BlobRuntime
  import opened RequestEncode
  import opened RequestMaterialize

  // ----- The meaning of a rewrite -----

  predicate IsFetchable(m: Member, web: Web) {
    m.key == INLINE_DATA && UrlOf(m.value).Some? && UrlOf(m.value).value in web
  }

  /** The tree in which every `inlineData` URL is the image itself, without a detour over pointers. */
  function Inlined(v: Value, web: Web): Value {
    match v
    case Obj(ms) =>
      Obj(seq(|ms|, i requires 0 <= i < |ms| =>
        Member(ms[i].key,
               if IsFetchable(ms[i], web) then ImageNode(web[UrlOf(ms[i].value).value].image)
               else Inlined(ms[i].value, web))))
    case Arr(items) => Arr(seq(|items|, i requires 0 <= i < |items| => Inlined(items[i], web)))
    case _ => v
  }

  /** The images by pointer. */
  function ImagesBy(found: seq<Found>, web: Web): map<bytes, Image>
    requires forall f <- found :: f.url in web
  {
    if found == [] then map[]
    else
      var last := found[|found| - 1];
      ImagesBy(found[..|found| - 1], web)[PointerOf(last.at) := web[last.url].image]
  }

  lemma {:induction false} ImagesByExactly(found: seq<Found>, web: Web, at: seq<bytes>)
    requires DistinctPlaces(found) && AllFetchable(found, web)
    ensures PointerOf(at) in ImagesBy(found, web) <==> exists f :: f in found && f.at == at
    ensures forall f <- found :: f.at == at ==> ImagesBy(found, web)[PointerOf(at)] == web[f.url].image
    decreases |found|
  {
    if found != [] {
      var init, last := found[..|found| - 1], found[|found| - 1];
      assert found == init + [last];
      ImagesByExactly(init, web, at);
      PointersAreInjective(last.at, at);
      if last.at == at {
        assert last in found;
      } else {
        assert forall f :: f in found && f.at == at ==> f in init;
      }
    }
  }

  /** Stripping makes no node an image and keeps every image that stays in the tree. */
  lemma StripKeepsImages(v: Value, at: seq<bytes>, url: bytes)
    requires Proper(v) && Resolve(Strip(v), at).Some?
    ensures ImageAt(Strip(v), at, url) <==> ImageAt(v, at, url)
  {
    StripExactly(v, at);
    if at != [] && at[|at| - 1] == INLINE_DATA {
      NotAConfigPlace(at);
    }
  }

  lemma NotAConfigPlace(at: seq<bytes>)
    requires at != [] && at[|at| - 1] == INLINE_DATA
    ensures !(at <= IMAGE_CONFIG) && !(at <= IMAGE_CONFIG_SNAKE)
  {
    var i := |at| - 1;
    assert INLINE_DATA[0] == 'i' as int && |INLINE_DATA| == 10;
    assert |IMAGE_CONFIG[0]| == 16 && |IMAGE_CONFIG[1]| == 11 && |IMAGE_CONFIG_SNAKE[0]| == 17 &&
           |IMAGE_CONFIG_SNAKE[1]| == 12;
  }

  /** What the node at `at` becomes. */
  function InlinedAt(at: seq<bytes>, v: Value, web: Web): Value {
    if at != [] && IsFetchable(Member(at[|at| - 1], v), web) then ImageNode(web[UrlOf(v).value].image)
    else Inlined(v, web)
  }

  /** The pointer-keyed substitution is the direct rewrite, although the pointers were made
      before the tree was stripped. */
  lemma {:induction false} SubstituteIsInlined(body: Value, v: Value, at: seq<bytes>, web: Web)
    requires Proper(body) && Proper(v) && Resolve(Strip(body), at) == Some(v) && AllFetchable(Scan(body, []), web)
    ensures Substitute(v, PointerOf(at), ImagesBy(Scan(body, []), web)) == InlinedAt(at, v, web)
    decreases v, 1
  {
    var images := ImagesBy(Scan(body, []), web);
    ReplacedExactly(body, v, at, web);
    if PointerOf(at) !in images {
      match v {
        case Obj(ms) => {
          forall i | 0 <= i < |ms|
            ensures SubstituteMembers(v, PointerOf(at), images)[i] == Inlined(v, web).members[i]
          {
            MemberIsInlined(body, v, at, web, i);
          }
          assert SubstituteMembers(v, PointerOf(at), images) == Inlined(v, web).members;
        }
        case Arr(items) => {
          forall i | 0 <= i < |items|
            ensures SubstituteItems(v, PointerOf(at), images)[i] == Inlined(v, web).items[i]
          {
            ItemIsInlined(body, v, at, web, i);
          }
          assert SubstituteItems(v, PointerOf(at), images) == Inlined(v, web).items;
        }
        case _ => {}
      }
    }
  }

  lemma MemberIsInlined(body: Value, v: Value, at: seq<bytes>, web: Web, i: nat)
    requires Proper(body) && Proper(v) && Resolve(Strip(body), at) == Some(v) && AllFetchable(Scan(body, []), web)
    requires v.Obj? && i < |v.members|
    ensures SubstituteMembers(v, PointerOf(at), ImagesBy(Scan(body, []), web))[i] == Inlined(v, web).members[i]
    decreases v, 0
  {
    var m := v.members[i];
    ResolveSnoc(Strip(body), at, m.key);
    ChildOfMember(v.members, i);
    PointerSnoc(at, m.key);
    SubstituteIsInlined(body, m.value, at + [m.key], web);
    assert (at + [m.key])[|at + [m.key]| - 1] == m.key;
  }

  lemma ItemIsInlined(body: Value, v: Value, at: seq<bytes>, web: Web, i: nat)
    requires Proper(body) && Proper(v) && Resolve(Strip(body), at) == Some(v) && AllFetchable(Scan(body, []), web)
    requires v.Arr? && i < |v.items|
    ensures SubstituteItems(v, PointerOf(at), ImagesBy(Scan(body, []), web))[i] == Inlined(v, web).items[i]
    decreases v, 0
  {
    ResolveSnoc(Strip(body), at, Dec(i));
    ChildOfItem(v.items, i);
    PointerSnoc(at, Dec(i));
    SubstituteIsInlined(body, v.items[i], at + [Dec(i)], web);
    assert (at + [Dec(i)])[|at + [Dec(i)]| - 1] == Dec(i);
    IndexTextIsExact(Dec(i), i);
    NameIsNoIndex();
  }

  /** In the stripped tree exactly the `inlineData` URLs are replaced, each by its own image. */
  lemma ReplacedExactly(body: Value, v: Value, at: seq<bytes>, web: Web)
    requires Proper(body) && Resolve(Strip(body), at) == Some(v) && AllFetchable(Scan(body, []), web)
    ensures var images := ImagesBy(Scan(body, []), web);
            && (PointerOf(at) in images <==> at != [] && IsFetchable(Member(at[|at| - 1], v), web))
            && (PointerOf(at) in images ==> images[PointerOf(at)] == web[UrlOf(v).value].image)
  {
    var found := Scan(body, []);
    ScanDistinct(body, body, []);
    ImagesByExactly(found, web, at);
    if at != [] && at[|at| - 1] == INLINE_DATA && UrlOf(v).Some? {
      var url := UrlOf(v).value;
      assert ImageAt(Strip(body), at, url);
      StripKeepsImages(body, at, url);
      ScanExact(body, at, url);
      assert Found(at, url) in found;
    }
    if PointerOf(at) in ImagesBy(found, web) {
      var f :| f in found && f.at == at;
      assert f == Found(at, f.url);
      ScanExact(body, at, f.url);
      StripKeepsImages(body, at, f.url);
    }
  }

  /** The text stored as the body is the compact text of the stripped request with every image inlined. */
  lemma BodyIsInlined(body: Value, web: Web)
    requires Proper(body) && AllFetchable(Scan(body, []), web)
    ensures Substitute(Strip(body), [], ImagesBy(Scan(body, []), web)) == Inlined(Strip(body), web)
  {
    var v := Strip(body);
    StripIsProper(body);
    assert Resolve(v, []) == Some(v) && PointerOf([]) == [];
    SubstituteIsInlined(body, v, [], web);
  }

  lemma StripIsProper(v: Value)
    requires Proper(v)
    ensures Proper(Strip(v))
  {
    StripProper(v, [], false);
    StripProper(StripAt(v, [], false), IMAGE_CONFIG, false);
    StripProper(StripAt(StripAt(v, [], false), IMAGE_CONFIG, false), IMAGE_CONFIG_SNAKE, false);
  }

  // ----- Parsing the result -----

  /** A parser that reads back what the compact writer writes. */
  ghost predicate ReadsBack(parse: bytes -> Option<Value>) {
    forall v :: NumbersOk(v) ==> parse(Compact(v)) == Some(v)
  }

  /** The JSON reader is such a parser. */
  lemma ReaderReadsBack()
    ensures ReadsBack(ReadJson)
  {
    forall v | NumbersOk(v)
      ensures ReadJson(Compact(v)) == Some(v)
    {
      ReadsCompact(v);
    }
  }

  lemma {:induction false} StripKeepsNumbers(v: Value, path: seq<bytes>)
    requires NumbersOk(v) && Proper(v)
    ensures NumbersOk(StripAt(v, path, false))
    decreases |path|
  {
    if v.Obj? {
      if path == [] {
        RemoveExactly(v.members, OUTPUT, false);
        var out := Remove(v.members, OUTPUT, false);
        forall i | 0 <= i < |out|
          ensures NumbersOk(out[i].value)
        {
          assert out[i] in v.members;
        }
      } else if IndexOf(v.members, path[0]).Some? {
        StripKeepsNumbers(v.members[IndexOf(v.members, path[0]).value].value, path[1..]);
      }
    }
  }

  lemma {:induction false} InlinedKeepsNumbers(v: Value, web: Web)
    requires NumbersOk(v)
    ensures NumbersOk(Inlined(v, web))
    decreases v
  {
    match v {
      case Obj(ms) => {
        forall i | 0 <= i < |ms|
          ensures NumbersOk(Inlined(v, web).members[i].value)
        {
          InlinedKeepsNumbers(ms[i].value, web);
        }
      }
      case Arr(items) => {
        forall i | 0 <= i < |items|
          ensures NumbersOk(Inlined(items[i], web))
        {
          InlinedKeepsNumbers(items[i], web);
        }
      }
      case _ => {}
    }
  }

  lemma RewrittenIsReadable(body: Value, web: Web)
    requires Proper(body) && NumbersOk(body)
    ensures NumbersOk(Inlined(Strip(body), web))
  {
    var one := StripAt(body, [], false);
    var two := StripAt(one, IMAGE_CONFIG, false);
    StripProper(body, [], false);
    StripProper(one, IMAGE_CONFIG, false);
    StripKeepsNumbers(body, []);
    StripKeepsNumbers(one, IMAGE_CONFIG);
    StripKeepsNumbers(two, IMAGE_CONFIG_SNAKE);
    InlinedKeepsNumbers(Strip(body), web);
  }

  // ----- The pipeline -----

  lemma {:induction false} ReplacementsDepict(found: seq<Found>, replacements: seq<RequestReplacement>, web: Web,
                                              files: Files)
    requires AllAnswered(found, replacements, web, files) && AllFetchable(found, web)
    ensures Depicts(ByPointer(replacements), ImagesBy(found, web), files)
    decreases |found|
  {
    if found != [] {
      var n := |found| - 1;
      assert found[n] in found && Answers(found[n], replacements[n], web, files);
      assert forall i :: 0 <= i < n ==> Answers(found[i], replacements[i], web, files);
      ReplacementsDepict(found[..n], replacements[..n], web, files);
    }
  }

  lemma {:induction false} AnsweredAreReadable(found: seq<Found>, replacements: seq<RequestReplacement>, web: Web,
                                               files: Files)
    requires AllAnswered(found, replacements, web, files)
    ensures AllReadable(ByPointer(replacements), files)
    decreases |found|
  {
    if found != [] {
      var n := |found| - 1;
      assert Answers(found[n], replacements[n], web, files);
      assert forall i :: 0 <= i < n ==> Answers(found[i], replacements[i], web, files);
      AnsweredAreReadable(found[..n], replacements[..n], web, files);
    }
  }

  lemma AnsweredAreFetchable(found: seq<Found>, replacements: seq<RequestReplacement>, web: Web, files: Files)
    requires AllAnswered(found, replacements, web, files)
    ensures AllFetchable(found, web)
  {
    forall f <- found
      ensures f.url in web
    {
      var i :| 0 <= i < |found| && found[i] == f;
      assert Answers(found[i], replacements[i], web, files);
    }
  }

  /** Where the pipeline stands: the blobs in `made` are new, all others read as before. */
  ghost predicate Undisturbed(runtime: BlobRuntime, past: Past, made: seq<BlobHandle>)
    reads runtime, runtime.handles
  {
    runtime.Valid() && Bounded(past) && MadeSince(past, Present(runtime), made) &&
    OthersRead(past.handles, past.files, runtime.files)
  }

  /** Once every new blob is removed, the books are as before. */
  lemma AllReleased(runtime: BlobRuntime, past: Past, made: seq<BlobHandle>)
    requires Undisturbed(runtime, past, made) && forall h <- made :: h.removed
    ensures runtime.held == past.held
  {
    assert forall h <- made :: runtime.HandleOk(h) && h.id !in runtime.held;
    forall id <- runtime.held
      ensures id in past.held
    {
      if id in Numbers(made) { NumberIsMade(made, id); }
    }
  }

  /** Removes one of the new blobs; older blobs read as before. */
  method RemoveMade(h: BlobHandle, runtime: BlobRuntime, ghost past: Past, ghost made: seq<BlobHandle>)
    returns (ok: bool)
    requires h in made && Undisturbed(runtime, past, made)
    modifies runtime, h`removed
    ensures h.removed && Undisturbed(runtime, past, made) && runtime.handles == old(runtime.handles)
    ensures Spoiled(ok, runtime, old(runtime.faults), true)
    ensures ok && old(runtime.Tidy()) ==> runtime.Tidy()
  {
    ghost var files := runtime.files;
    ok := runtime.Remove(h);
    forall g <- past.handles
      ensures ContentOf(g.storage, runtime.files) == ContentOf(g.storage, files)
    {
      if h.storage.Spilled? { RemoveKeepsOthers(files, h, g); }
    }
  }

  /** Removes the blob of every replacement, a shared one repeatedly, and then the body. */
  method RemoveAll(replacements: seq<RequestReplacement>, body: BlobHandle, runtime: BlobRuntime, ghost past: Past,
                   ghost made: seq<BlobHandle>)
    returns (ok: bool)
    requires Undisturbed(runtime, past, made) && body in made
    requires forall i :: 0 <= i < |replacements| ==> replacements[i].blob in made
    requires forall h <- made :: h == body || exists i :: 0 <= i < |replacements| && replacements[i].blob == h
    modifies runtime, set h | h in made
    ensures Undisturbed(runtime, past, made) && runtime.handles == old(runtime.handles)
    ensures ok ==> runtime.held == past.held && forall h <- made :: h.removed
    ensures Spoiled(ok, runtime, old(runtime.faults), true)
    ensures ok && old(runtime.Tidy()) ==> runtime.Tidy()
  {
    ok := RemoveReplacements(replacements, runtime, past, made);
    if ok {
      ok := RemoveMade(body, runtime, past, made);
    }
    if ok {
      AllReleased(runtime, past, made);
    }
  }

  method RemoveReplacements(replacements: seq<RequestReplacement>, runtime: BlobRuntime, ghost past: Past,
                            ghost made: seq<BlobHandle>)
    returns (ok: bool)
    requires Undisturbed(runtime, past, made)
    requires forall i :: 0 <= i < |replacements| ==> replacements[i].blob in made
    modifies runtime, set h | h in made
    ensures Undisturbed(runtime, past, made) && runtime.handles == old(runtime.handles)
    ensures ok ==> forall i :: 0 <= i < |replacements| ==> replacements[i].blob.removed
    ensures Spoiled(ok, runtime, old(runtime.faults), true)
    ensures ok && old(runtime.Tidy()) ==> runtime.Tidy()
  {
    for i := 0 to |replacements|
      invariant Undisturbed(runtime, past, made) && runtime.handles == old(runtime.handles)
      invariant runtime.faults == old(runtime.faults)
      invariant forall k :: 0 <= k < i ==> replacements[k].blob.removed
      invariant old(runtime.Tidy()) ==> runtime.Tidy()
    {
      ok := RemoveMade(replacements[i].blob, runtime, past, made);
      if !ok {
        return;
      }
    }
    ok := true;
  }

  lemma OthersStillRead(l: Limits, before: View, data: bytes, mimeType: bytes, r: Option<BlobHandle>, after: View,
                        past: Past)
    requires Stored(l, before, data, mimeType, r, after) && OthersRead(past.handles, past.files, before.files)
    requires forall h <- past.handles :: h.id != before.nextId && OwnFile(h.id, h.storage)
    ensures OthersRead(past.handles, past.files, after.files)
    ensures r.Some? ==> ContentOf(r.value.storage, after.files) == Some(data)
  {
    forall h <- past.handles
      ensures ContentOf(h.storage, after.files) == ContentOf(h.storage, before.files)
    {
      StoreKeepsOthers(l, before, data, mimeType, r, after, h);
    }
  }

  /** The images of a request whose replacements answer its scan. */
  lemma PrepareEncoding(body: Value, replacements: seq<RequestReplacement>, web: Web, files: Files)
    requires Proper(body) && AllAnswered(Scan(body, []), replacements, web, files)
    ensures AllFetchable(Scan(body, []), web) && AllReadable(ByPointer(replacements), files)
    ensures var images := ImagesBy(Scan(body, []), web);
            Depicts(ByPointer(replacements), images, files) &&
            BodyText(body, images) == Compact(Inlined(Strip(body), web))
  {
    AnsweredAreFetchable(Scan(body, []), replacements, web, files);
    AnsweredAreReadable(Scan(body, []), replacements, web, files);
    ReplacementsDepict(Scan(body, []), replacements, web, files);
    BodyIsInlined(body, web);
  }

  /** Encodes the request with its replacements. */
  method EncodeBody(body: Value, replacements: seq<RequestReplacement>, runtime: BlobRuntime, web: Web,
                    ghost past: Past, ghost made: seq<BlobHandle>)
    returns (r: Option<BlobHandle>)
    requires Undisturbed(runtime, past, made) && Proper(body)
    requires AllAnswered(Scan(body, []), replacements, web, runtime.files)
    modifies runtime
    ensures runtime.Valid() && OthersRead(past.handles, past.files, runtime.files)
    ensures r.Some? ==> fresh(r.value) && MadeSince(past, Present(runtime), made + [r.value])
    ensures r.Some? ==> ContentOf(r.value.storage, runtime.files) == Some(Compact(Inlined(Strip(body), web)))
    ensures Spoiled(r.Some?, runtime, old(runtime.faults), true)
    ensures r.Some? && old(runtime.Tidy()) ==> runtime.Tidy()
  {
    PrepareEncoding(body, replacements, web, runtime.files);
    ghost var images := ImagesBy(Scan(body, []), web);
    ghost var mid, before := Present(runtime), runtime.Now();
    var encoded := EncodeRequestBody(body, replacements, runtime, images);
    r := if encoded.Some? then Some(encoded.value.bodyBlob) else None;
    OthersStillRead(runtime.limits, before, BodyText(body, images), Ascii("application/json"), r, runtime.Now(), past);
    if r.Some? {
      MadeOneMore(past, mid, Present(runtime), made, r.value);
    }
  }

  /** Reads a stored blob back; nothing changes but the fault count. */
  method ReadBack(h: BlobHandle, runtime: BlobRuntime, ghost text: bytes) returns (r: Option<bytes>)
    requires runtime.Valid() && ContentOf(h.storage, runtime.files) == Some(text)
    modifies runtime`faults
    ensures runtime.Valid() && (old(runtime.Tidy()) ==> runtime.Tidy())
    ensures (r.Some? ==> r.value == text) && Spoiled(r.Some?, runtime, old(runtime.faults), true)
  {
    r := runtime.ReadBytes(h);
  }

  method EncodeAndRead(body: Value, replacements: seq<RequestReplacement>, runtime: BlobRuntime, web: Web,
                       ghost past: Past, ghost made: seq<BlobHandle>)
    returns (r: Option<(bytes, BlobHandle)>)
    requires Undisturbed(runtime, past, made) && Proper(body)
    requires AllAnswered(Scan(body, []), replacements, web, runtime.files)
    modifies runtime
    ensures runtime.Valid() && OthersRead(past.handles, past.files, runtime.files)
    ensures r.Some? ==> r.value.0 == Compact(Inlined(Strip(body), web))
    ensures r.Some? ==> fresh(r.value.1) && Undisturbed(runtime, past, made + [r.value.1])
    ensures Spoiled(r.Some?, runtime, old(runtime.faults), true)
    ensures r.Some? && old(runtime.Tidy()) ==> runtime.Tidy()
  {
    var encoded := EncodeBody(body, replacements, runtime, web, past, made);
    if encoded.None? {
      return None;
    }
    var text := ReadBack(encoded.value, runtime, Compact(Inlined(Strip(body), web)));
    r := if text.None? then None else Some((text.value, encoded.value));
  }

  /** Encodes the request, reads the body back and removes every blob made for it. */
  method EncodeAndRemove(body: Value, replacements: seq<RequestReplacement>, runtime: BlobRuntime, web: Web,
                         ghost past: Past, ghost made: seq<BlobHandle>)
    returns (r: Option<bytes>)
    requires Undisturbed(runtime, past, made) && Proper(body)
    requires AllAnswered(Scan(body, []), replacements, web, runtime.files)
    requires forall i :: 0 <= i < |replacements| ==> replacements[i].blob in made
    requires forall h <- made :: exists i :: 0 <= i < |replacements| && replacements[i].blob == h
    modifies runtime, set h | h in made
    ensures runtime.Valid() && OthersRead(past.handles, past.files, runtime.files)
    ensures r.Some? ==> r.value == Compact(Inlined(Strip(body), web)) && runtime.held == past.held
    ensures r.Some? ==> forall h <- runtime.handles :: h in past.handles || h.removed
    ensures Spoiled(r.Some?, runtime, old(runtime.faults), true)
    ensures r.Some? && old(runtime.Tidy()) ==> runtime.Tidy()
  {
    var encoded := EncodeAndRead(body, replacements, runtime, web, past, made);
    if encoded.None? {
      return None;
    }
    var (text, handle) := encoded.value;
    var ok := RemoveAll(replacements, handle, runtime, past, made + [handle]);
    r := if ok then Some(text) else None;
  }

  /** What the pipeline parses in the end: the stripped request with every image inlined. */
  function RewrittenText(body: Value, web: Web): bytes {
    Compact(Inlined(Strip(body), web))
  }

  /** Any parser that reads every compact text back reads the rewritten request back. */
  lemma RewrittenReadsBack(body: Value, web: Web, parse: bytes -> Option<Value>)
    requires Proper(body) && NumbersOk(body) && ReadsBack(parse)
    ensures parse(RewrittenText(body, web)) == Some(Inlined(Strip(body), web))
  {
    RewrittenIsReadable(body, web);
  }

  /** The pipeline: fetch and store, encode, read the body back, remove every blob, parse. Unless
      there are too many images, a fetch fails or the file system does, the result is what the
      parser makes of the stripped request with every image inlined, and the runtime holds what
      it held before; blobs it held before read the same in any case. */
  method RewriteWith(body: Value, runtime: BlobRuntime, web: Web, parse: bytes -> Option<Value>)
    returns (r: Option<Value>)
    requires runtime.Valid() && Proper(body)
    modifies runtime
    ensures runtime.Valid() && OthersRead(old(runtime.handles), old(runtime.files), runtime.files)
    ensures runtime.faults >= old(runtime.faults)
    ensures var clean := Rewritable(body, web) && runtime.faults == old(runtime.faults);
            && (r.Some? ==> clean)
            && (clean ==> r == parse(RewrittenText(body, web)))
            && (clean ==> runtime.held == old(runtime.held) && runtime.globalHotBytes == old(runtime.globalHotBytes))
            && (clean && old(runtime.Tidy()) ==> runtime.Tidy())
            && (clean ==> forall h <- runtime.handles :: h in old(runtime.handles) || h.removed)
  {
    ghost var past := Present(runtime);
    var ok, replacements, made := MaterializeRequestImages(body, runtime, web);
    if !ok {
      return None;
    }
    AnsweredAreFetchable(Scan(body, []), replacements, web, runtime.files);
    var text := EncodeAndRemove(body, replacements, runtime, web, past, made);
    if text.None? {
      return None;
    }
    r := parse(text.value);
  }

  ghost predicate Rewritable(body: Value, web: Web) {
    |Scan(body, [])| <= MAX_INLINE_DATA_URLS && AllFetchable(Scan(body, []), web)
  }

  const COMPAT_LIMITS := Limits(8 * 1024 * 1024, 24 * 1024 * 1024, 384 * 1024 * 1024)

  /** A request with too many images is refused, one without images is returned as it is, and any
      other comes back as the parser reads its stripped and inlined text, unless a fetch or the
      file system fails. The runtime made for it ends without a byte in memory and without a file. */
  method RewriteRequestInlineData(body: Value, web: Web, parse: bytes -> Option<Value>)
    returns (r: Option<Value>, ghost faults: nat, ghost end: View)
    requires Proper(body)
    ensures |Scan(body, [])| > MAX_INLINE_DATA_URLS ==> r == None
    ensures |Scan(body, [])| == 0 ==> r == Some(body)
    ensures |Scan(body, [])| > 0 && r.Some? ==> Rewritable(body, web) && faults == 0
    ensures |Scan(body, [])| > 0 && Rewritable(body, web) && faults == 0 ==> r == parse(RewrittenText(body, web))
    ensures Rewritable(body, web) && faults == 0 ==> end.hot == 0 && end.files == map[]
  {
    faults, end := 0, View(1, 0, 0, 0, map[]);
    var ok, refs := ScanRequestImageUrls(body);
    if !ok {
      return None, 0, end;
    }
    if |refs| == 0 {
      return Some(body), 0, end;
    }
    var runtime := new BlobRuntime(COMPAT_LIMITS, map[]);
    r := RewriteWith(body, runtime, web, parse);
    faults, end := runtime.faults, runtime.Now();
  }
}
