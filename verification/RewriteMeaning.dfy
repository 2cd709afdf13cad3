/** What a rewritten request is, place by place, with every name spelled out. */
module RewriteMeaning {
  import opened Wrappers
  import opened Bytes
  import opened Decimal
  import opened Base64
  import opened Json
  import opened JsonPointer
  import opened StripOutput
  import opened RequestScan
  import opened RequestEncode
  import opened RequestMaterialize
  import opened RequestRewrite

  /** One of the proxy's own output settings, or below one. */
  predicate IsDropped(at: seq<bytes>) {
    || [Ascii("output")] <= at
    || [Ascii("generationConfig"), Ascii("imageConfig"), Ascii("output")] <= at
    || [Ascii("generation_config"), Ascii("image_config"), Ascii("output")] <= at
  }

  /** The place of an `inlineData` member whose `data` is this http or https URL. */
  ghost predicate IsImage(body: Value, at: seq<bytes>, url: bytes) {
    && at != [] && at[|at| - 1] == Ascii("inlineData")
    && (exists ms :: Resolve(body, at) == Some(Obj(ms)) && Member(Ascii("data"), Str(url)) in ms)
    && (exists t: bytes :: url == Ascii("http://") + t || url == Ascii("https://") + t)
  }

  /** Strictly inside an image's node. */
  ghost predicate InsideImage(body: Value, at: seq<bytes>) {
    exists k: nat, url :: k < |at| && IsImage(body, at[..k], url)
  }

  lemma DroppedIsStripped(at: seq<bytes>)
    ensures IsDropped(at) <==> IsStripped(at)
  {
    var a, b := IMAGE_CONFIG + [OUTPUT], IMAGE_CONFIG_SNAKE + [OUTPUT];
    assert a == [Ascii("generationConfig"), Ascii("imageConfig"), Ascii("output")];
    assert b == [Ascii("generation_config"), Ascii("image_config"), Ascii("output")];
  }

  lemma ImageIsFound(body: Value, at: seq<bytes>, url: bytes)
    requires Proper(body)
    ensures IsImage(body, at, url) <==> ImageAt(body, at, url)
  {
    ScanFindsImages(body, at, url);
    ScanExact(body, at, url);
  }

  // ----- Inlining, by places -----

  /** A place below no image that is to be replaced leads to what its node becomes. */
  lemma {:induction false} ResolveInlined(v: Value, at: seq<bytes>, web: Web)
    requires Proper(v) && forall k :: 0 < k < |at| ==> !ToReplace(v, at[..k], web)
    ensures Resolve(Inlined(v, web), at) ==
            match Resolve(v, at)
            case None => None
            case Some(n) => Some(InlinedAt(at, n, web))
    decreases |at|
  {
    if at != [] {
      var init, last := at[..|at| - 1], at[|at| - 1];
      assert at == init + [last];
      assert forall k :: 0 < k < |init| ==> init[..k] == at[..k];
      ResolveInlined(v, init, web);
      assert init != [] ==> !ToReplace(v, at[..|init|], web) && at[..|init|] == init;
      InlinedSnoc(v, init, last, web);
    }
  }

  lemma InlinedSnoc(v: Value, init: seq<bytes>, last: bytes, web: Web)
    requires Proper(v)
    requires Resolve(Inlined(v, web), init) ==
             match Resolve(v, init)
             case None => None
             case Some(n) => Some(Inlined(n, web))
    ensures Resolve(Inlined(v, web), init + [last]) ==
            match Resolve(v, init + [last])
            case None => None
            case Some(c) => Some(InlinedAt(init + [last], c, web))
  {
    ResolveSnoc(v, init, last);
    ResolveSnoc(Inlined(v, web), init, last);
    ResolveProper(v, init);
    if Resolve(v, init).Some? { ChildOfInlined(Resolve(v, init).value, last, web); }
  }

  ghost predicate ToReplace(v: Value, at: seq<bytes>, web: Web) {
    at != [] && Resolve(v, at).Some? && IsFetchable(Member(at[|at| - 1], Resolve(v, at).value), web)
  }

  lemma ChildOfInlined(n: Value, token: bytes, web: Web)
    requires Proper(n)
    ensures Child(Inlined(n, web), token) ==
            match Child(n, token)
            case None => None
            case Some(c) => Some(InlinedAt([token], c, web))
  {
    match n {
      case Obj(ms) => { MembersInlined(ms, token, web); }
      case Arr(items) => { if token == INLINE_DATA { NameIsNoIndex(); } }
      case _ => {}
    }
  }

  lemma MembersInlined(ms: seq<Member>, token: bytes, web: Web)
    requires DistinctKeys(ms)
    ensures Lookup(Inlined(Obj(ms), web).members, token) ==
            match Lookup(ms, token)
            case None => None
            case Some(c) => Some(InlinedAt([token], c, web))
  {
    var out := Inlined(Obj(ms), web).members;
    assert forall i :: 0 <= i < |ms| ==> out[i].key == ms[i].key;
    match IndexOf(ms, token) {
      case Some(i) => { LookupAt(out, i); }
      case None => { assert forall i :: 0 <= i < |out| ==> out[i].key != token; }
    }
  }

  // ----- Stripping, by places -----

  /** A place that is kept leads to a node of the same kind: only objects change. */
  lemma StripKeepsKind(v: Value, at: seq<bytes>)
    requires Proper(v) && !IsStripped(at)
    ensures Resolve(Strip(v), at).Some? <==> Resolve(v, at).Some?
    ensures Resolve(v, at).Some? ==>
              var n, m := Resolve(v, at).value, Resolve(Strip(v), at).value;
              (n.Obj? <==> m.Obj?) && (!n.Obj? ==> m == n)
  {
    StripExactly(v, at);
    ConfigNamesAreNoIndices();
    var one := StripAt(v, [], false);
    var two := StripAt(one, IMAGE_CONFIG, false);
    StripProper(v, [], false);
    StripProper(one, IMAGE_CONFIG, false);
    ResolveStripped(v, [], false, at);
    ResolveStripped(one, IMAGE_CONFIG, false, at);
    ResolveStripped(two, IMAGE_CONFIG_SNAKE, false, at);
  }

  lemma PrefixKept(at: seq<bytes>, k: nat)
    requires k <= |at| && !IsStripped(at)
    ensures !IsStripped(at[..k])
  {
    assert at[..k] <= at;
  }

  // ----- The whole rewrite -----

  /** What can be replaced in the stripped request is an image of the request. */
  lemma ReplacedIsImage(body: Value, at: seq<bytes>, web: Web)
    requires Proper(body) && AllFetchable(Scan(body, []), web) && !IsStripped(at)
    ensures ToReplace(Strip(body), at, web) <==> exists url :: IsImage(body, at, url)
    ensures forall url :: IsImage(body, at, url) ==>
              ToReplace(Strip(body), at, web) && UrlOf(Resolve(Strip(body), at).value) == Some(url) && url in web
  {
    StripExactly(body, at);
    forall url
      ensures IsImage(body, at, url) <==> ImageAt(body, at, url)
      ensures ImageAt(body, at, url) ==> ImageAt(Strip(body), at, url) && url in web
    {
      ImageIsFound(body, at, url);
      if ImageAt(body, at, url) {
        StripKeepsImages(body, at, url);
        ScanExact(body, at, url);
        assert Found(at, url) in Scan(body, []);
      }
    }
    if ToReplace(Strip(body), at, web) {
      var url := UrlOf(Resolve(Strip(body), at).value).value;
      assert ImageAt(Strip(body), at, url);
      StripKeepsImages(body, at, url);
      assert IsImage(body, at, url);
    }
  }

  lemma ResolveRewritten(body: Value, at: seq<bytes>, web: Web)
    requires Proper(body) && AllFetchable(Scan(body, []), web) && !IsStripped(at) && !InsideImage(body, at)
    ensures Resolve(Inlined(Strip(body), web), at) ==
            match Resolve(Strip(body), at)
            case None => None
            case Some(n) => Some(InlinedAt(at, n, web))
  {
    StripIsProper(body);
    forall k | 0 < k < |at|
      ensures !ToReplace(Strip(body), at[..k], web)
    {
      PrefixKept(at, k);
      ReplacedIsImage(body, at[..k], web);
    }
    ResolveInlined(Strip(body), at, web);
  }

  /** The image node, as the upstream expects it. */
  function InlineNode(mimeType: bytes, data: bytes): Value {
    Obj([Member(Ascii("mimeType"), Str(mimeType)), Member(Ascii("data"), Str(Encode(data)))])
  }

  /** The rewritten request has no place at or below the three output settings. In place of every
      image that is left it has the fetched type and base64 data. Every other place outside the
      images leads to what it led to: the same scalar, an array of the same length, or an
      object; and no new place appears. */
  lemma RewrittenPlaces(body: Value, at: seq<bytes>, web: Web)
    requires Proper(body) && AllFetchable(Scan(body, []), web)
    ensures var out := Inlined(Strip(body), web);
            && (IsDropped(at) && !InsideImage(body, at) ==> Resolve(out, at).None?)
            && (!IsDropped(at) && !InsideImage(body, at) ==>
                  && (forall url :: IsImage(body, at, url) ==>
                        url in web &&
                        Resolve(out, at) == Some(InlineNode(web[url].image.mimeType, web[url].image.data)))
                  && (Resolve(body, at).None? ==> Resolve(out, at).None?)
                  && (Resolve(body, at).Some? && !(exists url :: IsImage(body, at, url)) ==>
                        Resolve(out, at).Some? && SameShape(Resolve(body, at).value, Resolve(out, at).value)))
  {
    DroppedIsStripped(at);
    if !InsideImage(body, at) {
      if IsDropped(at) {
        DroppedPlaces(body, at, web);
      } else {
        KeptPlaces(body, at, web);
      }
    }
  }

  predicate SameShape(n: Value, m: Value) {
    match n
    case Obj(_) => m.Obj?
    case Arr(items) => m.Arr? && |m.items| == |items|
    case _ => m == n
  }

  lemma KeptPlaces(body: Value, at: seq<bytes>, web: Web)
    requires Proper(body) && AllFetchable(Scan(body, []), web) && !IsStripped(at) && !InsideImage(body, at)
    ensures var out := Inlined(Strip(body), web);
            && (forall url :: IsImage(body, at, url) ==>
                  url in web && Resolve(out, at) == Some(InlineNode(web[url].image.mimeType, web[url].image.data)))
            && (Resolve(body, at).None? ==> Resolve(out, at).None?)
            && (Resolve(body, at).Some? && !(exists url :: IsImage(body, at, url)) ==>
                  Resolve(out, at).Some? && SameShape(Resolve(body, at).value, Resolve(out, at).value))
  {
    StripKeepsKind(body, at);
    ResolveRewritten(body, at, web);
    ReplacedIsImage(body, at, web);
  }

  /** A place is dropped with everything below it, so its parent decides. */
  lemma {:induction false} DroppedPlaces(body: Value, at: seq<bytes>, web: Web)
    requires Proper(body) && AllFetchable(Scan(body, []), web) && IsStripped(at) && !InsideImage(body, at)
    ensures Resolve(Inlined(Strip(body), web), at).None?
    decreases |at|
  {
    assert at != [];
    var init, last := at[..|at| - 1], at[|at| - 1];
    assert at == init + [last];
    InitOutside(body, at);
    if IsStripped(init) {
      DroppedPlaces(body, init, web);
    } else {
      LastDropped(body, init, last, web);
    }
  }

  lemma InitOutside(body: Value, at: seq<bytes>)
    requires at != [] && !InsideImage(body, at)
    ensures var init := at[..|at| - 1]; !InsideImage(body, init) && forall url :: !IsImage(body, init, url)
  {
    var init := at[..|at| - 1];
    assert init == at[..|init|];
    forall k: nat, url | k < |init|
      ensures !IsImage(body, init[..k], url)
    {
      assert init[..k] == at[..k];
    }
  }

  lemma LastDropped(body: Value, init: seq<bytes>, last: bytes, web: Web)
    requires Proper(body) && AllFetchable(Scan(body, []), web) && !IsStripped(init) && IsStripped(init + [last])
    requires !InsideImage(body, init) && forall url :: !IsImage(body, init, url)
    ensures Resolve(Inlined(Strip(body), web), init + [last]).None?
  {
    ResolveRewritten(body, init, web);
    ReplacedIsImage(body, init, web);
    StripExactly(body, init + [last]);
    ResolveSnoc(Strip(body), init, last);
    ResolveSnoc(Inlined(Strip(body), web), init, last);
    StripIsProper(body);
    ResolveProper(Strip(body), init);
    if Resolve(Strip(body), init).Some? {
      assert !ToReplace(Strip(body), init, web);
      ChildOfInlined(Resolve(Strip(body), init).value, last, web);
    }
  }
}
