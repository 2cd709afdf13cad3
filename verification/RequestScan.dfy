/** Finding the image URLs of a request: every `inlineData` object whose `data` is an http URL. */
module RequestScan {
  import opened Wrappers
  import opened Bytes
  import opened Decimal
  import opened Json
  import opened JsonPointer

  const MAX_INLINE_DATA_URLS: nat := 7

  const INLINE_DATA: bytes := Ascii("inlineData")
  const DATA: bytes := Ascii("data")

  datatype RequestImageRef = RequestImageRef(jsonPointer: bytes, url: bytes)

  predicate IsHttpUrl(s: bytes) {
    Ascii("http://") <= s || Ascii("https://") <= s
  }

  /** The URL in an `inlineData` node, if it is one that is to be fetched. */
  function UrlOf(v: Value): Option<bytes> {
    if !v.Obj? then None
    else
      match Lookup(v.members, DATA)
      case Some(Str(s)) => if IsHttpUrl(s) then Some(s) else None
      case _ => None
  }

  // ----- What the scan finds, with the tokens of every place -----

  datatype Found = Found(at: seq<bytes>, url: bytes)

  function Scan(v: Value, at: seq<bytes>): seq<Found> {
    match v
    case Obj(ms) => ScanOwn(ms, at) + ScanMembers(ms, at, |ms|)
    case Arr(items) => ScanItems(items, at, |items|)
    case _ => []
  }

  function ScanOwn(ms: seq<Member>, at: seq<bytes>): seq<Found> {
    match Lookup(ms, INLINE_DATA)
    case None => []
    case Some(v) =>
      match UrlOf(v)
      case None => []
      case Some(url) => [Found(at + [INLINE_DATA], url)]
  }

  function ScanMembers(ms: seq<Member>, at: seq<bytes>, n: nat): seq<Found>
    requires n <= |ms|
    decreases ms, n
  {
    if n == 0 then [] else ScanMembers(ms, at, n - 1) + Scan(ms[n - 1].value, at + [ms[n - 1].key])
  }

  function ScanItems(items: seq<Value>, at: seq<bytes>, n: nat): seq<Found>
    requires n <= |items|
    decreases items, n
  {
    if n == 0 then [] else ScanItems(items, at, n - 1) + Scan(items[n - 1], at + [Dec(n - 1)])
  }

  function Refs(found: seq<Found>): (r: seq<RequestImageRef>)
    ensures |r| == |found|
  {
    seq(|found|, i requires 0 <= i < |found| => RequestImageRef(PointerOf(found[i].at), found[i].url))
  }

  lemma RefsAppend(a: seq<Found>, b: seq<Found>)
    ensures Refs(a + b) == Refs(a) + Refs(b)
  {
  }

  // ----- The walk -----

  class Matches {
    var refs: seq<RequestImageRef>

    constructor ()
      ensures refs == []
    {
      refs := [];
    }
  }

  /** The outcome of a walk that was to append `more`: all of it, or a refusal once there are too many. */
  ghost predicate Appended(ok: bool, before: seq<RequestImageRef>, more: seq<RequestImageRef>,
                           after: seq<RequestImageRef>) {
    && (ok <==> |before| + |more| <= MAX_INLINE_DATA_URLS)
    && (ok ==> after == before + more)
  }

  lemma AppendedTwice(before: seq<RequestImageRef>, a: seq<Found>, mid: seq<RequestImageRef>, ok: bool, b: seq<Found>,
                      after: seq<RequestImageRef>)
    requires Appended(true, before, Refs(a), mid) && Appended(ok, mid, Refs(b), after)
    ensures Appended(ok, before, Refs(a + b), after)
  {
    RefsAppend(a, b);
    assert mid + Refs(b) == before + (Refs(a) + Refs(b));
  }

  lemma RefusedEarly(before: seq<RequestImageRef>, part: seq<Found>, whole: seq<Found>, after: seq<RequestImageRef>)
    requires Appended(false, before, Refs(part), after) && |part| <= |whole|
    ensures Appended(false, before, Refs(whole), after)
  {
  }

  method Walk(node: Value, path: bytes, matches: Matches, ghost at: seq<bytes>) returns (ok: bool)
    requires path == PointerOf(at) && |matches.refs| <= MAX_INLINE_DATA_URLS
    modifies matches
    ensures Appended(ok, old(matches.refs), Refs(Scan(node, at)), matches.refs)
    decreases node, 1
  {
    match node {
      case Obj(ms) => {
        ghost var before := matches.refs;
        ok := MatchOwn(ms, path, matches, at);
        if ok {
          ghost var mid := matches.refs;
          ok := WalkMembers(node, path, matches, at);
          AppendedTwice(before, ScanOwn(ms, at), mid, ok, ScanMembers(ms, at, |ms|), matches.refs);
        } else {
          RefsAppend(ScanOwn(ms, at), ScanMembers(ms, at, |ms|));
        }
      }
      case Arr(items) => { ok := WalkItems(node, path, matches, at); }
      case _ => { ok := true; }
    }
  }

  method MatchOwn(ms: seq<Member>, path: bytes, matches: Matches, ghost at: seq<bytes>) returns (ok: bool)
    requires path == PointerOf(at) && |matches.refs| <= MAX_INLINE_DATA_URLS
    modifies matches
    ensures Appended(ok, old(matches.refs), Refs(ScanOwn(ms, at)), matches.refs)
  {
    var inlineData := Lookup(ms, INLINE_DATA);
    if inlineData.Some? && inlineData.value.Obj? {
      var data := Lookup(inlineData.value.members, DATA);
      if data.Some? && data.value.Str? && IsHttpUrl(data.value.s) {
        PointerSnoc(at, INLINE_DATA);
        PlainName();
        matches.refs := matches.refs + [RequestImageRef(path + [SLASH] + INLINE_DATA, data.value.s)];
        return |matches.refs| <= MAX_INLINE_DATA_URLS;
      }
    }
    ok := true;
  }

  lemma PlainName()
    ensures Escape(INLINE_DATA) == INLINE_DATA
  {
    NothingToReplace(INLINE_DATA, TILDE, [TILDE, ZERO]);
    NothingToReplace(INLINE_DATA, SLASH, [TILDE, ONE]);
  }

  method WalkMembers(node: Value, path: bytes, matches: Matches, ghost at: seq<bytes>) returns (ok: bool)
    requires node.Obj? && path == PointerOf(at) && |matches.refs| <= MAX_INLINE_DATA_URLS
    modifies matches
    ensures Appended(ok, old(matches.refs), Refs(ScanMembers(node.members, at, |node.members|)), matches.refs)
    decreases node, 0
  {
    ghost var before := matches.refs;
    for i := 0 to |node.members|
      invariant Appended(true, before, Refs(ScanMembers(node.members, at, i)), matches.refs)
    {
      ghost var mid := matches.refs;
      var m := node.members[i];
      PointerSnoc(at, m.key);
      ok := Walk(m.value, Extend(path, m.key), matches, at + [m.key]);
      AppendedTwice(before, ScanMembers(node.members, at, i), mid, ok, Scan(m.value, at + [m.key]), matches.refs);
      if !ok {
        RefusedEarly(before, ScanMembers(node.members, at, i + 1), ScanMembers(node.members, at, |node.members|),
                     matches.refs) by {
          MembersOnlyGrow(node.members, at, i + 1, |node.members|);
        }
        return;
      }
    }
    ok := true;
  }

  method WalkItems(node: Value, path: bytes, matches: Matches, ghost at: seq<bytes>) returns (ok: bool)
    requires node.Arr? && path == PointerOf(at) && |matches.refs| <= MAX_INLINE_DATA_URLS
    modifies matches
    ensures Appended(ok, old(matches.refs), Refs(ScanItems(node.items, at, |node.items|)), matches.refs)
    decreases node, 0
  {
    ghost var before := matches.refs;
    for i := 0 to |node.items|
      invariant Appended(true, before, Refs(ScanItems(node.items, at, i)), matches.refs)
    {
      ghost var mid := matches.refs;
      PointerSnoc(at, Dec(i));
      IndexIsPlain(i);
      ok := Walk(node.items[i], path + [SLASH] + Dec(i), matches, at + [Dec(i)]);
      AppendedTwice(before, ScanItems(node.items, at, i), mid, ok, Scan(node.items[i], at + [Dec(i)]), matches.refs);
      if !ok {
        RefusedEarly(before, ScanItems(node.items, at, i + 1), ScanItems(node.items, at, |node.items|),
                     matches.refs) by {
          ItemsOnlyGrow(node.items, at, i + 1, |node.items|);
        }
        return;
      }
    }
    ok := true;
  }

  lemma {:induction false} MembersOnlyGrow(ms: seq<Member>, at: seq<bytes>, i: nat, n: nat)
    requires i <= n <= |ms|
    ensures |ScanMembers(ms, at, i)| <= |ScanMembers(ms, at, n)|
    decreases n
  {
    if i < n { MembersOnlyGrow(ms, at, i, n - 1); }
  }

  lemma {:induction false} ItemsOnlyGrow(items: seq<Value>, at: seq<bytes>, i: nat, n: nat)
    requires i <= n <= |items|
    ensures |ScanItems(items, at, i)| <= |ScanItems(items, at, n)|
    decreases n
  {
    if i < n { ItemsOnlyGrow(items, at, i, n - 1); }
  }

  /** Succeeds exactly when there are at most seven references, and then returns all of them. */
  method ScanRequestImageUrls(body: Value) returns (ok: bool, refs: seq<RequestImageRef>)
    ensures ok <==> |Scan(body, [])| <= 7
    ensures ok ==> refs == Refs(Scan(body, []))
  {
    var matches := new Matches();
    ok := Walk(body, [], matches, []);
    refs := matches.refs;
  }

  // ----- What is found -----

  /** `at` names an `inlineData` member to be fetched from `url`. */
  ghost predicate ImageAt(root: Value, at: seq<bytes>, url: bytes) {
    at != [] && at[|at| - 1] == INLINE_DATA && Resolve(root, at).Some? && UrlOf(Resolve(root, at).value) == Some(url)
  }

  ghost predicate Below(at: seq<bytes>, f: Found) {
    |at| < |f.at| && f.at[..|at|] == at
  }

  /** Everything found below `v` is an image of the whole request, strictly below the place of `v`. */
  lemma {:induction false} ScanSound(root: Value, v: Value, at: seq<bytes>)
    requires Resolve(root, at) == Some(v) && Proper(v)
    ensures forall f <- Scan(v, at) :: Below(at, f) && ImageAt(root, f.at, f.url)
    decreases v
  {
    match v {
      case Obj(ms) => {
        ResolveSnoc(root, at, INLINE_DATA);
        for i := 0 to |ms|
          invariant forall f <- ScanMembers(ms, at, i) :: Below(at, f) && ImageAt(root, f.at, f.url)
        {
          ResolveSnoc(root, at, ms[i].key);
          ChildOfMember(ms, i);
          ScanSound(root, ms[i].value, at + [ms[i].key]);
          DeeperAll(at, ms[i].key, Scan(ms[i].value, at + [ms[i].key]));
        }
      }
      case Arr(items) => {
        for i := 0 to |items|
          invariant forall f <- ScanItems(items, at, i) :: Below(at, f) && ImageAt(root, f.at, f.url)
        {
          ResolveSnoc(root, at, Dec(i));
          ChildOfItem(items, i);
          ScanSound(root, items[i], at + [Dec(i)]);
          DeeperAll(at, Dec(i), Scan(items[i], at + [Dec(i)]));
        }
      }
      case _ => {}
    }
  }

  lemma DeeperAll(at: seq<bytes>, token: bytes, found: seq<Found>)
    ensures forall f <- found :: Below(at + [token], f) ==> Below(at, f) && f.at[|at|] == token
  {
    forall f <- found | Below(at + [token], f)
      ensures Below(at, f) && f.at[|at|] == token
    {
      assert f.at[..|at|] == f.at[..|at| + 1][..|at|];
      assert f.at[|at|] == f.at[..|at| + 1][|at|];
    }
  }

  /** No image of the request is missed. */
  lemma {:induction false} ScanComplete(root: Value, v: Value, at: seq<bytes>, target: seq<bytes>, url: bytes)
    requires Resolve(root, at) == Some(v) && Proper(v) && ImageAt(root, target, url) && |at| < |target|
    requires target[..|at|] == at
    ensures Found(target, url) in Scan(v, at)
    decreases v, 1
  {
    var token := target[|at|];
    StepDown(root, v, at, target, url);
    if |at| + 1 == |target| {
      OwnImage(v, at, url);
    } else if v.Obj? {
      ImageInMember(root, v, at, IndexOf(v.members, token).value, target, url);
    } else {
      var i := ParseIndex(token).value;
      IndexTextIsExact(token, i);
      ImageInItem(root, v, at, i, target, url);
    }
  }

  /** The next token on the way to an image leads to a child, at last to the image itself. */
  lemma StepDown(root: Value, v: Value, at: seq<bytes>, target: seq<bytes>, url: bytes)
    requires Resolve(root, at) == Some(v) && ImageAt(root, target, url) && |at| < |target| && target[..|at|] == at
    ensures var token := target[|at|];
            && target[..|at| + 1] == at + [token] && Child(v, token).Some?
            && Resolve(root, at + [token]) == Child(v, token)
            && (|at| + 1 == |target| ==>
                  target == at + [INLINE_DATA] && token == INLINE_DATA && UrlOf(Child(v, token).value) == Some(url))
  {
    var token := target[|at|];
    assert target[..|at| + 1] == at + [token];
    ResolvePrefix(root, target, |at| + 1);
    ResolveSnoc(root, at, token);
    assert |at| + 1 == |target| ==> target == at + [token];
  }

  lemma OwnImage(v: Value, at: seq<bytes>, url: bytes)
    requires Child(v, INLINE_DATA).Some? && UrlOf(Child(v, INLINE_DATA).value) == Some(url)
    ensures Found(at + [INLINE_DATA], url) in Scan(v, at)
  {
    NameIsNoIndex();
  }

  lemma ImageInMember(root: Value, v: Value, at: seq<bytes>, i: nat, target: seq<bytes>, url: bytes)
    requires v.Obj? && Proper(v) && i < |v.members|
    requires Resolve(root, at + [v.members[i].key]) == Some(v.members[i].value)
    requires ImageAt(root, target, url) && |at| + 1 < |target| && target[..|at| + 1] == at + [v.members[i].key]
    ensures Found(target, url) in Scan(v, at)
    decreases v, 0
  {
    ScanComplete(root, v.members[i].value, at + [v.members[i].key], target, url);
    MemberFound(v.members, at, i, |v.members|, Found(target, url));
  }

  lemma ImageInItem(root: Value, v: Value, at: seq<bytes>, i: nat, target: seq<bytes>, url: bytes)
    requires v.Arr? && Proper(v) && i < |v.items| && Resolve(root, at + [Dec(i)]) == Some(v.items[i])
    requires ImageAt(root, target, url) && |at| + 1 < |target| && target[..|at| + 1] == at + [Dec(i)]
    ensures Found(target, url) in Scan(v, at)
    decreases v, 0
  {
    ScanComplete(root, v.items[i], at + [Dec(i)], target, url);
    ItemFound(v.items, at, i, |v.items|, Found(target, url));
  }

  lemma NameIsNoIndex()
    ensures ParseIndex(INLINE_DATA) == None
  {
    assert !IsDigit(INLINE_DATA[0]);
  }

  lemma {:induction false} MemberFound(ms: seq<Member>, at: seq<bytes>, i: nat, n: nat, f: Found)
    requires i < n <= |ms| && f in Scan(ms[i].value, at + [ms[i].key])
    ensures f in ScanMembers(ms, at, n)
    decreases n
  {
    if i < n - 1 { MemberFound(ms, at, i, n - 1, f); }
  }

  lemma {:induction false} ItemFound(items: seq<Value>, at: seq<bytes>, i: nat, n: nat, f: Found)
    requires i < n <= |items| && f in Scan(items[i], at + [Dec(i)])
    ensures f in ScanItems(items, at, n)
    decreases n
  {
    if i < n - 1 { ItemFound(items, at, i, n - 1, f); }
  }

  /** The scan finds exactly the images of the request. */
  lemma ScanExact(body: Value, at: seq<bytes>, url: bytes)
    requires Proper(body)
    ensures Found(at, url) in Scan(body, []) <==> ImageAt(body, at, url)
  {
    ScanSound(body, body, []);
    if ImageAt(body, at, url) {
      ScanComplete(body, body, [], at, url);
    }
  }

  /** Spelled out: the place is that of a member `inlineData`, its node is an object with a string
      member `data`, and that string begins with `http://` or `https://`. */
  lemma ScanFindsImages(body: Value, at: seq<bytes>, url: bytes)
    requires Proper(body)
    ensures Found(at, url) in Scan(body, []) <==>
              && at != [] && at[|at| - 1] == Ascii("inlineData")
              && (exists ms :: Resolve(body, at) == Some(Obj(ms)) && Member(Ascii("data"), Str(url)) in ms)
              && (exists t: bytes :: url == Ascii("http://") + t || url == Ascii("https://") + t)
  {
    ScanExact(body, at, url);
    SchemeMeans(url);
    if Resolve(body, at).Some? && Resolve(body, at).value.Obj? {
      var ms := Resolve(body, at).value.members;
      ResolveProper(body, at);
      DataMeans(ms, url);
      assert Resolve(body, at) == Some(Obj(ms));
    }
  }

  lemma SchemeMeans(url: bytes)
    ensures IsHttpUrl(url) <==> exists t: bytes :: url == Ascii("http://") + t || url == Ascii("https://") + t
  {
    if Ascii("http://") <= url { assert url == Ascii("http://") + url[7..]; }
    if Ascii("https://") <= url { assert url == Ascii("https://") + url[8..]; }
  }

  lemma DataMeans(ms: seq<Member>, url: bytes)
    requires DistinctKeys(ms)
    ensures Lookup(ms, Ascii("data")) == Some(Str(url)) <==> Member(Ascii("data"), Str(url)) in ms
  {
    if Member(Ascii("data"), Str(url)) in ms {
      var i :| 0 <= i < |ms| && ms[i] == Member(Ascii("data"), Str(url));
      LookupAt(ms, i);
    }
    if Lookup(ms, Ascii("data")) == Some(Str(url)) {
      assert ms[IndexOf(ms, Ascii("data")).value] == Member(Ascii("data"), Str(url));
    }
  }

  lemma {:induction false} ResolveProper(v: Value, at: seq<bytes>)
    requires Proper(v)
    ensures Resolve(v, at).Some? ==> Proper(Resolve(v, at).value)
    decreases |at|
  {
    if at != [] { ResolveProper(v, at[..|at| - 1]); }
  }

  ghost predicate DistinctPlaces(found: seq<Found>) {
    forall i, j :: 0 <= i < j < |found| ==> found[i].at != found[j].at
  }

  lemma PlacesAppend(a: seq<Found>, b: seq<Found>)
    requires DistinctPlaces(a) && DistinctPlaces(b) && forall f <- a, g <- b :: f.at != g.at
    ensures DistinctPlaces(a + b)
  {
  }

  lemma {:induction false} ScanDistinct(root: Value, v: Value, at: seq<bytes>)
    requires Resolve(root, at) == Some(v) && Proper(v)
    ensures DistinctPlaces(Scan(v, at))
    decreases v, 1
  {
    match v {
      case Obj(ms) => {
        MembersDistinct(root, v, at);
        PlacesAppend(ScanOwn(ms, at), ScanMembers(ms, at, |ms|));
      }
      case Arr(items) => { ItemsDistinct(root, v, at); }
      case _ => {}
    }
  }

  /** Everything found so far lies below one of the first `n` members. */
  ghost predicate BelowMembers(found: seq<Found>, ms: seq<Member>, at: seq<bytes>, n: nat)
    requires n <= |ms|
  {
    forall f <- found :: |f.at| > |at| + 1 && exists k :: 0 <= k < n && f.at[|at|] == ms[k].key
  }

  lemma NextMember(found: seq<Found>, more: seq<Found>, ms: seq<Member>, at: seq<bytes>, i: nat)
    requires DistinctKeys(ms) && i < |ms| && DistinctPlaces(found) && BelowMembers(found, ms, at, i)
    requires DistinctPlaces(more) && forall f <- more :: |f.at| > |at| + 1 && f.at[|at|] == ms[i].key
    ensures DistinctPlaces(found + more) && BelowMembers(found + more, ms, at, i + 1)
  {
    PlacesAppend(found, more);
  }

  lemma MembersDistinct(root: Value, v: Value, at: seq<bytes>)
    requires v.Obj? && Resolve(root, at) == Some(v) && Proper(v)
    ensures DistinctPlaces(ScanMembers(v.members, at, |v.members|))
    ensures forall f <- ScanMembers(v.members, at, |v.members|) :: |f.at| > |at| + 1
    decreases v, 0
  {
    var ms := v.members;
    for i := 0 to |ms|
      invariant DistinctPlaces(ScanMembers(ms, at, i)) && BelowMembers(ScanMembers(ms, at, i), ms, at, i)
    {
      var below := at + [ms[i].key];
      ResolveSnoc(root, at, ms[i].key);
      ChildOfMember(ms, i);
      ScanDistinct(root, ms[i].value, below);
      ScanSound(root, ms[i].value, below);
      DeeperAll(at, ms[i].key, Scan(ms[i].value, below));
      NextMember(ScanMembers(ms, at, i), Scan(ms[i].value, below), ms, at, i);
    }
  }

  lemma ItemsDistinct(root: Value, v: Value, at: seq<bytes>)
    requires v.Arr? && Resolve(root, at) == Some(v) && Proper(v)
    ensures DistinctPlaces(ScanItems(v.items, at, |v.items|))
    decreases v, 0
  {
    var items := v.items;
    for i := 0 to |items|
      invariant DistinctPlaces(ScanItems(items, at, i))
      invariant forall f <- ScanItems(items, at, i) :: |f.at| > |at| && exists k :: 0 <= k < i && f.at[|at|] == Dec(k)
    {
      ResolveSnoc(root, at, Dec(i));
      ChildOfItem(items, i);
      ScanDistinct(root, items[i], at + [Dec(i)]);
      ScanSound(root, items[i], at + [Dec(i)]);
      DeeperAll(at, Dec(i), Scan(items[i], at + [Dec(i)]));
      DifferentIndices(i);
      PlacesAppend(ScanItems(items, at, i), Scan(items[i], at + [Dec(i)]));
    }
  }

  lemma DifferentIndices(i: nat)
    ensures forall k :: 0 <= k < i ==> Dec(k) != Dec(i)
  {
    DecCanonical(i);
    forall k | 0 <= k < i
      ensures Dec(k) != Dec(i)
    {
      DecCanonical(k);
    }
  }

  /** The pointers are pairwise distinct, and each leads back to the node it was made for. */
  lemma PointersReachTheirNodes(body: Value)
    requires Proper(body)
    ensures var refs := Refs(Scan(body, []));
            && (forall i, j :: 0 <= i < j < |refs| ==> refs[i].jsonPointer != refs[j].jsonPointer)
            && (forall i :: 0 <= i < |refs| ==>
                  var node := Evaluate(body, refs[i].jsonPointer); node.Some? && UrlOf(node.value) == Some(refs[i].url))
  {
    var found := Scan(body, []);
    var refs := Refs(found);
    ScanDistinct(body, body, []);
    ScanSound(body, body, []);
    forall i, j | 0 <= i < j < |refs|
      ensures refs[i].jsonPointer != refs[j].jsonPointer
    {
      PointersAreInjective(found[i].at, found[j].at);
    }
    forall i | 0 <= i < |refs|
      ensures var node := Evaluate(body, refs[i].jsonPointer); node.Some? && UrlOf(node.value) == Some(refs[i].url)
    {
      assert found[i] in found;
      ParseOfPointer(found[i].at);
    }
  }
}
