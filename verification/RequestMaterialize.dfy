/** Fetching every image of a request once and storing it, whatever the order in which the
    fetches complete. */
module RequestMaterialize {
  import opened Wrappers
  import opened Bytes
  import opened Json
  import opened JsonPointer
  import opened RequestScan
  import opened Tally
  import opened BlobBudget
  import opened BlobRuntime
  import opened RequestEncode

  /** What fetching a URL gives, and whether a cache holds the bytes anyway. */
  datatype Fetched = Fetched(image: Image, fromCache: bool)

  /** The URLs that can be fetched; any other fetch fails. */
  type Web = map<bytes, Fetched>

  datatype FetchedBlob = FetchedBlob(mimeType: bytes, blob: BlobHandle)

  ghost predicate AllFetchable(found: seq<Found>, web: Web) {
    forall f <- found :: f.url in web
  }

  /** The replacement for one place: its pointer, and a readable blob holding its image. */
  ghost predicate Answers(f: Found, replacement: RequestReplacement, web: Web, files: Files) {
    && replacement.jsonPointer == PointerOf(f.at) && f.url in web && replacement.mimeType == web[f.url].image.mimeType
    && ContentOf(replacement.blob.storage, files) == Some(web[f.url].image.data)
  }

  ghost predicate AllAnswered(found: seq<Found>, replacements: seq<RequestReplacement>, web: Web, files: Files) {
    |replacements| == |found| && forall i :: 0 <= i < |found| ==> Answers(found[i], replacements[i], web, files)
  }

  // ----- What a sequence of stores does to the runtime -----

  /** The runtime before the stores, as values. */
  datatype Past = Past(nextId: nat, held: map<nat, nat>, handles: set<BlobHandle>, files: Files)

  ghost function Present(rt: BlobRuntime): Past
    reads rt
  {
    Past(rt.nextId, rt.held, rt.handles, rt.files)
  }

  function Numbers(made: seq<BlobHandle>): set<nat> {
    if made == [] then {} else Numbers(made[..|made| - 1]) + {made[|made| - 1].id}
  }

  lemma NumbersSnoc(made: seq<BlobHandle>, h: BlobHandle)
    ensures Numbers(made + [h]) == Numbers(made) + {h.id}
  {
    assert (made + [h])[..|made|] == made;
  }

  lemma {:induction false} NumberIsMade(made: seq<BlobHandle>, id: nat)
    requires id in Numbers(made)
    ensures exists h :: h in made && h.id == id
    decreases |made|
  {
    if made[|made| - 1].id == id {
      assert made[|made| - 1] in made;
    } else {
      NumberIsMade(made[..|made| - 1], id);
    }
  }

  ghost predicate HeldSince(before: map<nat, nat>, now: map<nat, nat>, made: seq<BlobHandle>) {
    && (forall id <- before :: id in now && now[id] == before[id])
    && (forall id <- now :: id in before || id in Numbers(made))
  }

  /** Exactly the blobs in `made` are new; their numbers are, in whatever order. */
  ghost predicate MadeSince(past: Past, now: Past, made: seq<BlobHandle>) {
    && past.nextId <= now.nextId && HeldSince(past.held, now.held, made)
    && (forall h <- now.handles :: h in past.handles || h in made)
    && (forall h <- past.handles :: h in now.handles)
    && (forall h <- made :: past.nextId <= h.id < now.nextId && h in now.handles && h !in past.handles)
  }

  /** Blobs that were there before read as before. */
  ghost predicate OthersRead(handles: set<BlobHandle>, before: Files, now: Files) {
    forall h <- handles :: ContentOf(h.storage, now) == ContentOf(h.storage, before)
  }

  ghost predicate Bounded(past: Past) {
    (forall id <- past.held :: id < past.nextId) && forall h <- past.handles :: h.id < past.nextId
  }

  /** A new blob changes the reservations at most by its own. */
  ghost predicate OneMore(mid: Past, now: Past, h: BlobHandle) {
    && mid.nextId <= now.nextId && h.id < now.nextId && h !in mid.handles && now.handles == mid.handles + {h}
    && (forall id <- mid.held :: id != h.id ==> id in now.held && now.held[id] == mid.held[id])
    && (forall id <- now.held :: id in mid.held || id == h.id)
  }

  lemma BookedOneMore(mid: Past, now: Past, h: BlobHandle)
    requires h.id < now.nextId == mid.nextId && h !in mid.handles && now.handles == mid.handles + {h}
    requires now.held == if h.storage.Inline? then mid.held[h.id := |h.storage.data|] else mid.held
    ensures OneMore(mid, now, h)
  {
  }

  lemma MadeOneMore(past: Past, mid: Past, now: Past, made: seq<BlobHandle>, h: BlobHandle)
    requires Bounded(past) && MadeSince(past, mid, made) && OneMore(mid, now, h) && past.nextId <= h.id
    ensures MadeSince(past, now, made + [h])
  {
    NumbersSnoc(made, h);
  }

  /** What is reserved beyond what was: nothing exactly if every new entry is empty. */
  lemma {:induction false} SumGrows(before: map<nat, nat>, now: map<nat, nat>)
    requires forall id <- before :: id in now && now[id] == before[id]
    ensures Sum(now) >= Sum(before)
    ensures Sum(now) == Sum(before) <==> forall id <- now :: id in before || now[id] == 0
    decreases |now|
  {
    if id :| id in now && id !in before {
      SumWithout(now, id);
      var rest := now - {id};
      SumGrows(before, rest);
      assert forall other <- now :: other == id || (other in rest && rest[other] == now[other]);
    } else {
      assert now == before;
    }
  }

  /** The new blobs are all there still. */
  ghost predicate Leftover(runtime: BlobRuntime, past: Past, made: seq<BlobHandle>)
    reads runtime, runtime.handles
  {
    MadeSince(past, Present(runtime), made) && forall h <- made :: !h.removed
  }

  /** The blobs that keep bytes in memory. */
  ghost predicate KeepsNothingHot(made: seq<BlobHandle>) {
    forall h <- made :: h.storage.Inline? ==> h.storage.data == []
  }

  /** As long as the new blobs are not removed, the hot-byte count is back where it was exactly if
      none of them keeps a byte in memory. */
  lemma HotExactly(runtime: BlobRuntime, past: Past, made: seq<BlobHandle>)
    requires runtime.Valid() && Bounded(past) && Leftover(runtime, past, made)
    ensures runtime.globalHotBytes >= Sum(past.held)
    ensures runtime.globalHotBytes == Sum(past.held) <==> KeepsNothingHot(made)
  {
    SumGrows(past.held, runtime.held);
    assert forall h <- made :: runtime.HandleOk(h) && h.id !in past.held;
    if KeepsNothingHot(made) {
      forall id <- runtime.held
        ensures id in past.held || runtime.held[id] == 0
      {
        if id !in past.held { NumberIsMade(made, id); }
      }
    } else {
      var h :| h in made && h.storage.Inline? && h.storage.data != [];
      assert h.id in runtime.held && runtime.held[h.id] > 0;
    }
  }

  // ----- Fetching -----

  /** A step fails only if a URL cannot be fetched or the file system fails. */
  ghost predicate Spoiled(ok: bool, runtime: BlobRuntime, faults: nat, fetchable: bool)
    reads runtime
  {
    && runtime.faults >= faults && (ok ==> fetchable && runtime.faults == faults)
    && (!ok && fetchable ==> runtime.faults > faults)
  }

  predicate StaysInline(fetched: Fetched, l: Limits, hot: nat) {
    !fetched.fromCache && FitsInline(l, hot, |fetched.image.data|)
  }

  /** Stores one fetched image under a number taken before: cached bytes are shared, others are
      kept or spilled. */
  method StoreFetched(id: nat, fetched: Fetched, runtime: BlobRuntime) returns (r: Option<FetchedBlob>)
    requires runtime.Valid() && runtime.Free(id)
    modifies runtime
    ensures runtime.Valid() && runtime.nextId == old(runtime.nextId)
    ensures OthersRead(old(runtime.handles), old(runtime.files), runtime.files)
    ensures r.None? ==> runtime.handles == old(runtime.handles) && runtime.held == old(runtime.held)
    ensures r.Some? ==>
              && r.value.mimeType == fetched.image.mimeType
              && ContentOf(r.value.blob.storage, runtime.files) == Some(fetched.image.data)
              && runtime.Booked(old(runtime.handles), old(runtime.held), Some(r.value.blob)) && fresh(r.value.blob)
              && r.value.blob.id == id
    ensures StaysInline(fetched, runtime.limits, old(runtime.globalHotBytes)) ==>
              r.Some? && r.value.blob.storage == Inline(fetched.image.data)
    ensures forall other :: old(runtime.Free(other)) && other != id ==> runtime.Free(other)
    ensures r.Some? && old(runtime.Tidy()) ==> runtime.Tidy()
    ensures Spoiled(r.Some?, runtime, old(runtime.faults), true)
  {
    var image := fetched.image;
    ghost var before, handles := runtime.Now(), runtime.handles;
    if fetched.fromCache {
      var blob := runtime.PlaceShared(id, image.data, image.mimeType);
      return Some(FetchedBlob(image.mimeType, blob));
    }
    var stored := runtime.Place(id, image.data, image.mimeType);
    forall h <- handles
      ensures ContentOf(h.storage, runtime.files) == ContentOf(h.storage, before.files)
    {
      PlaceKeepsOthers(runtime.limits, before, id, image.data, stored, runtime.Now(), h);
    }
    r := if stored.None? then None else Some(FetchedBlob(image.mimeType, stored.value));
  }

  /** The URLs in order of first appearance. */
  method UniqueUrls(refs: seq<RequestImageRef>) returns (urls: seq<bytes>)
    ensures NoDuplicates(urls) && forall url :: url in urls <==> exists i :: 0 <= i < |refs| && refs[i].url == url
  {
    var seen: set<bytes> := {};
    urls := [];
    for i := 0 to |refs|
      invariant NoDuplicates(urls) && forall url :: url in urls <==> url in seen
      invariant forall url :: url in seen <==> exists k :: 0 <= k < i && refs[k].url == url
    {
      if refs[i].url !in seen {
        seen := seen + {refs[i].url};
        urls := urls + [refs[i].url];
      }
    }
  }

  /** The blobs fetched so far: one for each of `urls`, which are in the order of the blobs' numbers. */
  ghost predicate FetchedSoFar(byUrl: map<bytes, FetchedBlob>, made: seq<BlobHandle>, urls: seq<bytes>, web: Web,
                               files: Files) {
    && |urls| == |made| && (forall k :: 0 <= k < |made| ==> urls[k] in byUrl && byUrl[urls[k]].blob == made[k])
    && forall url <- byUrl ::
         && url in web && byUrl[url].mimeType == web[url].image.mimeType && byUrl[url].blob in made
         && ContentOf(byUrl[url].blob.storage, files) == Some(web[url].image.data)
  }

  const MAX_CONCURRENT_REQUEST_IMAGE_FETCHES: nat := 4

  /** The fetches that have taken a blob number and not stored their blob yet: all different,
      none used yet. */
  ghost predicate InFlight(runtime: BlobRuntime, taken: map<bytes, nat>, nextId: nat, web: Web)
    reads runtime, runtime.handles
  {
    && (forall url <- taken :: runtime.Free(taken[url]) && nextId <= taken[url] && url in web)
    && (forall u, v :: u in taken && v in taken && u != v ==> taken[u] != taken[v])
  }

  lemma LeftoverGrows(runtime: BlobRuntime, past: Past, mid: Past, made: seq<BlobHandle>, h: BlobHandle)
    requires Bounded(past) && MadeSince(past, mid, made) && OneMore(mid, Present(runtime), h) && past.nextId <= h.id
    requires (forall g <- made :: !g.removed) && !h.removed
    ensures Leftover(runtime, past, made + [h])
  {
    MadeOneMore(past, mid, Present(runtime), made, h);
  }

  /** What holds between two steps of the fetches. */
  ghost predicate Underway(runtime: BlobRuntime, past: Past, taken: map<bytes, nat>, byUrl: map<bytes, FetchedBlob>,
                           made: seq<BlobHandle>, order: seq<bytes>, web: Web)
    reads runtime, runtime.handles
  {
    && runtime.Valid() && Bounded(past) && InFlight(runtime, taken, past.nextId, web)
    && Leftover(runtime, past, made) && OthersRead(past.handles, past.files, runtime.files)
    && FetchedSoFar(byUrl, made, order, web, runtime.files)
  }

  /** Every URL is still to fetch, in flight or done; only what can be fetched gets further. */
  ghost predicate Tracks(urls: set<bytes>, pending: set<bytes>, taken: set<bytes>, done: set<bytes>,
                         fetchable: set<bytes>) {
    pending + taken + done == urls && pending !! taken && (pending + taken) !! done && taken + done <= fetchable
  }

  lemma BeginTracks(urls: set<bytes>, pending: set<bytes>, taken: set<bytes>, done: set<bytes>, fetchable: set<bytes>,
                    url: bytes)
    requires Tracks(urls, pending, taken, done, fetchable) && url in pending && url in fetchable
    ensures Tracks(urls, pending - {url}, taken + {url}, done, fetchable) && url !in taken
  {
  }

  lemma FinishTracks(urls: set<bytes>, pending: set<bytes>, taken: set<bytes>, done: set<bytes>, fetchable: set<bytes>,
                     url: bytes)
    requires Tracks(urls, pending, taken, done, fetchable) && url in taken
    ensures Tracks(urls, pending, taken - {url}, done + {url}, fetchable) && url !in done
  {
  }

  lemma TracksDone(urls: set<bytes>, pending: set<bytes>, taken: map<bytes, nat>, done: set<bytes>,
                   fetchable: set<bytes>)
    requires Tracks(urls, pending, taken.Keys, done, fetchable) && |pending| == 0 && |taken| == 0
    ensures done == urls && urls <= fetchable
  {
    assert |taken| == |taken.Keys|;
    assert pending == {} && taken.Keys == {};
  }

  lemma OneMoreDone(byUrl: map<bytes, FetchedBlob>, url: bytes, f: FetchedBlob)
    ensures byUrl[url := f].Keys == byUrl.Keys + {url}
  {
  }

  lemma FewerTaken(taken: map<bytes, nat>, url: bytes)
    requires url in taken
    ensures |taken - {url}| == |taken| - 1 && (taken - {url}).Keys == taken.Keys - {url}
  {
    assert (taken - {url}).Keys == taken.Keys - {url};
    assert |taken| == |taken.Keys| && |taken - {url}| == |(taken - {url}).Keys|;
  }

  lemma OneMoreTaken(taken: map<bytes, nat>, url: bytes, id: nat)
    requires url !in taken
    ensures |taken[url := id]| == |taken| + 1 && taken[url := id].Keys == taken.Keys + {url}
  {
    assert |taken| == |taken.Keys| && |taken[url := id]| == |taken[url := id].Keys|;
    assert taken[url := id].Keys == taken.Keys + {url};
  }

  ghost predicate InProgress(runtime: BlobRuntime, past: Past, urls: set<bytes>, pending: set<bytes>,
                             taken: map<bytes, nat>, byUrl: map<bytes, FetchedBlob>, made: seq<BlobHandle>,
                             order: seq<bytes>, web: Web)
    reads runtime, runtime.handles
  {
    && Underway(runtime, past, taken, byUrl, made, order, web)
    && Tracks(urls, pending, taken.Keys, byUrl.Keys, web.Keys) && |taken| <= MAX_CONCURRENT_REQUEST_IMAGE_FETCHES
  }

  lemma NothingYet(runtime: BlobRuntime, urls: set<bytes>, web: Web)
    requires runtime.Valid()
    ensures InProgress(runtime, Present(runtime), urls, urls, map[], map[], [], [], web)
  {
  }

  /** Runs one fetch per URL, a few at a time. Taking a number and storing under it are separate
      steps, and the steps of different fetches interleave in any way. */
  method FetchAll(urls: set<bytes>, runtime: BlobRuntime, web: Web)
    returns (ok: bool, byUrl: map<bytes, FetchedBlob>, ghost made: seq<BlobHandle>, ghost order: seq<bytes>)
    requires runtime.Valid()
    modifies runtime
    ensures runtime.Valid() && OthersRead(old(runtime.handles), old(runtime.files), runtime.files)
    ensures forall h <- old(runtime.handles) :: h in runtime.handles
    ensures ok ==> byUrl.Keys == urls && FetchedSoFar(byUrl, made, order, web, runtime.files)
    ensures Leftover(runtime, old(Present(runtime)), made)
    ensures forall h <- runtime.handles :: h in old(runtime.handles) || fresh(h)
    ensures ok && old(runtime.Tidy()) ==> runtime.Tidy()
    ensures Spoiled(ok, runtime, old(runtime.faults), urls <= web.Keys)
  {
    var pending := urls;
    var taken: map<bytes, nat> := map[];
    byUrl, made, order := map[], [], [];
    ghost var past := Present(runtime);
    NothingYet(runtime, urls, web);
    while |pending| > 0 || |taken| > 0
      invariant InProgress(runtime, past, urls, pending, taken, byUrl, made, order, web)
      invariant forall h <- runtime.handles :: h in old(runtime.handles) || fresh(h)
      invariant runtime.faults == old(runtime.faults) && (old(runtime.Tidy()) ==> runtime.Tidy())
      decreases |pending|, |taken|
    {
      var another: bool := *;
      if |taken| == 0 || (another && |pending| > 0 && |taken| < MAX_CONCURRENT_REQUEST_IMAGE_FETCHES) {
        ok, pending, taken := BeginStore(runtime, web, past, urls, pending, taken, byUrl, made, order);
      } else {
        ghost var made', order';
        ok, taken, byUrl, made', order' := FinishStore(runtime, web, past, urls, pending, taken, byUrl, made, order);
        made, order := made', order';
      }
      if !ok {
        return;
      }
    }
    TracksDone(urls, pending, taken, byUrl.Keys, web.Keys);
    ok := true;
  }

  /** A fetch gets its image and takes a number for it. */
  method BeginStore(runtime: BlobRuntime, web: Web, ghost past: Past, ghost urls: set<bytes>, pending: set<bytes>,
                    taken: map<bytes, nat>, ghost byUrl: map<bytes, FetchedBlob>, ghost made: seq<BlobHandle>,
                    ghost order: seq<bytes>)
    returns (ok: bool, pending': set<bytes>, taken': map<bytes, nat>)
    requires InProgress(runtime, past, urls, pending, taken, byUrl, made, order, web)
    requires |pending| > 0 && |taken| < MAX_CONCURRENT_REQUEST_IMAGE_FETCHES
    modifies runtime
    ensures runtime.Valid() && OthersRead(past.handles, past.files, runtime.files)
    ensures forall h <- past.handles :: h in runtime.handles
    ensures runtime.handles == old(runtime.handles)
    ensures ok ==> InProgress(runtime, past, urls, pending', taken', byUrl, made, order, web) && |pending'| < |pending|
    ensures ok && old(runtime.Tidy()) ==> runtime.Tidy()
    ensures Leftover(runtime, past, made)
    ensures Spoiled(ok, runtime, old(runtime.faults), ok || urls <= web.Keys)
  {
    var url :| url in pending;
    pending', taken' := pending, taken;
    ok := url in web;
    if ok {
      BeginTracks(urls, pending, taken.Keys, byUrl.Keys, web.Keys, url);
      var id := TakeNumber(url, runtime, web, past, taken, byUrl, made, order);
      taken', pending' := taken[url := id], pending - {url};
      OneMoreTaken(taken, url, id);
    }
  }

  method TakeNumber(url: bytes, runtime: BlobRuntime, web: Web, ghost past: Past, ghost taken: map<bytes, nat>,
                    ghost byUrl: map<bytes, FetchedBlob>, ghost made: seq<BlobHandle>, ghost order: seq<bytes>)
    returns (id: nat)
    requires Underway(runtime, past, taken, byUrl, made, order, web) && url !in taken && url in web
    modifies runtime
    ensures Underway(runtime, past, taken[url := id], byUrl, made, order, web)
    ensures runtime.handles == old(runtime.handles) && runtime.globalHotBytes == old(runtime.globalHotBytes)
    ensures runtime.faults == old(runtime.faults) && (old(runtime.Tidy()) ==> runtime.Tidy())
  {
    id := runtime.TakeId();
  }

  /** A fetch stores its image under its number. */
  method FinishStore(runtime: BlobRuntime, web: Web, ghost past: Past, ghost urls: set<bytes>,
                     ghost pending: set<bytes>, taken: map<bytes, nat>, byUrl: map<bytes, FetchedBlob>,
                     ghost made: seq<BlobHandle>, ghost order: seq<bytes>)
    returns (ok: bool, taken': map<bytes, nat>, byUrl': map<bytes, FetchedBlob>, ghost made': seq<BlobHandle>,
             ghost order': seq<bytes>)
    requires InProgress(runtime, past, urls, pending, taken, byUrl, made, order, web) && |taken| > 0
    modifies runtime
    ensures runtime.Valid() && OthersRead(past.handles, past.files, runtime.files)
    ensures forall h <- past.handles :: h in runtime.handles
    ensures ok ==> InProgress(runtime, past, urls, pending, taken', byUrl', made', order', web) && |taken'| < |taken|
    ensures Leftover(runtime, past, made')
    ensures forall h <- runtime.handles :: h in old(runtime.handles) || fresh(h)
    ensures ok && old(runtime.Tidy()) ==> runtime.Tidy()
    ensures Spoiled(ok, runtime, old(runtime.faults), true)
  {
    var url :| url in taken;
    taken', byUrl', made', order' := taken, byUrl, made, order;
    FinishTracks(urls, pending, taken.Keys, byUrl.Keys, web.Keys, url);
    var stored := StoreTaken(url, runtime, web, past, taken, byUrl, made, order);
    ok := stored.Some?;
    if ok {
      taken', byUrl' := taken - {url}, byUrl[url := stored.value];
      made', order' := made + [stored.value.blob], order + [url];
      OneMoreDone(byUrl, url, stored.value);
      FewerTaken(taken, url);
    }
  }

  method StoreTaken(url: bytes, runtime: BlobRuntime, web: Web, ghost past: Past, taken: map<bytes, nat>,
                    ghost byUrl: map<bytes, FetchedBlob>, ghost made: seq<BlobHandle>, ghost order: seq<bytes>)
    returns (r: Option<FetchedBlob>)
    requires Underway(runtime, past, taken, byUrl, made, order, web) && url in taken && url !in byUrl
    modifies runtime
    ensures runtime.Valid() && OthersRead(past.handles, past.files, runtime.files)
    ensures forall h <- past.handles :: h in runtime.handles
    ensures forall h <- runtime.handles :: h in old(runtime.handles) || fresh(h)
    ensures r.Some? ==>
              Underway(runtime, past, taken - {url}, byUrl[url := r.value], made + [r.value.blob], order + [url], web)
    ensures r.None? ==> Leftover(runtime, past, made)
    ensures StaysInline(web[url], runtime.limits, old(runtime.globalHotBytes)) ==>
              r.Some? && r.value.blob.storage == Inline(web[url].image.data)
    ensures r.Some? && old(runtime.Tidy()) ==> runtime.Tidy()
    ensures Spoiled(r.Some?, runtime, old(runtime.faults), true)
  {
    ghost var mid := Present(runtime);
    r := StoreFetched(taken[url], web[url], runtime);
    if r.Some? {
      BookedOneMore(mid, Present(runtime), r.value.blob);
      LeftoverGrows(runtime, past, mid, made, r.value.blob);
      FetchedOneMore(byUrl, made, order, web, mid.files, runtime.files, url, r.value, mid.handles);
    }
  }

  /** The first of two URLs is fetched and stored inline. */
  method StoreOne(runtime: BlobRuntime, a: bytes, b: bytes, image: Image) returns (f: FetchedBlob)
    requires runtime.Valid() && a != b && FitsInline(runtime.limits, runtime.globalHotBytes, |image.data|)
    modifies runtime
    ensures f.blob.storage == Inline(image.data)
    ensures InProgress(runtime, old(Present(runtime)), {a, b}, {b}, map[], map[a := f], [f.blob], [a],
                       map[a := Fetched(image, false)])
  {
    var web: Web := map[a := Fetched(image, false)];
    ghost var past := Present(runtime);
    NothingYet(runtime, {a, b}, web);
    ghost var none: map<bytes, nat>, nothing: map<bytes, FetchedBlob> := map[], map[];
    var id := TakeNumber(a, runtime, web, past, none, nothing, [], []);
    var taken: map<bytes, nat> := map[a := id];
    assert none[a := id] == taken;
    var stored := StoreTaken(a, runtime, web, past, taken, nothing, [], []);
    f := stored.value;
    TwoUrls(a, b, id, f);
  }

  lemma TwoUrls(a: bytes, b: bytes, id: nat, f: FetchedBlob)
    requires a != b
    ensures map[a := id] - {a} == map[] && Tracks({a, b}, {b}, {}, map[a := f].Keys, {a})
    ensures map[][a := f] == map[a := f] && [] + [f.blob] == [f.blob] && [] + [a] == [a]
  {
  }

  /** Such a failure exists: one image is stored inline, the next URL cannot be fetched, and the
      request ends with the first image's bytes still counted and its blob not removed. */
  method FailureKeepsBytes(limits: Limits, a: bytes, b: bytes, image: Image) returns (ok: bool, runtime: BlobRuntime)
    requires a != b && image.data != [] && FitsInline(limits, 0, |image.data|)
    ensures !ok && runtime.globalHotBytes > 0
  {
    runtime := new BlobRuntime(limits, map[]);
    ghost var past := Present(runtime);
    var f := StoreOne(runtime, a, b, image);
    var web: Web := map[a := Fetched(image, false)];
    var pending, taken;
    ok, pending, taken := BeginStore(runtime, web, past, {a, b}, {b}, map[], map[a := f], [f.blob], [a]);
    HotExactly(runtime, past, [f.blob]);
  }

  lemma FetchedOneMore(byUrl: map<bytes, FetchedBlob>, made: seq<BlobHandle>, order: seq<bytes>, web: Web,
                       before: Files, files: Files, url: bytes, f: FetchedBlob, handles: set<BlobHandle>)
    requires FetchedSoFar(byUrl, made, order, web, before) && OthersRead(handles, before, files) && url !in byUrl
    requires (forall h <- made :: h in handles) && url in web && f.mimeType == web[url].image.mimeType
    requires ContentOf(f.blob.storage, files) == Some(web[url].image.data)
    ensures FetchedSoFar(byUrl[url := f], made + [f.blob], order + [url], web, files)
  {
  }

  /** Every place has its readable replacement, equal URLs share a blob, and the blobs of the
      replacements are exactly the new ones. */
  ghost predicate Replaced(found: seq<Found>, replacements: seq<RequestReplacement>, made: seq<BlobHandle>, web: Web,
                           files: Files)
  {
    && AllAnswered(found, replacements, web, files) && SharedByUrl(found, replacements)
    && (forall i :: 0 <= i < |replacements| ==> replacements[i].blob in made)
    && (forall h <- made :: exists i :: 0 <= i < |replacements| && replacements[i].blob == h)
  }

  /** What the stores leave, whether or not all succeeded: the blobs in `made` are new and none of
      them is removed, all others read as before, and the hot-byte count is back where it was
      exactly if none of the new blobs keeps bytes in memory. */
  ghost predicate StoresEnd(runtime: BlobRuntime, past: Past, hot: nat, made: seq<BlobHandle>)
    reads runtime, runtime.handles
  {
    && runtime.Valid() && Leftover(runtime, past, made) && OthersRead(past.handles, past.files, runtime.files)
    && runtime.globalHotBytes >= hot && (runtime.globalHotBytes == hot <==> KeepsNothingHot(made))
  }

  /** On success every image of the request has a replacement that reads as what its URL gave;
      equal URLs share one blob; and the new blobs are those of the replacements. After a failure
      the new blobs are there as well, and nobody has their handles. */
  method MaterializeRequestImages(request: Value, runtime: BlobRuntime, web: Web)
    returns (ok: bool, replacements: seq<RequestReplacement>, ghost made: seq<BlobHandle>)
    requires runtime.Valid()
    modifies runtime
    ensures StoresEnd(runtime, old(Present(runtime)), old(runtime.globalHotBytes), made)
    ensures ok ==>
              |Scan(request, [])| <= MAX_INLINE_DATA_URLS &&
              Replaced(Scan(request, []), replacements, made, web, runtime.files)
    ensures forall h <- runtime.handles :: h in old(runtime.handles) || fresh(h)
    ensures ok && old(runtime.Tidy()) ==> runtime.Tidy()
    ensures Spoiled(ok, runtime, old(runtime.faults),
                    |Scan(request, [])| <= MAX_INLINE_DATA_URLS && AllFetchable(Scan(request, []), web))
  {
    replacements, made := [], [];
    var refs: seq<RequestImageRef>;
    ok, refs := ScanRequestImageUrls(request);
    if !ok {
      return;
    }
    ok, replacements, made := FetchAndReplace(Scan(request, []), refs, runtime, web);
  }

  /** The part after the scan. */
  method FetchAndReplace(ghost found: seq<Found>, refs: seq<RequestImageRef>, runtime: BlobRuntime, web: Web)
    returns (ok: bool, replacements: seq<RequestReplacement>, ghost made: seq<BlobHandle>)
    requires runtime.Valid() && refs == Refs(found)
    modifies runtime
    ensures StoresEnd(runtime, old(Present(runtime)), old(runtime.globalHotBytes), made)
    ensures forall h <- runtime.handles :: h in old(runtime.handles) || fresh(h)
    ensures ok ==> Replaced(found, replacements, made, web, runtime.files)
    ensures ok && old(runtime.Tidy()) ==> runtime.Tidy()
    ensures Spoiled(ok, runtime, old(runtime.faults), AllFetchable(found, web))
  {
    replacements := [];
    var byUrl: map<bytes, FetchedBlob>;
    ghost var order: seq<bytes>;
    ok, byUrl, made, order := FetchFound(found, refs, runtime, web);
    if ok {
      replacements := ReplaceFound(found, refs, byUrl, made, order, web, runtime);
    }
  }

  /** A replacement for every place found, from the blobs of the URLs. The runtime stays as it is. */
  method ReplaceFound(ghost found: seq<Found>, refs: seq<RequestImageRef>, byUrl: map<bytes, FetchedBlob>,
                      ghost made: seq<BlobHandle>, ghost order: seq<bytes>, ghost web: Web, ghost runtime: BlobRuntime)
    returns (replacements: seq<RequestReplacement>)
    requires refs == Refs(found) && AreUrlsOf(byUrl.Keys, refs)
    requires runtime.Valid() && FetchedSoFar(byUrl, made, order, web, runtime.files)
    ensures runtime.Valid() && Replaced(found, replacements, made, web, runtime.files)
  {
    replacements := BuildReplacements(refs, byUrl, runtime);
    AnswersFound(found, byUrl, made, order, replacements, web, runtime.files);
    EveryBlobIsUsed(refs, byUrl, made, order, replacements, web, runtime.files);
  }

  /** Fetches every URL found, each once. */
  method FetchFound(ghost found: seq<Found>, refs: seq<RequestImageRef>, runtime: BlobRuntime, web: Web)
    returns (ok: bool, byUrl: map<bytes, FetchedBlob>, ghost made: seq<BlobHandle>, ghost order: seq<bytes>)
    requires runtime.Valid() && refs == Refs(found)
    modifies runtime
    ensures StoresEnd(runtime, old(Present(runtime)), old(runtime.globalHotBytes), made)
    ensures forall h <- runtime.handles :: h in old(runtime.handles) || fresh(h)
    ensures ok ==> AreUrlsOf(byUrl.Keys, refs) && FetchedSoFar(byUrl, made, order, web, runtime.files)
    ensures ok && old(runtime.Tidy()) ==> runtime.Tidy()
    ensures Spoiled(ok, runtime, old(runtime.faults), AllFetchable(found, web))
  {
    ghost var past := Present(runtime);
    var urls := UniqueUrls(refs);
    var all := set url | url in urls;
    UrlsFetchable(found, all, web);
    ok, byUrl, made, order := FetchAll(all, runtime, web);
    HotExactly(runtime, past, made);
  }

  /** `urls` are the URLs of the references. */
  ghost predicate AreUrlsOf(urls: set<bytes>, refs: seq<RequestImageRef>) {
    && (forall i :: 0 <= i < |refs| ==> refs[i].url in urls)
    && (forall url <- urls :: exists i :: 0 <= i < |refs| && refs[i].url == url)
  }

  /** The URLs can be fetched exactly when every found one can. */
  lemma UrlsFetchable(found: seq<Found>, urls: set<bytes>, web: Web)
    requires AreUrlsOf(urls, Refs(found))
    ensures AllFetchable(found, web) <==> urls <= web.Keys
  {
    forall f <- found
      ensures f.url in urls
    {
      var i :| 0 <= i < |found| && found[i] == f;
      assert Refs(found)[i].url == f.url;
    }
    forall url <- urls
      ensures exists f :: f in found && f.url == url
    {
      var i :| 0 <= i < |found| && Refs(found)[i].url == url;
      assert found[i] in found && found[i].url == url;
    }
  }

  /** One replacement per place, in the order of the scan. */
  method BuildReplacements(refs: seq<RequestImageRef>, byUrl: map<bytes, FetchedBlob>, ghost runtime: BlobRuntime)
    returns (replacements: seq<RequestReplacement>)
    requires runtime.Valid() && forall i :: 0 <= i < |refs| ==> refs[i].url in byUrl
    ensures runtime.Valid() && Built(refs, byUrl, replacements)
  {
    replacements := [];
    for i := 0 to |refs|
      invariant |replacements| == i
      invariant forall k :: 0 <= k < i ==> replacements[k] == ReplacementFor(refs[k], byUrl[refs[k].url])
    {
      replacements := replacements + [ReplacementFor(refs[i], byUrl[refs[i].url])];
    }
  }

  /** Every replacement was built from its reference and the blob of its URL. */
  ghost predicate Built(refs: seq<RequestImageRef>, byUrl: map<bytes, FetchedBlob>,
                        replacements: seq<RequestReplacement>) {
    |replacements| == |refs| &&
    forall i ::
      0 <= i < |refs| ==> refs[i].url in byUrl && replacements[i] == ReplacementFor(refs[i], byUrl[refs[i].url])
  }

  lemma AnswersFound(found: seq<Found>, byUrl: map<bytes, FetchedBlob>, made: seq<BlobHandle>, order: seq<bytes>,
                     replacements: seq<RequestReplacement>, web: Web, files: Files)
    requires FetchedSoFar(byUrl, made, order, web, files) && Built(Refs(found), byUrl, replacements)
    ensures AllAnswered(found, replacements, web, files) && SharedByUrl(found, replacements)
    ensures forall i :: 0 <= i < |replacements| ==> replacements[i].blob in made
  {
    var refs := Refs(found);
    forall i | 0 <= i < |found|
      ensures Answers(found[i], replacements[i], web, files) && replacements[i].blob in made
    {
      assert refs[i].url == found[i].url && replacements[i] == ReplacementFor(refs[i], byUrl[refs[i].url]);
    }
    assert forall i ::
             0 <= i < |found| ==> refs[i].url == found[i].url && replacements[i].blob == byUrl[refs[i].url].blob;
  }

  lemma EveryBlobIsUsed(refs: seq<RequestImageRef>, byUrl: map<bytes, FetchedBlob>, made: seq<BlobHandle>,
                        order: seq<bytes>, replacements: seq<RequestReplacement>, web: Web, files: Files)
    requires FetchedSoFar(byUrl, made, order, web, files) && Built(refs, byUrl, replacements)
    requires AreUrlsOf(byUrl.Keys, refs)
    ensures forall h <- made :: exists i :: 0 <= i < |replacements| && replacements[i].blob == h
  {
    forall h <- made
      ensures exists i :: 0 <= i < |replacements| && replacements[i].blob == h
    {
      var k :| 0 <= k < |made| && made[k] == h;
      assert order[k] in byUrl.Keys;
      var i :| 0 <= i < |refs| && refs[i].url == order[k];
      assert replacements[i].blob == h;
    }
  }

  function ReplacementFor(ref: RequestImageRef, fetched: FetchedBlob): RequestReplacement {
    RequestReplacement(ref.jsonPointer, fetched.mimeType, fetched.blob)
  }

  ghost predicate SharedByUrl(found: seq<Found>, replacements: seq<RequestReplacement>)
    requires |found| == |replacements|
  {
    forall i, j ::
      0 <= i < |found| && 0 <= j < |found| && found[i].url == found[j].url ==>
        replacements[i].blob == replacements[j].blob
  }
}
