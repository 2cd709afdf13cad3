/** The specification both in-memory caches meet: a recency list, most recent first, cut
    down to the longest prefix whose sizes fit the budget. */
module LruSpec {
  import opened Wrappers
  import opened Bytes

  datatype Slot = Slot(url: string, mime: string, data: bytes) {
    function Size(): nat { |data| }
  }

  function Total(s: seq<Slot>): nat {
    if s == [] then 0 else s[0].Size() + Total(s[1..])
  }

  /** The longest prefix whose sizes sum to at most `budget`. */
  function Fit(s: seq<Slot>, budget: int): seq<Slot> {
    if s == [] || s[0].Size() > budget then [] else [s[0]] + Fit(s[1..], budget - s[0].Size())
  }

  function Find(s: seq<Slot>, url: string): Option<Slot> {
    if s == [] then None else if s[0].url == url then Some(s[0]) else Find(s[1..], url)
  }

  function Without(s: seq<Slot>, url: string): seq<Slot> {
    if s == [] then [] else if s[0].url == url then s[1..] else [s[0]] + Without(s[1..], url)
  }

  function Touch(s: seq<Slot>, url: string): seq<Slot> {
    match Find(s, url)
    case None => s
    case Some(slot) => [slot] + Without(s, url)
  }

  function Put(s: seq<Slot>, maxBytes: nat, slot: Slot): seq<Slot> {
    if slot.Size() > maxBytes then s else [slot] + Fit(Without(s, slot.url), maxBytes - slot.Size())
  }

  lemma {:induction false} TotalAppend(a: seq<Slot>, b: seq<Slot>)
    ensures Total(a + b) == Total(a) + Total(b)
    decreases |a|
  {
    if a == [] {
      assert a + b == b;
    } else {
      assert (a + b)[1..] == a[1..] + b;
      TotalAppend(a[1..], b);
    }
  }

  lemma TotalDropLast(s: seq<Slot>)
    requires s != []
    ensures Total(s) == Total(s[..|s| - 1]) + s[|s| - 1].Size()
  {
    TotalAppend(s[..|s| - 1], [s[|s| - 1]]);
    assert s == s[..|s| - 1] + [s[|s| - 1]];
  }

  /** Cutting from the back until the rest fits leaves the longest fitting prefix. */
  lemma {:induction false} FitIsPrefix(s: seq<Slot>, n: nat, budget: int)
    requires n <= |s| && Total(s[..n]) <= budget && (n < |s| ==> Total(s[..n + 1]) > budget)
    ensures Fit(s, budget) == s[..n]
    decreases |s|
  {
    if n == 0 {
      if s != [] { assert s[..1][1..] == []; }
    } else {
      assert s[..n][1..] == s[1..][..n - 1];
      if n < |s| { assert s[..n + 1][1..] == s[1..][..n]; }
      FitIsPrefix(s[1..], n - 1, budget - s[0].Size());
    }
  }

  lemma {:induction false} FitFits(s: seq<Slot>, budget: int)
    requires budget >= 0
    ensures Total(Fit(s, budget)) <= budget && Fit(s, budget) <= s
    decreases |s|
  {
    if s != [] && s[0].Size() <= budget {
      FitFits(s[1..], budget - s[0].Size());
    }
  }

  /** Both operations keep the cache within its budget. */
  lemma PutFits(s: seq<Slot>, maxBytes: nat, slot: Slot)
    requires Total(s) <= maxBytes
    ensures Total(Put(s, maxBytes, slot)) <= maxBytes
  {
    if slot.Size() <= maxBytes {
      FitFits(Without(s, slot.url), maxBytes - slot.Size());
    }
  }

  lemma {:induction false} WithoutTotal(s: seq<Slot>, url: string)
    ensures match Find(s, url)
            case None => Without(s, url) == s
            case Some(slot) => slot.url == url && Total(Without(s, url)) + slot.Size() == Total(s)
    decreases |s|
  {
    if s != [] && s[0].url != url {
      WithoutTotal(s[1..], url);
    }
  }

  // ----- What is found -----

  lemma {:induction false} FitFinds(s: seq<Slot>, budget: int, url: string)
    ensures Find(Fit(s, budget), url) == None || Find(Fit(s, budget), url) == Find(s, url)
    decreases |s|
  {
    if s != [] && s[0].Size() <= budget && s[0].url != url {
      FitFinds(s[1..], budget - s[0].Size(), url);
    }
  }

  lemma {:induction false} WithoutFinds(s: seq<Slot>, gone: string, url: string)
    requires url != gone
    ensures Find(Without(s, gone), url) == Find(s, url)
    decreases |s|
  {
    if s != [] && s[0].url != gone {
      WithoutFinds(s[1..], gone, url);
    }
  }

  /** A stored entry is found, as it was given; nothing else is found that was not there before. An
      entry larger than the whole budget changes nothing. */
  lemma PutFinds(s: seq<Slot>, maxBytes: nat, url: string, mime: string, data: bytes, other: string)
    ensures var t := Put(s, maxBytes, Slot(url, mime, data));
            && (|data| <= maxBytes ==> Find(t, url) == Some(Slot(url, mime, data)))
            && (|data| <= maxBytes && other != url ==> Find(t, other) == None || Find(t, other) == Find(s, other))
            && (|data| > maxBytes ==> t == s)
  {
    if |data| <= maxBytes && other != url {
      FitFinds(Without(s, url), maxBytes - |data|, other);
      WithoutFinds(s, url, other);
    }
  }

  /** Looking an entry up changes what is found of no URL. */
  lemma TouchFinds(s: seq<Slot>, url: string, other: string)
    ensures Find(Touch(s, url), other) == Find(s, other)
  {
    if Find(s, url).Some? {
      FoundIsOwn(s, url);
      if other != url { WithoutFinds(s, url, other); }
    }
  }

  lemma {:induction false} FoundIsOwn(s: seq<Slot>, url: string)
    ensures Find(s, url).Some? ==> Find(s, url).value.url == url
    decreases |s|
  {
    if s != [] { FoundIsOwn(s[1..], url); }
  }

  // ----- Fixed sizes: the cache is determined by the recency order alone -----

  function Urls(s: seq<Slot>): seq<string> {
    if s == [] then [] else [s[0].url] + Urls(s[1..])
  }

  function Delete(urls: seq<string>, url: string): seq<string> {
    if urls == [] then [] else if urls[0] == url then urls[1..] else [urls[0]] + Delete(urls[1..], url)
  }

  function FitUrls(urls: seq<string>, size: string -> nat, budget: int): seq<string> {
    if urls == [] || size(urls[0]) > budget then [] else [urls[0]] + FitUrls(urls[1..], size, budget - size(urls[0]))
  }

  ghost predicate Sized(s: seq<Slot>, size: string -> nat) {
    forall i :: 0 <= i < |s| ==> s[i].Size() == size(s[i].url)
  }

  /** One access: a hit touches the entry, a miss fetches and stores it. */
  function Access(s: seq<Slot>, maxBytes: nat, fetched: Slot): seq<Slot> {
    if Find(s, fetched.url).Some? then Touch(s, fetched.url) else Put(s, maxBytes, fetched)
  }

  function CacheAfter(maxBytes: nat, accesses: seq<Slot>): seq<Slot> {
    if accesses == [] then []
    else Access(CacheAfter(maxBytes, accesses[..|accesses| - 1]), maxBytes, accesses[|accesses| - 1])
  }

  /** Every URL ever accessed, most recent first. */
  function Recency(accesses: seq<Slot>): seq<string> {
    if accesses == [] then []
    else
      var url := accesses[|accesses| - 1].url;
      [url] + Delete(Recency(accesses[..|accesses| - 1]), url)
  }

  lemma {:induction false} UrlsOfFit(s: seq<Slot>, size: string -> nat, budget: int)
    requires Sized(s, size)
    ensures Urls(Fit(s, budget)) == FitUrls(Urls(s), size, budget) && Sized(Fit(s, budget), size)
    decreases |s|
  {
    if s != [] {
      assert Sized(s[1..], size);
      UrlsOfFit(s[1..], size, budget - s[0].Size());
      assert s[0].Size() == size(s[0].url);
    }
  }

  lemma {:induction false} UrlsOfWithout(s: seq<Slot>, url: string, size: string -> nat)
    requires Sized(s, size)
    ensures Urls(Without(s, url)) == Delete(Urls(s), url) && Sized(Without(s, url), size)
    ensures Find(s, url).Some? <==> url in Urls(s)
    ensures Find(s, url).Some? ==> Find(s, url).value.url == url && Find(s, url).value.Size() == size(url)
    decreases |s|
  {
    if s != [] {
      assert Sized(s[1..], size);
      assert s[0].Size() == size(s[0].url);
      UrlsOfWithout(s[1..], url, size);
    }
  }

  lemma {:induction false} HitDeletes(urls: seq<string>, url: string, size: string -> nat, budget: int)
    requires url in FitUrls(urls, size, budget)
    ensures Delete(FitUrls(urls, size, budget), url) == FitUrls(Delete(urls, url), size, budget - size(url))
    ensures size(url) <= budget
    decreases |urls|
  {
    var fit := FitUrls(urls, size, budget);
    assert fit == [urls[0]] + FitUrls(urls[1..], size, budget - size(urls[0]));
    if urls[0] != url {
      HitDeletes(urls[1..], url, size, budget - size(urls[0]));
      assert Delete(urls, url) == [urls[0]] + Delete(urls[1..], url);
    }
  }

  lemma {:induction false} MissDeletes(urls: seq<string>, url: string, size: string -> nat, budget: int)
    requires url !in FitUrls(urls, size, budget)
    ensures FitUrls(FitUrls(urls, size, budget), size, budget - size(url))
              == FitUrls(Delete(urls, url), size, budget - size(url))
    decreases |urls|
  {
    if urls != [] {
      if urls[0] == url {
        assert budget - size(url) < 0;
      } else if size(urls[0]) <= budget {
        MissDeletes(urls[1..], url, size, budget - size(urls[0]));
      }
    }
  }

  lemma AccessUrls(s: seq<Slot>, maxBytes: nat, fetched: Slot, size: string -> nat)
    requires Sized(s, size) && fetched.Size() == size(fetched.url) <= maxBytes
    ensures var t := Access(s, maxBytes, fetched);
            && Sized(t, size)
            && Urls(t) == [fetched.url] + if fetched.url in Urls(s) then Delete(Urls(s), fetched.url)
                                          else FitUrls(Urls(s), size, maxBytes - size(fetched.url))
  {
    var url := fetched.url;
    UrlsOfWithout(s, url, size);
    if Find(s, url).None? {
      WithoutTotal(s, url);
      UrlsOfFit(s, size, maxBytes - size(url));
    }
  }

  /** With one size per URL and every miss stored, the cache is at every moment the longest
      prefix of the recency order of all URLs ever accessed that fits the budget. */
  lemma {:induction false} CacheIsRecencyPrefix(maxBytes: nat, accesses: seq<Slot>, size: string -> nat)
    requires forall i :: 0 <= i < |accesses| ==> accesses[i].Size() == size(accesses[i].url) <= maxBytes
    ensures Sized(CacheAfter(maxBytes, accesses), size)
    ensures Urls(CacheAfter(maxBytes, accesses)) == FitUrls(Recency(accesses), size, maxBytes)
    decreases |accesses|
  {
    if accesses != [] {
      var before, last := accesses[..|accesses| - 1], accesses[|accesses| - 1];
      CacheIsRecencyPrefix(maxBytes, before, size);
      AccessUrls(CacheAfter(maxBytes, before), maxBytes, last, size);
      var kept := FitUrls(Recency(before), size, maxBytes);
      if last.url in kept {
        HitDeletes(Recency(before), last.url, size, maxBytes);
      } else {
        MissDeletes(Recency(before), last.url, size, maxBytes);
      }
    }
  }

  lemma {:induction false} FitUrlsGrows(urls: seq<string>, size: string -> nat, small: int, large: int)
    requires small <= large
    ensures FitUrls(urls, size, small) <= FitUrls(urls, size, large)
    decreases |urls|
  {
    if urls != [] && size(urls[0]) <= small {
      FitUrlsGrows(urls[1..], size, small - size(urls[0]), large - size(urls[0]));
    }
  }

  /** So a larger cache hits whenever a smaller one does. */
  lemma LargerCacheHitsToo(small: nat, large: nat, accesses: seq<Slot>, size: string -> nat, url: string)
    requires small <= large
    requires forall i :: 0 <= i < |accesses| ==> accesses[i].Size() == size(accesses[i].url) <= small
    ensures Find(CacheAfter(small, accesses), url).Some? ==> Find(CacheAfter(large, accesses), url).Some?
  {
    CacheIsRecencyPrefix(small, accesses, size);
    CacheIsRecencyPrefix(large, accesses, size);
    FitUrlsGrows(Recency(accesses), size, small, large);
    UrlsOfWithout(CacheAfter(small, accesses), url, size);
    UrlsOfWithout(CacheAfter(large, accesses), url, size);
  }
}
