/** The two in-memory caches for fetched images: the Go one keeps a map beside a recency list
    and updates entries in place, the Rust one pops and reinserts. Both meet LruSpec, so the
    same operations leave both with the same recency sequence. */
module MemoryCaches {
  import opened Wrappers
  import opened Bytes
  import opened LruSpec

  datatype GoEntry = GoEntry(mime: string, data: bytes, size: int)

  function SlotOf(items: map<string, GoEntry>, url: string): Slot {
    if url in items then Slot(url, items[url].mime, items[url].data) else Slot(url, "", [])
  }

  function Slots(urls: seq<string>, items: map<string, GoEntry>): (s: seq<Slot>)
    ensures |s| == |urls|
  {
    seq(|urls|, i requires 0 <= i < |urls| => SlotOf(items, urls[i]))
  }

  lemma SlotsCons(first: string, urls: seq<string>, items: map<string, GoEntry>)
    ensures Slots([first] + urls, items) == [SlotOf(items, first)] + Slots(urls, items)
  {
  }

  lemma {:induction false} SlotsWithout(urls: seq<string>, items: map<string, GoEntry>, url: string)
    ensures Slots(Delete(urls, url), items) == Without(Slots(urls, items), url)
    ensures Find(Slots(urls, items), url) == if url in urls then Some(SlotOf(items, url)) else None
    decreases |urls|
  {
    if urls != [] {
      var first, rest := urls[0], urls[1..];
      assert urls == [first] + rest;
      SlotsCons(first, rest, items);
      assert Slots(urls, items)[1..] == Slots(rest, items);
      SlotsWithout(rest, items, url);
      SlotsCons(first, Delete(rest, url), items);
    }
  }

  lemma {:induction false} DeleteDistinct(urls: seq<string>, url: string)
    requires NoDuplicates(urls)
    ensures NoDuplicates(Delete(urls, url)) && url !in Delete(urls, url)
    ensures forall u :: u in Delete(urls, url) <==> u in urls && u != url
    decreases |urls|
  {
    if urls != [] {
      forall i, j | 0 <= i < j < |urls[1..]|
        ensures urls[1..][i] != urls[1..][j]
      {
        assert urls[i + 1] != urls[j + 1];
      }
      assert forall u :: u in urls[1..] ==> u != urls[0];
      DeleteDistinct(urls[1..], url);
      var rest := Delete(urls[1..], url);
      if urls[0] != url {
        var all := [urls[0]] + rest;
        assert Delete(urls, url) == all;
        forall i, j | 0 <= i < j < |all|
          ensures all[i] != all[j]
        {
          assert all[j] == rest[j - 1] && rest[j - 1] in rest;
        }
      }
    }
  }

  /** The list without its last element loses exactly that element. */
  lemma DropLastDistinct(urls: seq<string>)
    requires urls != [] && NoDuplicates(urls)
    ensures var head := urls[..|urls| - 1];
            NoDuplicates(head) && forall u :: u in head <==> u in urls && u != urls[|urls| - 1]
  {
    var head, last := urls[..|urls| - 1], urls[|urls| - 1];
    forall u
      ensures u in head <==> u in urls && u != last
    {
      if u in urls && u != last {
        var i :| 0 <= i < |urls| && urls[i] == u;
        assert head[i] == u;
      }
      if u in head {
        var i :| 0 <= i < |head| && head[i] == u;
        assert urls[i] == u;
      }
    }
  }

  /** The slots after an entry is overwritten and moved to the front. */
  lemma OverwrittenSlots(urls: seq<string>, items: map<string, GoEntry>, url: string, entry: GoEntry)
    requires NoDuplicates(urls) && url in urls && url in items
    ensures Slots([url] + Delete(urls, url), items[url := entry])
              == [Slot(url, entry.mime, entry.data)] + Without(Slots(urls, items), url)
  {
    SlotsWithout(urls, items, url);
    DeleteDistinct(urls, url);
    SlotsElsewhere(Delete(urls, url), items, url, entry);
  }

  lemma SlotsElsewhere(urls: seq<string>, items: map<string, GoEntry>, url: string, entry: GoEntry)
    requires url !in urls
    ensures Slots([url] + urls, items[url := entry]) == [Slot(url, entry.mime, entry.data)] + Slots(urls, items)
  {
    var all := [url] + urls;
    forall i | 0 <= i < |all|
      ensures SlotOf(items[url := entry], all[i]) == ([Slot(url, entry.mime, entry.data)] + Slots(urls, items))[i]
    {
      if i > 0 { assert all[i] == urls[i - 1] && urls[i - 1] in urls; }
    }
  }

  lemma OverwrittenTotal(urls: seq<string>, items: map<string, GoEntry>, url: string)
    requires url in urls && url in items
    ensures Total(Without(Slots(urls, items), url)) + |items[url].data| == Total(Slots(urls, items))
  {
    SlotsWithout(urls, items, url);
    WithoutTotal(Slots(urls, items), url);
  }

  lemma MovedToFront(urls: seq<string>, url: string)
    requires NoDuplicates(urls) && url in urls
    ensures NoDuplicates([url] + Delete(urls, url)) && forall u :: u in [url] + Delete(urls, url) <==> u in urls
  {
    DeleteDistinct(urls, url);
    var all := [url] + Delete(urls, url);
    forall i, j | 0 <= i < j < |all|
      ensures all[i] != all[j]
    {
      assert all[j] == Delete(urls, url)[j - 1];
    }
  }

  lemma NewFront(urls: seq<string>, url: string)
    requires NoDuplicates(urls) && url !in urls
    ensures NoDuplicates([url] + urls) && forall u :: u in [url] + urls <==> u == url || u in urls
  {
    var all := [url] + urls;
    forall i, j | 0 <= i < j < |all|
      ensures all[i] != all[j]
    {
      assert all[j] == urls[j - 1] && urls[j - 1] in urls;
    }
  }

  /** Map and list are in bijection, and every size is that of its data. */
  ghost predicate Agree(items: map<string, GoEntry>, lru: seq<string>) {
    && NoDuplicates(lru)
    && (forall u :: u in items <==> u in lru)
    && (forall u :: u in items ==> items[u].size == |items[u].data|)
  }

  /** Dropping the last of the list from both drops the last slot. */
  lemma LastEvicted(items: map<string, GoEntry>, lru: seq<string>)
    requires Agree(items, lru) && lru != []
    ensures var rest, key := lru[..|lru| - 1], lru[|lru| - 1];
            && key in items && Agree(items - {key}, rest)
            && Slots(rest, items - {key}) == Slots(lru, items)[..|lru| - 1]
            && Total(Slots(rest, items - {key})) == Total(Slots(lru, items)) - items[key].size
  {
    var rest, key := lru[..|lru| - 1], lru[|lru| - 1];
    DropLastDistinct(lru);
    TotalDropLast(Slots(lru, items));
    assert forall i :: 0 <= i < |rest| ==> rest[i] in rest;
    assert Slots(rest, items - {key}) == Slots(lru, items)[..|lru| - 1];
  }

  /** Moving an entry to the front of the list touches its slot. */
  lemma Touched(items: map<string, GoEntry>, lru: seq<string>, url: string)
    requires Agree(items, lru) && url in items
    ensures var after := [url] + Delete(lru, url);
            && Agree(items, after) && Slots(after, items) == Touch(Slots(lru, items), url)
            && Total(Slots(after, items)) == Total(Slots(lru, items))
  {
    SlotsWithout(lru, items, url);
    WithoutTotal(Slots(lru, items), url);
    MovedToFront(lru, url);
    SlotsCons(url, Delete(lru, url), items);
  }

  /** A new entry at the front of the list is a new slot at the front. */
  lemma Inserted(items: map<string, GoEntry>, lru: seq<string>, url: string, entry: GoEntry)
    requires Agree(items, lru) && url !in items && entry.size == |entry.data|
    ensures var slots := Slots([url] + lru, items[url := entry]);
            && Agree(items[url := entry], [url] + lru)
            && slots == [Slot(url, entry.mime, entry.data)] + Slots(lru, items)
            && Total(slots) == entry.size + Total(Slots(lru, items))
  {
    NewFront(lru, url);
    SlotsElsewhere(lru, items, url, entry);
    assert ([Slot(url, entry.mime, entry.data)] + Slots(lru, items))[1..] == Slots(lru, items);
  }

  class GoCache {
    const maxBytes: nat
    var items: map<string, GoEntry>
    var lru: seq<string>
    var curBytes: int

    ghost function Contents(): seq<Slot>
      reads this
    {
      Slots(lru, items)
    }

    /** Map and list are in bijection and the counter is the sum of the sizes. */
    ghost predicate Coherent()
      reads this
    {
      Agree(items, lru) && curBytes == Total(Contents())
    }

    ghost predicate Valid()
      reads this
    {
      Coherent() && curBytes <= maxBytes
    }

    constructor (maxBytes: nat)
      ensures Valid() && Contents() == [] && this.maxBytes == maxBytes
    {
      this.maxBytes := maxBytes;
      items, lru, curBytes := map[], [], 0;
    }

    method Get(url: string) returns (found: Option<Slot>)
      requires Valid()
      modifies this
      ensures Valid() && Contents() == Touch(old(Contents()), url) && found == Find(old(Contents()), url)
    {
      SlotsWithout(lru, items, url);
      if url !in items {
        return None;
      }
      Touched(items, lru, url);
      found := Some(SlotOf(items, url));
      lru := [url] + Delete(lru, url);
    }

    /** Removes the least recently used entry. */
    method EvictBack()
      requires Coherent() && lru != []
      modifies this
      ensures Coherent() && lru == old(lru)[..|old(lru)| - 1] && Contents() == old(Contents())[..|old(lru)| - 1]
    {
      LastEvicted(items, lru);
      var key := lru[|lru| - 1];
      curBytes := curBytes - items[key].size;
      items := items - {key};
      lru := lru[..|lru| - 1];
    }

    method Set(url: string, mime: string, data: bytes)
      requires Valid()
      modifies this
      ensures Valid() && Contents() == Put(old(Contents()), maxBytes, Slot(url, mime, data))
    {
      var size := |data|;
      if size > maxBytes {
        return;
      }
      if url in items {
        Update(url, mime, data);
      } else {
        Insert(url, mime, data);
      }
    }

    /** Evicts from the back until `size` more bytes would fit. */
    method MakeRoom(size: nat)
      requires Coherent() && size <= maxBytes
      modifies this
      ensures Coherent() && Contents() == Fit(old(Contents()), maxBytes - size) && curBytes + size <= maxBytes
      ensures forall u :: u in items ==> u in old(items)
    {
      ghost var before := Contents();
      assert before[..|before|] == before;
      while curBytes + size > maxBytes && |lru| > 0
        invariant Coherent() && CutFrom(before, Contents(), maxBytes - size)
        invariant forall u :: u in items ==> u in old(items)
        decreases |lru|
      {
        CutMore(before, Contents(), maxBytes - size);
        EvictBack();
      }
      CutIsFit(before, Contents(), maxBytes - size);
    }

    /** Evicts the others from the back, never the entry at the front. */
    method TrimBehind(url: string)
      requires Coherent() && lru != [] && lru[0] == url && |items[url].data| <= maxBytes
      modifies this
      ensures Valid()
      ensures var slot := old(Contents())[0]; Contents() == [slot] + Fit(old(Contents())[1..], maxBytes - slot.Size())
    {
      ghost var before := Contents();
      while curBytes > maxBytes && |lru| > 1
        invariant Coherent() && |lru| >= 1 && lru[0] == url
        invariant CutBehind(before, Contents(), maxBytes)
        decreases |lru|
      {
        if lru[|lru| - 1] == url {
          break;
        }
        CutBehindMore(before, Contents(), maxBytes);
        EvictBack();
      }
      CutBehindIsFit(before, Contents(), maxBytes);
    }

    /** Overwrites the entry in place and moves it to the front. */
    method Overwrite(url: string, mime: string, data: bytes)
      requires Coherent() && url in items
      modifies this
      ensures Coherent() && lru != [] && lru[0] == url && url in items && items[url].data == data
      ensures Contents() == [Slot(url, mime, data)] + Without(old(Contents()), url)
    {
      OverwrittenSlots(lru, items, url, GoEntry(mime, data, |data|));
      OverwrittenTotal(lru, items, url);
      MovedToFront(lru, url);
      curBytes := curBytes - items[url].size;
      items := items[url := GoEntry(mime, data, |data|)];
      curBytes := curBytes + |data|;
      lru := [url] + Delete(lru, url);
    }

    method Update(url: string, mime: string, data: bytes)
      requires Valid() && url in items && |data| <= maxBytes
      modifies this
      ensures Valid() && Contents() == Put(old(Contents()), maxBytes, Slot(url, mime, data))
    {
      ghost var rest := Without(Contents(), url);
      Overwrite(url, mime, data);
      assert Contents()[1..] == rest;
      TrimBehind(url);
    }

    method Insert(url: string, mime: string, data: bytes)
      requires Valid() && url !in items && |data| <= maxBytes
      modifies this
      ensures Valid() && Contents() == Put(old(Contents()), maxBytes, Slot(url, mime, data))
    {
      SlotsWithout(lru, items, url);
      WithoutTotal(Contents(), url);
      MakeRoom(|data|);
      Inserted(items, lru, url, GoEntry(mime, data, |data|));
      lru := [url] + lru;
      items := items[url := GoEntry(mime, data, |data|)];
      curBytes := curBytes + |data|;
    }
  }

  /** `cut` is a prefix of `s`, and a longer one would not have fitted. */
  ghost predicate CutFrom(s: seq<Slot>, cut: seq<Slot>, budget: int) {
    cut <= s && (|cut| < |s| ==> Total(s[..|cut| + 1]) > budget)
  }

  lemma CutMore(s: seq<Slot>, cut: seq<Slot>, budget: int)
    requires CutFrom(s, cut, budget) && cut != [] && Total(cut) > budget
    ensures CutFrom(s, cut[..|cut| - 1], budget)
  {
    assert s[..|cut|] == cut;
  }

  lemma CutIsFit(s: seq<Slot>, cut: seq<Slot>, budget: int)
    requires CutFrom(s, cut, budget) && Total(cut) <= budget
    ensures Fit(s, budget) == cut
  {
    assert s[..|cut|] == cut;
    FitIsPrefix(s, |cut|, budget);
  }

  /** Like CutFrom, with the first slot exempt. */
  ghost predicate CutBehind(s: seq<Slot>, cut: seq<Slot>, budget: int) {
    s != [] && cut != [] && cut[0] == s[0] && CutFrom(s[1..], cut[1..], budget - s[0].Size())
  }

  lemma CutBehindMore(s: seq<Slot>, cut: seq<Slot>, budget: int)
    requires CutBehind(s, cut, budget) && |cut| > 1 && Total(cut) > budget
    ensures CutBehind(s, cut[..|cut| - 1], budget)
  {
    CutMore(s[1..], cut[1..], budget - s[0].Size());
    assert cut[..|cut| - 1][1..] == cut[1..][..|cut[1..]| - 1];
  }

  lemma CutBehindIsFit(s: seq<Slot>, cut: seq<Slot>, budget: int)
    requires CutBehind(s, cut, budget) && s[0].Size() <= budget && (|cut| == 1 || Total(cut) <= budget)
    ensures cut == [s[0]] + Fit(s[1..], budget - s[0].Size()) && Total(cut) <= budget
  {
    assert cut == [cut[0]] + cut[1..];
    CutIsFit(s[1..], cut[1..], budget - s[0].Size());
  }

  // ----- The Rust cache, over the operations of its LRU container -----

  function Pop(items: seq<Slot>, url: string): (seq<Slot>, Option<Slot>) {
    (Without(items, url), Find(items, url))
  }

  function PopLru(items: seq<Slot>): (seq<Slot>, Option<Slot>) {
    if items == [] then ([], None) else (items[..|items| - 1], Some(items[|items| - 1]))
  }

  function SaturatingSub(a: nat, b: nat): nat {
    if a >= b then a - b else 0
  }

  class RustCache {
    const maxBytes: nat
    var items: seq<Slot>
    var curBytes: nat

    ghost predicate Valid()
      reads this
    {
      curBytes == Total(items) <= maxBytes
    }

    constructor (maxBytes: nat)
      ensures Valid() && items == [] && this.maxBytes == maxBytes
    {
      this.maxBytes := maxBytes;
      items, curBytes := [], 0;
    }

    method Get(url: string) returns (found: Option<Slot>)
      requires Valid()
      modifies this
      ensures Valid() && items == Touch(old(items), url) && found == Find(old(items), url)
    {
      WithoutTotal(items, url);
      var (rest, slot) := Pop(items, url);
      if slot.Some? {
        items := [slot.value] + rest;
      }
      found := slot;
    }

    /** Pops least recently used entries until `size` more bytes would fit. */
    method MakeRoom(size: nat)
      requires curBytes == Total(items) && size <= maxBytes
      modifies this
      ensures items == Fit(old(items), maxBytes - size) && curBytes == Total(items) && curBytes + size <= maxBytes
    {
      ghost var before := items;
      while curBytes + size > maxBytes
        invariant CutFrom(before, items, maxBytes - size) && curBytes == Total(items)
        decreases |items|
      {
        var (left, evicted) := PopLru(items);
        if evicted.None? {
          break;
        }
        TotalDropLast(items);
        CutMore(before, items, maxBytes - size);
        items := left;
        curBytes := SaturatingSub(curBytes, evicted.value.Size());
      }
      CutIsFit(before, items, maxBytes - size);
    }

    method Set(url: string, mime: string, data: bytes)
      requires Valid()
      modifies this
      ensures Valid() && items == Put(old(items), maxBytes, Slot(url, mime, data))
    {
      var size := |data|;
      if size > maxBytes {
        return;
      }
      WithoutTotal(items, url);
      var (rest, previous) := Pop(items, url);
      items := rest;
      if previous.Some? {
        curBytes := SaturatingSub(curBytes, previous.value.Size());
      }
      MakeRoom(size);
      items := [Slot(url, mime, data)] + items;
      curBytes := curBytes + size;
    }
  }

  datatype Op = GetOp(url: string) | SetOp(url: string, mime: string, data: bytes)

  /** The recency list the operations mean, and the answers they get. */
  function Meant(maxBytes: nat, ops: seq<Op>): (seq<Slot>, seq<Option<Slot>>) {
    if ops == [] then ([], [])
    else
      var (slots, answers) := Meant(maxBytes, ops[..|ops| - 1]);
      match ops[|ops| - 1]
      case GetOp(url) => (Touch(slots, url), answers + [Find(slots, url)])
      case SetOp(url, mime, data) => (Put(slots, maxBytes, Slot(url, mime, data)), answers)
  }

  /** Any sequence of operations, run on both caches, gives the same answers and leaves the
      same entries in the same order. */
  method Lockstep(maxBytes: nat, ops: seq<Op>)
    returns (go: GoCache, rust: RustCache, goAnswers: seq<Option<Slot>>, rustAnswers: seq<Option<Slot>>)
    ensures go.Valid() && rust.Valid() && go.Contents() == rust.items && goAnswers == rustAnswers
    ensures (rust.items, rustAnswers) == Meant(maxBytes, ops)
  {
    go := new GoCache(maxBytes);
    rust := new RustCache(maxBytes);
    goAnswers, rustAnswers := [], [];
    for i := 0 to |ops|
      invariant fresh(go) && fresh(rust) && go.Valid() && rust.Valid() && go.maxBytes == rust.maxBytes == maxBytes
      invariant go.Contents() == rust.items && goAnswers == rustAnswers
      invariant (rust.items, rustAnswers) == Meant(maxBytes, ops[..i])
    {
      assert ops[..i + 1][..i] == ops[..i];
      match ops[i]
      case GetOp(url) =>
        var a := go.Get(url);
        var b := rust.Get(url);
        goAnswers, rustAnswers := goAnswers + [a], rustAnswers + [b];
      case SetOp(url, mime, data) =>
        go.Set(url, mime, data);
        rust.Set(url, mime, data);
    }
    assert ops[..|ops|] == ops;
  }

  // ----- What the answers are -----

  /** The entry stored last under a URL among those that fit the budget. */
  function LatestSet(maxBytes: nat, ops: seq<Op>, url: string): Option<Slot> {
    if ops == [] then None
    else
      var op := ops[|ops| - 1];
      if op.SetOp? && op.url == url && |op.data| <= maxBytes then Some(Slot(op.url, op.mime, op.data))
      else LatestSet(maxBytes, ops[..|ops| - 1], url)
  }

  function Gets(ops: seq<Op>): nat {
    if ops == [] then 0 else Gets(ops[..|ops| - 1]) + if ops[|ops| - 1].GetOp? then 1 else 0
  }

  /** What is cached of a URL is the entry stored last. */
  lemma {:induction false} CachedIsLatest(maxBytes: nat, ops: seq<Op>, url: string)
    ensures var found := Find(Meant(maxBytes, ops).0, url); found == None || found == LatestSet(maxBytes, ops, url)
    decreases |ops|
  {
    if ops != [] {
      var before, op := ops[..|ops| - 1], ops[|ops| - 1];
      CachedIsLatest(maxBytes, before, url);
      var slots := Meant(maxBytes, before).0;
      match op
      case GetOp(touched) => TouchFinds(slots, touched, url);
      case SetOp(stored, mime, data) => PutFinds(slots, maxBytes, stored, mime, data, url);
    }
  }

  lemma {:induction false} AnswersGrow(maxBytes: nat, ops: seq<Op>, n: nat)
    requires n <= |ops|
    ensures |Meant(maxBytes, ops).1| == Gets(ops)
    ensures Meant(maxBytes, ops[..n]).1 <= Meant(maxBytes, ops).1 && |Meant(maxBytes, ops[..n]).1| == Gets(ops[..n])
    decreases |ops|
  {
    if n == |ops| {
      assert ops[..n] == ops;
    } else {
      assert ops[..|ops| - 1][..n] == ops[..n];
    }
    if ops != [] { AnswersGrow(maxBytes, ops[..|ops| - 1], if n < |ops| then n else n - 1); }
  }

  /** Over any sequence of operations: the answer to a lookup is a miss, or the type and bytes that
      were stored last under that URL; and right after a store that fits it is a hit. */
  lemma AnswersAreLatest(maxBytes: nat, ops: seq<Op>, i: nat)
    requires i < |ops| && ops[i].GetOp?
    ensures var before, answers := ops[..i], Meant(maxBytes, ops).1;
            && Gets(before) < |answers|
            && (answers[Gets(before)] == None || answers[Gets(before)] == LatestSet(maxBytes, before, ops[i].url))
            && (i > 0 && ops[i - 1].SetOp? && ops[i - 1].url == ops[i].url && |ops[i - 1].data| <= maxBytes ==>
                  answers[Gets(before)] == Some(Slot(ops[i].url, ops[i - 1].mime, ops[i - 1].data)))
  {
    var before, upto := ops[..i], ops[..i + 1];
    assert upto[..i] == before;
    AnswersGrow(maxBytes, ops, i + 1);
    AnswersGrow(maxBytes, ops, i);
    CachedIsLatest(maxBytes, before, ops[i].url);
    assert Meant(maxBytes, upto).1 == Meant(maxBytes, before).1 + [Find(Meant(maxBytes, before).0, ops[i].url)];
    if i > 0 && ops[i - 1].SetOp? {
      assert before[..i - 1] == ops[..i - 1];
      var op := ops[i - 1];
      PutFinds(Meant(maxBytes, ops[..i - 1]).0, maxBytes, op.url, op.mime, op.data, op.url);
    }
  }
}
