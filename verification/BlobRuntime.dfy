/** The blob store of the Rust proxy: small blobs stay in memory within a budget, others spill to
    files. Calls are whole here; `BlobBudget` has the interleavings of the counter's atomic steps. */
module BlobRuntime {
  import opened Wrappers
  import opened Bytes
  import opened Decimal
  import opened Tally
  import opened Streams
  import opened BlobBudget

  datatype BlobStorage = Inline(data: bytes) | Shared(data: bytes) | Spilled(path: bytes)

  /** A handle; its clones share the flag, so a clone is another reference to the same object. */
  class BlobHandle {
    const id: nat
    const mimeType: bytes
    const sizeBytes: nat
    const storage: BlobStorage
    var removed: bool

    constructor (id: nat, mimeType: bytes, sizeBytes: nat, storage: BlobStorage)
      ensures this.id == id && this.mimeType == mimeType && this.sizeBytes == sizeBytes && this.storage == storage
      ensures !removed
    {
      this.id, this.mimeType, this.sizeBytes, this.storage, removed := id, mimeType, sizeBytes, storage, false;
    }
  }

  type Files = map<bytes, bytes>

  /** The runtime's state as a value. */
  datatype View = View(nextId: nat, hot: nat, spillCount: nat, spillBytes: nat, files: Files)

  function SpillPath(id: nat): bytes {
    Ascii("blob-") + Dec(id) + Ascii(".bin")
  }

  lemma SpillPathsDiffer(a: nat, b: nat)
    ensures SpillPath(a) == SpillPath(b) <==> a == b
  {
    var p, q := SpillPath(a), SpillPath(b);
    assert p[5..|p| - 4] == Dec(a) && q[5..|q| - 4] == Dec(b);
    IndexTextIsExact(Dec(a), a);
    IndexTextIsExact(Dec(a), b);
  }

  /** What reading a blob gives: `None` when its file is gone. */
  function ContentOf(storage: BlobStorage, files: Files): Option<bytes> {
    match storage
    case Inline(data) => Some(data)
    case Shared(data) => Some(data)
    case Spilled(path) => if path in files then Some(files[path]) else None
  }

  // ----- The specification of storing -----

  predicate FitsInline(l: Limits, hot: nat, size: nat) {
    size <= l.inlineMax && size <= l.requestHot && hot + size <= l.globalHot
  }

  /** The one choice both ways of storing make for the blob numbered `id`, and all it changes. */
  function PlaceOutcome(l: Limits, v: View, id: nat, data: bytes): (View, BlobStorage) {
    if FitsInline(l, v.hot, |data|) then
      (v.(hot := v.hot + |data|), Inline(data))
    else
      (v.(spillCount := v.spillCount + 1, spillBytes := v.spillBytes + |data|, files := v.files[SpillPath(id) := data]),
       Spilled(SpillPath(id)))
  }

  function StoreOutcome(l: Limits, v: View, data: bytes): (View, BlobStorage) {
    PlaceOutcome(l, v.(nextId := v.nextId + 1), v.nextId, data)
  }

  ghost predicate AgreeOff(a: Files, b: Files, path: bytes) {
    forall p :: p != path ==> (p in a <==> p in b) && (p in a ==> a[p] == b[p])
  }

  /** A store that fails has used up a number and may leave part of a file under it. */
  ghost predicate StoreFailed(before: View, after: View) {
    && after == before.(nextId := before.nextId + 1, files := after.files)
    && AgreeOff(before.files, after.files, SpillPath(before.nextId))
  }

  ghost predicate IsHandle(h: BlobHandle, id: nat, mimeType: bytes, data: bytes) {
    h.id == id && h.mimeType == mimeType && h.sizeBytes == |data|
  }

  ghost predicate Stored(l: Limits, before: View, data: bytes, mimeType: bytes, r: Option<BlobHandle>, after: View) {
    match r
    case None => StoreFailed(before, after)
    case Some(h) => (after, h.storage) == StoreOutcome(l, before, data) && IsHandle(h, before.nextId, mimeType, data)
  }

  /** The runtime after storing these bytes one after the other, and what became of each. */
  function StoreAll(l: Limits, v: View, datas: seq<bytes>): (View, seq<BlobStorage>) {
    if datas == [] then (v, [])
    else
      var (mid, made) := StoreAll(l, v, datas[..|datas| - 1]);
      var (after, storage) := StoreOutcome(l, mid, datas[|datas| - 1]);
      (after, made + [storage])
  }

  function TotalLength(datas: seq<bytes>): nat {
    if datas == [] then 0 else TotalLength(datas[..|datas| - 1]) + |datas[|datas| - 1]|
  }

  function Spills(made: seq<BlobStorage>): nat {
    if made == [] then 0 else Spills(made[..|made| - 1]) + if made[|made| - 1].Spilled? then 1 else 0
  }

  /** A blob stays in memory exactly if it is within both limits and the hot bytes so far leave room
      for it; either way hot and spilled bytes together grow by its size. */
  lemma StoreConserves(l: Limits, v: View, data: bytes)
    ensures var (after, storage) := StoreOutcome(l, v, data);
            && (storage == Inline(data) <==>
                  |data| <= l.inlineMax && |data| <= l.requestHot && v.hot + |data| <= l.globalHot)
            && (storage == Inline(data) || storage.Spilled?)
            && after.hot + after.spillBytes == v.hot + v.spillBytes + |data| && after.nextId == v.nextId + 1
            && after.hot == v.hot + (if storage.Spilled? then 0 else |data|)
            && after.spillCount == v.spillCount + if storage.Spilled? then 1 else 0
  {
  }

  /** Nothing is lost between memory and disk: over any stores the hot bytes and the spilled bytes
      together grow by exactly what was stored, and the spill counter by the number of blobs
      that went to disk. */
  lemma {:induction false} StoresConserve(l: Limits, v: View, datas: seq<bytes>)
    ensures var (after, made) := StoreAll(l, v, datas);
            && |made| == |datas| && after.nextId == v.nextId + |datas|
            && after.hot + after.spillBytes == v.hot + v.spillBytes + TotalLength(datas)
            && after.spillCount == v.spillCount + Spills(made)
    decreases |datas|
  {
    if datas != [] {
      var init, last := datas[..|datas| - 1], datas[|datas| - 1];
      var (mid, made) := StoreAll(l, v, init);
      StoresConserve(l, v, init);
      StoreConserves(l, mid, last);
      SpillsSnoc(made, StoreOutcome(l, mid, last).1);
    }
  }

  lemma SpillsSnoc(made: seq<BlobStorage>, last: BlobStorage)
    ensures Spills(made + [last]) == Spills(made) + if last.Spilled? then 1 else 0
  {
    assert (made + [last])[..|made|] == made;
  }

  /** A blob stored under number `id` is none of the files of other numbers. */
  ghost predicate OwnFile(id: nat, storage: BlobStorage) {
    storage.Spilled? ==> storage.path == SpillPath(id)
  }

  /** A blob put in its place reads back. Whether that succeeds or fails, blobs of other numbers
      read as before. */
  lemma PlaceKeepsOthers(l: Limits, before: View, id: nat, data: bytes, r: Option<BlobHandle>, after: View,
                         other: BlobHandle)
    requires match r
             case Some(h) => (after, h.storage) == PlaceOutcome(l, before, id, data)
             case None => AgreeOff(before.files, after.files, SpillPath(id))
    requires other.id != id && OwnFile(other.id, other.storage)
    ensures r.Some? ==> ContentOf(r.value.storage, after.files) == Some(data)
    ensures ContentOf(other.storage, after.files) == ContentOf(other.storage, before.files)
  {
    SpillPathsDiffer(other.id, id);
  }

  /** A stored blob reads back as what was stored. Whether the store succeeds or fails, no other
      blob reads differently. */
  lemma StoreKeepsOthers(l: Limits, before: View, data: bytes, mimeType: bytes, r: Option<BlobHandle>, after: View,
                         other: BlobHandle)
    requires Stored(l, before, data, mimeType, r, after)
    requires other.id != before.nextId && OwnFile(other.id, other.storage)
    ensures r.Some? ==> ContentOf(r.value.storage, after.files) == Some(data)
    ensures ContentOf(other.storage, after.files) == ContentOf(other.storage, before.files)
  {
    PlaceKeepsOthers(l, before.(nextId := before.nextId + 1), before.nextId, data, r, after, other);
  }

  /** Removing one blob's file leaves other blobs as they are. */
  lemma RemoveKeepsOthers(files: Files, gone: BlobHandle, other: BlobHandle)
    requires OwnFile(gone.id, gone.storage) && OwnFile(other.id, other.storage) && other.id != gone.id
    requires gone.storage.Spilled?
    ensures ContentOf(other.storage, files - {gone.storage.path}) == ContentOf(other.storage, files)
  {
    SpillPathsDiffer(other.id, gone.id);
  }

  class BlobRuntime {
    const limits: Limits
    var nextId: nat
    var globalHotBytes: u64
    var spillCount: nat
    var spillBytesTotal: nat
    var files: Files
    /** The inline blobs not yet removed, and every handle made. */
    ghost var held: map<nat, nat>
    ghost var handles: set<BlobHandle>
    /** How often the file system has failed. */
    ghost var faults: nat

    ghost predicate HandleOk(h: BlobHandle)
      reads this, h
    {
      && h.id < nextId && OwnFile(h.id, h.storage)
      && (h.id in held <==> h.storage.Inline? && !h.removed)
      && (h.storage.Inline? && !h.removed ==> held[h.id] == |h.storage.data|)
    }

    ghost predicate Valid()
      reads this, handles
    {
      && globalHotBytes == Sum(held) <= limits.globalHot
      && (forall id <- held :: id < nextId)
      && (forall h <- handles :: HandleOk(h))
      && (forall g, h :: g in handles && h in handles && g != h ==> g.id != h.id)
    }

    /** No file is left of a blob that was removed, or that was never made. */
    ghost predicate Tidy()
      reads this, handles
    {
      TidyFor(files)
    }

    ghost predicate TidyFor(fs: Files)
      reads this, handles
    {
      forall p <- fs :: exists h :: h in handles && h.storage == Spilled(p) && !h.removed
    }

    ghost function Now(): View
      reads this
    {
      View(nextId, globalHotBytes, spillCount, spillBytesTotal, files)
    }

    constructor (limits: Limits, files: Files)
      ensures Valid() && Now() == View(1, 0, 0, 0, files) && this.limits == limits && held == map[] && handles == {}
      ensures faults == 0
    {
      this.limits := limits;
      nextId, globalHotBytes, spillCount, spillBytesTotal := 1, 0, 0, 0;
      this.files := files;
      held, handles, faults := map[], {}, 0;
    }

    /** Reserves within the limits; the addition is checked for overflow. */
    method TryInlineReserve(size: nat) returns (ok: bool)
      modifies `globalHotBytes
      ensures ok <==> size <= limits.inlineMax && size <= limits.requestHot &&
                      old(globalHotBytes) + size <= limits.globalHot
      ensures globalHotBytes == if ok then old(globalHotBytes) + size else old(globalHotBytes)
    {
      if size > limits.inlineMax || size > limits.requestHot {
        return false;
      }
      var next: int := globalHotBytes + size;
      if next >= TWO_64 || next > limits.globalHot {
        return false;
      }
      globalHotBytes := next;
      ok := true;
    }

    /** A number no blob has yet. */
    ghost predicate Free(id: nat)
      reads this, handles
    {
      id < nextId && id !in held && forall h <- handles :: h.id != id
    }

    method TakeId() returns (id: nat)
      requires Valid()
      modifies `nextId
      ensures id == old(nextId) && nextId == id + 1 && Valid() && Free(id) && (old(Tidy()) ==> Tidy())
      ensures forall other :: old(Free(other)) ==> Free(other) && other != id
    {
      id := nextId;
      nextId := nextId + 1;
    }

    /** Replaces a file's content, or appends to it; a failure may leave anything under its path. */
    method WriteFile(path: bytes, data: bytes, append: bool) returns (ok: bool)
      requires append ==> path in files
      modifies `files, `faults
      ensures AgreeOff(old(files), files, path)
      ensures ok ==> files == old(files)[path := if append then old(files[path]) + data else data]
      ensures faults == if ok then old(faults) else old(faults) + 1
    {
      var fails: bool := *;
      if fails {
        var leftover: bytes := *;
        files := files[path := leftover];
        faults := faults + 1;
        return false;
      }
      files := files[path := if append then files[path] + data else data];
      ok := true;
    }

    method RecordSpill(size: nat)
      modifies `spillCount, `spillBytesTotal
      ensures spillCount == old(spillCount) + 1 && spillBytesTotal == old(spillBytesTotal) + size
    {
      spillCount := spillCount + 1;
      spillBytesTotal := spillBytesTotal + size;
    }

    /** What a store does to the books: one new handle on success, nothing otherwise. */
    ghost predicate Booked(handlesBefore: set<BlobHandle>, heldBefore: map<nat, nat>, r: Option<BlobHandle>)
      reads this, if r.Some? then {r.value} else {}
    {
      match r
      case None => handles == handlesBefore && held == heldBefore
      case Some(h) =>
        && h !in handlesBefore && handles == handlesBefore + {h} && !h.removed
        && held == if h.storage.Inline? then heldBefore[h.id := |h.storage.data|] else heldBefore
    }

    /** Makes the handle of a blob whose storage is in place. */
    method BuildHandle(id: nat, mimeType: bytes, size: nat, storage: BlobStorage) returns (h: BlobHandle)
      requires forall g <- handles :: HandleOk(g)
      requires forall g, k :: g in handles && k in handles && g != k ==> g.id != k.id
      requires (forall i <- held :: i < nextId) && Free(id) && OwnFile(id, storage)
      requires storage.Inline? ==> size == |storage.data|
      requires globalHotBytes == Sum(held) + (if storage.Inline? then size else 0) <= limits.globalHot
      modifies `held, `handles
      ensures Valid() && fresh(h) && Booked(old(handles), old(held), Some(h))
      ensures h.id == id && h.mimeType == mimeType && h.sizeBytes == size && h.storage == storage
    {
      h := new BlobHandle(id, mimeType, size, storage);
      if storage.Inline? {
        SumWith(held, id, size);
        held := held[id := size];
      }
      handles := handles + {h};
    }

    /** Keeps the bytes inline if they fit, and writes them to the blob's file otherwise. */
    method Place(id: nat, data: bytes, mimeType: bytes) returns (r: Option<BlobHandle>)
      requires Valid() && Free(id)
      modifies this
      ensures Valid() && Booked(old(handles), old(held), r)
      ensures r.Some? ==> fresh(r.value) && IsHandle(r.value, id, mimeType, data)
      ensures r.Some? ==> (Now(), r.value.storage) == PlaceOutcome(limits, old(Now()), id, data)
      ensures r.None? ==> Now() == old(Now()).(files := files) && AgreeOff(old(files), files, SpillPath(id))
      ensures FitsInline(limits, old(globalHotBytes), |data|) ==> r.Some?
      ensures r.Some? && old(Tidy()) ==> Tidy()
      ensures faults >= old(faults) && (r.Some? <==> faults == old(faults))
    {
      var storage: BlobStorage;
      var reserved := TryInlineReserve(|data|);
      if reserved {
        storage := Inline(data);
      } else {
        var ok := WriteFile(SpillPath(id), data, false);
        if !ok {
          return None;
        }
        RecordSpill(|data|);
        storage := Spilled(SpillPath(id));
      }
      var h := BuildHandle(id, mimeType, |data|, storage);
      r := Some(h);
    }

    /** Also `store_shared_bytes`, which differs only in not copying. */
    method StoreBytes(data: bytes, mimeType: bytes) returns (r: Option<BlobHandle>)
      requires Valid()
      modifies this
      ensures Valid() && Booked(old(handles), old(held), r) && (r.Some? ==> fresh(r.value))
      ensures Stored(limits, old(Now()), data, mimeType, r, Now())
      ensures r.Some? && old(Tidy()) ==> Tidy()
      ensures faults >= old(faults) && (r.Some? <==> faults == old(faults))
    {
      var id := TakeId();
      r := Place(id, data, mimeType);
    }

    /** Bytes a cache holds anyway: neither budget nor files are touched. */
    method StoreExternalShared(data: bytes, mimeType: bytes) returns (h: BlobHandle)
      requires Valid()
      modifies this
      ensures Valid() && Booked(old(handles), old(held), Some(h)) && fresh(h)
      ensures Now() == old(Now()).(nextId := old(nextId) + 1) && h.storage == Shared(data)
      ensures IsHandle(h, old(nextId), mimeType, data)
      ensures old(Tidy()) ==> Tidy()
      ensures faults == old(faults)
    {
      var id := TakeId();
      h := PlaceShared(id, data, mimeType);
    }

    method PlaceShared(id: nat, data: bytes, mimeType: bytes) returns (h: BlobHandle)
      requires Valid() && Free(id)
      modifies this
      ensures Valid() && Booked(old(handles), old(held), Some(h)) && fresh(h)
      ensures Now() == old(Now()) && h.storage == Shared(data) && IsHandle(h, id, mimeType, data)
      ensures old(Tidy()) ==> Tidy()
      ensures faults == old(faults)
    {
      h := BuildHandle(id, mimeType, |data|, Shared(data));
    }

    /** Stores what a reader delivers. It buffers up to the inline limit and spills early beyond
        it, yet ends exactly where storing the same bytes at once would, however they arrive. */
    method StoreStream(reader: BlobReader, mimeType: bytes) returns (r: Option<BlobHandle>)
      requires Valid() && reader.Valid()
      modifies this, reader
      ensures Valid() && Booked(old(handles), old(held), r) && (r.Some? ==> fresh(r.value))
      ensures Stored(limits, old(Now()), reader.content[old(reader.pos)..], mimeType, r, Now())
      ensures r.Some? && old(Tidy()) ==> Tidy()
      ensures faults >= old(faults) && reader.faults >= old(reader.faults)
      ensures r.Some? <==> faults == old(faults) && reader.faults == old(reader.faults)
    {
      var id := TakeId();
      ghost var before, data := files, reader.content[reader.pos..];
      var ok, buffer, spilling := Absorb(reader, SpillPath(id), InlineLimit());
      if !ok {
        return None;
      }
      r := Settle(id, mimeType, buffer, spilling, before, data);
    }

    function InlineLimit(): nat {
      if limits.inlineMax < limits.requestHot then limits.inlineMax else limits.requestHot
    }

    /** Makes the blob of what was absorbed. */
    method Settle(id: nat, mimeType: bytes, buffer: bytes, spilling: bool, ghost before: Files, ghost data: bytes)
      returns (r: Option<BlobHandle>)
      requires Valid() && Free(id) && StreamState(before, files, SpillPath(id), InlineLimit(), buffer, spilling, data)
      modifies this
      ensures Valid() && Booked(old(handles), old(held), r)
      ensures r.Some? ==> fresh(r.value) && IsHandle(r.value, id, mimeType, data)
      ensures r.Some? ==> (Now(), r.value.storage) == PlaceOutcome(limits, old(Now()).(files := before), id, data)
      ensures r.None? ==> Now() == old(Now()).(files := files) && AgreeOff(before, files, SpillPath(id))
      ensures r.Some? && old(TidyFor(before)) ==> Tidy()
      ensures faults >= old(faults) && (r.Some? <==> faults == old(faults))
    {
      if spilling {
        var h := KeepSpilled(id, mimeType, before, data);
        r := Some(h);
      } else {
        r := Place(id, buffer, mimeType);
      }
    }

    /** Counts a finished spill file, whose size is taken from the file itself, and makes its handle. */
    method KeepSpilled(id: nat, mimeType: bytes, ghost before: Files, ghost data: bytes) returns (h: BlobHandle)
      requires Valid() && Free(id) && files == before[SpillPath(id) := data]
      modifies this
      ensures Valid() && Booked(old(handles), old(held), Some(h)) && fresh(h)
      ensures IsHandle(h, id, mimeType, data) && h.storage == Spilled(SpillPath(id))
      ensures Now() == old(Now()).(spillCount := old(spillCount) + 1, spillBytes := old(spillBytesTotal) + |data|)
      ensures old(TidyFor(before)) ==> Tidy()
      ensures faults == old(faults)
    {
      var size := |files[SpillPath(id)]|;
      RecordSpill(size);
      h := BuildHandle(id, mimeType, size, Spilled(SpillPath(id)));
    }

    /** Reads to the end, into the buffer or into the file. */
    method Absorb(reader: BlobReader, path: bytes, inlineLimit: nat) returns (ok: bool, buffer: bytes, spilling: bool)
      requires reader.Valid()
      modifies `files, `faults, reader
      ensures AgreeOff(old(files), files, path)
      ensures ok ==>
                StreamState(old(files), files, path, inlineLimit, buffer, spilling, reader.content[old(reader.pos)..])
      ensures faults >= old(faults) && reader.faults >= old(reader.faults)
      ensures ok <==> faults == old(faults) && reader.faults == old(reader.faults)
    {
      buffer, spilling := [], false;
      var chunk := new byte[STREAM_CHUNK];
      ghost var start := reader.pos;
      assert reader.content[start..start] == [];
      while true
        invariant faults == old(faults) && reader.faults == old(reader.faults)
        invariant reader.Valid() && start <= reader.pos && fresh(chunk) && chunk.Length == STREAM_CHUNK
        invariant StreamState(old(files), files, path, inlineLimit, buffer, spilling, reader.content[start..reader.pos])
        decreases |reader.content| - reader.pos
      {
        ghost var sofar, pos := reader.content[start..reader.pos], reader.pos;
        var read: nat;
        ok, read := reader.Read(chunk, 0, STREAM_CHUNK);
        if !ok {
          return;
        }
        if read == 0 {
          assert reader.content[start..reader.pos] == reader.content[start..];
          return;
        }
        var piece := chunk[..read];
        assert chunk[0..0 + read] == piece &&
               reader.content[start..reader.pos] == sofar + reader.content[pos..reader.pos];
        ok, buffer, spilling := AbsorbPiece(path, inlineLimit, buffer, spilling, piece, old(files), sofar);
        if !ok {
          return;
        }
      }
    }

    method AbsorbPiece(path: bytes, inlineLimit: nat, sofarBuffer: bytes, alreadySpilling: bool, piece: bytes,
                       ghost before: Files, ghost sofar: bytes)
      returns (ok: bool, buffer: bytes, spilling: bool)
      requires StreamState(before, files, path, inlineLimit, sofarBuffer, alreadySpilling, sofar)
      modifies `files, `faults
      ensures AgreeOff(before, files, path)
      ensures faults >= old(faults) && (ok <==> faults == old(faults))
      ensures ok ==> StreamState(before, files, path, inlineLimit, buffer, spilling, sofar + piece)
    {
      buffer, spilling := sofarBuffer, alreadySpilling;
      if spilling {
        ok := WriteFile(path, piece, true);
      } else if |buffer| + |piece| <= inlineLimit {
        buffer := buffer + piece;
        ok := true;
      } else {
        ok := SpillBuffer(path, buffer, piece);
        buffer, spilling := [], true;
      }
    }

    /** Counts a fault of the medium at the other end of a stream. */
    ghost method NoteFault(broken: bool)
      requires Valid()
      modifies `faults
      ensures faults == old(faults) + if broken then 1 else 0
      ensures Valid() && Now() == old(Now()) && (old(Tidy()) ==> Tidy())
    {
      if broken { faults := faults + 1; }
    }

    /** A store from a stream that is given up part of the way. */
    method AbandonStream()
      requires Valid()
      modifies this
      ensures Valid() && handles == old(handles) && held == old(held) && StoreFailed(old(Now()), Now())
      ensures faults >= old(faults)
    {
      var id := TakeId();
      var spilling: bool := *;
      if spilling {
        var written: bytes := *;
        var ok := WriteFile(SpillPath(id), written, false);
      }
    }

    /** The first spill: creates the file, writes what was buffered, then the new piece. */
    method SpillBuffer(path: bytes, buffer: bytes, piece: bytes) returns (ok: bool)
      modifies `files, `faults
      ensures AgreeOff(old(files), files, path)
      ensures ok ==> files == old(files)[path := buffer + piece]
      ensures faults >= old(faults) && (ok <==> faults == old(faults))
    {
      ok := WriteFile(path, [], false);
      if ok && buffer != [] {
        ok := WriteFile(path, buffer, true);
      }
      if ok {
        assert files[path] == buffer;
        ok := WriteFile(path, piece, true);
      }
    }

    /** Releases a blob; clones of its handle may be removed again, to no effect. */
    method Remove(h: BlobHandle) returns (ok: bool)
      requires Valid() && h in handles
      modifies this, h`removed
      ensures Valid() && h.removed && handles == old(handles)
      ensures held == old(held) - {h.id}
      ensures old(h.removed) ==> ok && Now() == old(Now())
      ensures !old(h.removed) && h.storage.Inline? ==>
                ok && Now() == old(Now()).(hot := globalHotBytes) &&
                globalHotBytes == old(globalHotBytes) - |h.storage.data|
      ensures !old(h.removed) && h.storage.Shared? ==> ok && Now() == old(Now())
      ensures !old(h.removed) && h.storage.Spilled? ==>
                Now() == old(Now()).(files := files) &&
                files == if ok then old(files) - {h.storage.path} else old(files)
      ensures ok && old(Tidy()) ==> Tidy()
      ensures faults >= old(faults) && (ok <==> faults == old(faults))
    {
      if h.removed {
        assert h.id !in held;
        return true;
      }
      h.removed := true;
      ok := true;
      match h.storage {
        case Inline(data) => { Release(h.id, |data|); }
        case Shared(_) => {}
        case Spilled(path) => { ok := DeleteFile(path); }
      }
      assert h.storage.Inline? || h.id !in held;
    }

    /** Deletes a file; a file that is not there counts as deleted. */
    method DeleteFile(path: bytes) returns (ok: bool)
      modifies `files, `faults
      ensures files == if ok then old(files) - {path} else old(files)
      ensures faults == if ok then old(faults) else old(faults) + 1
    {
      var fails: bool := *;
      if fails {
        faults := faults + 1;
        return false;
      }
      files := files - {path};
      ok := true;
    }

    /** The `fetch_sub`, which would wrap around if the counter held less. */
    method Release(ghost id: nat, size: nat)
      requires globalHotBytes == Sum(held) && id in held && held[id] == size
      modifies `globalHotBytes, `held
      ensures globalHotBytes == old(globalHotBytes) - size && held == old(held) - {id} && globalHotBytes == Sum(held)
    {
      SumWithout(held, id);
      var left: int := globalHotBytes - size;
      globalHotBytes := left % TWO_64;
      held := held - {id};
    }

    /** Memory always reads; a file reads unless it is gone or the file system fails. */
    method ReadBytes(h: BlobHandle) returns (r: Option<bytes>)
      modifies `faults
      ensures r.Some? ==> r == ContentOf(h.storage, files)
      ensures faults >= old(faults) && (r.Some? <==> faults == old(faults) && ContentOf(h.storage, files).Some?)
    {
      match h.storage {
        case Inline(data) => { r := Some(data); }
        case Shared(data) => { r := Some(data); }
        case Spilled(path) => {
          var fails: bool := *;
          if fails {
            faults := faults + 1;
          }
          r := if fails || path !in files then None else Some(files[path]);
        }
      }
    }

    method OpenReader(h: BlobHandle) returns (r: Option<BlobReader>)
      modifies `faults
      ensures r.Some? ==>
                fresh(r.value) && r.value.Valid() && r.value.pos == 0 && r.value.faults == 0 &&
                ContentOf(h.storage, files) == Some(r.value.content)
      ensures faults >= old(faults) && (r.Some? <==> faults == old(faults) && ContentOf(h.storage, files).Some?)
    {
      var data := ReadBytes(h);
      if data.None? {
        return None;
      }
      var reader := new BlobReader(data.value);
      r := Some(reader);
    }
  }

  const STREAM_CHUNK: nat := 16 * 1024

  /** Between reads: all bytes so far are in the buffer, or, once too many, in the file. */
  ghost predicate StreamState(before: Files, files: Files, path: bytes, inlineLimit: nat, buffer: bytes, spilling: bool,
                              sofar: bytes) {
    if spilling then |sofar| > inlineLimit && files == before[path := sofar]
    else buffer == sofar && |sofar| <= inlineLimit && files == before
  }
}
