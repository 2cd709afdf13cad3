/** The upload side: base64 text decoded lazily, in pieces, for hashing and for streaming. */
module Base64Upload {
  import opened Wrappers
  import opened Bytes
  import opened Base64

  const STREAM_CHARS: nat := 32 * 1024

  function NextChunkEnd(totalLen: nat, offset: nat): (end: nat)
    ensures offset < totalLen ==> offset < end <= totalLen && (end == totalLen || end == offset + STREAM_CHARS)
  {
    var remaining := if totalLen >= offset then totalLen - offset else 0;
    if remaining <= STREAM_CHARS then totalLen else offset + STREAM_CHARS
  }

  /** What the pieces from `offset` on yield: bytes, and whether a piece is rejected after them. */
  datatype Stream = Stream(data: bytes, fails: bool)

  function StreamFrom(s: bytes, offset: nat): Stream
    decreases |s| - offset
  {
    if offset >= |s| then Stream([], false)
    else
      var end := NextChunkEnd(|s|, offset);
      match Decode(s[offset..end])
      case None => Stream([], true)
      case Some(piece) => var rest := StreamFrom(s, end); Stream(piece + rest.data, rest.fails)
  }

  class Base64DecodedReader {
    const text: bytes
    var offset: nat
    var pending: bytes
    var pendingOffset: nat

    predicate Valid()
      reads this
    {
      offset <= |text| && pendingOffset <= |pending|
    }

    /** What is still to be delivered. */
    ghost function Rest(): Stream
      requires Valid()
      reads this
    {
      var later := StreamFrom(text, offset);
      Stream(pending[pendingOffset..] + later.data, later.fails)
    }

    constructor (text: bytes)
      ensures Valid() && this.text == text && Rest() == StreamFrom(text, 0)
    {
      this.text := text;
      offset, pending, pendingOffset := 0, [], 0;
      new;
      assert [] + StreamFrom(text, 0).data == StreamFrom(text, 0).data;
    }

    /** Copies pending bytes out, as many as there is room for. */
    method CopyPending(room: nat) returns (piece: bytes)
      requires Valid() && pendingOffset < |pending| && room > 0
      modifies `pending, `pendingOffset
      ensures Valid() && old(Rest()).data == piece + Rest().data && Rest().fails == old(Rest()).fails
      ensures 0 < |piece| <= room && (pendingOffset < |pending| ==> |piece| == room)
      ensures |pending| - pendingOffset < old(|pending| - pendingOffset)
    {
      var available := |pending| - pendingOffset;
      var toCopy := if available < room then available else room;
      piece := pending[pendingOffset..pendingOffset + toCopy];
      assert pending[pendingOffset..] == piece + pending[pendingOffset + toCopy..];
      pendingOffset := pendingOffset + toCopy;
      if pendingOffset == |pending| {
        assert pending[pendingOffset..] == [];
        pending := [];
        pendingOffset := 0;
      }
    }

    /** Decodes the next piece of the text. */
    method LoadNext() returns (ok: bool)
      requires Valid() && pendingOffset >= |pending| && offset < |text|
      modifies this
      ensures Valid()
      ensures if ok then Rest() == old(Rest()) && offset > old(offset) else Rest() == old(Rest()) == Stream([], true)
    {
      assert pending[pendingOffset..] == [];
      var end := NextChunkEnd(|text|, offset);
      var decoded := Decode(text[offset..end]);
      ok := decoded.Some?;
      if ok {
        pending := decoded.value;
        pendingOffset := 0;
        offset := end;
        assert pending[0..] == pending && [] + StreamFrom(text, old(offset)).data == StreamFrom(text, old(offset)).data;
      }
    }

    /** One poll with room for `capacity` bytes: the next bytes are delivered, as many as fit,
        and the poll fails exactly when it needs a byte past a rejected piece. */
    method PollRead(capacity: nat) returns (out: bytes, ok: bool)
      requires Valid()
      modifies this
      ensures Valid()
      ensures var rest := old(Rest());
              && out == rest.data[..if capacity < |rest.data| then capacity else |rest.data|]
              && Rest() == Stream(rest.data[|out|..], rest.fails)
              && (ok <==> !(rest.fails && capacity > |rest.data|))
    {
      out := [];
      ok := true;
      ghost var rest := Rest();
      assert [] + rest.data == rest.data;
      while |out| < capacity
        invariant Valid() && |out| <= capacity && ok
        invariant rest.data == out + Rest().data && rest.fails == Rest().fails
        decreases |text| - offset, |pending| - pendingOffset
      {
        if pendingOffset < |pending| {
          ghost var before := Rest().data;
          var piece := CopyPending(capacity - |out|);
          Moved(rest.data, out, before, piece, Rest().data);
          out := out + piece;
          if pendingOffset < |pending| {
            break;
          }
        } else if offset >= |text| {
          break;
        } else {
          ok := LoadNext();
          if !ok {
            break;
          }
        }
      }
      Taken(rest.data, out, Rest().data, capacity);
    }
  }

  /** A piece of what was still to come is now out. */
  lemma Moved(all: bytes, out: bytes, before: bytes, piece: bytes, later: bytes)
    requires all == out + before && before == piece + later
    ensures all == (out + piece) + later
  {
  }

  /** The poll stops when its buffer is full or nothing is left. */
  lemma Taken(all: bytes, out: bytes, later: bytes, capacity: nat)
    requires all == out + later && |out| <= capacity && (|out| == capacity || later == [])
    ensures out == all[..if capacity < |all| then capacity else |all|] && later == all[|out|..]
  {
  }

  /** The hash loop: on success it has fed the hasher exactly what the reader delivers. */
  method FeedHasher(text: bytes) returns (ok: bool, fed: bytes)
    ensures ok <==> !StreamFrom(text, 0).fails
    ensures ok ==> fed == StreamFrom(text, 0).data
  {
    fed := [];
    var offset: nat := 0;
    while offset < |text|
      invariant offset <= |text|
      invariant StreamFrom(text, 0) == Stream(fed + StreamFrom(text, offset).data, StreamFrom(text, offset).fails)
      decreases |text| - offset
    {
      var end := NextChunkEnd(|text|, offset);
      var decoded := Decode(text[offset..end]);
      if decoded.None? {
        return false, fed;
      }
      ghost var later := StreamFrom(text, end).data;
      assert fed + (decoded.value + later) == (fed + decoded.value) + later;
      fed := fed + decoded.value;
      offset := end;
    }
    ok := true;
  }

  /** For text the whole-string decoder accepts, the pieces decode to the same bytes. */
  lemma {:induction false} AcceptedStream(s: bytes, offset: nat)
    requires offset <= |s| && offset % 4 == 0 && Decode(s[offset..]).Some?
    ensures StreamFrom(s, offset) == Stream(Decode(s[offset..]).value, false)
    decreases |s| - offset
  {
    if offset < |s| {
      var end := NextChunkEnd(|s|, offset);
      if end == |s| {
        assert s[offset..end] == s[offset..] && s[end..] == [];
        var d := Decode(s[offset..]).value;
        assert d + [] == d;
      } else {
        CutAt(s, offset, end);
        WholeChunk(offset);
        DecodeSplits(s[offset..end], s[end..]);
        AcceptedStream(s, end);
      }
    }
  }

  lemma CutAt(s: bytes, offset: nat, end: nat)
    requires offset < end < |s|
    ensures s[offset..] == s[offset..end] + s[end..] && s[offset..end] != [] && s[end..] != []
    ensures s[offset..end][end - offset - 1] == s[end - 1]
  {
  }

  lemma WholeChunk(offset: nat)
    requires offset % 4 == 0
    ensures (offset + STREAM_CHARS) % 4 == 0 && STREAM_CHARS % 4 == 0
  {
  }

  /** Reader, hash loop and whole-string decoder agree on every accepted text. */
  lemma {:induction false} ReaderMatchesDecoder(s: bytes)
    requires Decode(s).Some?
    ensures StreamFrom(s, 0) == Stream(Decode(s).value, false)
  {
    assert s[0..] == s;
    AcceptedStream(s, 0);
  }

  // ----- The reader over any sequence of polls -----

  /** What polls with room for so many bytes get of `data`: each as much as fits, in order. */
  function Deliver(data: bytes, capacities: seq<nat>): (outs: seq<bytes>)
    ensures |outs| == |capacities|
    decreases |capacities|
  {
    if capacities == [] then []
    else
      var n := if capacities[0] < |data| then capacities[0] else |data|;
      [data[..n]] + Deliver(data[n..], capacities[1..])
  }

  function Concat(outs: seq<bytes>): bytes {
    if outs == [] then [] else outs[0] + Concat(outs[1..])
  }

  function Room(capacities: seq<nat>): nat {
    if capacities == [] then 0 else capacities[0] + Room(capacities[1..])
  }

  /** The polls together get the first bytes, as many as there was room for: all of them once
      there was room for all. */
  lemma {:induction false} DeliversPrefix(data: bytes, capacities: seq<nat>)
    ensures Concat(Deliver(data, capacities)) == data[..if Room(capacities) < |data| then Room(capacities) else |data|]
    decreases |capacities|
  {
    if capacities != [] {
      var n := if capacities[0] < |data| then capacities[0] else |data|;
      DeliversPrefix(data[n..], capacities[1..]);
      var outs := Deliver(data, capacities);
      assert outs[0] == data[..n] && outs[1..] == Deliver(data[n..], capacities[1..]);
      var rest := Room(capacities[1..]);
      assert forall k :: 0 <= k <= |data| - n ==> data[..n] + data[n..][..k] == data[..n + k];
    }
  }

  /** After that every poll gets nothing, which is the end of the stream. */
  lemma {:induction false} ThenNothing(data: bytes, capacities: seq<nat>, i: nat)
    requires i < |capacities| && Room(capacities[..i]) >= |data|
    ensures Deliver(data, capacities)[i] == []
    decreases |capacities|
  {
    if i > 0 {
      var n := if capacities[0] < |data| then capacities[0] else |data|;
      assert capacities[..i][1..] == capacities[1..][..i - 1];
      ThenNothing(data[n..], capacities[1..], i - 1);
    }
  }

  /** `outs` are the first `i` of the outputs `all`, and `rest` is still to come. */
  ghost predicate Delivered(all: seq<bytes>, outs: seq<bytes>, rest: bytes, capacities: seq<nat>, i: nat) {
    i <= |capacities| && outs + Deliver(rest, capacities[i..]) == all
  }

  lemma NothingDelivered(data: bytes, capacities: seq<nat>)
    ensures Delivered(Deliver(data, capacities), [], data, capacities, 0)
  {
    assert capacities[0..] == capacities;
  }

  lemma OneMoreDelivered(all: seq<bytes>, outs: seq<bytes>, rest: bytes, capacities: seq<nat>, i: nat, out: bytes)
    requires Delivered(all, outs, rest, capacities, i) && i < |capacities|
    requires out == rest[..if capacities[i] < |rest| then capacities[i] else |rest|]
    ensures Delivered(all, outs + [out], rest[|out|..], capacities, i + 1)
  {
    assert capacities[i..][1..] == capacities[i + 1..];
    var later := Deliver(rest[|out|..], capacities[i + 1..]);
    assert outs + ([out] + later) == (outs + [out]) + later;
  }

  lemma AllDelivered(all: seq<bytes>, outs: seq<bytes>, rest: bytes, capacities: seq<nat>)
    requires Delivered(all, outs, rest, capacities, |capacities|)
    ensures outs == all
  {
  }

  /** Polls of any sizes on accepted text never fail. */
  method PollEach(text: bytes, capacities: seq<nat>) returns (ok: bool, outs: seq<bytes>)
    requires Decode(text).Some?
    ensures ok && outs == Deliver(Decode(text).value, capacities)
  {
    var reader := new Base64DecodedReader(text);
    ReaderMatchesDecoder(text);
    outs, ok := [], true;
    ghost var all := Deliver(Decode(text).value, capacities);
    NothingDelivered(Decode(text).value, capacities);
    for i := 0 to |capacities|
      invariant fresh(reader) && reader.Valid() && ok && !reader.Rest().fails
      invariant Delivered(all, outs, reader.Rest().data, capacities, i)
    {
      ghost var rest := reader.Rest().data;
      var out: bytes;
      out, ok := reader.PollRead(capacities[i]);
      OneMoreDelivered(all, outs, rest, capacities, i, out);
      outs := outs + [out];
    }
    AllDelivered(all, outs, reader.Rest().data, capacities);
  }

  /** The reader as the upload polls it: whatever the sizes of the polls on accepted text, they
      get exactly the decoded bytes, and then the end of the stream. */
  method PollAll(text: bytes, capacities: seq<nat>) returns (ok: bool, outs: seq<bytes>)
    requires Decode(text).Some?
    ensures ok && |outs| == |capacities| && Concat(outs) <= Decode(text).value
    ensures Room(capacities) >= |Decode(text).value| ==> Concat(outs) == Decode(text).value
    ensures forall i :: 0 <= i < |capacities| && Room(capacities[..i]) >= |Decode(text).value| ==> outs[i] == []
  {
    ok, outs := PollEach(text, capacities);
    ghost var data := Decode(text).value;
    DeliversPrefix(data, capacities);
    forall i | 0 <= i < |capacities| && Room(capacities[..i]) >= |data|
      ensures outs[i] == []
    {
      ThenNothing(data, capacities, i);
    }
  }

  function DecodedLen(s: bytes): Result<nat> {
    if s == [] then Success(0)
    else if |s| % 4 != 0 then Failure
    else
      var padding := if s[|s| - 1] == PAD then (if s[|s| - 2] == PAD then 2 else 1) else 0;
      Success(|s| / 4 * 3 - padding)
  }

  lemma LastOfRest(a: bytes)
    requires |a| >= 4
    ensures a[4..] != [] ==> a[4..][|a[4..]| - 1] == a[|a| - 1]
    ensures |a| >= 6 ==> a[4..][|a[4..]| - 2] == a[|a| - 2]
    ensures |a| == 4 ==> a[3] == a[|a| - 1]
  {
  }

  /** Whether the last two symbols are padding, by the length of what is encoded. */
  ghost predicate PaddedFor(e: bytes, n: nat) {
    |e| >= 4 && (e[|e| - 1] == PAD <==> n % 3 != 0) && (e[|e| - 2] == PAD <==> n % 3 == 1)
  }

  lemma {:induction false} EncodePadding(b: bytes)
    requires b != []
    ensures PaddedFor(Encode(b), |b|)
    decreases |b|
  {
    if |b| == 1 {
      OnePadding(b);
    } else if |b| == 2 {
      PairPadding(b);
    } else if |b| == 3 {
      TriplePadding(b);
    } else {
      EncodePadding(b[3..]);
      MorePadding(b);
    }
  }

  lemma OnePadding(b: bytes)
    requires |b| == 1
    ensures PaddedFor(Encode(b), 1)
  {
    var e := EncodeOne(b[0]);
    assert |e| == 4 && e[2] == PAD && e[3] == PAD;
    assert Encode(b) == e;
  }

  lemma PairPadding(b: bytes)
    requires |b| == 2
    ensures PaddedFor(Encode(b), 2)
  {
    SymbolValue(b[1] % 16 * 4);
  }

  lemma TriplePadding(b: bytes)
    requires |b| == 3
    ensures PaddedFor(Encode(b), 3)
  {
    SymbolValue(b[1] % 16 * 4 + b[2] / 64);
    SymbolValue(b[2] % 64);
    assert b[3..] == [];
  }

  lemma ThreeLess(n: nat)
    requires n >= 3
    ensures n % 3 == (n - 3) % 3
  {
  }

  lemma MorePadding(b: bytes)
    requires |b| > 3 && PaddedFor(Encode(b[3..]), |b| - 3)
    ensures PaddedFor(Encode(b), |b|)
  {
    LastOfRest(Encode(b));
    assert Encode(b)[4..] == Encode(b[3..]);
    ThreeLess(|b|);
  }

  lemma GroupsOf(n: nat)
    ensures EncodedLen(n) % 4 == 0 && EncodedLen(n) / 4 * 3 == n + (if n % 3 == 0 then 0 else 3 - n % 3)
  {
    MultipleOfFour((n + 2) / 3);
  }

  /** The announced length, by the length of what is encoded. */
  lemma PaddingCounts(e: bytes, n: nat)
    requires n > 0 && |e| == EncodedLen(n) && PaddedFor(e, n)
    ensures DecodedLen(e) == Success(n)
  {
    GroupsOf(n);
  }

  /** The announced content length is the number of bytes the reader delivers. */
  lemma {:induction false} DecodedLenIsExact(s: bytes)
    requires Decode(s).Some?
    ensures DecodedLen(s) == Success(|Decode(s).value|)
  {
    var b := Decode(s).value;
    EncodeOfDecode(s);
    if b != [] {
      EncodeLength(b);
      EncodePadding(b);
      PaddingCounts(s, |b|);
    }
  }

  // ----- When piecewise and whole decoding differ -----

  /** Pieces that decode, all but the last without padding, decode together. */
  lemma {:induction false} DecodeJoins(a: bytes, b: bytes)
    requires Decode(a).Some? && Decode(b).Some? && b != [] && (a != [] ==> a[|a| - 1] != PAD)
    ensures Decode(a + b) == Some(Decode(a).value + Decode(b).value)
    decreases |a|
  {
    if a == [] {
      assert a + b == b && [] + Decode(b).value == Decode(b).value;
    } else {
      FirstGroupOfJoin(a, b);
      DecodeUnfolds(a + b);
      DecodeUnfolds(a);
      LastOfRest(a);
      UnpaddedIsNotLast(a[0], a[1], a[2], a[3], |a| == 4);
      DecodeJoins(a[4..], b);
      ConcatAssociates(FirstGroup(a, false).value, Decode(a[4..]).value, Decode(b).value);
    }
  }

  lemma UnpaddedIsNotLast(p: byte, q: byte, r: byte, t: byte, last: bool)
    requires DecodeGroup(p, q, r, t, last).Some? && (last ==> t != PAD)
    ensures DecodeGroup(p, q, r, t, last) == DecodeGroup(p, q, r, t, false)
  {
  }

  /** No piece but the last ends in padding. */
  predicate UnpaddedJoints(s: bytes, offset: nat)
    decreases |s| - offset
  {
    offset >= |s| ||
    var end := NextChunkEnd(|s|, offset);
    end == |s| || (s[end - 1] != PAD && UnpaddedJoints(s, end))
  }

  /** A piece of whole groups only does not end in padding. */
  lemma WholePieceIsUnpadded(piece: bytes)
    requires piece != [] && Decode(piece).Some? && |Decode(piece).value| == |piece| / 4 * 3
    ensures piece[|piece| - 1] != PAD
  {
    EncodeOfDecode(piece);
    EncodePadding(Decode(piece).value);
    AcceptedLength(piece);
    TriplesAreWhole(|piece| / 4);
  }

  lemma TriplesAreWhole(n: nat)
    ensures n * 3 % 3 == 0
  {
  }

  lemma JoinExactly(piece: bytes, rest: bytes)
    requires piece != [] && rest != [] && Decode(piece).Some?
    ensures Decode(piece + rest).Some? <==> piece[|piece| - 1] != PAD && Decode(rest).Some?
  {
    AcceptedLength(piece);
    if Decode(piece + rest).Some? {
      DecodeSplits(piece, rest);
      WholePieceIsUnpadded(piece);
    }
    if piece[|piece| - 1] != PAD && Decode(rest).Some? {
      DecodeJoins(piece, rest);
    }
  }

  /** Text the pieces accept is accepted as a whole exactly when no inner piece is padded. */
  lemma {:induction false} PiecesAgreeExactly(s: bytes, offset: nat)
    requires offset <= |s| && !StreamFrom(s, offset).fails
    ensures Decode(s[offset..]).Some? <==> UnpaddedJoints(s, offset)
    decreases |s| - offset
  {
    if offset < |s| {
      var end := NextChunkEnd(|s|, offset);
      if end == |s| {
        assert s[offset..end] == s[offset..];
      } else {
        CutAt(s, offset, end);
        PiecesAgreeExactly(s, end);
        JoinExactly(s[offset..end], s[end..]);
      }
    }
  }

  /** As many zero bytes as encode to one piece with padding at its end, and three more. */
  const PADDED_PIECE: bytes := Encode(seq(24574, _ => 0))
  const WHOLE_PIECE: bytes := Encode([0, 0, 0])

  /** A text of one full piece and a shorter one: the pieces are decoded one after the other. */
  lemma TwoPieces(p: bytes, q: bytes)
    requires |p| == STREAM_CHARS && 0 < |q| <= STREAM_CHARS && Decode(p).Some? && Decode(q).Some?
    ensures StreamFrom(p + q, 0) == Stream(Decode(p).value + Decode(q).value, false)
  {
    var text := p + q;
    assert text[0..STREAM_CHARS] == p && text[STREAM_CHARS..|text|] == q;
    assert StreamFrom(text, |text|) == Stream([], false);
    assert Decode(q).value + [] == Decode(q).value;
    assert StreamFrom(text, STREAM_CHARS) == Stream(Decode(q).value, false);
  }

  lemma PaddedPiece()
    ensures |PADDED_PIECE| == STREAM_CHARS && PADDED_PIECE[STREAM_CHARS - 1] == PAD
    ensures Decode(PADDED_PIECE) == Some(seq(24574, _ => 0))
  {
    var a: bytes := seq(24574, _ => 0);
    EncodeLength(a);
    EncodePadding(a);
    DecodeOfEncode(a);
  }

  lemma WholePiece()
    ensures |WHOLE_PIECE| == 4 && Decode(WHOLE_PIECE) == Some([0, 0, 0])
  {
    EncodeLength([0, 0, 0]);
    DecodeOfEncode([0, 0, 0]);
  }

  /** A text whose pieces are all accepted and which is rejected as a whole. */
  lemma PiecesCanAcceptMore()
    ensures var text := PADDED_PIECE + WHOLE_PIECE;
            StreamFrom(text, 0) == Stream(seq(24574, _ => 0) + [0, 0, 0], false) && Decode(text) == None
  {
    PaddedPiece();
    WholePiece();
    TwoPieces(PADDED_PIECE, WHOLE_PIECE);
    JoinExactly(PADDED_PIECE, WHOLE_PIECE);
  }
}
