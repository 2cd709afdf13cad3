/** JSON values as the Rust proxy holds them (objects keep insertion order) and the compact
    text it writes for them. */
module Json {
  import opened Wrappers
  import opened Bytes

  datatype Value =
    | Null
    | Bool(b: bool)
    | Num(text: bytes)
    | Str(s: bytes)
    | Arr(items: seq<Value>)
    | Obj(members: seq<Member>)

  datatype Member = Member(key: bytes, value: Value)

  const QUOTE: byte := 34
  const BACKSLASH: byte := 92
  const COMMA: byte := 44
  const COLON: byte := 58
  const OPEN_BRACKET: byte := 91
  const CLOSE_BRACKET: byte := 93
  const OPEN_BRACE: byte := 123
  const CLOSE_BRACE: byte := 125

  ghost predicate DistinctKeys(ms: seq<Member>) {
    forall i, j :: 0 <= i < j < |ms| ==> ms[i].key != ms[j].key
  }

  /** No object has two members of the same key. */
  ghost predicate Proper(v: Value) {
    match v
    case Arr(items) => forall i :: 0 <= i < |items| ==> Proper(items[i])
    case Obj(ms) => DistinctKeys(ms) && forall i :: 0 <= i < |ms| ==> Proper(ms[i].value)
    case _ => true
  }

  function IndexOf(ms: seq<Member>, key: bytes): (r: Option<nat>)
    ensures r.Some? ==> r.value < |ms| && ms[r.value].key == key
    ensures r.None? ==> forall i :: 0 <= i < |ms| ==> ms[i].key != key
  {
    if ms == [] then None
    else if ms[|ms| - 1].key == key then Some(|ms| - 1)
    else IndexOf(ms[..|ms| - 1], key)
  }

  function Lookup(ms: seq<Member>, key: bytes): Option<Value> {
    match IndexOf(ms, key)
    case Some(i) => Some(ms[i].value)
    case None => None
  }

  lemma LookupAt(ms: seq<Member>, i: nat)
    requires DistinctKeys(ms) && i < |ms|
    ensures IndexOf(ms, ms[i].key) == Some(i) && Lookup(ms, ms[i].key) == Some(ms[i].value)
  {
    assert IndexOf(ms, ms[i].key).Some?;
  }

  // ----- Compact text -----

  function HexDigit(d: nat): byte
    requires d < 16
  {
    if d < 10 then 48 + d else 87 + d
  }

  function EscapeByte(c: byte): bytes {
    if c == QUOTE || c == BACKSLASH then [BACKSLASH, c]
    else if c == 8 then [BACKSLASH, 98]
    else if c == 9 then [BACKSLASH, 116]
    else if c == 10 then [BACKSLASH, 110]
    else if c == 12 then [BACKSLASH, 102]
    else if c == 13 then [BACKSLASH, 114]
    else if c < 32 then [BACKSLASH, 117, 48, 48, HexDigit(c / 16), HexDigit(c % 16)]
    else [c]
  }

  function EscapeText(s: bytes): bytes {
    if s == [] then [] else EscapeByte(s[0]) + EscapeText(s[1..])
  }

  function Quote(s: bytes): bytes {
    [QUOTE] + EscapeText(s) + [QUOTE]
  }

  function Separator(first: bool): bytes {
    if first then [] else [COMMA]
  }

  function Compact(v: Value): bytes {
    match v
    case Null => Ascii("null")
    case Bool(b) => if b then Ascii("true") else Ascii("false")
    case Num(text) => text
    case Str(s) => Quote(s)
    case Arr(items) => [OPEN_BRACKET] + ItemsText(items, |items|) + [CLOSE_BRACKET]
    case Obj(ms) => [OPEN_BRACE] + MembersText(ms, |ms|) + [CLOSE_BRACE]
  }

  /** The first `n` items, separated by commas. */
  function ItemsText(items: seq<Value>, n: nat): bytes
    requires n <= |items|
    decreases items, n
  {
    if n == 0 then [] else ItemsText(items, n - 1) + Separator(n == 1) + Compact(items[n - 1])
  }

  function MembersText(ms: seq<Member>, n: nat): bytes
    requires n <= |ms|
    decreases ms, n
  {
    if n == 0 then []
    else MembersText(ms, n - 1) + Separator(n == 1) + (Quote(ms[n - 1].key) + [COLON] + Compact(ms[n - 1].value))
  }

  /** Text without control characters, quotes and backslashes is written as it is. */
  lemma {:induction false} PlainText(s: bytes)
    requires forall i :: 0 <= i < |s| ==> s[i] >= 32 && s[i] != QUOTE && s[i] != BACKSLASH
    ensures EscapeText(s) == s
    decreases |s|
  {
    if s != [] {
      PlainText(s[1..]);
      assert s == [s[0]] + s[1..];
    }
  }

  // ----- Removing members -----

  /** Removal as `serde_json` does it with `preserve_order`: the last member takes the place of
      the removed one. */
  function SwapRemove(ms: seq<Member>, key: bytes): seq<Member> {
    match IndexOf(ms, key)
    case None => ms
    case Some(i) => if i == |ms| - 1 then ms[..i] else ms[i := ms[|ms| - 1]][..|ms| - 1]
  }

  /** Removal as an ordered object would do it. */
  function RemoveInOrder(ms: seq<Member>, key: bytes): seq<Member> {
    match IndexOf(ms, key)
    case None => ms
    case Some(i) => ms[..i] + ms[i + 1..]
  }

  function Remove(ms: seq<Member>, key: bytes, inOrder: bool): seq<Member> {
    if inOrder then RemoveInOrder(ms, key) else SwapRemove(ms, key)
  }

  /** Exactly the removed key is gone; order aside, nothing else changes. */
  lemma {:induction false} RemoveExactly(ms: seq<Member>, key: bytes, inOrder: bool)
    requires DistinctKeys(ms)
    ensures DistinctKeys(Remove(ms, key, inOrder))
    ensures Lookup(Remove(ms, key, inOrder), key) == None
    ensures forall other :: other != key ==> Lookup(Remove(ms, key, inOrder), other) == Lookup(ms, other)
    ensures forall m <- Remove(ms, key, inOrder) :: m in ms
  {
    var out := Remove(ms, key, inOrder);
    forall other | other != key
      ensures Lookup(out, other) == Lookup(ms, other)
    {
      if inOrder {
        RemoveInOrderKeeps(ms, key, other);
      } else {
        SwapRemoveKeeps(ms, key, other);
      }
    }
  }

  lemma SwapRemoveKeeps(ms: seq<Member>, key: bytes, other: bytes)
    requires DistinctKeys(ms) && other != key
    ensures DistinctKeys(SwapRemove(ms, key)) && Lookup(SwapRemove(ms, key), other) == Lookup(ms, other)
  {
    var out := SwapRemove(ms, key);
    match IndexOf(ms, key) {
      case None => {}
      case Some(i) => {
        match IndexOf(ms, other) {
          case Some(j) => { LookupAt(out, if j == |ms| - 1 then i else j); }
          case None => { assert forall k :: 0 <= k < |out| ==> out[k].key != other; }
        }
      }
    }
  }

  lemma RemoveInOrderKeeps(ms: seq<Member>, key: bytes, other: bytes)
    requires DistinctKeys(ms) && other != key
    ensures DistinctKeys(RemoveInOrder(ms, key)) && Lookup(RemoveInOrder(ms, key), other) == Lookup(ms, other)
  {
    var out := RemoveInOrder(ms, key);
    match IndexOf(ms, key) {
      case None => {}
      case Some(i) => {
        assert forall k :: 0 <= k < |out| ==> out[k] == ms[if k < i then k else k + 1];
        match IndexOf(ms, other) {
          case Some(j) => { LookupAt(out, if j < i then j else j - 1); }
          case None => { assert forall k :: 0 <= k < |out| ==> out[k].key != other; }
        }
      }
    }
  }

  /** The removed member, if any, is the last or the last but one. */
  predicate NearEnd(ms: seq<Member>, key: bytes) {
    var i := IndexOf(ms, key);
    i.None? || i.value + 2 >= |ms|
  }

  /** Order survives a removal exactly then; otherwise already the keys are in another order. */
  lemma RemovalKeepsOrderExactly(ms: seq<Member>, key: bytes)
    requires DistinctKeys(ms)
    ensures SwapRemove(ms, key) == RemoveInOrder(ms, key) <==> NearEnd(ms, key)
    ensures |SwapRemove(ms, key)| == |RemoveInOrder(ms, key)|
    ensures !NearEnd(ms, key) ==>
              var i := IndexOf(ms, key).value;
              i < |SwapRemove(ms, key)| && SwapRemove(ms, key)[i].key != RemoveInOrder(ms, key)[i].key
  {
    match IndexOf(ms, key) {
      case None => {}
      case Some(i) => {
        var swapped, ordered := SwapRemove(ms, key), RemoveInOrder(ms, key);
        if i + 1 < |ms| {
          assert swapped[i] == ms[|ms| - 1] && ordered[i] == ms[i + 1];
        }
        if i + 2 == |ms| {
          assert swapped == ordered;
        }
      }
    }
  }
}
