/** The compact text of a tree, in the order in which it is read. */
module JsonText {
  import opened Bytes
  import opened Json

  predicate IsNumberByte(c: byte) {
    48 <= c <= 57 || c == 43 || c == 45 || c == 46 || c == 69 || c == 101
  }

  predicate IsNumberText(t: bytes) {
    t != [] && forall c <- t :: IsNumberByte(c)
  }

  /** Numbers are texts of number characters; names and strings may be any bytes. */
  ghost predicate NumbersOk(v: Value) {
    match v
    case Num(text) => IsNumberText(text)
    case Arr(items) => forall i :: 0 <= i < |items| ==> NumbersOk(items[i])
    case Obj(ms) => forall i :: 0 <= i < |ms| ==> NumbersOk(ms[i].value)
    case _ => true
  }

  /** What can follow a value inside a text. */
  predicate Ends(rest: bytes) {
    rest == [] || rest[0] == COMMA || rest[0] == CLOSE_BRACKET || rest[0] == CLOSE_BRACE
  }

  // ----- Strings -----

  /** The escaped text of `s`, the closing quote, and `rest`. */
  function EscapeThen(s: bytes, rest: bytes): bytes {
    if s == [] then [QUOTE] + rest else EscapeByte(s[0]) + EscapeThen(s[1..], rest)
  }

  lemma {:induction false} EscapeThenIs(s: bytes, rest: bytes)
    ensures EscapeThen(s, rest) == EscapeText(s) + ([QUOTE] + rest)
    decreases |s|
  {
    if s == [] {
      assert EscapeText(s) + ([QUOTE] + rest) == [QUOTE] + rest;
    } else {
      EscapeThenIs(s[1..], rest);
      ConcatAssociates(EscapeByte(s[0]), EscapeText(s[1..]), [QUOTE] + rest);
    }
  }

  lemma QuoteThenIs(s: bytes, rest: bytes)
    ensures [QUOTE] + EscapeThen(s, rest) == Quote(s) + rest
  {
    EscapeThenIs(s, rest);
    ConcatAssociates([QUOTE], EscapeText(s), [QUOTE] + rest);
    ConcatAssociates([QUOTE] + EscapeText(s), [QUOTE], rest);
  }

  // ----- Values -----

  datatype Kind = KNull | KBool | KNum | KStr | KArr | KObj

  function KindOf(v: Value): Kind {
    match v
    case Null => KNull
    case Bool(_) => KBool
    case Num(_) => KNum
    case Str(_) => KStr
    case Arr(_) => KArr
    case Obj(_) => KObj
  }

  function KindAt(c: byte): Kind {
    if c == 110 then KNull
    else if c == 116 || c == 102 then KBool
    else if c == QUOTE then KStr
    else if c == OPEN_BRACKET then KArr
    else if c == OPEN_BRACE then KObj
    else KNum
  }

  /** The text of `v`, with `rest` behind it. */
  function Text(v: Value, rest: bytes): bytes {
    match v
    case Str(s) => [QUOTE] + EscapeThen(s, rest)
    case Arr(items) => [OPEN_BRACKET] + ItemsThen(items, 0, rest)
    case Obj(ms) => [OPEN_BRACE] + MembersThen(ms, 0, rest)
    case _ => Compact(v) + rest
  }

  /** Items from the `i`-th on, the closing bracket, and `rest`. */
  function ItemsThen(items: seq<Value>, i: nat, rest: bytes): bytes
    requires i <= |items|
    decreases items, |items| - i
  {
    if i == |items| then [CLOSE_BRACKET] + rest else Separator(i == 0) + Text(items[i], ItemsThen(items, i + 1, rest))
  }

  function MembersThen(ms: seq<Member>, i: nat, rest: bytes): bytes
    requires i <= |ms|
    decreases ms, |ms| - i
  {
    if i == |ms| then [CLOSE_BRACE] + rest
    else
      var member := EscapeThen(ms[i].key, [COLON] + Text(ms[i].value, MembersThen(ms, i + 1, rest)));
      Separator(i == 0) + ([QUOTE] + member)
  }

  lemma {:induction false} TextIs(v: Value, rest: bytes)
    ensures Text(v, rest) == Compact(v) + rest
    decreases v, 1, 0
  {
    match v {
      case Str(s) => { QuoteThenIs(s, rest); }
      case Arr(items) => {
        ItemsThenIs(v, 0, rest);
        Bracketed(OPEN_BRACKET, ItemsText(items, 0), ItemsThen(items, 0, rest), ItemsText(items, |items|),
                  CLOSE_BRACKET, rest);
      }
      case Obj(ms) => {
        MembersThenIs(v, 0, rest);
        Bracketed(OPEN_BRACE, MembersText(ms, 0), MembersThen(ms, 0, rest), MembersText(ms, |ms|), CLOSE_BRACE, rest);
      }
      case _ => {}
    }
  }

  lemma Bracketed(open: byte, none: bytes, all: bytes, text: bytes, close: byte, rest: bytes)
    requires none == [] && none + all == text + ([close] + rest)
    ensures [open] + all == [open] + text + [close] + rest
  {
    assert none + all == all;
    ConcatAssociates([open], text, [close] + rest);
    ConcatAssociates([open] + text, [close], rest);
  }

  lemma ItemsThenIs(v: Value, i: nat, rest: bytes)
    requires v.Arr? && i <= |v.items|
    ensures ItemsText(v.items, i) + ItemsThen(v.items, i, rest)
              == ItemsText(v.items, |v.items|) + ([CLOSE_BRACKET] + rest)
    decreases v, 0, |v.items| - i
  {
    var items := v.items;
    if i < |items| {
      var later := ItemsThen(items, i + 1, rest);
      ItemsThenIs(v, i + 1, rest);
      TextIs(items[i], later);
      ConcatAssociates(ItemsText(items, i), Separator(i == 0), Compact(items[i]) + later);
      ConcatAssociates(ItemsText(items, i) + Separator(i == 0), Compact(items[i]), later);
    }
  }

  lemma MembersThenIs(v: Value, i: nat, rest: bytes)
    requires v.Obj? && i <= |v.members|
    ensures MembersText(v.members, i) + MembersThen(v.members, i, rest)
              == MembersText(v.members, |v.members|) + ([CLOSE_BRACE] + rest)
    decreases v, 0, |v.members| - i
  {
    var ms := v.members;
    if i < |ms| {
      var later := MembersThen(ms, i + 1, rest);
      MembersThenIs(v, i + 1, rest);
      TextIs(ms[i].value, later);
      QuoteThenIs(ms[i].key, [COLON] + (Compact(ms[i].value) + later));
      MemberThenIs(Quote(ms[i].key), Compact(ms[i].value), later);
      var part := Quote(ms[i].key) + [COLON] + Compact(ms[i].value);
      ConcatAssociates(MembersText(ms, i), Separator(i == 0), part + later);
      ConcatAssociates(MembersText(ms, i) + Separator(i == 0), part, later);
    }
  }

  lemma MemberThenIs(key: bytes, value: bytes, later: bytes)
    ensures key + ([COLON] + (value + later)) == (key + [COLON] + value) + later
  {
    ConcatAssociates(key, [COLON], value + later);
    ConcatAssociates(key + [COLON], value, later);
  }
}
