/** A JSON reader written from the grammar of RFC 8259, with its bytes spelled out: whitespace
    between tokens, escapes, names and values. Strings are read as their UTF-8 bytes, numbers are
    kept as their text, and a repeated name is kept as it stands. Reading the compact text of a
    tree gives the tree back. */
module JsonReader {
  import opened Wrappers
  import opened Bytes
  import opened Json
  import opened JsonText

  function Skip(s: bytes): (r: bytes)
    ensures |r| <= |s|
  {
    if s != [] && (s[0] == 32 || s[0] == 9 || s[0] == 10 || s[0] == 13) then Skip(s[1..]) else s
  }

  function HexValue(c: byte): Option<nat> {
    var n: int := c;
    if 48 <= n <= 57 then Some(n - 48)
    else if 97 <= n <= 102 then Some(n - 87)
    else if 65 <= n <= 70 then Some(n - 55)
    else None
  }

  /** The bytes of a code point; a lone surrogate has none. */
  function Utf8(code: nat): Option<bytes> {
    if code < 128 then Some([code])
    else if code < 2048 then Some([192 + code / 64, 128 + code % 64])
    else if code < 65536 && !(55296 <= code < 57344) then
      Some([224 + code / 4096, 128 + code / 64 % 64, 128 + code % 64])
    else None
  }

  /** What follows a backslash: the text it stands for, and the rest. */
  function ReadEscape(s: bytes): (r: Option<(bytes, bytes)>)
    ensures r.Some? ==> |r.value.1| < |s|
  {
    if s == [] then None
    else if s[0] == 34 || s[0] == 92 || s[0] == 47 then Some(([s[0]], s[1..]))
    else if s[0] == 98 then Some(([8], s[1..]))
    else if s[0] == 102 then Some(([12], s[1..]))
    else if s[0] == 110 then Some(([10], s[1..]))
    else if s[0] == 114 then Some(([13], s[1..]))
    else if s[0] == 116 then Some(([9], s[1..]))
    else if s[0] == 117 && |s| >= 5 then
      match (HexValue(s[1]), HexValue(s[2]), HexValue(s[3]), HexValue(s[4]))
      case (Some(a), Some(b), Some(c), Some(d)) =>
        (match Utf8(a * 4096 + b * 256 + c * 16 + d)
         case Some(text) => Some((text, s[5..]))
         case None => None)
      case _ => None
    else None
  }

  /** What follows an opening quote: the text up to the closing one, and the rest. */
  function ReadString(s: bytes): (r: Option<(bytes, bytes)>)
    ensures r.Some? ==> |r.value.1| < |s|
    decreases |s|
  {
    if s == [] || s[0] < 32 then None
    else if s[0] == 34 then Some(([], s[1..]))
    else
      var first := if s[0] == 92 then ReadEscape(s[1..]) else Some(([s[0]], s[1..]));
      if first.None? then None
      else
        match ReadString(first.value.1)
        case Some((more, rest)) => Some((first.value.0 + more, rest))
        case None => None
  }

  function NumberLength(s: bytes): (n: nat)
    ensures n <= |s|
  {
    if s != [] && IsNumberByte(s[0]) then 1 + NumberLength(s[1..]) else 0
  }

  function ReadValue(text: bytes): (r: Option<(Value, bytes)>)
    ensures r.Some? ==> |r.value.1| < |text|
    decreases |text|, 1
  {
    var s := Skip(text);
    if s == [] then None
    else if Ascii("null") <= s then Some((Null, s[4..]))
    else if Ascii("true") <= s then Some((Bool(true), s[4..]))
    else if Ascii("false") <= s then Some((Bool(false), s[5..]))
    else if s[0] == 34 then
      match ReadString(s[1..])
      case Some((t, rest)) => Some((Str(t), rest))
      case None => None
    else if s[0] == 91 then
      var t := Skip(s[1..]);
      if t != [] && t[0] == 93 then Some((Arr([]), t[1..]))
      else
        match ReadItems(s[1..])
        case Some((items, rest)) => Some((Arr(items), rest))
        case None => None
    else if s[0] == 123 then
      var t := Skip(s[1..]);
      if t != [] && t[0] == 125 then Some((Obj([]), t[1..]))
      else
        match ReadMembers(s[1..])
        case Some((ms, rest)) => Some((Obj(ms), rest))
        case None => None
    else
      var n := NumberLength(s);
      if n == 0 then None else Some((Num(s[..n]), s[n..]))
  }

  /** One item and those after it, up to the closing bracket. */
  function ReadItems(s: bytes): (r: Option<(seq<Value>, bytes)>)
    ensures r.Some? ==> |r.value.1| < |s|
    decreases |s|, 2
  {
    match ReadValue(s)
    case None => None
    case Some((v, rest)) =>
      var t := Skip(rest);
      if t != [] && t[0] == 93 then Some(([v], t[1..]))
      else if t != [] && t[0] == 44 then
        match ReadItems(t[1..])
        case Some((more, end)) => Some(([v] + more, end))
        case None => None
      else None
  }

  /** A name, a colon and a value. */
  function ReadMember(text: bytes): (r: Option<(Member, bytes)>)
    ensures r.Some? ==> |r.value.1| < |text|
    decreases |text|, 1
  {
    var s := Skip(text);
    if s == [] || s[0] != 34 then None
    else
      match ReadString(s[1..])
      case None => None
      case Some((key, rest)) =>
        var t := Skip(rest);
        if t == [] || t[0] != 58 then None
        else
          match ReadValue(t[1..])
          case Some((v, end)) => Some((Member(key, v), end))
          case None => None
  }

  function ReadMembers(s: bytes): (r: Option<(seq<Member>, bytes)>)
    ensures r.Some? ==> |r.value.1| < |s|
    decreases |s|, 2
  {
    match ReadMember(s)
    case None => None
    case Some((m, rest)) =>
      var t := Skip(rest);
      if t != [] && t[0] == 125 then Some(([m], t[1..]))
      else if t != [] && t[0] == 44 then
        match ReadMembers(t[1..])
        case Some((more, end)) => Some(([m] + more, end))
        case None => None
      else None
  }

  /** One value and nothing behind it. */
  function ReadJson(s: bytes): Option<Value> {
    match ReadValue(s)
    case Some((v, rest)) => if Skip(rest) == [] then Some(v) else None
    case None => None
  }

  // ----- Strings -----

  /** Every escape the writer uses, and every byte it leaves alone, is read as the byte itself. */
  lemma ReadsByte(c: byte, rest: bytes)
    ensures EscapeByte(c)[0] == 92 ==> ReadEscape((EscapeByte(c) + rest)[1..]) == Some(([c], rest))
    ensures EscapeByte(c)[0] != 92 ==> EscapeByte(c) == [c] && c >= 32 && c != 34
  {
    var e := EscapeByte(c);
    var s := (e + rest)[1..];
    if |e| == 2 {
      assert s == [e[1]] + rest && s[1..] == rest;
    } else if |e| == 6 {
      assert s == e[1..] + rest && s[5..] == rest;
    }
  }

  lemma {:induction false} ReadsEscaped(t: bytes, rest: bytes)
    ensures ReadString(EscapeThen(t, rest)) == Some((t, rest))
    decreases |t|
  {
    if t == [] {
      assert ([QUOTE] + rest)[1..] == rest;
    } else {
      var later := EscapeThen(t[1..], rest);
      ReadsEscaped(t[1..], rest);
      ReadsByte(t[0], later);
      assert (EscapeByte(t[0]) + later)[0] == EscapeByte(t[0])[0];
      assert EscapeByte(t[0]) == [t[0]] ==> (EscapeByte(t[0]) + later)[1..] == later;
      assert t == [t[0]] + t[1..];
    }
  }

  // ----- Numbers -----

  lemma {:induction false} ReadsNumber(t: bytes, rest: bytes)
    requires (forall c <- t :: IsNumberByte(c)) && Ends(rest)
    ensures NumberLength(t + rest) == |t|
    decreases |t|
  {
    if t == [] {
      assert t + rest == rest;
    } else {
      assert t[0] in t && (t + rest)[1..] == t[1..] + rest;
      ReadsNumber(t[1..], rest);
    }
  }

  // ----- Values -----

  /** No value begins with whitespace or with a byte that ends a list. */
  lemma FirstByte(v: Value, rest: bytes)
    requires NumbersOk(v)
    ensures var s := Text(v, rest);
            s != [] && KindOf(v) == KindAt(s[0]) && s[0] > 32 && s[0] != 93 && s[0] != 125 && s[0] != 44
  {
    match v {
      case Num(text) => { assert text[0] in text; }
      case _ => {}
    }
  }

  lemma FirstOfItems(v: Value, i: nat, rest: bytes)
    requires v.Arr? && 0 < i <= |v.items|
    ensures var s := ItemsThen(v.items, i, rest);
            && s != [] && s[0] == (if i == |v.items| then 93 else 44) && Ends(s) && Skip(s) == s
            && s[1..] == if i == |v.items| then rest else Text(v.items[i], ItemsThen(v.items, i + 1, rest))
  {
  }

  lemma FirstOfMembers(v: Value, i: nat, rest: bytes)
    requires v.Obj? && 0 < i <= |v.members|
    ensures var s := MembersThen(v.members, i, rest);
            && s != [] && s[0] == (if i == |v.members| then 125 else 44) && Ends(s) && Skip(s) == s
            && s[1..] == if i == |v.members| then rest else MemberThen(v.members, i, rest)
  {
  }

  /** The text of member `i` and of all that follows it. */
  function MemberThen(ms: seq<Member>, i: nat, rest: bytes): bytes
    requires i < |ms|
  {
    [QUOTE] + EscapeThen(ms[i].key, [COLON] + Text(ms[i].value, MembersThen(ms, i + 1, rest)))
  }

  /** A literal is told by its first byte. */
  lemma NotLiteral(s: bytes, c: byte)
    requires s != [] && s[0] == c && c != 110 && c != 116 && c != 102
    ensures !(Ascii("null") <= s) && !(Ascii("true") <= s) && !(Ascii("false") <= s)
  {
  }

  lemma ReadsLiteral(v: Value, rest: bytes)
    requires v.Null? || v.Bool?
    ensures ReadValue(Text(v, rest)) == Some((v, rest))
  {
    var s := Text(v, rest);
    assert s == Compact(v) + rest && s[0] == Compact(v)[0];
    assert Compact(v) <= s && s[|Compact(v)|..] == rest;
  }

  lemma ReadsNum(v: Value, rest: bytes)
    requires v.Num? && NumbersOk(v) && Ends(rest)
    ensures ReadValue(Text(v, rest)) == Some((v, rest))
  {
    var s := v.text + rest;
    FirstByte(v, rest);
    ReadsNumber(v.text, rest);
    NotLiteral(s, s[0]);
    assert s[..|v.text|] == v.text && s[|v.text|..] == rest;
  }

  lemma ReadsStr(v: Value, rest: bytes)
    requires v.Str?
    ensures ReadValue(Text(v, rest)) == Some((v, rest))
  {
    var s := Text(v, rest);
    assert s[0] == 34 && s[1..] == EscapeThen(v.s, rest);
    NotLiteral(s, 34);
    ReadsEscaped(v.s, rest);
  }

  lemma {:induction false} ReadsText(v: Value, rest: bytes)
    requires NumbersOk(v) && Ends(rest)
    ensures ReadValue(Text(v, rest)) == Some((v, rest))
    decreases v, 1, 0
  {
    match v {
      case Num(_) => { ReadsNum(v, rest); }
      case Str(_) => { ReadsStr(v, rest); }
      case Arr(items) => {
        if items != [] { ReadsItems(v, 0, rest); }
        ReadsArr(v, rest);
      }
      case Obj(ms) => {
        if ms != [] { ReadsMembers(v, 0, rest); }
        ReadsObj(v, rest);
      }
      case _ => { ReadsLiteral(v, rest); }
    }
  }

  lemma ReadsArr(v: Value, rest: bytes)
    requires v.Arr? && NumbersOk(v)
    requires v.items != [] ==>
               ReadItems(Text(v.items[0], ItemsThen(v.items, 1, rest))) == Some((v.items[0..], rest))
    ensures ReadValue(Text(v, rest)) == Some((v, rest))
  {
    var s := Text(v, rest);
    assert s[0] == 91 && s[1..] == ItemsThen(v.items, 0, rest);
    NotLiteral(s, 91);
    if v.items != [] {
      FirstByte(v.items[0], ItemsThen(v.items, 1, rest));
      assert Separator(true) + Text(v.items[0], ItemsThen(v.items, 1, rest))
          == Text(v.items[0], ItemsThen(v.items, 1, rest));
      assert v.items[0..] == v.items;
    } else {
      assert s[1..] == [93] + rest;
    }
  }

  lemma ItemsGoOn(xs: seq<Value>, i: nat, s: bytes, t: bytes, rest: bytes)
    requires i < |xs| && ReadValue(s) == Some((xs[i], t)) && t != [] && Skip(t) == t
    requires i + 1 == |xs| ==> t[0] == 93 && t[1..] == rest
    requires i + 1 < |xs| ==> t[0] == 44 && ReadItems(t[1..]) == Some((xs[i + 1..], rest))
    ensures ReadItems(s) == Some((xs[i..], rest))
  {
    assert xs[i..] == [xs[i]] + xs[i + 1..];
    assert i + 1 == |xs| ==> xs[i..] == [xs[i]];
  }

  lemma ReadsItems(v: Value, i: nat, rest: bytes)
    requires v.Arr? && NumbersOk(v) && Ends(rest) && i < |v.items|
    ensures ReadItems(Text(v.items[i], ItemsThen(v.items, i + 1, rest))) == Some((v.items[i..], rest))
    decreases v, 0, |v.items| - i
  {
    FirstOfItems(v, i + 1, rest);
    ReadsText(v.items[i], ItemsThen(v.items, i + 1, rest));
    if i + 1 < |v.items| { ReadsItems(v, i + 1, rest); }
    var t := ItemsThen(v.items, i + 1, rest);
    ItemsGoOn(v.items, i, Text(v.items[i], t), t, rest);
  }

  lemma ReadsObj(v: Value, rest: bytes)
    requires v.Obj?
    requires v.members != [] ==> ReadMembers(MemberThen(v.members, 0, rest)) == Some((v.members[0..], rest))
    ensures ReadValue(Text(v, rest)) == Some((v, rest))
  {
    var s := Text(v, rest);
    assert s[0] == 123 && s[1..] == MembersThen(v.members, 0, rest);
    NotLiteral(s, 123);
    if v.members != [] {
      assert s[1..] == MemberThen(v.members, 0, rest);
      assert v.members[0..] == v.members;
    } else {
      assert s[1..] == [125] + rest;
    }
  }

  lemma ReadsMember(ms: seq<Member>, i: nat, rest: bytes)
    requires i < |ms|
    requires var later := MembersThen(ms, i + 1, rest);
             ReadValue(Text(ms[i].value, later)) == Some((ms[i].value, later))
    ensures ReadMember(MemberThen(ms, i, rest)) == Some((ms[i], MembersThen(ms, i + 1, rest)))
  {
    var s, t := MemberThen(ms, i, rest), [COLON] + Text(ms[i].value, MembersThen(ms, i + 1, rest));
    assert s[0] == 34 && s[1..] == EscapeThen(ms[i].key, t);
    ReadsEscaped(ms[i].key, t);
    assert t[0] == 58 && t[1..] == Text(ms[i].value, MembersThen(ms, i + 1, rest));
  }

  lemma MembersGoOn(xs: seq<Member>, i: nat, s: bytes, t: bytes, rest: bytes)
    requires i < |xs| && ReadMember(s) == Some((xs[i], t)) && t != [] && Skip(t) == t
    requires i + 1 == |xs| ==> t[0] == 125 && t[1..] == rest
    requires i + 1 < |xs| ==> t[0] == 44 && ReadMembers(t[1..]) == Some((xs[i + 1..], rest))
    ensures ReadMembers(s) == Some((xs[i..], rest))
  {
    assert xs[i..] == [xs[i]] + xs[i + 1..];
    assert i + 1 == |xs| ==> xs[i..] == [xs[i]];
  }

  lemma ReadsMembers(v: Value, i: nat, rest: bytes)
    requires v.Obj? && NumbersOk(v) && Ends(rest) && i < |v.members|
    ensures ReadMembers(MemberThen(v.members, i, rest)) == Some((v.members[i..], rest))
    decreases v, 0, |v.members| - i
  {
    FirstOfMembers(v, i + 1, rest);
    ReadsText(v.members[i].value, MembersThen(v.members, i + 1, rest));
    ReadsMember(v.members, i, rest);
    if i + 1 < |v.members| { ReadsMembers(v, i + 1, rest); }
    var t := MembersThen(v.members, i + 1, rest);
    MembersGoOn(v.members, i, MemberThen(v.members, i, rest), t, rest);
  }

  /** The compact text of a tree is JSON text for this tree. */
  lemma ReadsCompact(v: Value)
    requires NumbersOk(v)
    ensures ReadJson(Compact(v)) == Some(v)
  {
    TextIs(v, []);
    assert Compact(v) + [] == Compact(v);
    ReadsText(v, []);
  }

  /** So two trees with the same compact text are the same tree. */
  lemma CompactIsInjective(v: Value, w: Value)
    requires NumbersOk(v) && NumbersOk(w)
    ensures Compact(v) == Compact(w) <==> v == w
  {
    ReadsCompact(v);
    ReadsCompact(w);
  }

  // ----- The text, spelled out -----

  /** A byte inside a string, as text. */
  predicate Spells(c: byte, text: bytes) {
    && (c == 34 ==> text == Ascii("\\\"")) && (c == 92 ==> text == Ascii("\\\\"))
    && (c == 8 ==> text == Ascii("\\b")) && (c == 9 ==> text == Ascii("\\t")) && (c == 10 ==> text == Ascii("\\n"))
    && (c == 12 ==> text == Ascii("\\f")) && (c == 13 ==> text == Ascii("\\r"))
    && (c < 32 && c !in {8, 9, 10, 12, 13} ==>
          text == Ascii("\\u00") + [Ascii("01")[c / 16], Ascii("0123456789abcdef")[c % 16]])
    && (c >= 32 && c != 34 && c != 92 ==> text == [c])
  }

  /** Strings: quotes around the bytes, each as it is or escaped. */
  lemma StringText(c: byte, s: bytes)
    ensures Compact(Str([])) == Ascii("\"\"")
    ensures exists text :: Spells(c, text) && Compact(Str([c] + s)) == Ascii("\"") + text + Compact(Str(s))[1..]
  {
    EscapeSpells(c);
    QuoteCons(c, s);
    Marks();
    assert [QUOTE] + [] + [QUOTE] == [QUOTE, QUOTE];
  }

  lemma EscapeSpells(c: byte)
    ensures Spells(c, EscapeByte(c))
  {
    if c < 32 { assert c / 16 < 2; }
  }

  lemma QuoteCons(c: byte, s: bytes)
    ensures Quote([c] + s) == [QUOTE] + EscapeByte(c) + Quote(s)[1..]
  {
    assert ([c] + s)[1..] == s;
    ConcatAssociates([QUOTE], EscapeByte(c), EscapeText(s));
    ConcatAssociates([QUOTE] + EscapeByte(c), EscapeText(s), [QUOTE]);
    assert Quote(s)[1..] == EscapeText(s) + [QUOTE];
  }

  lemma Marks()
    ensures Ascii("\"") == [QUOTE] && Ascii("\"\"") == [QUOTE, QUOTE] && Ascii(",") == [COMMA] && Ascii(":") == [COLON]
    ensures Ascii("[]") == [OPEN_BRACKET, CLOSE_BRACKET] && Ascii("]") == [CLOSE_BRACKET]
    ensures Ascii("{}") == [OPEN_BRACE, CLOSE_BRACE] && Ascii("}") == [CLOSE_BRACE]
  {
  }

  lemma {:induction false} ItemsPrefix(items: seq<Value>, x: Value, n: nat)
    requires n <= |items|
    ensures ItemsText(items + [x], n) == ItemsText(items, n)
    decreases n
  {
    if n > 0 { ItemsPrefix(items, x, n - 1); }
  }

  lemma {:induction false} MembersPrefix(ms: seq<Member>, m: Member, n: nat)
    requires n <= |ms|
    ensures MembersText(ms + [m], n) == MembersText(ms, n)
    decreases n
  {
    if n > 0 { MembersPrefix(ms, m, n - 1); }
  }

  /** The text up to the closing bracket or brace. */
  function Open(text: bytes): bytes {
    if text == [] then [] else text[..|text| - 1]
  }

  /** Arrays: brackets around the items, with nothing but commas between them. */
  lemma ArrayText(items: seq<Value>, x: Value)
    ensures Compact(Arr([])) == Ascii("[]")
    ensures Compact(Arr(items + [x]))
         == Open(Compact(Arr(items))) + (if items == [] then [] else Ascii(",")) + Compact(x) + Ascii("]")
  {
    Marks();
    ItemsPrefix(items, x, |items|);
    assert Open(Compact(Arr(items))) == [OPEN_BRACKET] + ItemsText(items, |items|);
    Joined([OPEN_BRACKET], ItemsText(items, |items|), Separator(items == []), Compact(x));
  }

  lemma Joined(open: bytes, done: bytes, sep: bytes, part: bytes)
    ensures open + (done + sep + part) == open + done + sep + part
  {
    ConcatAssociates(open, done + sep, part);
    ConcatAssociates(open, done, sep);
  }

  /** Objects: braces around the members, each its name, a colon and its value. */
  lemma ObjectText(ms: seq<Member>, m: Member)
    ensures Compact(Obj([])) == Ascii("{}")
    ensures Compact(Obj(ms + [m]))
         == Open(Compact(Obj(ms))) + (if ms == [] then [] else Ascii(",")) +
            (Compact(Str(m.key)) + Ascii(":") + Compact(m.value)) + Ascii("}")
  {
    Marks();
    var done, part := MembersText(ms, |ms|), Quote(m.key) + [COLON] + Compact(m.value);
    MembersPrefix(ms, m, |ms|);
    assert (ms + [m])[|ms|] == m;
    assert MembersText(ms + [m], |ms| + 1) == done + Separator(ms == []) + part;
    assert Open(Compact(Obj(ms))) == [OPEN_BRACE] + done;
    Joined([OPEN_BRACE], done, Separator(ms == []), part);
  }
}
