/** Base64 with padding (section 4 of RFC 4648) and the strict decoder the Rust proxy uses:
    padding only at the end and only as needed (section 3.2), unused bits zero (section 3.5). */
module Base64 {
  import opened Wrappers
  import opened Bytes

  const PAD: byte := 61 // '='

  type sextet = x: int | 0 <= x < 64

  function Symbol(v: sextet): byte {
    if v < 26 then 65 + v else if v < 52 then 71 + v else if v < 62 then v - 4 else if v == 62 then 43 else 47
  }

  function Value(c: byte): Option<sextet> {
    if 65 <= c <= 90 then Some(c - 65)
    else if 97 <= c <= 122 then Some(c - 71)
    else if 48 <= c <= 57 then Some(c + 4)
    else if c == 43 then Some(62)
    else if c == 47 then Some(63)
    else None
  }

  function EncodeTriple(a: byte, b: byte, c: byte): bytes {
    [Symbol(a / 4), Symbol(a % 4 * 16 + b / 16), Symbol(b % 16 * 4 + c / 64), Symbol(c % 64)]
  }

  function EncodePair(a: byte, b: byte): bytes {
    [Symbol(a / 4), Symbol(a % 4 * 16 + b / 16), Symbol(b % 16 * 4), PAD]
  }

  function EncodeOne(a: byte): bytes {
    [Symbol(a / 4), Symbol(a % 4 * 16), PAD, PAD]
  }

  function Encode(s: bytes): bytes {
    if |s| == 0 then []
    else if |s| == 1 then EncodeOne(s[0])
    else if |s| == 2 then EncodePair(s[0], s[1])
    else EncodeTriple(s[0], s[1], s[2]) + Encode(s[3..])
  }

  function EncodedLen(n: nat): nat {
    (n + 2) / 3 * 4
  }

  /** One group of four symbols; only the last group may be padded. */
  function DecodeGroup(p: byte, q: byte, r: byte, t: byte, last: bool): Option<bytes> {
    match (Value(p), Value(q))
    case (Some(w), Some(x)) =>
      if r == PAD && t == PAD then
        if last && x % 16 == 0 then Some([w * 4 + x / 16]) else None
      else if Value(r).None? then None
      else
        var y := Value(r).value;
        if t == PAD then
          if last && y % 4 == 0 then Some([w * 4 + x / 16, x % 16 * 16 + y / 4]) else None
        else if Value(t).None? then None
        else Some([w * 4 + x / 16, x % 16 * 16 + y / 4, y % 4 * 64 + Value(t).value])
    case _ => None
  }

  function Decode(s: bytes): Option<bytes> {
    if s == [] then Some([])
    else if |s| < 4 then None
    else
      match (DecodeGroup(s[0], s[1], s[2], s[3], |s| == 4), Decode(s[4..]))
      case (Some(head), Some(tail)) => Some(head + tail)
      case _ => None
  }

  lemma SymbolValue(v: sextet)
    ensures Value(Symbol(v)) == Some(v) && Symbol(v) != PAD
  {
  }

  lemma ValueSymbol(c: byte)
    ensures Value(c).Some? ==> Symbol(Value(c).value) == c
  {
  }

  lemma {:induction false} EncodeLength(s: bytes)
    ensures |Encode(s)| == EncodedLen(|s|)
    decreases |s|
  {
    if |s| >= 3 {
      EncodeLength(s[3..]);
    }
  }

  lemma {:induction false} EncodeAppend(a: bytes, b: bytes)
    requires |a| % 3 == 0
    ensures Encode(a + b) == Encode(a) + Encode(b)
    decreases |a|
  {
    if a == [] {
      assert a + b == b;
    } else {
      assert (a + b)[3..] == a[3..] + b;
      EncodeAppend(a[3..], b);
    }
  }

  /** Bytes cut into sextets come back. */
  lemma Unpack(a: byte, b: byte, c: byte)
    ensures var w, x, y, z := a / 4, a % 4 * 16 + b / 16, b % 16 * 4 + c / 64, c % 64;
            && 0 <= w < 64 && 0 <= x < 64 && 0 <= y < 64 && 0 <= z < 64
            && w * 4 + x / 16 == a && x % 16 * 16 + y / 4 == b && y % 4 * 64 + z == c
  {
    Quotient16(a % 4, b / 16);
    Quotient4(b % 16, c / 64);
  }

  lemma Quotient4(q: nat, r: nat)
    requires r < 4
    ensures (q * 4 + r) / 4 == q && (q * 4 + r) % 4 == r
  {
  }

  lemma Quotient16(q: nat, r: nat)
    requires r < 16
    ensures (q * 16 + r) / 16 == q && (q * 16 + r) % 16 == r
  {
  }

  lemma Quotient64(q: nat, r: nat)
    requires r < 64
    ensures (q * 64 + r) / 64 == q && (q * 64 + r) % 64 == r
  {
  }

  lemma SymbolsDecode(w: sextet, x: sextet, y: sextet, z: sextet, last: bool)
    ensures DecodeGroup(Symbol(w), Symbol(x), Symbol(y), Symbol(z), last)
              == Some([w * 4 + x / 16, x % 16 * 16 + y / 4, y % 4 * 64 + z])
  {
    SymbolValue(w);
    SymbolValue(x);
    SymbolValue(y);
    SymbolValue(z);
  }

  lemma TripleDecodes(a: byte, b: byte, c: byte, last: bool)
    ensures var e := EncodeTriple(a, b, c); DecodeGroup(e[0], e[1], e[2], e[3], last) == Some([a, b, c])
  {
    Unpack(a, b, c);
    SymbolsDecode(a / 4, a % 4 * 16 + b / 16, b % 16 * 4 + c / 64, c % 64, last);
  }

  lemma PairDecodes(a: byte, b: byte)
    ensures var e := EncodePair(a, b); DecodeGroup(e[0], e[1], e[2], e[3], true) == Some([a, b])
  {
    Unpack(a, b, 0);
    SymbolValue(a / 4);
    SymbolValue(a % 4 * 16 + b / 16);
    SymbolValue(b % 16 * 4);
  }

  lemma OneDecodes(a: byte)
    ensures var e := EncodeOne(a); DecodeGroup(e[0], e[1], e[2], e[3], true) == Some([a])
  {
    Unpack(a, 0, 0);
    SymbolValue(a / 4);
    SymbolValue(a % 4 * 16);
  }

  lemma DecodeLastGroup(p: byte, q: byte, r: byte, t: byte)
    ensures Decode([p, q, r, t]) == DecodeGroup(p, q, r, t, true)
  {
    var s := [p, q, r, t];
    assert s[4..] == [] && Decode(s[4..]) == Some([]);
    var d := DecodeGroup(p, q, r, t, true);
    assert d.Some? ==> d.value + [] == d.value;
  }

  /** Decoding undoes encoding. */
  lemma {:induction false} DecodeOfEncode(s: bytes)
    ensures Decode(Encode(s)) == Some(s)
    decreases |s|
  {
    if |s| == 1 {
      OneDecodes(s[0]);
      var e := EncodeOne(s[0]);
      DecodeLastGroup(e[0], e[1], e[2], e[3]);
      assert s == [s[0]] && e == [e[0], e[1], e[2], e[3]];
    } else if |s| == 2 {
      PairDecodes(s[0], s[1]);
      var e := EncodePair(s[0], s[1]);
      DecodeLastGroup(e[0], e[1], e[2], e[3]);
      assert s == [s[0], s[1]] && e == [e[0], e[1], e[2], e[3]];
    } else if |s| >= 3 {
      TripleDecodes(s[0], s[1], s[2], |Encode(s)| == 4);
      assert Encode(s)[4..] == Encode(s[3..]);
      DecodeOfEncode(s[3..]);
      assert s == [s[0], s[1], s[2]] + s[3..];
    }
  }

  /** Sextets packed into bytes come back. */
  lemma Repack(w: sextet, x: sextet, y: sextet, z: sextet)
    ensures var a, b, c := w * 4 + x / 16, x % 16 * 16 + y / 4, y % 4 * 64 + z;
            a / 4 == w && a % 4 * 16 + b / 16 == x && b % 16 * 4 + c / 64 == y && c % 64 == z
  {
    Quotient4(w, x / 16);
    Quotient16(x % 16, y / 4);
    Quotient64(y % 4, z);
  }

  lemma EncodeShort(a: byte, b: byte, c: byte)
    ensures Encode([a]) == EncodeOne(a) && Encode([a, b]) == EncodePair(a, b)
    ensures Encode([a, b, c]) == EncodeTriple(a, b, c)
  {
    assert [a, b, c][3..] == [];
  }

  lemma FullGroupEncodes(p: byte, q: byte, r: byte, t: byte, last: bool)
    requires DecodeGroup(p, q, r, t, last).Some? && t != PAD
    ensures var d := DecodeGroup(p, q, r, t, last).value; |d| == 3 && Encode(d) == [p, q, r, t]
  {
    var w: int, x: int, y: int, z: int := Value(p).value, Value(q).value, Value(r).value, Value(t).value;
    ValueSymbol(p);
    ValueSymbol(q);
    ValueSymbol(r);
    ValueSymbol(t);
    Repack(w, x, y, z);
    var a, b, c := w * 4 + x / 16, x % 16 * 16 + y / 4, y % 4 * 64 + z;
    assert DecodeGroup(p, q, r, t, last) == Some([a, b, c]);
    EncodeShort(a, b, c);
  }

  lemma PairGroupEncodes(p: byte, q: byte, r: byte, last: bool)
    requires DecodeGroup(p, q, r, PAD, last).Some? && r != PAD
    ensures var d := DecodeGroup(p, q, r, PAD, last).value; |d| == 2 && Encode(d) == [p, q, r, PAD] && last
  {
    var w: int, x: int, y: int := Value(p).value, Value(q).value, Value(r).value;
    ValueSymbol(p);
    ValueSymbol(q);
    ValueSymbol(r);
    Repack(w, x, y, 0);
    EncodeShort(w * 4 + x / 16, x % 16 * 16 + y / 4, 0);
  }

  lemma OneGroupEncodes(p: byte, q: byte, last: bool)
    requires DecodeGroup(p, q, PAD, PAD, last).Some?
    ensures var d := DecodeGroup(p, q, PAD, PAD, last).value; |d| == 1 && Encode(d) == [p, q, PAD, PAD] && last
  {
    var w: int, x: int := Value(p).value, Value(q).value;
    ValueSymbol(p);
    ValueSymbol(q);
    Repack(w, x, 0, 0);
    EncodeShort(w * 4 + x / 16, 0, 0);
  }

  /** An accepted group is the encoding of what it decodes to, and is padded only at the end. */
  lemma GroupEncodes(p: byte, q: byte, r: byte, t: byte, last: bool)
    requires DecodeGroup(p, q, r, t, last).Some?
    ensures var d := DecodeGroup(p, q, r, t, last).value;
            1 <= |d| <= 3 && Encode(d) == [p, q, r, t] && (|d| < 3 ==> last)
  {
    if t != PAD {
      FullGroupEncodes(p, q, r, t, last);
    } else if r != PAD {
      PairGroupEncodes(p, q, r, last);
    } else {
      OneGroupEncodes(p, q, last);
    }
  }

  /** The first four symbols. */
  function FirstGroup(s: bytes, last: bool): Option<bytes>
    requires |s| >= 4
  {
    DecodeGroup(s[0], s[1], s[2], s[3], last)
  }

  lemma DecodeUnfolds(s: bytes)
    requires |s| >= 4
    ensures Decode(s).Some? <==> FirstGroup(s, |s| == 4).Some? && Decode(s[4..]).Some?
    ensures Decode(s).Some? ==> Decode(s).value == FirstGroup(s, |s| == 4).value + Decode(s[4..]).value
  {
  }

  lemma NothingEncoded(b: bytes)
    requires Encode(b) == []
    ensures b == []
  {
  }

  /** One accepted group in front of an accepted rest. */
  lemma GroupInFront(s: bytes, head: bytes, rest: bytes)
    requires |s| >= 4 && FirstGroup(s, |s| == 4) == Some(head) && Encode(rest) == s[4..]
    ensures Encode(head + rest) == s
  {
    GroupEncodes(s[0], s[1], s[2], s[3], |s| == 4);
    assert s == Encode(head) + s[4..];
    if |s| == 4 {
      NothingEncoded(rest);
      assert head + [] == head;
    } else {
      assert |head| == 3;
      EncodeAppend(head, rest);
    }
  }

  /** Encoding undoes decoding: the decoder accepts nothing but canonical encodings. */
  lemma {:induction false} EncodeOfDecode(s: bytes)
    requires Decode(s).Some?
    ensures Encode(Decode(s).value) == s
    decreases |s|
  {
    if s != [] {
      DecodeUnfolds(s);
      EncodeOfDecode(s[4..]);
      GroupInFront(s, FirstGroup(s, |s| == 4).value, Decode(s[4..]).value);
    }
  }

  /** The two directions together: `s` is accepted with value `b` exactly when it encodes `b`. */
  lemma {:induction false} AcceptsExactlyEncodings(s: bytes, b: bytes)
    ensures Decode(s) == Some(b) <==> s == Encode(b)
  {
    DecodeOfEncode(b);
    if Decode(s).Some? { EncodeOfDecode(s); }
  }

  lemma FirstGroupOfJoin(a: bytes, b: bytes)
    requires |a| >= 4
    ensures (a + b)[4..] == a[4..] + b && forall last :: FirstGroup(a + b, last) == FirstGroup(a, last)
  {
  }

  /** An accepted string, cut at a group boundary, decodes piecewise, and every piece but the
      last is free of padding. */
  lemma {:induction false} DecodeSplits(a: bytes, b: bytes)
    requires |a| % 4 == 0 && b != [] && Decode(a + b).Some?
    ensures Decode(a).Some? && Decode(b).Some? && Decode(a + b).value == Decode(a).value + Decode(b).value
    ensures |Decode(a).value| == |a| / 4 * 3
    decreases |a|
  {
    if a == [] {
      assert a + b == b;
    } else {
      FirstGroupOfJoin(a, b);
      DecodeUnfolds(a + b);
      DecodeUnfolds(a);
      DecodeSplits(a[4..], b);
      UnpaddedGroup(a[0], a[1], a[2], a[3], |a| == 4);
      ConcatAssociates(FirstGroup(a, false).value, Decode(a[4..]).value, Decode(b).value);
    }
  }

  lemma UnpaddedGroup(p: byte, q: byte, r: byte, t: byte, last: bool)
    requires DecodeGroup(p, q, r, t, false).Some?
    ensures DecodeGroup(p, q, r, t, last) == DecodeGroup(p, q, r, t, false)
    ensures |DecodeGroup(p, q, r, t, false).value| == 3
  {
  }

  lemma AcceptedLength(s: bytes)
    requires Decode(s).Some?
    ensures |s| % 4 == 0 && |s| == EncodedLen(|Decode(s).value|)
  {
    EncodeOfDecode(s);
    EncodeLengthOf(s, Decode(s).value);
  }

  lemma EncodeLengthOf(s: bytes, b: bytes)
    requires s == Encode(b)
    ensures |s| == EncodedLen(|b|) && |s| % 4 == 0
  {
    EncodeLength(b);
    MultipleOfFour((|b| + 2) / 3);
  }

  lemma MultipleOfFour(n: nat)
    ensures n * 4 % 4 == 0
  {
  }

  /** The encoding never needs escaping inside a JSON string. */
  lemma {:induction false} EncodeIsPlain(s: bytes)
    ensures forall i :: 0 <= i < |Encode(s)| ==> Encode(s)[i] >= 32 && Encode(s)[i] != 34 && Encode(s)[i] != 92
    decreases |s|
  {
    if |s| >= 3 {
      EncodeIsPlain(s[3..]);
    }
  }
}
