/** What base64 text is, character by character: the table of section 4 of RFC 4648 applied to the
    bits of the data, six at a time. */
module Base64Table {
  import opened Wrappers
  import opened Bytes
  import opened Base64

  /** Entry `v` of the table. */
  function Entry(v: sextet): byte {
    if v < 16 then Ascii("ABCDEFGHIJKLMNOP")[v]
    else if v < 32 then Ascii("QRSTUVWXYZabcdef")[v - 16]
    else if v < 48 then Ascii("ghijklmnopqrstuv")[v - 32]
    else Ascii("wxyz0123456789+/")[v - 48]
  }

  /** Binary digit `j` of a byte, the most significant first. */
  function BitOf(a: byte, j: nat): (b: nat)
    requires j < 8
    ensures b < 2
  {
    match j
    case 0 => a / 128 % 2
    case 1 => a / 64 % 2
    case 2 => a / 32 % 2
    case 3 => a / 16 % 2
    case 4 => a / 8 % 2
    case 5 => a / 4 % 2
    case 6 => a / 2 % 2
    case 7 => a % 2
  }

  /** Bit `k` of the data; past the end, zero. */
  function Bit(s: bytes, k: nat): (b: nat)
    ensures b < 2
  {
    if k < 8 * |s| then BitOf(s[k / 8], k % 8) else 0
  }

  /** The number whose six binary digits are those from bit `k` on. */
  function SixBits(s: bytes, k: nat): (v: nat)
    ensures v < 64
  {
    32 * Bit(s, k) + 16 * Bit(s, k + 1) + 8 * Bit(s, k + 2) + 4 * Bit(s, k + 3) + 2 * Bit(s, k + 4) + Bit(s, k + 5)
  }

  /** The model's ranges are the table's. */
  lemma SymbolIsEntry(v: sextet)
    ensures Symbol(v) == Entry(v)
  {
    match v
    case 0 => case 1 => case 2 => case 3 => case 4 => case 5 => case 6 => case 7 =>
    case 8 => case 9 => case 10 => case 11 => case 12 => case 13 => case 14 => case 15 =>
    case 16 => case 17 => case 18 => case 19 => case 20 => case 21 => case 22 => case 23 =>
    case 24 => case 25 => case 26 => case 27 => case 28 => case 29 => case 30 => case 31 =>
    case 32 => case 33 => case 34 => case 35 => case 36 => case 37 => case 38 => case 39 =>
    case 40 => case 41 => case 42 => case 43 => case 44 => case 45 => case 46 => case 47 =>
    case 48 => case 49 => case 50 => case 51 => case 52 => case 53 => case 54 => case 55 =>
    case 56 => case 57 => case 58 => case 59 => case 60 => case 61 => case 62 => case 63 =>
  }

  lemma BitShift(s: bytes, k: nat)
    requires |s| >= 3
    ensures Bit(s, k + 24) == Bit(s[3..], k)
  {
    assert (k + 24) / 8 == k / 8 + 3 && (k + 24) % 8 == k % 8;
    if k < 8 * |s[3..]| { assert s[k / 8 + 3] == s[3..][k / 8]; }
  }

  lemma SixBitsShift(s: bytes, k: nat)
    requires |s| >= 3
    ensures SixBits(s, k + 24) == SixBits(s[3..], k)
  {
    BitShift(s, k);
    BitShift(s, k + 1);
    BitShift(s, k + 2);
    BitShift(s, k + 3);
    BitShift(s, k + 4);
    BitShift(s, k + 5);
  }

  /** The binary digits of a byte make up its two parts at any of the three cuts. */
  lemma Halves(a: byte)
    ensures a / 4 == a / 2 / 2 && a / 8 == a / 4 / 2 && a / 16 == a / 8 / 2 && a / 32 == a / 16 / 2
    ensures a / 64 == a / 32 / 2 && a / 128 == a / 64 / 2 && a / 128 < 2
  {
  }

  lemma Digits(a: byte)
    ensures 32 * (a / 128 % 2) + 16 * (a / 64 % 2) + 8 * (a / 32 % 2) + 4 * (a / 16 % 2) + 2 * (a / 8 % 2) + a / 4 % 2
         == a / 4
    ensures 2 * (a / 2 % 2) + a % 2 == a % 4
    ensures 8 * (a / 128 % 2) + 4 * (a / 64 % 2) + 2 * (a / 32 % 2) + a / 16 % 2 == a / 16
    ensures 8 * (a / 8 % 2) + 4 * (a / 4 % 2) + 2 * (a / 2 % 2) + a % 2 == a % 16
    ensures 2 * (a / 128 % 2) + a / 64 % 2 == a / 64
    ensures 32 * (a / 32 % 2) + 16 * (a / 16 % 2) + 8 * (a / 8 % 2) + 4 * (a / 4 % 2) + 2 * (a / 2 % 2) + a % 2
         == a % 64
  {
    Halves(a);
    var h1, h2, h3, h4, h5, h6, h7 := a / 2, a / 4, a / 8, a / 16, a / 32, a / 64, a / 128;
    assert a == 2 * h1 + a % 2 && h1 == 2 * h2 + h1 % 2 && h2 == 2 * h3 + h2 % 2 && h3 == 2 * h4 + h3 % 2;
    assert h4 == 2 * h5 + h4 % 2 && h5 == 2 * h6 + h5 % 2 && h6 == 2 * h7 + h6 % 2 && h7 == h7 % 2;
    assert a == 4 * h2 + a % 4 && a == 16 * h4 + a % 16 && a == 64 * h6 + a % 64;
  }

  function At(s: bytes, i: nat): byte {
    if i < |s| then s[i] else 0
  }

  lemma InByte(i: nat, j: nat)
    requires j < 8
    ensures (8 * i + j) / 8 == i && (8 * i + j) % 8 == j
  {
  }

  lemma ByteBits(s: bytes, i: nat)
    ensures var a := At(s, i);
            && Bit(s, 8 * i) == a / 128 % 2 && Bit(s, 8 * i + 1) == a / 64 % 2 && Bit(s, 8 * i + 2) == a / 32 % 2
            && Bit(s, 8 * i + 3) == a / 16 % 2 && Bit(s, 8 * i + 4) == a / 8 % 2 && Bit(s, 8 * i + 5) == a / 4 % 2
            && Bit(s, 8 * i + 6) == a / 2 % 2 && Bit(s, 8 * i + 7) == a % 2
  {
    InByte(i, 0);
    InByte(i, 1);
    InByte(i, 2);
    InByte(i, 3);
    InByte(i, 4);
    InByte(i, 5);
    InByte(i, 6);
    InByte(i, 7);
  }

  /** The four sextets of the first three bytes, missing ones taken as zero. */
  lemma FirstSextets(s: bytes)
    ensures SixBits(s, 0) == At(s, 0) / 4 && SixBits(s, 6) == At(s, 0) % 4 * 16 + At(s, 1) / 16
  {
    ByteBits(s, 0);
    ByteBits(s, 1);
    Digits(At(s, 0));
    Digits(At(s, 1));
  }

  lemma LastSextets(s: bytes)
    ensures SixBits(s, 12) == At(s, 1) % 16 * 4 + At(s, 2) / 64 && SixBits(s, 18) == At(s, 2) % 64
  {
    ByteBits(s, 1);
    ByteBits(s, 2);
    Digits(At(s, 1));
    Digits(At(s, 2));
  }

  /** Character `i` of the text of `s`. */
  function CharAt(s: bytes, i: nat): byte {
    if 6 * i < 8 * |s| then Entry(SixBits(s, 6 * i)) else '=' as int
  }

  lemma GroupSymbols(s: bytes)
    requires s != []
    ensures var a, b, c := At(s, 0), At(s, 1), At(s, 2);
            && |Encode(s)| >= 4 && Encode(s)[0] == Symbol(a / 4) && Encode(s)[1] == Symbol(a % 4 * 16 + b / 16)
            && Encode(s)[2] == (if |s| > 1 then Symbol(b % 16 * 4 + c / 64) else '=' as int)
            && Encode(s)[3] == if |s| > 2 then Symbol(c % 64) else '=' as int
  {
  }

  function SymbolAt(s: bytes, i: nat): byte {
    if 6 * i < 8 * |s| then Symbol(SixBits(s, 6 * i)) else '=' as int
  }

  lemma SymbolIsChar(s: bytes, i: nat)
    ensures SymbolAt(s, i) == CharAt(s, i)
  {
    SymbolIsEntry(SixBits(s, 6 * i));
  }

  lemma FirstGroup(s: bytes)
    requires s != []
    ensures |Encode(s)| >= 4
    ensures Encode(s)[0] == SymbolAt(s, 0) && Encode(s)[1] == SymbolAt(s, 1)
    ensures Encode(s)[2] == SymbolAt(s, 2) && Encode(s)[3] == SymbolAt(s, 3)
  {
    GroupSymbols(s);
    FirstSextets(s);
    LastSextets(s);
  }

  lemma LaterSymbols(s: bytes, i: nat)
    requires |s| > 3
    ensures SymbolAt(s, i + 4) == SymbolAt(s[3..], i)
  {
    SixBitsShift(s, 6 * i);
    assert 6 * (i + 4) == 6 * i + 24;
  }

  lemma LaterGroups(s: bytes, i: nat)
    requires |s| > 3
    ensures |Encode(s)| == 4 + |Encode(s[3..])|
    ensures i < |Encode(s[3..])| ==> Encode(s)[i + 4] == Encode(s[3..])[i]
  {
  }

  lemma {:induction false} EncodeIsSymbols(s: bytes, i: nat)
    requires i < |Encode(s)|
    ensures Encode(s)[i] == SymbolAt(s, i)
    decreases |s|
  {
    if i < 4 {
      FirstGroup(s);
    } else {
      LongEnough(s);
      LaterGroups(s, i - 4);
      LaterSymbols(s, i - 4);
      EncodeIsSymbols(s[3..], i - 4);
    }
  }

  lemma LongEnough(s: bytes)
    ensures |Encode(s)| > 4 ==> |s| > 3
  {
    EncodeLength(s);
  }

  /** Text of full length whose character `i`, for every `i`, is the table entry at the six bits
      from bit `6 * i` on, missing bits zero, or padding once there are no bits left. */
  lemma EncodeIsTable(s: bytes)
    ensures |Encode(s)| == (|s| + 2) / 3 * 4
    ensures forall i :: 0 <= i < |Encode(s)| ==> Encode(s)[i] == CharAt(s, i)
  {
    EncodeLength(s);
    forall i | 0 <= i < |Encode(s)|
      ensures Encode(s)[i] == CharAt(s, i)
    {
      EncodeIsSymbols(s, i);
      SymbolIsChar(s, i);
    }
  }

  /** So a text is accepted, with these bytes as its value, exactly if it is made of the table. */
  lemma DecodeIsTable(text: bytes, s: bytes)
    ensures Decode(text) == Some(s) <==>
              |text| == (|s| + 2) / 3 * 4 && forall i :: 0 <= i < |text| ==> text[i] == CharAt(s, i)
  {
    AcceptsExactlyEncodings(text, s);
    EncodeIsTable(s);
    if |text| == (|s| + 2) / 3 * 4 && forall i :: 0 <= i < |text| ==> text[i] == CharAt(s, i) {
      assert text == Encode(s);
    }
  }
}
