/** Bytes and byte strings. Text is held as its UTF-8 bytes; `Ascii` turns a literal into them. */
module Bytes {

  type byte = x: int | 0 <= x < 256

  type bytes = seq<byte>

  function Ascii(s: string): (r: bytes)
    ensures |r| == |s|
  {
    seq(|s|, i requires 0 <= i < |s| => if s[i] < 128 as char then s[i] as int else 63)
  }

  lemma ConcatAssociates(a: bytes, b: bytes, c: bytes)
    ensures a + (b + c) == (a + b) + c
  {
  }
}
