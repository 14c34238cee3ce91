/** UTF-8 as far as the reader needs it: the encoding of a character
    (section 3 of RFC 3629) and the decoding of a two-byte slice, which is
    what `from_utf8` does to the new licensee code. */
module Utf8 {
  import opened Bytes

  datatype Option<T> = None | Some(value: T)

  /** The UTF-8 encoding of one character: one byte below 0x80, then two,
      three or four bytes, a lead byte followed by 0x80-based continuation
      bytes carrying six bits each. */
  function EncodeChar(c: char): (b: seq<byte>)
    ensures 1 <= |b| <= 4
    ensures |b| == 1 <==> c as int < 0x80
    ensures |b| == 2 <==> 0x80 <= c as int < 0x800
  {
    var n := c as int;
    if n < 0x80 then [n]
    else if n < 0x800 then [0xC0 + n / 0x40, 0x80 + n % 0x40]
    else if n < 0x10000 then [0xE0 + n / 0x1000, 0x80 + n / 0x40 % 0x40, 0x80 + n % 0x40]
    else [0xF0 + n / 0x40000, 0x80 + n / 0x1000 % 0x40, 0x80 + n / 0x40 % 0x40, 0x80 + n % 0x40]
  }

  /** The UTF-8 encoding of a string, character by character. */
  function Encode(s: string): (b: seq<byte>)
    ensures |s| <= |b|
  {
    if s == [] then [] else EncodeChar(s[0]) + Encode(s[1..])
  }

  /** Whether two bytes form well-formed UTF-8 (table 3-7 of the Unicode
      standard, restricted to two bytes): two ASCII bytes, or one two-byte
      sequence with lead 0xC2..0xDF and continuation 0x80..0xBF. */
  predicate IsPair(code: seq<byte>)
    requires |code| == 2
  {
    (code[0] < 0x80 && code[1] < 0x80)
    || (0xC2 <= code[0] <= 0xDF && 0x80 <= code[1] <= 0xBF)
  }

  /** `from_utf8` on a two-byte slice: the text it holds, or `None` when the
      bytes are not valid UTF-8. The text re-encodes to the same bytes. */
  function DecodePair(code: seq<byte>): (r: Option<string>)
    requires |code| == 2
    ensures r.Some? <==> IsPair(code)
    ensures r.Some? ==> 1 <= |r.value| <= 2 && Encode(r.value) == code
  {
    if code[0] < 0x80 && code[1] < 0x80 then
      var s := [code[0] as char, code[1] as char];
      assert Encode(s[1..]) == EncodeChar(s[1]) + Encode([]);
      assert Encode(s) == EncodeChar(s[0]) + Encode(s[1..]);
      Some(s)
    else if 0xC2 <= code[0] <= 0xDF && 0x80 <= code[1] <= 0xBF then
      var s := [((code[0] as int - 0xC0) * 0x40 + (code[1] as int - 0x80)) as char];
      assert Encode(s) == EncodeChar(s[0]) + Encode(s[1..]);
      Some(s)
    else
      None
  }

  /** Every text whose encoding is two bytes long decodes back to itself:
      the decoder accepts exactly the encodings of one- and two-character
      texts of that length. */
  lemma {:induction false} DecodePairComplete(s: string)
    requires |Encode(s)| == 2
    ensures DecodePair(Encode(s)) == Some(s)
  {
    assert s != [];
    var head, rest := EncodeChar(s[0]), Encode(s[1..]);
    assert Encode(s) == head + rest;
    if |head| == 1 {
      assert |rest| == 1;
      assert s[1..] != [];
      assert Encode(s[1..]) == EncodeChar(s[1..][0]) + Encode(s[1..][1..]);
      assert |EncodeChar(s[1])| == 1;
      assert Encode(s[2..]) == [];
      assert s == [s[0], s[1]];
    } else {
      assert |head| == 2 && rest == [];
      assert s[1..] == [];
      assert s == [s[0]];
    }
  }
}
