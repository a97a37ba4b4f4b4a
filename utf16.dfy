/** JavaScript strings as UTF-16. `length` and `charCodeAt` count and read 16-bit code units,
    and a character above U+FFFF takes two of them, a surrogate pair. Both seed hashes walk
    their seed text this way. */
module Utf16 {
  import opened Wrappers

  /** What `charCodeAt` returns for an index inside the string. */
  type CodeUnit = x: int | 0 <= x < 0x1_0000

  const HIGH_SURROGATE: int := 0xD800
  const LOW_SURROGATE: int := 0xDC00
  const SURROGATE_END: int := 0xE000
  const SUPPLEMENTARY: int := 0x1_0000

  /** A character below U+10000 is one code unit. */
  predicate BasicPlane(c: char)
  {
    c as int < SUPPLEMENTARY
  }

  /** The code units of one character: the character itself in the basic plane, otherwise the
      high surrogate holding the upper ten bits of `c - 0x10000` and the low one the lower ten. */
  function Units(c: char): (u: seq<CodeUnit>)
    ensures |u| == if BasicPlane(c) then 1 else 2
  {
    if BasicPlane(c) then [c as int]
    else
      var v := c as int - SUPPLEMENTARY;
      [HIGH_SURROGATE + v / 0x400, LOW_SURROGATE + v % 0x400]
  }

  /** The string's code units in order, as `charCodeAt(0)` … `charCodeAt(length - 1)` read them. */
  function Encode(s: string): (u: seq<CodeUnit>)
    ensures |u| >= |s|
  {
    if s == [] then [] else Units(s[0]) + Encode(s[1..])
  }

  /** The character a surrogate pair stands for. */
  function PairChar(high: CodeUnit, low: CodeUnit): char
    requires HIGH_SURROGATE <= high < LOW_SURROGATE && LOW_SURROGATE <= low < SURROGATE_END
  {
    ((high - HIGH_SURROGATE) * 0x400 + (low - LOW_SURROGATE) + SUPPLEMENTARY) as char
  }

  /** Code units read back as characters; `None` when a surrogate stands without its partner. */
  function Decode(u: seq<CodeUnit>): Option<string>
    decreases |u|
  {
    if u == [] then Some([])
    else if HIGH_SURROGATE <= u[0] < LOW_SURROGATE then
      if |u| >= 2 && LOW_SURROGATE <= u[1] < SURROGATE_END then
        match Decode(u[2..])
        case None => None
        case Some(rest) => Some([PairChar(u[0], u[1])] + rest)
      else None
    else if LOW_SURROGATE <= u[0] < SURROGATE_END then None
    else
      match Decode(u[1..])
      case None => None
      case Some(rest) => Some([u[0] as char] + rest)
  }

  /** Decoding gives back the string: no two strings share their code units. */
  lemma {:induction false} DecodeEncode(s: string)
    ensures Decode(Encode(s)) == Some(s)
    decreases |s|
  {
    if s != [] {
      var head, tail := Units(s[0]), Encode(s[1..]);
      DecodeEncode(s[1..]);
      assert Encode(s) == head + tail;
      if BasicPlane(s[0]) {
        assert (head + tail)[1..] == tail;
      } else {
        assert (head + tail)[2..] == tail;
        assert PairChar(head[0], head[1]) == s[0];
      }
      assert s == [s[0]] + s[1..];
    }
  }

  /** A string without characters above U+FFFF has one code unit per character, its code. */
  lemma {:induction false} EncodeBasicPlane(s: string)
    requires forall k :: 0 <= k < |s| ==> BasicPlane(s[k])
    ensures |Encode(s)| == |s|
    ensures forall k :: 0 <= k < |s| ==> Encode(s)[k] == s[k] as int
    decreases |s|
  {
    if s != [] {
      EncodeBasicPlane(s[1..]);
    }
  }
}
