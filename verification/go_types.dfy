/** Values of Go's built-in types that several source files share: a nil-able
    value, bytes, and the UTF-8 byte view of a Go string. */
module GoTypes {

  /** A value that may be nil: Go's `error` (nil or an error value) and other
      optional results. */
  datatype Option<+T> = None | Some(value: T)

  /** Go's `byte` (uint8). */
  type byte = x: int | 0 <= x < 256

  /** The number of bytes UTF-8 needs for the code point of `c`. */
  function EncodedWidth(c: char): (w: nat)
    ensures 1 <= w <= 4
    ensures w == 1 <==> c as int < 0x80
  {
    var n := c as int;
    if n < 0x80 then 1
    else if n < 0x800 then 2
    else if n < 0x1_0000 then 3
    else 4
  }

  /** The UTF-8 encoding of one character. */
  function EncodeChar(c: char): (bs: seq<byte>)
    ensures |bs| == EncodedWidth(c)
    ensures c as int < 0x80 ==> bs == [c as int]
    ensures forall i :: 1 <= i < |bs| ==> 0x80 <= bs[i] < 0xC0
  {
    var n := c as int;
    if n < 0x80 then [n]
    else if n < 0x800 then [0xC0 + n / 64, 0x80 + n % 64]
    else if n < 0x1_0000 then [0xE0 + n / 4096, 0x80 + (n / 64) % 64, 0x80 + n % 64]
    else [0xF0 + n / 262144, 0x80 + (n / 4096) % 64, 0x80 + (n / 64) % 64, 0x80 + n % 64]
  }

  /** The bytes a Go string literal holds: its characters encoded as UTF-8,
      one after the other. */
  function Utf8(s: string): (bs: seq<byte>)
  {
    if |s| == 0 then [] else Utf8(s[..|s| - 1]) + EncodeChar(s[|s| - 1])
  }

  predicate IsAscii(s: string)
  {
    forall i :: 0 <= i < |s| ==> s[i] as int < 0x80
  }

  /** Go's `len` on a string counts bytes: never fewer than the characters,
      never more than four bytes each, and exactly one per ASCII character. */
  lemma {:induction false} Utf8Length(s: string)
    ensures |s| <= |Utf8(s)| <= 4 * |s|
    ensures IsAscii(s) <==> |Utf8(s)| == |s|
  {
    if |s| > 0 {
      var init := s[..|s| - 1];
      Utf8Length(init);
      if IsAscii(s) {
        assert IsAscii(init) by {
          forall i | 0 <= i < |init| ensures init[i] as int < 0x80 {
            assert init[i] == s[i];
          }
        }
      }
      if |Utf8(s)| == |s| {
        assert EncodedWidth(s[|s| - 1]) == 1;
        forall i | 0 <= i < |s| ensures s[i] as int < 0x80 {
          if i < |s| - 1 {
            assert init[i] == s[i];
          }
        }
      }
    }
  }

  /** An ASCII string encodes to its code points, character by character. */
  lemma {:induction false} Utf8OfAscii(s: string)
    requires IsAscii(s)
    ensures |Utf8(s)| == |s|
    ensures forall i :: 0 <= i < |s| ==> Utf8(s)[i] == s[i] as int
  {
    if |s| > 0 {
      var init := s[..|s| - 1];
      assert IsAscii(init) by {
        forall i | 0 <= i < |init| ensures init[i] as int < 0x80 {
          assert init[i] == s[i];
        }
      }
      Utf8OfAscii(init);
    }
  }

  /** An ASCII string's bytes are the sequence of its character codes. */
  lemma Utf8OfAsciiIs(s: string, bs: seq<byte>)
    requires IsAscii(s)
    requires |bs| == |s| && forall i :: 0 <= i < |s| ==> bs[i] == s[i] as int
    ensures Utf8(s) == bs
  {
    Utf8OfAscii(s);
  }
}
