/** Byte strings, and the two conversions the gateway applies to them. */
module Bytes {

  /** A Go `byte`. */
  type byte = x: int | 0 <= x < 256

  type Bytes = seq<byte>

  /** Go's `string(b)`: one character per byte, the character's code being the byte's value. */
  function AsString(b: Bytes): (s: string)
    ensures |s| == |b|
    ensures forall i :: 0 <= i < |b| ==> s[i] as int == b[i]
  {
    seq(|b|, i requires 0 <= i < |b| => b[i] as char)
  }

  /** The bytes of an ASCII text, for writing protocol literals. */
  function Ascii(s: string): (b: Bytes)
    requires forall i :: 0 <= i < |s| ==> s[i] as int < 256
    ensures AsString(b) == s
  {
    seq(|s|, i requires 0 <= i < |s| => s[i] as int)
  }

  predicate IsUpper(c: char) {
    'A' <= c <= 'Z'
  }

  /** ASCII lower-casing of one character; every other character is left alone. */
  function LowerChar(c: char): (l: char)
    ensures !IsUpper(l)
    ensures IsUpper(c) ==> l as int == c as int + 32
    ensures !IsUpper(c) ==> l == c
  {
    if IsUpper(c) then (c as int + 32) as char else c
  }

  /** `strings.ToLower`, restricted to ASCII letters. */
  function ToLower(s: string): (r: string)
    ensures |r| == |s|
    ensures forall i :: 0 <= i < |s| ==> r[i] == LowerChar(s[i])
  {
    seq(|s|, i requires 0 <= i < |s| => LowerChar(s[i]))
  }

  /** A text with no upper-case ASCII letter. */
  predicate IsLower(s: string) {
    forall i :: 0 <= i < |s| ==> !IsUpper(s[i])
  }

  /** Lower-casing yields a lower-case text, and fixes exactly the lower-case texts. */
  lemma ToLowerFixesExactlyLower(s: string)
    ensures IsLower(ToLower(s))
    ensures ToLower(s) == s <==> IsLower(s)
  {
    if ToLower(s) == s {
      forall i | 0 <= i < |s| ensures !IsUpper(s[i]) {
        assert s[i] == ToLower(s)[i];
      }
    }
  }
}
