/** `printable`: renders a byte string as printable ASCII text, escaping the backslash
    and every byte outside 32..126. */
module Printable {
  import opened Bytes

  const Backslash: byte := 92

  /** A byte copied through unchanged. */
  predicate IsPlain(b: byte) {
    32 <= b < 127 && b != Backslash
  }

  /** A printable ASCII character. */
  predicate IsPrintableChar(c: char) {
    32 <= c as int < 127
  }

  /** The lower-case hexadecimal digit `%x` prints for `n`. */
  function HexDigit(n: int): (c: char)
    requires 0 <= n < 16
    ensures IsHexDigit(c) && HexValue(c) == n
  {
    if n < 10 then ('0' as int + n) as char else ('a' as int + n - 10) as char
  }

  predicate IsHexDigit(c: char) {
    '0' <= c <= '9' || 'a' <= c <= 'f'
  }

  function HexValue(c: char): (n: int)
    requires IsHexDigit(c)
  {
    if c <= '9' then c as int - '0' as int else c as int - 'a' as int + 10
  }

  /** One byte as `printable` renders it: a plain byte as itself, the backslash
      doubled, anything else as `\x` and two lower-case hex digits. */
  function EscapeByte(b: byte): (s: string)
    ensures 1 <= |s| <= 4
    ensures |s| == 1 <==> IsPlain(b)
    ensures forall i :: 0 <= i < |s| ==> IsPrintableChar(s[i])
    ensures IsPlain(b) ==> s == [b as char]
    ensures b == Backslash ==> s == "\\\\"
    ensures !IsPlain(b) && b != Backslash ==>
              && |s| == 4 && s[..2] == "\\x" && IsHexDigit(s[2]) && IsHexDigit(s[3])
              && 16 * HexValue(s[2]) + HexValue(s[3]) == b
  {
    if IsPlain(b) then [b as char]
    else if b == Backslash then "\\\\"
    else "\\x" + [HexDigit(b / 16), HexDigit(b % 16)]
  }

  /** `printable(d)`: the renderings of the bytes of `d`, in order. */
  function Printable(d: Bytes): (s: string)
    ensures forall i :: 0 <= i < |s| ==> IsPrintableChar(s[i])
    ensures |d| <= |s| <= 4 * |d|
    decreases |d|
  {
    if |d| == 0 then "" else EscapeByte(d[0]) + Printable(d[1..])
  }

  /** Reads a rendering back into bytes; the reference that shows `printable` loses
      nothing. Text that no rendering produces is read character by character. */
  function Unprintable(s: string): Bytes
    decreases |s|
  {
    if |s| == 0 then []
    else if |s| >= 2 && s[0] == '\\' && s[1] == '\\' then [Backslash] + Unprintable(s[2..])
    else if |s| >= 4 && s[0] == '\\' && s[1] == 'x' && IsHexDigit(s[2]) && IsHexDigit(s[3]) then
      [16 * HexValue(s[2]) + HexValue(s[3])] + Unprintable(s[4..])
    else [if s[0] as int < 256 then s[0] as int else 0] + Unprintable(s[1..])
  }

  /** Reading back one rendered byte consumes exactly its rendering. */
  lemma UnprintableEscapeByte(b: byte, rest: string)
    ensures Unprintable(EscapeByte(b) + rest) == [b] + Unprintable(rest)
  {
    var s := EscapeByte(b) + rest;
    if IsPlain(b) {
      assert s[0] == b as char && s[1..] == rest;
    } else if b == Backslash {
      assert s[0] == '\\' && s[1] == '\\' && s[2..] == rest;
    } else {
      assert s[0] == '\\' && s[1] == 'x';
      assert s[2] == HexDigit(b / 16) && s[3] == HexDigit(b % 16);
      assert s[4..] == rest;
    }
  }

  /** `printable` is injective: its output reads back to its input. */
  lemma {:induction false} PrintableRoundTrip(d: Bytes)
    ensures Unprintable(Printable(d)) == d
    decreases |d|
  {
    if |d| > 0 {
      UnprintableEscapeByte(d[0], Printable(d[1..]));
      PrintableRoundTrip(d[1..]);
      assert d == [d[0]] + d[1..];
    }
  }

  /** `printable` copies its input exactly when every byte is plain (in 32..126 and
      not a backslash); otherwise the output is strictly longer than the input. */
  lemma {:induction false} PrintableIsIdentityIff(d: Bytes)
    ensures Printable(d) == AsString(d) <==> forall i :: 0 <= i < |d| ==> IsPlain(d[i])
    ensures (exists i :: 0 <= i < |d| && !IsPlain(d[i])) ==> |Printable(d)| > |d|
    decreases |d|
  {
    if |d| > 0 {
      PrintableIsIdentityIff(d[1..]);
      assert AsString(d) == [d[0] as char] + AsString(d[1..]);
      if forall i :: 0 <= i < |d| ==> IsPlain(d[i]) {
        assert forall i :: 0 <= i < |d| - 1 ==> IsPlain(d[1..][i]);
      } else {
        var i :| 0 <= i < |d| && !IsPlain(d[i]);
        if i > 0 {
          assert !IsPlain(d[1..][i - 1]);
        }
      }
    }
  }
}
