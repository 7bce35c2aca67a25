/** Lower-case hexadecimal encoding, and decoding that accepts either case, as Go's encoding/hex does. */
module Hex {
  import opened Numerals
  import opened Wrappers

  function HexChar(n: nat): char
    requires n < 16
  {
    if n < 10 then ('0' as int + n) as char else ('a' as int + n - 10) as char
  }

  function HexValue(c: char): (v: Option<nat>)
    ensures v.Some? ==> v.value < 16
  {
    if '0' <= c <= '9' then Some(c as int - '0' as int)
    else if 'a' <= c <= 'f' then Some(c as int - 'a' as int + 10)
    else if 'A' <= c <= 'F' then Some(c as int - 'A' as int + 10)
    else None
  }

  function HexEncode(b: seq<byte>): (s: string)
    ensures |s| == 2 * |b|
  {
    if b == [] then "" else [HexChar(b[0] / 16), HexChar(b[0] % 16)] + HexEncode(b[1..])
  }

  /** None for an odd length or a character that is not a hexadecimal digit. */
  function HexDecode(s: string): (b: Option<seq<byte>>)
    ensures b.Some? ==> 2 * |b.value| == |s|
  {
    if s == [] then Some([])
    else if |s| == 1 then None
    else
      var rest := HexDecode(s[2..]);
      if HexValue(s[0]).None? || HexValue(s[1]).None? || rest.None? then None
      else Some([HexValue(s[0]).value * 16 + HexValue(s[1]).value] + rest.value)
  }

  lemma HexCharValue(n: nat)
    requires n < 16
    ensures HexValue(HexChar(n)) == Some(n)
  {
  }

  lemma {:induction false} DecodeEncode(b: seq<byte>)
    ensures HexDecode(HexEncode(b)) == Some(b)
  {
    if b != [] {
      DecodeEncode(b[1..]);
      HexCharValue(b[0] / 16);
      HexCharValue(b[0] % 16);
      var s := HexEncode(b);
      assert s[0] == HexChar(b[0] / 16) && s[1] == HexChar(b[0] % 16) && s[2..] == HexEncode(b[1..]);
      assert HexDecode(s) == Some([b[0] / 16 * 16 + b[0] % 16] + b[1..]);
      assert b[0] / 16 * 16 + b[0] % 16 == b[0];
      assert b == [b[0]] + b[1..];
    }
  }

  lemma HexInjective(a: seq<byte>, b: seq<byte>)
    requires HexEncode(a) == HexEncode(b)
    ensures a == b
  {
    DecodeEncode(a);
    DecodeEncode(b);
  }

  const HEX_DIGITS := "0123456789abcdef"

  lemma HexCharIs(n: nat)
    requires n < 16
    ensures HexChar(n) == HEX_DIGITS[n]
  {
  }

  /** Each byte is written as its two lower-case digits, the high half first. */
  lemma {:induction false} EncodeAt(b: seq<byte>, i: nat)
    requires i < |b|
    ensures HexEncode(b)[2 * i..2 * i + 2] == [HEX_DIGITS[b[i] / 16], HEX_DIGITS[b[i] % 16]]
  {
    hide HexChar;
    if i == 0 {
      HexCharIs(b[0] / 16);
      HexCharIs(b[0] % 16);
    } else {
      EncodeAt(b[1..], i - 1);
      assert HexEncode(b)[2 * i..2 * i + 2] == HexEncode(b[1..])[2 * (i - 1)..2 * (i - 1) + 2];
    }
  }

  /** Either case of a digit reads as its place in the alphabet. */
  lemma HexValueIs(n: nat)
    requires n < 16
    ensures HexValue("0123456789abcdef"[n]) == Some(n) == HexValue("0123456789ABCDEF"[n])
  {
  }

  /** Each byte is read back from its two digits, the high half first. */
  lemma {:induction false} DecodeAt(s: string, i: nat)
    requires HexDecode(s).Some? && 2 * i < |s|
    ensures HexValue(s[2 * i]).Some? && HexValue(s[2 * i + 1]).Some?
    ensures HexDecode(s).value[i] == 16 * HexValue(s[2 * i]).value + HexValue(s[2 * i + 1]).value
  {
    hide HexValue;
    if i > 0 { DecodeAt(s[2..], i - 1); }
  }

  predicate IsHexDigit(c: char) {
    c in "0123456789abcdefABCDEF"
  }

  lemma HexValueIff(c: char)
    ensures HexValue(c).Some? <==> IsHexDigit(c)
  {
  }

  /** Exactly the strings of an even number of hexadecimal digits, of either case, decode. */
  lemma {:induction false} DecodesIff(s: string)
    ensures HexDecode(s).Some? <==> |s| % 2 == 0 && forall i :: 0 <= i < |s| ==> IsHexDigit(s[i])
  {
    hide IsHexDigit, HexValue;
    if |s| >= 2 {
      DecodesIff(s[2..]);
      HexValueIff(s[0]);
      HexValueIff(s[1]);
      assert forall i :: 0 <= i < |s| - 2 ==> s[2..][i] == s[i + 2];
      if forall i :: 0 <= i < |s| - 2 ==> IsHexDigit(s[2..][i]) {
        forall i | 2 <= i < |s| && IsHexDigit(s[0]) && IsHexDigit(s[1]) ensures IsHexDigit(s[i]) {
          assert IsHexDigit(s[2..][i - 2]);
        }
      }
    }
  }
}
