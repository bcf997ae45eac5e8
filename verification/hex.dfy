/** Hexadecimal text, as Go's `encoding/hex` reads and writes it: two digits
    per byte, high nibble first, either case accepted on input, lower case
    produced on output. */
module Hex {
  import opened Common

  predicate IsHexDigit(c: char) {
    ('0' <= c <= '9') || ('a' <= c <= 'f') || ('A' <= c <= 'F')
  }

  function NibbleValue(c: char): (v: nat)
    requires IsHexDigit(c)
    ensures v < 16
  {
    if '0' <= c <= '9' then (c as int - '0' as int) as nat
    else if 'a' <= c <= 'f' then (c as int - 'a' as int + 10) as nat
    else (c as int - 'A' as int + 10) as nat
  }

  function NibbleChar(v: nat): (c: char)
    requires v < 16
    ensures IsHexDigit(c) && NibbleValue(c) == v
    ensures !('A' <= c <= 'F')
  {
    if v < 10 then (v + '0' as int) as char else (v - 10 + 'a' as int) as char
  }

  /** Decoding: an odd length or a non-hex character is an error. */
  function Decode(s: string): (r: Result<Bytes, string>)
    ensures r.Ok? <==> |s| % 2 == 0 && forall i :: 0 <= i < |s| ==> IsHexDigit(s[i])
    ensures r.Ok? ==> |r.value| == |s| / 2
    decreases |s|
  {
    if |s| == 0 then Ok([])
    else if |s| == 1 then Err("odd length hex string")
    else if !IsHexDigit(s[0]) || !IsHexDigit(s[1]) then Err("invalid byte in hex string")
    else
      var rest := Decode(s[2..]);
      if rest.Err? then rest
      else
        var b := (16 * NibbleValue(s[0]) + NibbleValue(s[1])) as byte;
        assert forall i :: 2 <= i < |s| ==> s[i] == s[2..][i - 2];
        Ok([b] + rest.value)
  }

  /** The two digits of one byte, high nibble first. */
  function ByteDigits(x: byte): (d: string)
    ensures |d| == 2 && IsHexDigit(d[0]) && IsHexDigit(d[1])
    ensures !('A' <= d[0] <= 'F') && !('A' <= d[1] <= 'F')
    ensures 16 * NibbleValue(d[0]) + NibbleValue(d[1]) == x as int
  {
    var v := x as int;
    assert 16 * (v / 16) + v % 16 == v;
    [NibbleChar(v / 16), NibbleChar(v % 16)]
  }

  function Encode(b: Bytes): (s: string)
    ensures |s| == 2 * |b|
  {
    if |b| == 0 then "" else ByteDigits(b[0]) + Encode(b[1..])
  }

  /** Encoding then decoding gives the bytes back. */
  lemma {:induction false} DecodeEncode(b: Bytes)
    ensures Decode(Encode(b)) == Ok(b)
  {
    if |b| > 0 {
      DecodeEncode(b[1..]);
      var s := Encode(b);
      var d := ByteDigits(b[0]);
      assert s == d + Encode(b[1..]);
      assert s[0] == d[0] && s[1] == d[1];
      assert s[2..] == Encode(b[1..]);
      assert IsHexDigit(s[0]) && IsHexDigit(s[1]);
      assert (16 * NibbleValue(s[0]) + NibbleValue(s[1])) as byte == b[0];
      assert Decode(s) == Ok([b[0]] + b[1..]);
      assert b == [b[0]] + b[1..];
    }
  }

  /** Decoding a lower-case string then encoding gives the string back. */
  lemma {:induction false} EncodeDecode(s: string)
    requires Decode(s).Ok?
    requires forall i :: 0 <= i < |s| ==> !('A' <= s[i] <= 'F')
    ensures Encode(Decode(s).value) == s
    decreases |s|
  {
    if |s| > 0 {
      var rest := s[2..];
      assert forall i :: 0 <= i < |rest| ==> rest[i] == s[i + 2];
      EncodeDecode(rest);
      var b := Decode(s).value;
      assert b[1..] == Decode(rest).value;
      var d := ByteDigits(b[0]);
      DigitsUnique(d[0], d[1], s[0], s[1]);
      assert s == [s[0], s[1]] + rest;
    }
  }

  /** Two lower-case digit pairs of equal value are the same characters. */
  lemma DigitsUnique(c1: char, c2: char, d1: char, d2: char)
    requires IsHexDigit(c1) && IsHexDigit(c2) && IsHexDigit(d1) && IsHexDigit(d2)
    requires !('A' <= c1 <= 'F') && !('A' <= c2 <= 'F') && !('A' <= d1 <= 'F') && !('A' <= d2 <= 'F')
    requires 16 * NibbleValue(c1) + NibbleValue(c2) == 16 * NibbleValue(d1) + NibbleValue(d2)
    ensures c1 == d1 && c2 == d2
  {
  }
}
