/** UTF-8 as `str.encode` produces it, and its injectivity. */
module Utf8 {
  import opened Text

  type byte = b: int | 0 <= b < 256

  function EncodeChar(c: char): (r: seq<byte>)
    ensures 1 <= |r| <= 4
  {
    var n := c as int;
    if n < 0x80 then [n]
    else if n < 0x800 then [0xC0 + n / 64, 0x80 + n % 64]
    else if n < 0x10000 then [0xE0 + n / 4096, 0x80 + n / 64 % 64, 0x80 + n % 64]
    else [0xF0 + n / 262144, 0x80 + n / 4096 % 64, 0x80 + n / 64 % 64, 0x80 + n % 64]
  }

  function Encode(s: string): seq<byte> {
    if s == "" then [] else EncodeChar(s[0]) + Encode(s[1..])
  }

  /** The length a lead byte announces. */
  function LeadLength(b: byte): nat {
    if b < 0x80 then 1 else if b < 0xE0 then 2 else if b < 0xF0 then 3 else 4
  }

  function Low(b: byte): int { b - 0x80 }

  /** The scalar value in the first character of an encoding. */
  function DecodeFirst(s: seq<byte>): int
    requires s != [] && LeadLength(s[0]) <= |s|
  {
    var k, lead: int := LeadLength(s[0]), s[0];
    if k == 1 then lead
    else if k == 2 then (lead - 0xC0) * 64 + Low(s[1])
    else if k == 3 then (lead - 0xE0) * 4096 + Low(s[1]) * 64 + Low(s[2])
    else (lead - 0xF0) * 262144 + Low(s[1]) * 4096 + Low(s[2]) * 64 + Low(s[3])
  }

  lemma DecodeFirstInverts(c: char, rest: seq<byte>)
    ensures LeadLength((EncodeChar(c) + rest)[0]) == |EncodeChar(c)|
    ensures DecodeFirst(EncodeChar(c) + rest) == c as int
  {
    var n := c as int;
    assert n < 0x110000;
    assert n / 4096 == (n / 64) / 64 && n / 262144 == (n / 4096) / 64;
    assert n == 64 * (n / 64) + n % 64;
    assert n / 64 == 64 * (n / 4096) + n / 64 % 64;
    assert n / 4096 == 64 * (n / 262144) + n / 4096 % 64;
  }

  /** Reads UTF-8 back, character by character. */
  function Decode(s: seq<byte>): Option<string>
    decreases |s|
  {
    if s == [] then Some("")
    else if LeadLength(s[0]) > |s| then None
    else
      var n, rest := DecodeFirst(s), Decode(s[LeadLength(s[0])..]);
      if rest.Some? && (0 <= n < 0xD800 || 0xE000 <= n < 0x11_0000) then Some([n as char] + rest.value) else None
  }

  lemma {:induction false} DecodeInverts(s: string)
    ensures Decode(Encode(s)) == Some(s)
  {
    if s != "" {
      var bytes, k := Encode(s), |EncodeChar(s[0])|;
      DecodeFirstInverts(s[0], Encode(s[1..]));
      assert bytes[k..] == Encode(s[1..]);
      DecodeInverts(s[1..]);
      assert s == [s[0]] + s[1..];
    }
  }

  lemma {:induction false} EncodeInjective(s: string, t: string)
    requires Encode(s) == Encode(t)
    ensures s == t
  {
    if s != "" && t != "" {
      DecodeFirstInverts(s[0], Encode(s[1..]));
      DecodeFirstInverts(t[0], Encode(t[1..]));
      var k := |EncodeChar(s[0])|;
      assert s[0] == t[0];
      assert Encode(s)[k..] == Encode(s[1..]) && Encode(t)[k..] == Encode(t[1..]);
      EncodeInjective(s[1..], t[1..]);
      assert s == [s[0]] + s[1..] && t == [t[0]] + t[1..];
    }
  }
}
