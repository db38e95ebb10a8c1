/** `decode_base64url` of acp/src/cursor_account.rs. The input is the string's
    bytes; every arithmetic step is on eight bits, as in the source. */
module Base64Url {
  import opened Text

  type byte = bv8

  // ----- the alphabet -------------------------------------------------------

  function Value(b: byte): Option<byte> {
    if 0x41 <= b <= 0x5A then Some(b - 0x41)
    else if 0x61 <= b <= 0x7A then Some(b - 0x61 + 26)
    else if 0x30 <= b <= 0x39 then Some(b - 0x30 + 52)
    else if b == 0x2D then Some(62)
    else if b == 0x5F then Some(63)
    else None
  }

  /** `=` and `u8::is_ascii_whitespace`, which leaves out the vertical tab. */
  predicate Skipped(b: byte) {
    b == 0x3D || b == 0x20 || b == 0x09 || b == 0x0A || b == 0x0C || b == 0x0D
  }

  predicate Sextet(v: byte) { v < 64 }

  lemma ValueIsSextet(b: byte)
    ensures Value(b).Some? ==> Sextet(Value(b).value) && !Skipped(b)
  {
  }

  /** The values of the kept characters, while each of them is in the alphabet. */
  function Kept(input: seq<byte>): Option<seq<byte>> {
    if input == [] then Some([])
    else
      var rest := Kept(input[1..]);
      if Skipped(input[0]) then rest
      else if Value(input[0]).None? || rest.None? then None
      else Some([Value(input[0]).value] + rest.value)
  }

  /** The characters that are not skipped. */
  function Visible(input: seq<byte>): seq<byte> {
    if input == [] then []
    else (if Skipped(input[0]) then [] else [input[0]]) + Visible(input[1..])
  }

  predicate Decodable(input: seq<byte>) {
    forall i :: 0 <= i < |input| ==> Skipped(input[i]) || Value(input[i]).Some?
  }

  lemma {:induction false} KeptIffDecodable(input: seq<byte>)
    ensures Kept(input).Some? <==> Decodable(input)
    ensures Kept(input).Some? ==>
              && |Kept(input).value| == |Visible(input)|
              && forall i :: 0 <= i < |Visible(input)| ==>
                   Sextet(Kept(input).value[i]) && Value(Visible(input)[i]) == Some(Kept(input).value[i])
  {
    if input != [] {
      KeptIffDecodable(input[1..]);
      ValueIsSextet(input[0]);
      assert forall i :: 1 <= i < |input| ==> input[i] == input[1..][i - 1];
    }
  }

  // ----- bits ---------------------------------------------------------------

  predicate Bit(v: byte, mask: byte) { v & mask != 0 }

  /** The eight bits of a byte, most significant first. */
  function OctetBits(v: byte): (r: seq<bool>)
    ensures |r| == 8
  {
    [Bit(v, 0x80), Bit(v, 0x40), Bit(v, 0x20), Bit(v, 0x10),
     Bit(v, 8), Bit(v, 4), Bit(v, 2), Bit(v, 1)]
  }

  function SextetBits(v: byte): (r: seq<bool>)
    ensures |r| == 6
  {
    [Bit(v, 0x20), Bit(v, 0x10), Bit(v, 8), Bit(v, 4), Bit(v, 2), Bit(v, 1)]
  }

  function Octets(s: seq<byte>): (r: seq<bool>)
    ensures |r| == 8 * |s|
  {
    if s == [] then [] else OctetBits(s[0]) + Octets(s[1..])
  }

  function Sextets(s: seq<byte>): (r: seq<bool>)
    ensures |r| == 6 * |s|
  {
    if s == [] then [] else SextetBits(s[0]) + Sextets(s[1..])
  }

  lemma OctetBitsInjective(u: byte, v: byte)
    requires OctetBits(u) == OctetBits(v)
    ensures u == v
  {
    var a, b := OctetBits(u), OctetBits(v);
    assert a[0] == b[0] && a[1] == b[1] && a[2] == b[2] && a[3] == b[3]
        && a[4] == b[4] && a[5] == b[5] && a[6] == b[6] && a[7] == b[7];
  }

  lemma {:induction false} OctetsInjective(s: seq<byte>, t: seq<byte>)
    requires Octets(s) == Octets(t)
    ensures s == t
  {
    assert |s| == |t|;
    if s != [] {
      assert OctetBits(s[0]) == Octets(s)[..8] && OctetBits(t[0]) == Octets(t)[..8];
      assert Octets(s[1..]) == Octets(s)[8..] && Octets(t[1..]) == Octets(t)[8..];
      OctetBitsInjective(s[0], t[0]);
      OctetsInjective(s[1..], t[1..]);
      assert s == [s[0]] + s[1..] && t == [t[0]] + t[1..];
    }
  }

  lemma {:induction false} OctetsConcat(s: seq<byte>, t: seq<byte>)
    ensures Octets(s + t) == Octets(s) + Octets(t)
  {
    if s == [] {
      assert s + t == t;
    } else {
      assert (s + t)[1..] == s[1..] + t;
      OctetsConcat(s[1..], t);
    }
  }

  lemma {:induction false} SextetsConcat(s: seq<byte>, t: seq<byte>)
    ensures Sextets(s + t) == Sextets(s) + Sextets(t)
  {
    if s == [] {
      assert s + t == t;
    } else {
      assert (s + t)[1..] == s[1..] + t;
      SextetsConcat(s[1..], t);
    }
  }

  // The three bytes of a group; `<<` drops the bits it shifts out.
  function Byte0(b0: byte, b1: byte): byte { (b0 << 2) | (b1 >> 4) }
  function Byte1(b1: byte, b2: byte): byte { (b1 << 4) | (b2 >> 2) }
  function Byte2(b2: byte, b3: byte): byte { (b2 << 6) | b3 }

  lemma FirstByteBits(b0: byte, b1: byte)
    requires Sextet(b0) && Sextet(b1)
    ensures Bit(Byte0(b0, b1), 0x80) == Bit(b0, 0x20)
    ensures Bit(Byte0(b0, b1), 0x40) == Bit(b0, 0x10)
    ensures Bit(Byte0(b0, b1), 0x20) == Bit(b0, 8)
    ensures Bit(Byte0(b0, b1), 0x10) == Bit(b0, 4)
    ensures Bit(Byte0(b0, b1), 8) == Bit(b0, 2)
    ensures Bit(Byte0(b0, b1), 4) == Bit(b0, 1)
    ensures Bit(Byte0(b0, b1), 2) == Bit(b1, 0x20)
    ensures Bit(Byte0(b0, b1), 1) == Bit(b1, 0x10)
  {
  }

  lemma FirstByte(b0: byte, b1: byte)
    requires Sextet(b0) && Sextet(b1)
    ensures OctetBits(Byte0(b0, b1)) == SextetBits(b0) + SextetBits(b1)[..2]
  {
    FirstByteBits(b0, b1);
  }

  lemma SecondByteBits(b1: byte, b2: byte)
    requires Sextet(b1) && Sextet(b2)
    ensures Bit(Byte1(b1, b2), 0x80) == Bit(b1, 8)
    ensures Bit(Byte1(b1, b2), 0x40) == Bit(b1, 4)
    ensures Bit(Byte1(b1, b2), 0x20) == Bit(b1, 2)
    ensures Bit(Byte1(b1, b2), 0x10) == Bit(b1, 1)
    ensures Bit(Byte1(b1, b2), 8) == Bit(b2, 0x20)
    ensures Bit(Byte1(b1, b2), 4) == Bit(b2, 0x10)
    ensures Bit(Byte1(b1, b2), 2) == Bit(b2, 8)
    ensures Bit(Byte1(b1, b2), 1) == Bit(b2, 4)
  {
  }

  lemma SecondByte(b1: byte, b2: byte)
    requires Sextet(b1) && Sextet(b2)
    ensures OctetBits(Byte1(b1, b2)) == SextetBits(b1)[2..] + SextetBits(b2)[..4]
  {
    SecondByteBits(b1, b2);
    FourAndFour(SextetBits(b1), SextetBits(b2));
  }

  lemma FourAndFour(s: seq<bool>, t: seq<bool>)
    requires |s| == |t| == 6
    ensures [s[2], s[3], s[4], s[5], t[0], t[1], t[2], t[3]] == s[2..] + t[..4]
  {
  }

  lemma ThirdByteBits(b2: byte, b3: byte)
    requires Sextet(b2) && Sextet(b3)
    ensures Bit(Byte2(b2, b3), 0x80) == Bit(b2, 2)
    ensures Bit(Byte2(b2, b3), 0x40) == Bit(b2, 1)
    ensures Bit(Byte2(b2, b3), 0x20) == Bit(b3, 0x20)
    ensures Bit(Byte2(b2, b3), 0x10) == Bit(b3, 0x10)
    ensures Bit(Byte2(b2, b3), 8) == Bit(b3, 8)
    ensures Bit(Byte2(b2, b3), 4) == Bit(b3, 4)
    ensures Bit(Byte2(b2, b3), 2) == Bit(b3, 2)
    ensures Bit(Byte2(b2, b3), 1) == Bit(b3, 1)
  {
  }

  lemma ThirdByte(b2: byte, b3: byte)
    requires Sextet(b2) && Sextet(b3)
    ensures OctetBits(Byte2(b2, b3)) == SextetBits(b2)[4..] + SextetBits(b3)
  {
    ThirdByteBits(b2, b3);
    TwoAndSix(SextetBits(b2), SextetBits(b3));
  }

  lemma TwoAndSix(s: seq<bool>, t: seq<bool>)
    requires |s| == |t| == 6
    ensures [s[4], s[5], t[0], t[1], t[2], t[3], t[4], t[5]] == s[4..] + t
  {
  }

  lemma OctetsOfThree(p: byte, q: byte, r: byte)
    ensures Octets([p]) == OctetBits(p)
    ensures Octets([p, q]) == OctetBits(p) + OctetBits(q)
    ensures Octets([p, q, r]) == OctetBits(p) + OctetBits(q) + OctetBits(r)
  {
    assert [p, q] == [p] + [q] && [p, q, r] == [p, q] + [r];
    OctetsConcat([p], [q]);
    OctetsConcat([p, q], [r]);
  }

  lemma SextetsOfFour(p: byte, q: byte, r: byte, s: byte)
    ensures Sextets([p, q]) == SextetBits(p) + SextetBits(q)
    ensures Sextets([p, q, r]) == SextetBits(p) + SextetBits(q) + SextetBits(r)
    ensures Sextets([p, q, r, s]) == SextetBits(p) + SextetBits(q) + SextetBits(r) + SextetBits(s)
  {
    assert [p, q] == [p] + [q] && [p, q, r] == [p, q] + [r] && [p, q, r, s] == [p, q, r] + [s];
    SextetsConcat([p], [q]);
    SextetsConcat([p, q], [r]);
    SextetsConcat([p, q, r], [s]);
  }

  // ----- the decoder --------------------------------------------------------

  /** `s` holds as many whole bytes as fit into the bits of the values `v`. */
  predicate Packs(v: seq<byte>, s: seq<byte>) {
    |s| == 3 * |v| / 4 && Octets(s) == Sextets(v)[..8 * |s|]
  }

  lemma PacksIsUnique(v: seq<byte>, s: seq<byte>, t: seq<byte>)
    requires Packs(v, s) && Packs(v, t)
    ensures s == t
  {
    OctetsInjective(s, t);
  }

  /** The final, incomplete group: at most three values. */
  lemma PacksTail(done: seq<byte>, v: seq<byte>, out: seq<byte>, tail: seq<byte>)
    requires |done| % 4 == 0 && |v| < 4 && Octets(out) == Sextets(done) && Packs(v, tail)
    ensures Packs(done + v, out + tail)
  {
    hide Octets, Sextets;
    OctetsConcat(out, tail);
    SextetsConcat(done, v);
    BitCounts(|done|, |v|);
    assert (Sextets(done) + Sextets(v))[..6 * |done| + 8 * |tail|] == Sextets(done) + Sextets(v)[..8 * |tail|];
  }

  lemma BitCounts(d: nat, v: nat)
    requires d % 4 == 0
    ensures 3 * (d + v) / 4 == 3 * (d / 4) + 3 * v / 4
  {
  }

  /** Four values fill three bytes. */
  lemma FullGroup(b0: byte, b1: byte, b2: byte, b3: byte)
    requires Sextet(b0) && Sextet(b1) && Sextet(b2) && Sextet(b3)
    ensures Octets([Byte0(b0, b1), Byte1(b1, b2), Byte2(b2, b3)]) == Sextets([b0, b1, b2, b3])
  {
    FirstByte(b0, b1);
    SecondByte(b1, b2);
    ThirdByte(b2, b3);
    OctetsOfThree(Byte0(b0, b1), Byte1(b1, b2), Byte2(b2, b3));
    SextetsOfFour(b0, b1, b2, b3);
    Regroup(SextetBits(b0), SextetBits(b1), SextetBits(b2), SextetBits(b3));
  }

  lemma Regroup(s0: seq<bool>, s1: seq<bool>, s2: seq<bool>, s3: seq<bool>)
    requires |s1| == |s2| == 6
    ensures (s0 + s1[..2]) + (s1[2..] + s2[..4]) + (s2[4..] + s3) == s0 + s1 + s2 + s3
  {
    assert s1 == s1[..2] + s1[2..] && s2 == s2[..4] + s2[4..];
  }

  lemma TailOfTwo(b0: byte, b1: byte)
    requires Sextet(b0) && Sextet(b1)
    ensures Packs([b0, b1], [Byte0(b0, b1)])
  {
    FirstByte(b0, b1);
    SextetsOfFour(b0, b1, 0, 0);
    OctetsOfThree(Byte0(b0, b1), 0, 0);
  }

  lemma TailOfThree(b0: byte, b1: byte, b2: byte)
    requires Sextet(b0) && Sextet(b1) && Sextet(b2)
    ensures Packs([b0, b1, b2], [Byte0(b0, b1), Byte1(b1, b2)])
  {
    hide Octets, Sextets, OctetBits, SextetBits, Byte0, Byte1, Sextet;
    FirstByte(b0, b1);
    SecondByte(b1, b2);
    SextetsOfFour(b0, b1, b2, 0);
    OctetsOfThree(Byte0(b0, b1), Byte1(b1, b2), 0);
    FirstSixteen(SextetBits(b0), SextetBits(b1), SextetBits(b2));
  }

  lemma FirstSixteen(s0: seq<bool>, s1: seq<bool>, s2: seq<bool>)
    requires |s0| == |s1| == |s2| == 6
    ensures (s0 + s1[..2]) + (s1[2..] + s2[..4]) == (s0 + s1 + s2)[..16]
  {
    assert s1 == s1[..2] + s1[2..];
  }

  /** The bytes so far hold exactly the bits of whole groups of four values. */
  predicate Aligned(filtered: seq<byte>, index: nat, out: seq<byte>) {
    && index <= |filtered| && index % 4 == 0
    && (forall i :: 0 <= i < |filtered| ==> Sextet(filtered[i]))
    && Octets(out) == Sextets(filtered[..index])
  }

  lemma EndAfterTwo(f: seq<byte>, index: nat, out: seq<byte>)
    requires Aligned(f, index, out) && index + 2 == |f|
    ensures Packs(f, out + [Byte0(f[index], f[index + 1])])
  {
    TailOfTwo(f[index], f[index + 1]);
    PacksTail(f[..index], [f[index], f[index + 1]], out, [Byte0(f[index], f[index + 1])]);
    assert f == f[..index] + [f[index], f[index + 1]];
  }

  lemma EndAfterThree(f: seq<byte>, index: nat, out: seq<byte>)
    requires Aligned(f, index, out) && index + 3 == |f|
    ensures Packs(f, out + [Byte0(f[index], f[index + 1]), Byte1(f[index + 1], f[index + 2])])
  {
    var tail := [f[index], f[index + 1], f[index + 2]];
    TailOfThree(tail[0], tail[1], tail[2]);
    PacksTail(f[..index], tail, out, [Byte0(tail[0], tail[1]), Byte1(tail[1], tail[2])]);
    assert f == f[..index] + tail;
  }

  /** A single left-over value carries no whole byte. */
  lemma EndOfGroups(f: seq<byte>, index: nat, out: seq<byte>)
    requires Aligned(f, index, out) && |f| <= index + 1
    ensures Packs(f, out)
  {
    PacksTail(f[..index], f[index..], out, []);
    assert f == f[..index] + f[index..] && out + [] == out;
  }

  lemma GroupStep(f: seq<byte>, index: nat, out: seq<byte>)
    requires Aligned(f, index, out) && index + 4 <= |f|
    ensures Aligned(f, index + 4, out + [Byte0(f[index], f[index + 1]), Byte1(f[index + 1], f[index + 2]),
                                         Byte2(f[index + 2], f[index + 3])])
  {
    var g := [f[index], f[index + 1], f[index + 2], f[index + 3]];
    FullGroup(g[0], g[1], g[2], g[3]);
    OctetsConcat(out, [Byte0(g[0], g[1]), Byte1(g[1], g[2]), Byte2(g[2], g[3])]);
    SextetsConcat(f[..index], g);
    assert f[..index + 4] == f[..index] + g;
  }

  /** The loop over the kept values. */
  method DecodeValues(filtered: seq<byte>) returns (out: seq<byte>)
    requires forall i :: 0 <= i < |filtered| ==> Sextet(filtered[i])
    ensures Packs(filtered, out)
  {
    out := [];
    var index := 0;
    while index + 1 < |filtered|
      invariant 0 <= index && Aligned(filtered, index, out)
    {
      ghost var start := out;
      var b0 := filtered[index];
      var b1 := filtered[index + 1];
      out := out + [Byte0(b0, b1)];
      if index + 2 >= |filtered| {
        EndAfterTwo(filtered, index, start);
        return;
      }
      var b2 := filtered[index + 2];
      out := out + [Byte1(b1, b2)];
      if index + 3 >= |filtered| {
        EndAfterThree(filtered, index, start);
        assert out == start + [Byte0(b0, b1), Byte1(b1, b2)];
        return;
      }
      var b3 := filtered[index + 3];
      out := out + [Byte2(b2, b3)];
      GroupStep(filtered, index, start);
      assert out == start + [Byte0(b0, b1), Byte1(b1, b2), Byte2(b2, b3)];
      index := index + 4;
    }
    EndOfGroups(filtered, index, out);
  }

  /** The filtering loop. */
  method Filter(input: seq<byte>) returns (r: Option<seq<byte>>)
    ensures r == Kept(input)
  {
    var filtered: seq<byte> := [];
    assert input[0..] == input;
    for i := 0 to |input|
      invariant Kept(input) == Prepend(filtered, Kept(input[i..]))
    {
      var b := input[i];
      assert input[i..][0] == b && input[i..][1..] == input[i + 1..];
      if Skipped(b) {
        continue;
      }
      if Value(b).None? {
        return None;
      }
      PrependTwice(filtered, [Value(b).value], Kept(input[i + 1..]));
      filtered := filtered + [Value(b).value];
    }
    assert input[|input|..] == [] && filtered + [] == filtered;
    return Some(filtered);
  }

  function Prepend(s: seq<byte>, t: Option<seq<byte>>): Option<seq<byte>> {
    if t.None? then None else if s == [] then t else Some(s + t.value)
  }

  lemma PrependTwice(s: seq<byte>, t: seq<byte>, u: Option<seq<byte>>)
    ensures Prepend(s + t, u) == Prepend(s, Prepend(t, u))
  {
    if u.Some? { assert (s + t) + u.value == s + (t + u.value); }
    assert t == [] ==> s + t == s;
    assert s == [] ==> s + t == t;
  }

  /** Fails exactly on a character that is neither skipped nor in the alphabet;
      otherwise the result is the whole bytes of the concatenated 6-bit values,
      so its length is three quarters of the number of kept characters. */
  method DecodeBase64Url(input: seq<byte>) returns (r: Option<seq<byte>>)
    ensures r.Some? <==> Decodable(input)
    ensures r.Some? ==> Kept(input).Some? && Packs(Kept(input).value, r.value)
    ensures r.Some? ==> |r.value| == 3 * |Visible(input)| / 4
  {
    KeptIffDecodable(input);
    var filtered := Filter(input);
    if filtered.None? {
      return None;
    }
    forall k | 0 <= k < |filtered.value| ensures Sextet(filtered.value[k]) {
      assert Value(Visible(input)[k]) == Some(Kept(input).value[k]);
    }
    var out := DecodeValues(filtered.value);
    return Some(out);
  }

  // ----- the encoder of section 5 of RFC 4648 -------------------------------

  function AlphabetChar(v: byte): byte
    requires Sextet(v)
  {
    if v < 26 then v + 0x41
    else if v < 52 then v - 26 + 0x61
    else if v < 62 then v - 52 + 0x30
    else if v == 62 then 0x2D
    else 0x5F
  }

  lemma AlphabetRoundTrip(v: byte)
    requires Sextet(v)
    ensures Value(AlphabetChar(v)) == Some(v) && !Skipped(AlphabetChar(v))
  {
  }

  // The four values of a group of three bytes.
  function Value0(a: byte): byte { a >> 2 }
  function Value1(a: byte, b: byte): byte { ((a & 3) << 4) | (b >> 4) }
  function Value2(b: byte, c: byte): byte { ((b & 15) << 2) | (c >> 6) }
  function Value3(c: byte): byte { c & 63 }

  lemma ValuesAreSextets(a: byte, b: byte, c: byte)
    ensures Sextet(Value0(a)) && Sextet(Value1(a, b)) && Sextet(Value2(b, c)) && Sextet(Value3(c))
  {
  }

  lemma BytesOfValues(a: byte, b: byte, c: byte)
    ensures Byte0(Value0(a), Value1(a, b)) == a
    ensures Byte1(Value1(a, b), Value2(b, c)) == b
    ensures Byte2(Value2(b, c), Value3(c)) == c
  {
  }

  /** 24 input bits at a time; a short final group is filled with zero bits. */
  function EncodeValues(bytes: seq<byte>): seq<byte> {
    if |bytes| == 0 then []
    else if |bytes| == 1 then [Value0(bytes[0]), Value1(bytes[0], 0)]
    else if |bytes| == 2 then
      [Value0(bytes[0]), Value1(bytes[0], bytes[1]), Value2(bytes[1], 0)]
    else
      [Value0(bytes[0]), Value1(bytes[0], bytes[1]), Value2(bytes[1], bytes[2]), Value3(bytes[2])]
      + EncodeValues(bytes[3..])
  }

  lemma {:induction false} EncodedValuesAreSextets(bytes: seq<byte>)
    ensures forall i :: 0 <= i < |EncodeValues(bytes)| ==> Sextet(EncodeValues(bytes)[i])
  {
    if |bytes| == 1 {
      ValuesAreSextets(bytes[0], 0, 0);
    } else if |bytes| == 2 {
      ValuesAreSextets(bytes[0], bytes[1], 0);
    } else if |bytes| >= 3 {
      ValuesAreSextets(bytes[0], bytes[1], bytes[2]);
      EncodedValuesAreSextets(bytes[3..]);
    }
  }

  function Encode(bytes: seq<byte>): seq<byte> {
    EncodedValuesAreSextets(bytes);
    var v := EncodeValues(bytes);
    seq(|v|, i requires 0 <= i < |v| => AlphabetChar(v[i]))
  }

  lemma {:induction false} EncodedValuesPack(bytes: seq<byte>)
    ensures Packs(EncodeValues(bytes), bytes)
  {
    if |bytes| == 1 {
      var a := bytes[0];
      ValuesAreSextets(a, 0, 0);
      BytesOfValues(a, 0, 0);
      TailOfTwo(Value0(a), Value1(a, 0));
      assert bytes == [a];
    } else if |bytes| == 2 {
      var a, b := bytes[0], bytes[1];
      ValuesAreSextets(a, b, 0);
      BytesOfValues(a, b, 0);
      TailOfThree(Value0(a), Value1(a, b), Value2(b, 0));
      assert bytes == [a, b];
    } else if |bytes| >= 3 {
      EncodedValuesPack(bytes[3..]);
      EncodedGroup(bytes[0], bytes[1], bytes[2], EncodeValues(bytes[3..]), bytes[3..]);
      assert bytes == [bytes[0], bytes[1], bytes[2]] + bytes[3..];
    }
  }

  lemma EncodedGroup(a: byte, b: byte, c: byte, v: seq<byte>, rest: seq<byte>)
    requires Packs(v, rest)
    ensures Packs([Value0(a), Value1(a, b), Value2(b, c), Value3(c)] + v, [a, b, c] + rest)
  {
    ValuesAreSextets(a, b, c);
    BytesOfValues(a, b, c);
    var head := [Value0(a), Value1(a, b), Value2(b, c), Value3(c)];
    FullGroup(head[0], head[1], head[2], head[3]);
    OctetsConcat([a, b, c], rest);
    SextetsConcat(head, v);
    BitCounts(4, |v|);
    var n := 8 * |rest|;
    assert (Sextets(head) + Sextets(v))[..24 + n] == Sextets(head) + Sextets(v)[..n];
  }

  lemma {:induction false} KeptFollowsVisible(s: seq<byte>, t: seq<byte>)
    requires Visible(s) == t && forall i :: 0 <= i < |t| ==> Value(t[i]).Some?
    ensures Kept(s).Some? && |Kept(s).value| == |t|
    ensures forall i :: 0 <= i < |t| ==> Kept(s).value[i] == Value(t[i]).value
  {
    if s != [] {
      if Skipped(s[0]) {
        KeptFollowsVisible(s[1..], t);
      } else {
        assert t[0] == s[0] && t[1..] == Visible(s[1..]);
        KeptFollowsVisible(s[1..], t[1..]);
      }
    }
  }

  /** Round trip: whatever padding and white space is put around or inside the
      encoding of `bytes`, decoding can only return `bytes`. */
  lemma DecodingInvertsEncoding(bytes: seq<byte>, s: seq<byte>, out: seq<byte>)
    requires Visible(s) == Encode(bytes)
    ensures Decodable(s) && Kept(s).Some?
    ensures Packs(Kept(s).value, out) <==> out == bytes
  {
    EncodedValuesAreSextets(bytes);
    var v := EncodeValues(bytes);
    forall i | 0 <= i < |v| ensures Value(Encode(bytes)[i]) == Some(v[i]) {
      AlphabetRoundTrip(v[i]);
    }
    KeptFollowsVisible(s, Encode(bytes));
    KeptIffDecodable(s);
    assert Kept(s).value == v;
    EncodedValuesPack(bytes);
    if Packs(v, out) { PacksIsUnique(v, bytes, out); }
  }
}
