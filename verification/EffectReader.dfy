/** A reader for the byte string hashed by `effect_digest`, which gets back exactly the entries
    that were written. */
module EffectReader {
  import opened Text
  import opened EffectEncoding
  import Utf8

  // ----- the pieces ---------------------------------------------------------

  /** A decimal number up to a colon, and what follows. */
  function ReadLength(s: seq<byte>, value: nat): Option<(nat, seq<byte>)>
    decreases |s|
  {
    if s == [] then None
    else if s[0] == 58 then Some((value, s[1..]))
    else if 48 <= s[0] <= 57 then ReadLength(s[1..], 10 * value + (s[0] - 48))
    else None
  }

  /** A length, a colon and that many bytes of UTF-8. */
  function ReadText(s: seq<byte>): Option<(string, seq<byte>)> {
    var head := ReadLength(s, 0);
    if head.None? || head.value.0 > |head.value.1| then None
    else
      var n, rest := head.value.0, head.value.1;
      var text := Utf8.Decode(rest[..n]);
      if text.None? then None else Some((text.value, rest[n..]))
  }

  /** A flag and, if it is set, a big-endian number of four bytes. */
  function ReadMode(s: seq<byte>): Option<(Option<int>, seq<byte>)> {
    if s == [] || s[0] > 1 then None
    else if s[0] == 0 then Some((None, s[1..]))
    else if |s| < 5 then None
    else
      var a: int, b: int, c: int, d: int := s[1], s[2], s[3], s[4];
      Some((Some(a * 0x100_0000 + b * 0x1_0000 + c * 256 + d), s[5..]))
  }

  /** A flag and, if it is set, a text. */
  function ReadContent(s: seq<byte>): Option<(Option<string>, seq<byte>)> {
    if s == [] || s[0] > 1 then None
    else if s[0] == 0 then Some((None, s[1..]))
    else
      var text := ReadText(s[1..]);
      if text.None? then None else Some((Some(text.value.0), text.value.1))
  }

  /** One entry: a mark, path, kind, mode and content. */
  function ReadItem(s: seq<byte>): Option<(Item, seq<byte>)> {
    if s == [] || s[0] != 1 then None
    else
      var path := ReadText(s[1..]);
      if path.None? then None
      else
        var kind := ReadText(path.value.1);
        if kind.None? then None
        else
          var mode := ReadMode(kind.value.1);
          if mode.None? then None
          else
            var content := ReadContent(mode.value.1);
            if content.None? then None
            else Some((Item(path.value.0, FileIdentity(kind.value.0, mode.value.0, content.value.0, {})), content.value.1))
  }

  /** Entries up to the end. */
  function ReadItems(s: seq<byte>): Option<seq<Item>>
    decreases |s|
  {
    if s == [] then Some([])
    else
      var first := ReadItem(s);
      if first.None? || |first.value.1| >= |s| then None
      else
        var rest := ReadItems(first.value.1);
        if rest.None? then None else Some([first.value.0] + rest.value)
  }

  const NAME: string := "a3s.code.workspace-effect-state.v1"

  /** The name of the format, a zero byte, and the entries. */
  function ReadState(s: seq<byte>): Option<seq<Item>> {
    if |s| <= |NAME| || s[|NAME|] != 0 || exists i :: 0 <= i < |NAME| && s[i] != NAME[i] as int then None
    else ReadItems(s[|NAME| + 1..])
  }

  // ----- reading back -------------------------------------------------------

  /** Digits read on top of a number read before. */
  function Appended(value: nat, digits: string): nat
    requires forall i :: 0 <= i < |digits| ==> IsDigit(digits[i])
    decreases |digits|
  {
    if digits == "" then value
    else
      assert IsDigit(digits[0]);
      Appended(10 * value + (digits[0] as int - '0' as int), digits[1..])
  }

  lemma {:induction false} AppendedSnoc(value: nat, digits: string, c: char)
    requires IsDigit(c) && forall i :: 0 <= i < |digits| ==> IsDigit(digits[i])
    ensures Appended(value, digits + [c]) == 10 * Appended(value, digits) + (c as int - '0' as int)
    decreases |digits|
  {
    if digits == "" {
      assert digits + [c] == [c] && [c][1..] == "";
    } else {
      assert (digits + [c])[0] == digits[0] && (digits + [c])[1..] == digits[1..] + [c];
      AppendedSnoc(10 * value + (digits[0] as int - '0' as int), digits[1..], c);
    }
  }

  lemma {:induction false} AppendedDecimal(n: nat)
    ensures Appended(0, Decimal(n)) == n
  {
    if n < 10 {
      assert Decimal(n)[1..] == "";
    } else {
      AppendedDecimal(n / 10);
      AppendedSnoc(0, Decimal(n / 10), DigitChar(n % 10));
    }
  }

  lemma {:induction false} LengthReads(digits: string, value: nat, x: seq<byte>)
    requires forall i :: 0 <= i < |digits| ==> IsDigit(digits[i])
    ensures ReadLength(Ascii(digits) + [COLON] + x, value) == Some((Appended(value, digits), x))
    decreases |digits|
  {
    var s := Ascii(digits) + [COLON] + x;
    if digits == "" {
      assert Ascii(digits) == [] && s == [COLON] + x && s[1..] == x;
    } else {
      assert s[0] == digits[0] as int;
      assert Ascii(digits)[1..] == Ascii(digits[1..]);
      assert s[1..] == Ascii(digits[1..]) + [COLON] + x;
      LengthReads(digits[1..], 10 * value + (digits[0] as int - '0' as int), x);
    }
  }

  lemma TextReads(text: string, x: seq<byte>)
    ensures ReadText(Field(text) + x) == Some((text, x))
  {
    hide ReadLength, Ascii, Appended, Utf8.Encode, Utf8.Decode;
    var data := Utf8.Encode(text);
    assert Field(text) + x == Ascii(Decimal(|data|)) + [COLON] + (data + x);
    LengthReads(Decimal(|data|), 0, data + x);
    AppendedDecimal(|data|);
    assert (data + x)[..|data|] == data && (data + x)[|data|..] == x;
    Utf8.DecodeInverts(text);
  }

  lemma ModeReads(mode: Option<int>, x: seq<byte>)
    requires mode.Some? ==> 0 <= mode.value < 0x1_0000_0000
    ensures ReadMode(EncodeMode(mode) + x) == Some((mode, x))
  {
    hide BigEndian32;
    var s := EncodeMode(mode) + x;
    if mode.None? {
      assert s[1..] == x;
    } else {
      var r := BigEndian32(mode.value);
      assert s[1] == r[0] && s[2] == r[1] && s[3] == r[2] && s[4] == r[3] && s[5..] == x;
    }
  }

  lemma ContentReads(content: Option<string>, x: seq<byte>)
    ensures ReadContent(EncodeContent(content) + x) == Some((content, x))
  {
    hide Field, ReadText, EncodeContent;
    ContentTail(content, x);
    if content.Some? { TextReads(content.value, x); }
  }

  lemma ItemReads(item: Item, x: seq<byte>)
    requires Acceptable(item.after)
    ensures ReadItem(EncodeItem(item) + x) == Some((item, x)) && |EncodeItem(item)| > 0
  {
    hide Field, EncodeMode, EncodeContent, ReadText, ReadMode, ReadContent, ValidDigest;
    ItemGroups(item, x);
    var s4 := EncodeContent(item.after.contentDigest) + x;
    var s3 := EncodeMode(item.after.mode) + s4;
    var s2 := Field(item.after.kind) + s3;
    TextReads(item.path, s2);
    TextReads(item.after.kind, s3);
    ModeReads(item.after.mode, s4);
    ContentReads(item.after.contentDigest, x);
  }

  lemma {:induction false} ItemsRead(items: seq<Item>)
    requires AllAcceptable(items)
    ensures ReadItems(EncodeItems(items)) == Some(items)
  {
    hide EncodeItem, ReadItem, Acceptable;
    if items != [] {
      ItemReads(items[0], EncodeItems(items[1..]));
      ItemsRead(items[1..]);
      assert items == [items[0]] + items[1..];
    }
  }

  /** Reading the hashed bytes gives back exactly the entries, in the order written. */
  lemma StateReads(items: seq<Item>)
    requires AllAcceptable(items)
    ensures ReadState(Header() + EncodeItems(items)) == Some(items)
  {
    hide EncodeItems, ReadItems, Header, NAME;
    HeaderBytes();
    ItemsRead(items);
    var s := Header() + EncodeItems(items);
    assert s[|NAME| + 1..] == EncodeItems(items);
  }

  lemma HeaderBytes()
    ensures |Header()| == |NAME| + 1 && Header()[|NAME|] == 0
    ensures forall i :: 0 <= i < |NAME| ==> Header()[i] == NAME[i] as int
  {
    hide Utf8.Encode, NAME;
    NameIsAscii();
    AsciiBytes(NAME);
  }

  lemma NameIsAscii()
    ensures Header() == Utf8.Encode(NAME) + [0]
    ensures forall i :: 0 <= i < |NAME| ==> NAME[i] < '\U{0080}'
  {
    hide Utf8.Encode;
  }

  lemma {:induction false} AsciiBytes(s: string)
    requires forall i :: 0 <= i < |s| ==> s[i] < '\U{0080}'
    ensures |Utf8.Encode(s)| == |s| && forall i :: 0 <= i < |s| ==> Utf8.Encode(s)[i] == s[i] as int
  {
    if s != "" { AsciiBytes(s[1..]); }
  }
}
