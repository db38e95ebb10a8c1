/** The byte string hashed by `effect_digest` in
    scripts/verify_tui_coding_evidence.py: self-delimiting fields, so that the
    bytes determine the set of changed files. */
module EffectEncoding {
  import opened Text
  import Utf8

  type byte = Utf8.byte

  /** One `after` state. An absent member and a null one read alike. */
  datatype FileIdentity = FileIdentity(
    kind: string, mode: Option<int>, contentDigest: Option<string>, otherMembers: set<string>)

  datatype Item = Item(path: string, after: FileIdentity)

  // ----- the checks ---------------------------------------------------------

  predicate IsLowerHex(c: char) { '0' <= c <= '9' || 'a' <= c <= 'f' }

  predicate ValidDigest(value: string) {
    && "sha256:" <= value && |value| == 71
    && forall i :: 7 <= i < |value| ==> IsLowerHex(value[i])
  }

  predicate Acceptable(after: FileIdentity) {
    && after.otherMembers == {}
    && after.kind == "file"
    && (after.mode.Some? ==> 0 <= after.mode.value < 0x1_0000_0000)
    && (after.contentDigest.Some? ==> ValidDigest(after.contentDigest.value))
  }

  predicate AllAcceptable(items: seq<Item>) { forall i :: 0 <= i < |items| ==> Acceptable(items[i].after) }

  // ----- the encoding -------------------------------------------------------

  function DigitByte(c: char): byte
    requires IsDigit(c)
  {
    c as int
  }

  function Ascii(digits: string): seq<byte>
    requires forall i :: 0 <= i < |digits| ==> IsDigit(digits[i])
  {
    seq(|digits|, i requires 0 <= i < |digits| => DigitByte(digits[i]))
  }

  const COLON: byte := 58

  /** `len(data)`, a colon, `data`. */
  function Field(text: string): seq<byte> {
    var data := Utf8.Encode(text);
    Ascii(Decimal(|data|)) + [COLON] + data
  }

  function BigEndianValue(a: int, b: int, c: int, d: int): int { a * 0x100_0000 + b * 0x1_0000 + c * 256 + d }

  function BigEndian32(m: int): (r: seq<byte>)
    requires 0 <= m < 0x1_0000_0000
    ensures |r| == 4 && BigEndianValue(r[0], r[1], r[2], r[3]) == m
  {
    BigEndianDigits(m);
    [m / 0x100_0000, m / 0x1_0000 % 256, m / 256 % 256, m % 256]
  }

  function EncodeMode(mode: Option<int>): seq<byte>
    requires mode.Some? ==> 0 <= mode.value < 0x1_0000_0000
  {
    if mode.None? then [0] else [1] + BigEndian32(mode.value)
  }

  function EncodeContent(digest: Option<string>): seq<byte> {
    if digest.None? then [0] else [1] + Field(digest.value)
  }

  function EncodeItem(item: Item): seq<byte>
    requires Acceptable(item.after)
  {
    [1] + (Field(item.path) + (Field(item.after.kind)
                               + (EncodeMode(item.after.mode) + EncodeContent(item.after.contentDigest))))
  }

  function EncodeItems(items: seq<Item>): seq<byte>
    requires AllAcceptable(items)
  {
    if items == [] then [] else EncodeItem(items[0]) + EncodeItems(items[1..])
  }

  function Header(): seq<byte> { Utf8.Encode("a3s.code.workspace-effect-state.v1") + [0] }

  // ----- sorting the state --------------------------------------------------

  predicate DistinctPaths(items: seq<Item>) {
    forall i, j :: 0 <= i < j < |items| ==> items[i].path != items[j].path
  }

  /** Strictly increasing paths, as sorting a dictionary's items gives. */
  predicate Sorted(items: seq<Item>) {
    forall i, j :: 0 <= i < j < |items| ==> LexLess(items[i].path, items[j].path)
  }

  function Insert(item: Item, sorted: seq<Item>): seq<Item> {
    if sorted == [] || LexLess(item.path, sorted[0].path) then [item] + sorted
    else [sorted[0]] + Insert(item, sorted[1..])
  }

  function Sort(items: seq<Item>): seq<Item> {
    if items == [] then [] else Insert(items[0], Sort(items[1..]))
  }

  function Elements(items: seq<Item>): set<Item> { set x | x in items }

  lemma {:induction false} InsertSorts(item: Item, sorted: seq<Item>)
    requires Sorted(sorted) && forall i :: 0 <= i < |sorted| ==> sorted[i].path != item.path
    ensures Sorted(Insert(item, sorted))
    ensures Elements(Insert(item, sorted)) == Elements(sorted) + {item}
  {
    hide LexLess;
    if sorted != [] {
      var rest := sorted[1..];
      assert sorted == [sorted[0]] + rest;
      if LexLess(item.path, sorted[0].path) {
        forall j | 1 <= j < |sorted| ensures LexLess(item.path, sorted[j].path) {
          LexTransitive(item.path, sorted[0].path, sorted[j].path);
        }
      } else {
        LexTrichotomy(item.path, sorted[0].path);
        InsertSorts(item, rest);
        var r := Insert(item, rest);
        forall j | 0 <= j < |r| ensures LexLess(sorted[0].path, r[j].path) {
          assert r[j] in Elements(rest) + {item};
          if r[j] != item {
            var k :| 0 <= k < |rest| && rest[k] == r[j];
            assert sorted[k + 1] == rest[k];
          }
        }
      }
    }
  }

  lemma {:induction false} SortSorts(items: seq<Item>)
    requires DistinctPaths(items)
    ensures Sorted(Sort(items)) && Elements(Sort(items)) == Elements(items)
  {
    if items != [] {
      var rest := items[1..];
      SortSorts(rest);
      assert items == [items[0]] + rest;
      forall i | 0 <= i < |Sort(rest)| ensures Sort(rest)[i].path != items[0].path {
        assert Sort(rest)[i] in Elements(rest);
      }
      InsertSorts(items[0], Sort(rest));
    }
  }

  /** A strictly sorted sequence is determined by its elements. */
  lemma {:induction false} SortedUnique(xs: seq<Item>, ys: seq<Item>)
    requires Sorted(xs) && Sorted(ys) && Elements(xs) == Elements(ys)
    ensures xs == ys
  {
    assert xs != [] ==> xs[0] in Elements(xs);
    assert ys != [] ==> ys[0] in Elements(ys);
    if xs != [] && ys != [] {
      SameHead(xs, ys);
      assert xs == [xs[0]] + xs[1..] && ys == [ys[0]] + ys[1..];
      TailElements(xs);
      TailElements(ys);
      SortedUnique(xs[1..], ys[1..]);
    }
  }

  lemma SameHead(xs: seq<Item>, ys: seq<Item>)
    requires xs != [] && ys != [] && Sorted(xs) && Sorted(ys) && Elements(xs) == Elements(ys)
    ensures xs[0] == ys[0]
  {
    assert xs[0] in Elements(ys) && ys[0] in Elements(xs);
    var i :| 0 <= i < |ys| && ys[i] == xs[0];
    var j :| 0 <= j < |xs| && xs[j] == ys[0];
    LexTrichotomy(xs[0].path, ys[0].path);
  }

  lemma TailElements(xs: seq<Item>)
    requires xs != [] && Sorted(xs)
    ensures Elements(xs[1..]) == Elements(xs) - {xs[0]}
  {
    forall k | 1 <= k < |xs| ensures xs[k] != xs[0] { LexIrreflexive(xs[0].path); }
    assert xs == [xs[0]] + xs[1..];
  }

  // ----- the encoder --------------------------------------------------------

  /** One turn of the loop: the checks and the fields of one entry. */
  method AppendItem(encoded: seq<byte>, item: Item) returns (r: Option<seq<byte>>)
    ensures r.Some? <==> Acceptable(item.after)
    ensures r.Some? ==> r.value == encoded + EncodeItem(item)
  {
    hide Field;
    var after := item.after;
    if after.otherMembers != {} || after.kind != "file" {
      return None;
    }
    var bytes := encoded + [1] + Field(item.path) + Field(after.kind);
    if after.mode.Some? && !(0 <= after.mode.value < 0x1_0000_0000) {
      return None;
    }
    bytes := bytes + EncodeMode(after.mode);
    if after.contentDigest.Some? && !ValidDigest(after.contentDigest.value) {
      return None;
    }
    bytes := bytes + EncodeContent(after.contentDigest);
    return Some(bytes);
  }

  lemma NothingEncoded()
    ensures EncodeItems([]) == []
  {
  }

  /** `effect_digest` up to the hash; `items` is the dictionary in insertion order. */
  method EffectBytes(items: seq<Item>) returns (encoded: Option<seq<byte>>)
    requires DistinctPaths(items)
    ensures encoded.Some? <==> AllAcceptable(items)
    ensures encoded.Some? ==> AllAcceptable(Sort(items)) && encoded.value == Header() + EncodeItems(Sort(items))
  {
    hide EncodeItem, Header, Sort, DistinctPaths, Acceptable, EncodeItems;
    NothingEncoded();
    SortSorts(items);
    SameAcceptance(items, Sort(items));
    var sorted := Sort(items);
    var bytes := Header();
    var i := 0;
    while i < |sorted|
      invariant 0 <= i <= |sorted|
      invariant AllAcceptable(sorted[..i]) && bytes == Header() + EncodeItems(sorted[..i])
    {
      var next := AppendItem(bytes, sorted[i]);
      if next.None? {
        return None;
      }
      bytes := next.value;
      EncodeSnoc(sorted[..i], sorted[i]);
      assert sorted[..i + 1] == sorted[..i] + [sorted[i]];
      assert Header() + EncodeItems(sorted[..i]) + EncodeItem(sorted[i])
          == Header() + (EncodeItems(sorted[..i]) + EncodeItem(sorted[i]));
      i := i + 1;
    }
    assert sorted[..i] == sorted;
    return Some(bytes);
  }

  lemma SameAcceptance(xs: seq<Item>, ys: seq<Item>)
    requires Elements(xs) == Elements(ys)
    ensures AllAcceptable(xs) <==> AllAcceptable(ys)
  {
    forall i | 0 <= i < |xs| ensures xs[i] in Elements(ys) { assert xs[i] in Elements(xs); }
    forall i | 0 <= i < |ys| ensures ys[i] in Elements(xs) { assert ys[i] in Elements(ys); }
  }

  lemma {:induction false} EncodeSnoc(items: seq<Item>, item: Item)
    requires AllAcceptable(items) && Acceptable(item.after)
    ensures AllAcceptable(items + [item])
    ensures EncodeItems(items + [item]) == EncodeItems(items) + EncodeItem(item)
  {
    hide EncodeItem;
    if items == [] {
      assert items + [item] == [item];
    } else {
      assert (items + [item])[1..] == items[1..] + [item];
      EncodeSnoc(items[1..], item);
    }
  }

  // ----- unique decoding ----------------------------------------------------

  lemma AsciiInjective(d: string, e: string)
    requires forall i :: 0 <= i < |d| ==> IsDigit(d[i])
    requires forall i :: 0 <= i < |e| ==> IsDigit(e[i])
    requires Ascii(d) == Ascii(e)
    ensures d == e
  {
    assert |Ascii(d)| == |d| && |Ascii(e)| == |e|;
    forall i | 0 <= i < |d| ensures d[i] == e[i] { assert Ascii(d)[i] == Ascii(e)[i]; }
  }

  lemma NoColonBefore(d: string, x: seq<byte>)
    requires forall i :: 0 <= i < |d| ==> IsDigit(d[i])
    ensures forall i :: 0 <= i < |d| ==> (Ascii(d) + [COLON] + x)[i] != COLON
  {
    forall i | 0 <= i < |d| ensures (Ascii(d) + [COLON] + x)[i] != COLON {
      assert (Ascii(d) + [COLON] + x)[i] == DigitByte(d[i]);
    }
  }

  /** The first colon ends the length, so equal texts have equal lengths. */
  lemma LengthPrefix(d: string, x: seq<byte>, e: string, y: seq<byte>)
    requires forall i :: 0 <= i < |d| ==> IsDigit(d[i])
    requires forall i :: 0 <= i < |e| ==> IsDigit(e[i])
    requires Ascii(d) + [COLON] + x == Ascii(e) + [COLON] + y
    ensures d == e && x == y
  {
    var p, q := Ascii(d) + [COLON] + x, Ascii(e) + [COLON] + y;
    assert p[|d|] == COLON && q[|e|] == COLON;
    NoColonBefore(d, x);
    NoColonBefore(e, y);
    assert |d| == |e|;
    assert Ascii(d) == p[..|d|] && Ascii(e) == q[..|e|];
    assert x == p[|d| + 1..] && y == q[|e| + 1..];
    AsciiInjective(d, e);
  }

  /** A field and what follows it can be told apart in one way only. */
  lemma FieldPrefix(s: string, x: seq<byte>, t: string, y: seq<byte>)
    requires Field(s) + x == Field(t) + y
    ensures s == t && x == y
  {
    var a, b := Utf8.Encode(s), Utf8.Encode(t);
    assert Field(s) + x == Ascii(Decimal(|a|)) + [COLON] + (a + x);
    assert Field(t) + y == Ascii(Decimal(|b|)) + [COLON] + (b + y);
    LengthPrefix(Decimal(|a|), a + x, Decimal(|b|), b + y);
    DecimalInjective(|a|, |b|);
    assert a == (a + x)[..|a|] && b == (b + y)[..|b|];
    assert x == (a + x)[|a|..] && y == (b + y)[|b|..];
    Utf8.EncodeInjective(s, t);
  }

  lemma BigEndianInjective(m: int, n: int)
    requires 0 <= m < 0x1_0000_0000 && 0 <= n < 0x1_0000_0000
    requires BigEndian32(m) == BigEndian32(n)
    ensures m == n
  {
    BigEndianDigits(m);
    BigEndianDigits(n);
    var a, b := BigEndian32(m), BigEndian32(n);
    assert a[0] == b[0] && a[1] == b[1] && a[2] == b[2] && a[3] == b[3];
  }

  lemma BigEndianDigits(m: int)
    requires 0 <= m < 0x1_0000_0000
    ensures m == m / 0x100_0000 * 0x100_0000 + m / 0x1_0000 % 256 * 0x1_0000 + m / 256 % 256 * 256 + m % 256
  {
    assert m == 256 * (m / 256) + m % 256;
    assert m / 0x1_0000 == m / 256 / 256 && m / 0x100_0000 == m / 0x1_0000 / 256;
    assert m / 256 == 256 * (m / 0x1_0000) + m / 256 % 256;
    assert m / 0x1_0000 == 256 * (m / 0x100_0000) + m / 0x1_0000 % 256;
  }

  lemma ModePrefix(m: Option<int>, x: seq<byte>, n: Option<int>, y: seq<byte>)
    requires m.Some? ==> 0 <= m.value < 0x1_0000_0000
    requires n.Some? ==> 0 <= n.value < 0x1_0000_0000
    requires EncodeMode(m) + x == EncodeMode(n) + y
    ensures m == n && x == y
  {
    var p, q := EncodeMode(m) + x, EncodeMode(n) + y;
    assert p[0] == (if m.None? then 0 else 1) && q[0] == (if n.None? then 0 else 1);
    if m.None? {
      assert x == p[1..] && y == q[1..];
    } else {
      assert p[1..5] == BigEndian32(m.value) && q[1..5] == BigEndian32(n.value);
      BigEndianInjective(m.value, n.value);
      assert x == p[5..] && y == q[5..];
    }
  }

  lemma ContentTail(c: Option<string>, x: seq<byte>)
    ensures EncodeContent(c) + x != [] && (EncodeContent(c) + x)[0] == if c.None? then 0 else 1
    ensures (EncodeContent(c) + x)[1..] == if c.None? then x else Field(c.value) + x
  {
    hide Field;
  }

  lemma ContentPrefix(c: Option<string>, x: seq<byte>, d: Option<string>, y: seq<byte>)
    requires EncodeContent(c) + x == EncodeContent(d) + y
    ensures c == d && x == y
  {
    hide Field, EncodeContent;
    ContentTail(c, x);
    ContentTail(d, y);
    if c.Some? && d.Some? {
      FieldPrefix(c.value, x, d.value, y);
    }
  }

  /** An encoded entry without its first byte, from field to field. */
  lemma ItemGroups(a: Item, x: seq<byte>)
    requires Acceptable(a.after)
    ensures (EncodeItem(a) + x)[1..]
            == Field(a.path) + (Field(a.after.kind) + (EncodeMode(a.after.mode) + (EncodeContent(a.after.contentDigest) + x)))
  {
    hide Field, EncodeMode, EncodeContent, ValidDigest;
    Grouped(Field(a.path), Field(a.after.kind), EncodeMode(a.after.mode), EncodeContent(a.after.contentDigest), x);
  }

  lemma Grouped(p: seq<byte>, q: seq<byte>, r: seq<byte>, s: seq<byte>, x: seq<byte>)
    ensures ([1] + (p + (q + (r + s))) + x)[1..] == p + (q + (r + (s + x)))
  {
    assert r + s + x == r + (s + x);
    assert q + (r + s) + x == q + (r + s + x);
    assert p + (q + (r + s)) + x == p + (q + (r + s) + x);
  }

  lemma ItemPrefix(a: Item, x: seq<byte>, b: Item, y: seq<byte>)
    requires Acceptable(a.after) && Acceptable(b.after)
    requires EncodeItem(a) + x == EncodeItem(b) + y
    ensures a == b && x == y
  {
    hide Field, EncodeMode, EncodeContent, EncodeItem, ValidDigest;
    var a4, b4 := EncodeContent(a.after.contentDigest) + x, EncodeContent(b.after.contentDigest) + y;
    var a3, b3 := EncodeMode(a.after.mode) + a4, EncodeMode(b.after.mode) + b4;
    var a2, b2 := Field(a.after.kind) + a3, Field(b.after.kind) + b3;
    ItemGroups(a, x);
    ItemGroups(b, y);
    FieldPrefix(a.path, a2, b.path, b2);
    FieldPrefix(a.after.kind, a3, b.after.kind, b3);
    ModePrefix(a.after.mode, a4, b.after.mode, b4);
    ContentPrefix(a.after.contentDigest, x, b.after.contentDigest, y);
  }

  lemma ItemNonempty(a: Item)
    requires Acceptable(a.after)
    ensures EncodeItem(a) != []
  {
  }

  lemma {:induction false} ItemsInjective(xs: seq<Item>, ys: seq<Item>)
    requires AllAcceptable(xs) && AllAcceptable(ys) && EncodeItems(xs) == EncodeItems(ys)
    ensures xs == ys
  {
    hide EncodeItem;
    if xs != [] { ItemNonempty(xs[0]); }
    if ys != [] { ItemNonempty(ys[0]); }
    if xs != [] && ys != [] {
      ItemPrefix(xs[0], EncodeItems(xs[1..]), ys[0], EncodeItems(ys[1..]));
      ItemsInjective(xs[1..], ys[1..]);
      assert xs == [xs[0]] + xs[1..] && ys == [ys[0]] + ys[1..];
    }
  }

  /** Two states have the same bytes exactly when they hold the same entries,
      whatever order they were inserted in. */
  lemma EncodingDeterminesState(xs: seq<Item>, ys: seq<Item>)
    requires DistinctPaths(xs) && DistinctPaths(ys)
    requires AllAcceptable(Sort(xs)) && AllAcceptable(Sort(ys))
    ensures Header() + EncodeItems(Sort(xs)) == Header() + EncodeItems(Sort(ys)) <==> Elements(xs) == Elements(ys)
  {
    SortSorts(xs);
    SortSorts(ys);
    var h, p, q := Header(), EncodeItems(Sort(xs)), EncodeItems(Sort(ys));
    if h + p == h + q {
      assert p == (h + p)[|h|..] && q == (h + q)[|h|..];
      ItemsInjective(Sort(xs), Sort(ys));
    }
    if Elements(xs) == Elements(ys) {
      SortedUnique(Sort(xs), Sort(ys));
    }
  }

  /** Under an injective hash, equal digests mean equal states. */
  lemma EqualDigestsMeanEqualStates(hash: seq<byte> -> string, xs: seq<Item>, ys: seq<Item>)
    requires forall p, q :: hash(p) == hash(q) ==> p == q
    requires DistinctPaths(xs) && DistinctPaths(ys)
    requires AllAcceptable(Sort(xs)) && AllAcceptable(Sort(ys))
    ensures hash(Header() + EncodeItems(Sort(xs))) == hash(Header() + EncodeItems(Sort(ys)))
            <==> Elements(xs) == Elements(ys)
  {
    hide *;
    EncodingDeterminesState(xs, ys);
  }
}
