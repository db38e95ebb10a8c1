/** Diagnostic ranges, acp/src/document_diagnostics.rs: positions count UTF-16 units
    within a line, and an accepted range denotes one substring of the text. */
module Diagnostics {
  import opened Text

  // ----- positions ----------------------------------------------------------

  datatype Position = Position(line: nat, character: nat)

  /** The derived order. */
  predicate Before(p: Position, q: Position) { p.line < q.line || (p.line == q.line && p.character < q.character) }

  function Utf16Width(c: char): nat { if c as int < 0x1_0000 then 1 else 2 }

  function Utf16Length(s: string): nat {
    if s == "" then 0 else Utf16Length(s[..|s| - 1]) + Utf16Width(s[|s| - 1])
  }

  /** The index of the first line feed, or the length. */
  function LineFeed(text: string): (f: nat)
    ensures f <= |text| && (f < |text| ==> text[f] == '\n') && forall k :: 0 <= k < f ==> text[k] != '\n'
  {
    if text == "" || text[0] == '\n' then 0
    else
      var f := LineFeed(text[1..]);
      assert forall k :: 1 <= k < f + 1 ==> text[k] == text[1..][k - 1];
      f + 1
  }

  /** `split('\n')` */
  function Lines(text: string): (r: seq<string>)
    ensures |r| >= 1
    decreases |text|
  {
    var f := LineFeed(text);
    if f == |text| then [text] else [text[..f]] + Lines(text[f + 1..])
  }

  function Strip(line: string): string {
    if line != "" && line[|line| - 1] == '\r' then line[..|line| - 1] else line
  }

  /** Some prefix of the line has this UTF-16 length. */
  ghost predicate ValidPosition(text: string, p: Position) {
    p.line < |Lines(text)| && exists k: nat :: UnitsTo(Strip(Lines(text)[p.line]), k, p.character)
  }

  predicate UnitsTo(line: string, k: nat, units: nat) { k <= |line| && Utf16Length(line[..k]) == units }

  method PositionValid(text: string, p: Position) returns (valid: bool)
    ensures valid <==> ValidPosition(text, p)
  {
    var lines := Lines(text);
    if p.line >= |lines| {
      return false;
    }
    var line := Strip(lines[p.line]);
    var offset := 0;
    for k := 0 to |line|
      invariant offset == Utf16Length(line[..k])
      invariant forall j: nat :: j < k ==> !UnitsTo(line, j, p.character)
    {
      assert line[..k + 1][..k] == line[..k];
      if offset == p.character {
        assert UnitsTo(line, k, p.character);
        return true;
      }
      offset := offset + Utf16Width(line[k]);
    }
    assert line[..|line|] == line;
    assert UnitsTo(line, |line|, p.character) <==> offset == p.character;
    return offset == p.character;
  }

  // ----- offsets ------------------------------------------------------------

  /** The position reached after reading `prefix`. */
  function Reached(prefix: string): Position {
    if prefix == "" then Position(0, 0)
    else
      var p, c := Reached(prefix[..|prefix| - 1]), prefix[|prefix| - 1];
      if c == '\n' then Position(p.line + 1, 0) else Position(p.line, p.character + Utf16Width(c))
  }

  function PositionAt(text: string, offset: nat): Position
    requires offset <= |text|
  {
    Reached(text[..offset])
  }

  /** Offsets behind a carriage return that ends its line are not positions. */
  predicate BehindReturn(text: string, i: nat)
    requires i <= |text|
  {
    i > 0 && text[i - 1] == '\r' && (i == |text| || text[i] == '\n')
  }

  predicate Denotes(text: string, p: Position, i: nat) {
    i <= |text| && !BehindReturn(text, i) && PositionAt(text, i) == p
  }

  /** Positions follow the order of the offsets, strictly. */
  lemma {:induction false} PositionsIncrease(text: string, i: nat, j: nat)
    requires i < j <= |text|
    ensures Before(PositionAt(text, i), PositionAt(text, j))
    decreases j
  {
    assert text[..j][..j - 1] == text[..j - 1];
    if i < j - 1 {
      PositionsIncrease(text, i, j - 1);
    }
  }

  lemma {:induction false} FirstLineReached(text: string, i: nat)
    requires i <= LineFeed(text)
    ensures PositionAt(text, i) == Position(0, Utf16Length(text[..i]))
  {
    if i > 0 {
      FirstLineReached(text, i - 1);
      assert text[..i][..i - 1] == text[..i - 1];
    }
  }

  lemma {:induction false} LaterLineReached(text: string, i: nat)
    requires LineFeed(text) < |text| && i <= |text| - LineFeed(text) - 1
    ensures var f := LineFeed(text);
            var p := PositionAt(text[f + 1..], i);
            PositionAt(text, f + 1 + i) == Position(p.line + 1, p.character)
  {
    hide LineFeed;
    var f := LineFeed(text);
    var rest := text[f + 1..];
    if i == 0 {
      FirstLineReached(text, f);
      assert text[..f + 1][..f] == text[..f];
    } else {
      LaterLineReached(text, i - 1);
      assert text[..f + 1 + i][..f + i] == text[..f + i];
      assert rest[..i][..i - 1] == rest[..i - 1];
    }
  }

  lemma FirstLineColumns(text: string, k: nat)
    ensures var line := Strip(Lines(text)[0]);
            k <= |line| <==> k <= LineFeed(text) && !BehindReturn(text, k)
    ensures k <= |Strip(Lines(text)[0])| ==> Strip(Lines(text)[0])[..k] == text[..k]
  {
    hide LineFeed, Lines;
    FirstOfLines(text);
    var line := text[..LineFeed(text)];
    assert line != "" ==> line[|line| - 1] == text[LineFeed(text) - 1];
  }

  lemma FirstOfLines(text: string)
    ensures Lines(text)[0] == text[..LineFeed(text)]
  {
    hide LineFeed;
    assert text[..|text|] == text;
  }

  lemma LaterOfLines(text: string, n: nat)
    requires LineFeed(text) < |text| && n > 0
    ensures var later := Lines(text[LineFeed(text) + 1..]);
            && (n < |Lines(text)| <==> n - 1 < |later|)
            && (n < |Lines(text)| ==> Lines(text)[n] == later[n - 1])
  {
    hide LineFeed;
  }

  lemma ValidInFirstLine(text: string, p: Position)
    requires p.line == 0
    ensures ValidPosition(text, p) <==> exists i: nat :: Denotes(text, p, i)
  {
    hide Utf16Length, PositionAt, BehindReturn, Lines, Strip;
    var line := Strip(Lines(text)[0]);
    if k: nat :| UnitsTo(line, k, p.character) {
      FirstLineColumns(text, k);
      FirstLineReached(text, k);
      assert Denotes(text, p, k);
    }
    if i: nat :| Denotes(text, p, i) {
      OnlyInFirstLine(text, p, i);
      FirstLineColumns(text, i);
      FirstLineReached(text, i);
      assert UnitsTo(line, i, p.character);
    }
  }

  lemma OnlyInFirstLine(text: string, p: Position, i: nat)
    requires Denotes(text, p, i)
    ensures p.line == 0 <==> i <= LineFeed(text)
  {
    hide PositionAt;
    if i <= LineFeed(text) {
      FirstLineReached(text, i);
    } else {
      LaterLineReached(text, i - LineFeed(text) - 1);
    }
  }

  lemma ValidInLaterLine(text: string, p: Position)
    requires LineFeed(text) < |text| && p.line > 0
    ensures ValidPosition(text, p) <==> ValidPosition(text[LineFeed(text) + 1..], Position(p.line - 1, p.character))
  {
    hide Strip, LineFeed, Lines, UnitsTo;
    LaterOfLines(text, p.line);
  }

  lemma DenotedLater(text: string, p: Position, j: nat)
    requires LineFeed(text) < |text| && p.line > 0 && j <= |text| - LineFeed(text) - 1
    ensures Denotes(text, p, LineFeed(text) + 1 + j)
            <==> Denotes(text[LineFeed(text) + 1..], Position(p.line - 1, p.character), j)
  {
    hide PositionAt, LineFeed, BehindReturn;
    LaterLineReached(text, j);
    BehindReturnLater(text, LineFeed(text), j);
  }

  lemma BehindReturnLater(text: string, f: nat, j: nat)
    requires f < |text| && text[f] == '\n' && j <= |text| - f - 1
    ensures BehindReturn(text, f + 1 + j) <==> BehindReturn(text[f + 1..], j)
  {
  }

  /** A position is valid exactly when it is the position of some offset that is
      not behind a stripped carriage return. */
  lemma {:induction false} ValidIffDenoted(text: string, p: Position)
    ensures ValidPosition(text, p) <==> exists i: nat :: Denotes(text, p, i)
    decreases |text|
  {
    hide Utf16Length, PositionAt, ValidPosition, BehindReturn, Denotes;
    var f := LineFeed(text);
    if p.line == 0 {
      ValidInFirstLine(text, p);
    } else if f == |text| {
      NoLaterLine(text, p);
    } else {
      var rest, q := text[f + 1..], Position(p.line - 1, p.character);
      ValidIffDenoted(rest, q);
      ValidInLaterLine(text, p);
      if i: nat :| Denotes(rest, q, i) {
        DenotedInRange(rest, q, i);
        DenotedLater(text, p, i);
        assert Denotes(text, p, f + 1 + i);
      }
      if i: nat :| Denotes(text, p, i) {
        DenotedInRange(text, p, i);
        OnlyInFirstLine(text, p, i);
        DenotedLater(text, p, i - f - 1);
        assert Denotes(rest, q, i - f - 1);
      }
    }
  }

  lemma DenotedInRange(text: string, p: Position, i: nat)
    requires Denotes(text, p, i)
    ensures i <= |text|
  {
  }

  lemma NoLaterLine(text: string, p: Position)
    requires LineFeed(text) == |text| && p.line > 0
    ensures !ValidPosition(text, p)
    ensures forall i: nat :: !Denotes(text, p, i)
  {
    forall i: nat ensures !Denotes(text, p, i) {
      if i <= |text| {
        FirstLineReached(text, i);
      }
    }
  }

  /** A valid position has one offset. */
  lemma OneOffset(text: string, p: Position) returns (i: nat)
    requires ValidPosition(text, p)
    ensures Denotes(text, p, i)
    ensures forall j: nat :: Denotes(text, p, j) ==> j == i
  {
    hide ValidPosition, PositionAt;
    ValidIffDenoted(text, p);
    i :| Denotes(text, p, i);
    forall j: nat | Denotes(text, p, j) ensures j == i {
      if j < i { PositionsIncrease(text, j, i); }
      if i < j { PositionsIncrease(text, i, j); }
    }
  }

  /** Position order is offset order. */
  lemma OffsetOrder(text: string, p: Position, i: nat, q: Position, j: nat)
    requires Denotes(text, p, i) && Denotes(text, q, j)
    ensures Before(p, q) <==> i < j
    ensures p == q <==> i == j
  {
    hide PositionAt;
    if j < i { PositionsIncrease(text, j, i); }
    if i < j { PositionsIncrease(text, i, j); }
  }

  // ----- publications -------------------------------------------------------

  datatype Severity = Error | Warning | Information | Hint

  datatype Diagnostic = Diagnostic(start: Position, end: Position, severity: Severity, message: string)

  datatype Publication = Publication(publisherId: string, sequence: nat, version: nat, items: seq<Diagnostic>)

  datatype Snapshot = Snapshot(version: nat, text: string)

  /** UUID parsing and printing, and serialized sizes. */
  datatype Codec = Codec(
    parse: string -> Option<nat>, show: nat -> string,
    size: seq<Publication> -> nat, itemsSize: seq<Diagnostic> -> nat)

  const MAX_SEQUENCE: nat := 9_007_199_254_740_991

  ghost predicate ItemOk(text: string, d: Diagnostic) {
    && d.message != "" && Utf8Length(d.message) <= 2048 && '\0' !in d.message
    && !Before(d.end, d.start) && ValidPosition(text, d.start) && ValidPosition(text, d.end)
  }

  ghost predicate PublicationOk(codec: Codec, p: Publication, snapshot: Snapshot) {
    && codec.parse(p.publisherId).Some? && codec.show(codec.parse(p.publisherId).value) == p.publisherId
    && 0 < p.sequence <= MAX_SEQUENCE && p.version == snapshot.version
    && |p.items| <= 128 && codec.itemsSize(p.items) <= 16 * 1024
    && forall i :: 0 <= i < |p.items| ==> ItemOk(snapshot.text, p.items[i])
  }

  ghost predicate Accepted(codec: Codec, ps: seq<Publication>, snapshot: Snapshot) {
    && |ps| <= 16 && codec.size(ps) <= 96 * 1024
    && (forall i :: 0 <= i < |ps| ==> PublicationOk(codec, ps[i], snapshot))
    && (forall i, j :: 0 <= i < j < |ps| ==> ps[i].publisherId != ps[j].publisherId)
  }

  method ItemsValid(items: seq<Diagnostic>, text: string) returns (ok: bool)
    ensures ok <==> forall i :: 0 <= i < |items| ==> ItemOk(text, items[i])
  {
    hide ValidPosition;
    for k := 0 to |items|
      invariant forall i :: 0 <= i < k ==> ItemOk(text, items[i])
    {
      var item := items[k];
      if item.message == "" || Utf8Length(item.message) > 2048 || '\0' in item.message || Before(item.end, item.start) {
        return false;
      }
      var start := PositionValid(text, item.start);
      if !start {
        return false;
      }
      var end := PositionValid(text, item.end);
      if !end {
        return false;
      }
    }
    return true;
  }

  /** One publication, its publisher's identity apart. */
  method PublicationValid(codec: Codec, p: Publication, snapshot: Snapshot) returns (ok: bool)
    ensures ok <==> PublicationOk(codec, p, snapshot)
  {
    hide ItemOk;
    var id := codec.parse(p.publisherId);
    if id.None? || codec.show(id.value) != p.publisherId {
      return false;
    }
    if p.sequence == 0 || p.sequence > MAX_SEQUENCE || p.version != snapshot.version || |p.items| > 128
       || codec.itemsSize(p.items) > 16 * 1024 {
      return false;
    }
    ok := ItemsValid(p.items, snapshot.text);
  }

  /** `validate`: accepts exactly the well-formed observations with distinct publishers. */
  method Validate(codec: Codec, ps: seq<Publication>, snapshot: Snapshot) returns (ok: bool)
    ensures ok <==> Accepted(codec, ps, snapshot)
  {
    hide ItemOk;
    if |ps| > 16 || codec.size(ps) > 96 * 1024 {
      return false;
    }
    var publishers: set<nat> := {};
    for k := 0 to |ps|
      invariant forall i :: 0 <= i < k ==> PublicationOk(codec, ps[i], snapshot)
      invariant forall i, j :: 0 <= i < j < k ==> ps[i].publisherId != ps[j].publisherId
      invariant forall id :: id in publishers <==> exists i :: 0 <= i < k && codec.parse(ps[i].publisherId) == Some(id)
    {
      ok := PublicationValid(codec, ps[k], snapshot);
      if !ok {
        return false;
      }
      var id := codec.parse(ps[k].publisherId).value;
      if id in publishers {
        var i :| 0 <= i < k && codec.parse(ps[i].publisherId) == Some(id);
        assert ps[i].publisherId == codec.show(id) == ps[k].publisherId;
        return false;
      }
      publishers := publishers + {id};
    }
    return true;
  }

  /** Every accepted range denotes one substring, whose ends are the only offsets
      at its positions. */
  lemma AcceptedRangeDenotes(codec: Codec, ps: seq<Publication>, snapshot: Snapshot, p: nat, k: nat)
    returns (i: nat, j: nat)
    requires Accepted(codec, ps, snapshot) && p < |ps| && k < |ps[p].items|
    ensures i <= j <= |snapshot.text|
    ensures var d := ps[p].items[k];
            && Denotes(snapshot.text, d.start, i) && Denotes(snapshot.text, d.end, j)
            && (forall i': nat, j': nat :: Denotes(snapshot.text, d.start, i') && Denotes(snapshot.text, d.end, j')
                                           ==> i' == i && j' == j)
  {
    hide ValidPosition, PositionAt;
    var d := ps[p].items[k];
    assert PublicationOk(codec, ps[p], snapshot);
    assert ItemOk(snapshot.text, d);
    i := OneOffset(snapshot.text, d.start);
    j := OneOffset(snapshot.text, d.end);
    OffsetOrder(snapshot.text, d.end, j, d.start, i);
  }
}
