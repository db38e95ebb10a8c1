/** The connector note printer and its two readers, acp/src/connector_notes.rs.
    Offsets count characters; the line endings searched for are ASCII, so every
    byte offset of the source is a character boundary. */
module ConnectorNotes {
  import opened Text

  const DESCRIPTION_LIMIT: nat := 160
  const BODY_LIMIT: nat := 8000
  const BOM: char := '\U{FEFF}'

  predicate IsBreak(c: char) { c == '\n' || c == '\r' }

  predicate NoBreaks(s: string) { forall i :: 0 <= i < |s| ==> !IsBreak(s[i]) }

  // ----- logical lines ------------------------------------------------------

  /** A line without its ending, the ending, and the text after it. */
  datatype Cut = Cut(line: string, ending: string, rest: string)

  /** The longest prefix without a line break. */
  function LinePrefix(s: string): (r: string)
    ensures r <= s && NoBreaks(r)
    ensures |r| < |s| ==> IsBreak(s[|r|])
  {
    if s == "" || IsBreak(s[0]) then "" else [s[0]] + LinePrefix(s[1..])
  }

  function EndingOf(s: string): string {
    if s == "" then "" else if "\r\n" <= s then "\r\n" else [s[0]]
  }

  function FirstLine(s: string): Cut {
    var line := LinePrefix(s);
    var ending := EndingOf(s[|line|..]);
    Cut(line, ending, s[|line| + |ending|..])
  }

  predicate IsEnding(e: string) { e == "\n" || e == "\r" || e == "\r\n" }

  /** What a line and its ending are, and that cutting loses nothing. */
  lemma FirstLineCuts(s: string)
    requires s != ""
    ensures var c := FirstLine(s);
            && s == c.line + c.ending + c.rest && NoBreaks(c.line) && |c.rest| < |s|
            && (c.ending == "" ==> c.rest == "")
            && (c.ending != "" ==> IsEnding(c.ending))
            && (c.ending == "\r" ==> c.rest == "" || c.rest[0] != '\n')
  {
    var line := LinePrefix(s);
    var tail := s[|line|..];
    assert tail != "" ==> tail[0] == s[|line|];
  }

  /** The cut is the only one of that kind. */
  lemma CutIsUnique(line: string, ending: string, rest: string)
    requires NoBreaks(line) && (if ending == "" then rest == "" else IsEnding(ending))
    requires ending == "\r" ==> rest == "" || rest[0] != '\n'
    ensures FirstLine(line + ending + rest) == Cut(line, ending, rest)
  {
    EndingIs(ending, rest);
    PrefixIs(line, ending + rest);
    hide EndingOf, LinePrefix, NoBreaks;
    var s := line + ending + rest;
    assert s == line + (ending + rest);
    assert s[|line|..] == ending + rest;
  }

  lemma EndingIs(ending: string, rest: string)
    requires if ending == "" then rest == "" else IsEnding(ending)
    requires ending == "\r" ==> rest == "" || rest[0] != '\n'
    ensures EndingOf(ending + rest) == ending && (ending + rest == "" || IsBreak((ending + rest)[0]))
  {
    var tail := ending + rest;
    if ending == "\r\n" {
      assert tail[..2] == "\r\n";
    } else if ending != "" {
      assert tail[0] == ending[0] && (rest != "" ==> tail[1] == rest[0]);
      assert ending == [ending[0]];
    }
  }

  lemma {:induction false} PrefixIs(line: string, tail: string)
    requires NoBreaks(line) && (tail == "" || IsBreak(tail[0]))
    ensures LinePrefix(line + tail) == line
  {
    if line == "" {
      assert line + tail == tail;
    } else {
      assert (line + tail)[1..] == line[1..] + tail;
      PrefixIs(line[1..], tail);
    }
  }

  /** `next_logical_line`: nothing at the end of the text, otherwise the line at
      `start` and the offset of the next one. */
  method NextLogicalLine(text: string, start: nat) returns (r: Option<(string, nat)>)
    ensures r.None? <==> start >= |text|
    ensures r.Some? ==> r.value.1 <= |text| && start < r.value.1
    ensures r.Some? ==> var c := FirstLine(text[start..]); r.value.0 == c.line && text[r.value.1..] == c.rest
  {
    hide FirstLine;
    if start >= |text| {
      return None;
    }
    var index := start;
    while index < |text| && text[index] != '\n' && text[index] != '\r'
      invariant start <= index <= |text| && NoBreaks(text[start..index])
    {
      assert text[start..index + 1] == text[start..index] + [text[index]];
      index := index + 1;
    }
    var line := text[start..index];
    if index == |text| {
      CutAt(text, start, index, index);
      return Some((line, index));
    }
    var next := if text[index] == '\r' && index + 1 < |text| && text[index + 1] == '\n' then index + 2 else index + 1;
    CutAt(text, start, index, next);
    return Some((line, next));
  }

  lemma CutAt(text: string, start: nat, index: nat, next: nat)
    requires start <= index <= next <= |text| && NoBreaks(text[start..index])
    requires index == |text| || (IsBreak(text[index]) && next ==
               if text[index] == '\r' && index + 1 < |text| && text[index + 1] == '\n' then index + 2 else index + 1)
    ensures FirstLine(text[start..]) == Cut(text[start..index], text[index..next], text[next..])
  {
    var line, ending, rest := text[start..index], text[index..next], text[next..];
    assert text[start..] == line + ending + rest;
    if index < |text| {
      assert ending == if next == index + 2 then "\r\n" else [text[index]];
    }
    CutIsUnique(line, ending, rest);
  }

  function Cuts(s: string): seq<Cut>
    decreases |s|
  {
    if s == "" then [] else FirstLineCuts(s); [FirstLine(s)] + Cuts(FirstLine(s).rest)
  }

  function Rejoin(cuts: seq<Cut>): string {
    if cuts == [] then "" else cuts[0].line + cuts[0].ending + Rejoin(cuts[1..])
  }

  /** Repeated cutting splits any text into lines and endings that spell it. */
  lemma {:induction false} CutsSpell(s: string)
    ensures Rejoin(Cuts(s)) == s
    decreases |s|
  {
    if s != "" {
      FirstLineCuts(s);
      CutsSpell(FirstLine(s).rest);
      assert Cuts(s)[1..] == Cuts(FirstLine(s).rest);
    }
  }

  // ----- the body -----------------------------------------------------------

  predicate IsFence(line: string) { Trim(line) == "---" }

  function StripBom(s: string): string {
    if s != "" && s[0] == BOM then StripBom(s[1..]) else s
  }

  function StripBreaks(s: string): string {
    if s != "" && IsBreak(s[0]) then StripBreaks(s[1..]) else s
  }

  /** The text after the first fence line of `s`. */
  function AfterFence(s: string): Option<string>
    decreases |s|
  {
    if s == "" then None
    else
      FirstLineCuts(s);
      var c := FirstLine(s);
      if IsFence(c.line) then Some(StripBreaks(c.rest)) else AfterFence(c.rest)
  }

  function Body(text: string): Option<string> {
    var stripped := StripBom(text);
    if stripped == "" || !IsFence(FirstLine(stripped).line) then Some(text)
    else AfterFence(FirstLine(stripped).rest)
  }

  method NoteBody(text: string) returns (r: Option<string>)
    ensures r == Body(text)
  {
    var stripped := StripBom(text);
    var opening := NextLogicalLine(stripped, 0);
    assert stripped[0..] == stripped;
    if opening.None? {
      return Some(text);
    }
    if Trim(opening.value.0) != "---" {
      return Some(text);
    }
    var offset := opening.value.1;
    while true
      invariant offset <= |stripped| && Body(text) == AfterFence(stripped[offset..])
      decreases |stripped| - offset
    {
      var line := NextLogicalLine(stripped, offset);
      if line.None? {
        return None;
      }
      offset := line.value.1;
      if Trim(line.value.0) == "---" {
        return Some(StripBreaks(stripped[offset..]));
      }
    }
  }

  lemma {:induction false} NoFenceNoBody(s: string)
    ensures AfterFence(s).None? <==> forall i :: 0 <= i < |Cuts(s)| ==> !IsFence(Cuts(s)[i].line)
    decreases |s|
  {
    hide IsFence, FirstLine, StripBreaks;
    if s != "" {
      FirstLineCuts(s);
      var c := FirstLine(s);
      NoFenceNoBody(c.rest);
      assert Cuts(s) == [c] + Cuts(c.rest);
      if !IsFence(c.line) {
        assert forall i :: 1 <= i < |Cuts(s)| ==> Cuts(s)[i] == Cuts(c.rest)[i - 1];
        if AfterFence(s).Some? {
          var k :| 0 <= k < |Cuts(c.rest)| && IsFence(Cuts(c.rest)[k].line);
          assert IsFence(Cuts(s)[k + 1].line);
        }
      } else {
        assert IsFence(Cuts(s)[0].line);
      }
    }
  }

  /** A note fails closed exactly when its first logical line is a fence and no
      later one is. */
  lemma BodyIsNoneExactly(text: string)
    ensures var lines := Cuts(StripBom(text));
            Body(text).None? <==>
              lines != [] && IsFence(lines[0].line) && forall i :: 1 <= i < |lines| ==> !IsFence(lines[i].line)
  {
    hide IsFence, FirstLine, StripBom;
    var s := StripBom(text);
    if s != "" {
      FirstLineCuts(s);
      var c := FirstLine(s);
      NoFenceNoBody(c.rest);
      assert Cuts(s) == [c] + Cuts(c.rest);
      forall i | 0 <= i < |Cuts(c.rest)| ensures Cuts(c.rest)[i] == Cuts(s)[i + 1] {}
    }
  }

  /** The first fence among the lines of `s`. */
  predicate ClosesAt(lines: seq<Cut>, from: nat, k: nat) {
    && from <= k < |lines| && IsFence(lines[k].line) && forall i :: from <= i < k ==> !IsFence(lines[i].line)
  }

  lemma {:induction false} AfterCloser(s: string, k: nat)
    requires ClosesAt(Cuts(s), 0, k)
    ensures AfterFence(s) == Some(StripBreaks(Cuts(s)[k].rest))
    decreases |s|
  {
    hide IsFence, FirstLine, StripBreaks;
    if s != "" {
      FirstLineCuts(s);
      var c := FirstLine(s);
      assert Cuts(s) == [c] + Cuts(c.rest);
      if k > 0 {
        assert forall i :: 1 <= i < |Cuts(s)| ==> Cuts(s)[i] == Cuts(c.rest)[i - 1];
        assert !IsFence(Cuts(s)[0].line);
        forall i | 0 <= i < k - 1 ensures !IsFence(Cuts(c.rest)[i].line) { assert !IsFence(Cuts(s)[i + 1].line); }
        AfterCloser(c.rest, k - 1);
      }
    }
  }

  lemma StripBreaksKeeps(s: string)
    ensures StripBreaks(s) == s <==> s == "" || !IsBreak(s[0])
    ensures |StripBreaks(s)| <= |s|
  {
  }

  /** The body of a closed note is the text right behind the closer's own line
      ending exactly when that text does not begin with a further line break. */
  lemma BodyBehindCloser(text: string, k: nat)
    requires var lines := Cuts(StripBom(text)); lines != [] && IsFence(lines[0].line) && ClosesAt(lines, 1, k)
    ensures var behind := Cuts(StripBom(text))[k].rest;
            && Body(text) == Some(StripBreaks(behind))
            && (Body(text) == Some(behind) <==> behind == "" || !IsBreak(behind[0]))
  {
    hide IsFence, FirstLine;
    var s := StripBom(text);
    FirstLineCuts(s);
    var c := FirstLine(s);
    var lines := Cuts(s);
    assert lines == [c] + Cuts(c.rest);
    assert forall i :: 1 <= i < |lines| ==> lines[i] == Cuts(c.rest)[i - 1];
    forall i | 0 <= i < k - 1 ensures !IsFence(Cuts(c.rest)[i].line) { assert !IsFence(lines[i + 1].line); }
    AfterCloser(c.rest, k - 1);
    StripBreaksKeeps(lines[k].rest);
  }

  lemma CutsCons(line: string, rest: string)
    requires NoBreaks(line)
    ensures Cuts(line + "\n" + rest) == [Cut(line, "\n", rest)] + Cuts(rest)
  {
    CutIsUnique(line, "\n", rest);
    hide FirstLine, NoBreaks;
    assert line + "\n" + rest != "";
  }

  /** The shortest closed note in front of `rest`. */
  function ShortNote(rest: string): string { "---" + "\n" + ("---" + "\n" + rest) }

  lemma ShortNoteCuts(rest: string)
    ensures var lines := Cuts(ShortNote(rest));
            |lines| >= 2 && lines[0].line == "---" && lines[1] == Cut("---", "\n", rest)
  {
    hide Cuts;
    var line: string := "---";
    CutsCons(line, rest);
    CutsCons(line, line + "\n" + rest);
  }

  lemma ShortNoteBody(rest: string)
    ensures |Cuts(ShortNote(rest))| >= 2 && Cuts(ShortNote(rest))[1] == Cut("---", "\n", rest)
    ensures Body(ShortNote(rest)) == Some(StripBreaks(rest))
  {
    hide IsFence, Cuts, StripBreaks, FirstLine, StripBom, Body;
    FenceIsFence();
    NoBom(ShortNote(rest));
    ShortNoteCuts(rest);
    BodyBehindCloser(ShortNote(rest), 1);
  }

  lemma NoBom(text: string)
    requires text != "" && text[0] != BOM
    ensures StripBom(text) == text
  {
  }

  /** A blank line behind the closer is skipped along with the closer's own ending. */
  lemma BlankLineSkipped()
    ensures "---\n---\n\nx" == ShortNote("\nx")
    ensures Cuts(ShortNote("\nx"))[1].rest == "\nx" && Body(ShortNote("\nx")) == Some("x")
  {
    ShortNoteBody("\nx");
    hide Cuts, Body;
    assert "\nx"[1..] == "x";
  }

  // ----- the summary --------------------------------------------------------

  /** `str::lines`: LF ends a line, one CR before it is dropped, and a final LF
      starts no further line. */
  function Lines(s: string): seq<string>
    decreases |s|
  {
    if s == "" then []
    else
      var line := UntilLf(s);
      if |line| == |s| then [line] else [StripCr(line)] + Lines(s[|line| + 1..])
  }

  function UntilLf(s: string): (r: string)
    ensures r <= s
    ensures |r| < |s| ==> s[|r|] == '\n'
  {
    if s == "" || s[0] == '\n' then "" else [s[0]] + UntilLf(s[1..])
  }

  function StripCr(s: string): string {
    if s != "" && s[|s| - 1] == '\r' then s[..|s| - 1] else s
  }

  function ColonAt(s: string): (i: nat)
    ensures i <= |s| && (i < |s| ==> s[i] == ':') && forall k :: 0 <= k < i ==> s[k] != ':'
  {
    if s == "" || s[0] == ':' then 0
    else
      var i := ColonAt(s[1..]);
      assert forall k :: 1 <= k < i + 1 ==> s[k] == s[1..][k - 1];
      i + 1
  }

  predicate IsDescription(line: string) {
    ColonAt(line) < |line| && Trim(line[..ColonAt(line)]) == "description"
  }

  function DescriptionIn(line: string): Option<string>
    requires IsDescription(line)
  {
    var d := OneLine(Unquote(Trim(line[ColonAt(line) + 1..])));
    if d == "" then None else Some(d)
  }

  function SummaryOf(lines: seq<string>): Option<string> {
    if lines == [] || IsFence(lines[0]) then None
    else if IsDescription(lines[0]) then DescriptionIn(lines[0])
    else SummaryOf(lines[1..])
  }

  function Summary(text: string): Option<string> {
    var lines := Lines(text);
    if lines == [] || !IsFence(lines[0]) then None else SummaryOf(lines[1..])
  }

  method NoteSummary(prefix: string) returns (r: Option<string>)
    ensures r == Summary(prefix)
  {
    var lines := Lines(prefix);
    if lines == [] || Trim(lines[0]) != "---" {
      return None;
    }
    for i := 1 to |lines|
      invariant Summary(prefix) == SummaryOf(lines[i..])
    {
      var line := lines[i];
      assert lines[i..][0] == line && lines[i..][1..] == lines[i + 1..];
      if Trim(line) == "---" {
        break;
      }
      var colon := ColonAt(line);
      if colon == |line| {
        continue;
      }
      if Trim(line[..colon]) != "description" {
        continue;
      }
      var text := OneLine(Unquote(Trim(line[colon + 1..])));
      if text == "" {
        return None;
      }
      return Some(text);
    }
    return None;
  }

  // ----- the printer --------------------------------------------------------

  function Without(s: string, drop: char -> bool): (r: string)
    ensures |r| <= |s|
    ensures forall i :: 0 <= i < |r| ==> !drop(r[i]) && r[i] in s
  {
    if s == "" then "" else (if drop(s[0]) then "" else [s[0]]) + Without(s[1..], drop)
  }

  function Take(s: string, n: nat): string { if |s| <= n then s else s[..n] }

  predicate IsNul(c: char) { c == '\0' }

  predicate Unquotable(c: char) { c == '\n' || c == '\r' || c == '"' || c == '\\' }

  function Blanked(s: string): (r: string)
    ensures |r| == |s|
    ensures forall i :: 0 <= i < |s| ==> r[i] == if IsWhitespace(s[i]) then ' ' else s[i]
  {
    seq(|s|, i requires 0 <= i < |s| => if IsWhitespace(s[i]) then ' ' else s[i])
  }

  function BoundedUsage(raw: string): string { Trim(Take(Without(raw, IsNul), BODY_LIMIT)) }

  function OneLine(raw: string): string { Take(Trim(Without(Blanked(raw), IsNul)), DESCRIPTION_LIMIT) }

  function Quote(value: string): string { "\"" + Without(value, Unquotable) + "\"" }

  method YamlQuote(value: string) returns (out: string)
    ensures out == Quote(value)
  {
    hide Unquotable;
    out := "\"";
    for i := 0 to |value|
      invariant "\"" + Without(value, Unquotable) == out + Without(value[i..], Unquotable)
    {
      assert value[i..][0] == value[i] && value[i..][1..] == value[i + 1..];
      if !Unquotable(value[i]) {
        assert out + ([value[i]] + Without(value[i + 1..], Unquotable))
            == (out + [value[i]]) + Without(value[i + 1..], Unquotable);
        out := out + [value[i]];
      } else {
        assert "" + Without(value[i + 1..], Unquotable) == Without(value[i + 1..], Unquotable);
      }
    }
    assert Without(value[|value|..], Unquotable) == "";
    out := out + "\"";
  }

  function Unquote(value: string): string {
    if |value| >= 2 && ((value[0] == '"' && value[|value| - 1] == '"') || (value[0] == '\'' && value[|value| - 1] == '\''))
    then value[1..|value| - 1] else value
  }

  predicate SlugChar(c: char) { 'a' <= c <= 'z' || '0' <= c <= '9' || c == '-' }

  predicate SlugOk(slug: string) {
    && 1 <= |slug| <= 64 && slug[0] != '-'
    && forall i :: 0 <= i < |slug| ==> SlugChar(slug[i])
  }

  function RenderNote(name: string, usage: string): string {
    var body := BoundedUsage(usage);
    "---" + "\n" + ("name: " + Quote(name) + "\n" + ("description: " + Quote(OneLine(body)) + "\n"
      + ("---" + "\n" + (body + "\n"))))
  }

  // ----- the readers invert the printer ------------------------------------

  function NameLine(name: string): string { "name: " + Quote(name) }
  function DescriptionLine(d: string): string { "description: " + Quote(d) }

  lemma QuoteShape(value: string)
    ensures var q := Quote(value);
            |q| >= 2 && q[0] == '"' && q[|q| - 1] == '"' && NoBreaks(q) && q[1..|q| - 1] == Without(value, Unquotable)
  {
  }

  /** Printed frontmatter lines hold no line break and are no fence. */
  lemma FrontmatterLine(prefix: string, value: string)
    requires NoBreaks(prefix) && |prefix| > 3 && !IsWhitespace(prefix[0])
    ensures NoBreaks(prefix + Quote(value)) && !IsFence(prefix + Quote(value))
  {
    QuoteShape(value);
    TrimFixpoint(prefix + Quote(value));
  }

  lemma FenceIsFence()
    ensures IsFence("---")
  {
    TrimFixpoint("---");
  }

  lemma AfterPlainLine(line: string, rest: string)
    requires NoBreaks(line) && !IsFence(line)
    ensures AfterFence(line + "\n" + rest) == AfterFence(rest)
  {
    CutIsUnique(line, "\n", rest);
  }

  lemma AfterFenceLine(rest: string)
    ensures AfterFence("---" + "\n" + rest) == Some(StripBreaks(rest))
  {
    CutIsUnique("---", "\n", rest);
    FenceIsFence();
  }

  lemma BodyTail(body: string)
    requires Trimmed(body)
    ensures StripBreaks(body + "\n") == if body == "" then "" else body + "\n"
  {
    if body == "" {
      assert body + "\n" == "\n" && "\n"[1..] == "";
    } else {
      assert (body + "\n")[0] == body[0];
    }
  }

  /** Reading back a rendered note yields its bounded, trimmed body and a newline,
      or the empty text when that body is empty. */
  lemma BodyOfRenderedNote(name: string, usage: string)
    requires SlugOk(name)
    ensures var body := BoundedUsage(usage);
            Body(RenderNote(name, usage)) == Some(if body == "" then "" else body + "\n")
  {
    hide Quote, OneLine, BoundedUsage, Trim, AfterFence;
    var body := BoundedUsage(usage);
    TrimmedUsage(usage);
    var r3 := "---" + "\n" + (body + "\n");
    var r2 := DescriptionLine(OneLine(body)) + "\n" + r3;
    var r1 := NameLine(name) + "\n" + r2;
    var text := RenderNote(name, usage);
    assert text == "---" + "\n" + r1;
    assert text[0] == '-';
    CutIsUnique("---", "\n", r1);
    FenceIsFence();
    FrontmatterLine("name: ", name);
    AfterPlainLine(NameLine(name), r2);
    FrontmatterLine("description: ", OneLine(body));
    AfterPlainLine(DescriptionLine(OneLine(body)), r3);
    AfterFenceLine(body + "\n");
    BodyTail(body);
  }

  lemma TrimmedUsage(usage: string)
    ensures Trimmed(BoundedUsage(usage))
  {
    TrimTrims(Take(Without(usage, IsNul), BODY_LIMIT));
  }

  lemma {:induction false} UntilLfIs(line: string, rest: string)
    requires NoBreaks(line)
    ensures UntilLf(line + ("\n" + rest)) == line
  {
    if line == "" {
      assert line + ("\n" + rest) == "\n" + rest;
    } else {
      assert (line + ("\n" + rest))[1..] == line[1..] + ("\n" + rest);
      UntilLfIs(line[1..], rest);
    }
  }

  lemma LinesCons(line: string, rest: string)
    requires NoBreaks(line)
    ensures Lines(line + "\n" + rest) == [line] + Lines(rest)
  {
    UntilLfIs(line, rest);
    var s := line + "\n" + rest;
    assert s == line + ("\n" + rest) && s[|line| + 1..] == rest;
    assert line != "" ==> !IsBreak(line[|line| - 1]);
  }

  lemma {:induction false} ColonIs(key: string, rest: string)
    requires forall i :: 0 <= i < |key| ==> key[i] != ':'
    ensures ColonAt(key + (":" + rest)) == |key|
  {
    if key == "" {
      assert key + (":" + rest) == ":" + rest;
    } else {
      assert (key + (":" + rest))[1..] == key[1..] + (":" + rest);
      ColonIs(key[1..], rest);
    }
  }

  lemma NameLineIsSkipped(name: string)
    ensures !IsDescription(NameLine(name))
  {
    hide Quote, Trim;
    var line := NameLine(name);
    assert line == "name" + (":" + (" " + Quote(name)));
    ColonIs("name", " " + Quote(name));
    assert line[..4] == "name";
    TrimFixpoint("name");
  }

  lemma DescriptionLineRead(d: string)
    ensures IsDescription(DescriptionLine(d))
    ensures var x := OneLine(Without(d, Unquotable));
            DescriptionIn(DescriptionLine(d)) == if x == "" then None else Some(x)
  {
    hide Quote, Trim, OneLine;
    var line, q := DescriptionLine(d), Quote(d);
    assert line == "description" + (":" + (" " + q));
    ColonIs("description", " " + q);
    assert line[..11] == "description" && line[12..] == " " + q;
    TrimFixpoint("description");
    QuoteShape(d);
    TrimLeadingSpace(q);
  }

  lemma TrimLeadingSpace(q: string)
    requires q != "" && !IsWhitespace(q[0]) && !IsWhitespace(q[|q| - 1])
    ensures Trim(" " + q) == q
  {
    assert (" " + q)[1..] == q;
    assert TrimStart(" " + q) == TrimStart(q) == q;
  }

  /** Text in which white space is only blanks and no NUL occurs. */
  predicate Flat(s: string) { forall i :: 0 <= i < |s| ==> (IsWhitespace(s[i]) ==> s[i] == ' ') && s[i] != '\0' }

  lemma {:induction false} WithoutNothing(s: string, drop: char -> bool)
    requires forall i :: 0 <= i < |s| ==> !drop(s[i])
    ensures Without(s, drop) == s
  {
    if s != "" { WithoutNothing(s[1..], drop); }
  }

  lemma {:induction false} TrimKeepsCharacters(s: string)
    ensures |Trim(s)| <= |s| && forall i :: 0 <= i < |Trim(s)| ==> Trim(s)[i] in s
  {
    TrimStartSuffix(s);
    TrimEndPrefix(TrimStart(s));
  }

  lemma {:induction false} TrimStartSuffix(s: string)
    ensures |TrimStart(s)| <= |s| && forall i :: 0 <= i < |TrimStart(s)| ==> TrimStart(s)[i] in s
  {
    if s != "" && IsWhitespace(s[0]) { TrimStartSuffix(s[1..]); }
  }

  lemma {:induction false} TrimEndPrefix(s: string)
    ensures TrimEnd(s) <= s
  {
    if s != "" && IsWhitespace(s[|s| - 1]) { TrimEndPrefix(s[..|s| - 1]); }
  }

  lemma OneLineIsFlat(raw: string)
    ensures Flat(OneLine(raw)) && |OneLine(raw)| <= DESCRIPTION_LIMIT
  {
    hide IsWhitespace, Trim;
    BlankIsSpace();
    var w := Without(Blanked(raw), IsNul);
    assert Flat(w) by {
      forall i | 0 <= i < |w| ensures (IsWhitespace(w[i]) ==> w[i] == ' ') && w[i] != '\0' {
        assert !IsNul(w[i]);
        var k :| 0 <= k < |raw| && Blanked(raw)[k] == w[i];
      }
    }
    TrimKeepsCharacters(w);
  }

  lemma BlankIsSpace()
    ensures IsWhitespace(' ')
  {
  }

  /** On flat, short text `one_line` only trims. */
  lemma OneLineOfFlat(q: string)
    requires Flat(q) && |q| <= DESCRIPTION_LIMIT
    ensures OneLine(q) == Trim(q)
  {
    hide IsWhitespace, Trim;
    assert Blanked(q) == q;
    WithoutNothing(q, IsNul);
    TrimKeepsCharacters(q);
  }

  /** Reading back the description: quotes and backslashes are gone and the ends
      are trimmed again; nothing is found exactly when nothing is left. */
  lemma SummaryOfRenderedNote(name: string, usage: string)
    requires SlugOk(name)
    ensures var d := Trim(Without(OneLine(BoundedUsage(usage)), Unquotable));
            Summary(RenderNote(name, usage)) == if d == "" then None else Some(d)
  {
    hide Quote, OneLine, BoundedUsage, Trim, Lines, IsDescription, DescriptionIn, Without, NameLine, DescriptionLine;
    var body := BoundedUsage(usage);
    var d := OneLine(body);
    var rest := "---" + "\n" + (body + "\n");
    RenderedLines(name, usage);
    FenceIsFence();
    LabelledLines(name, d);
    NameLineIsSkipped(name);
    DescriptionLineRead(d);
    var lines := ["---", NameLine(name), DescriptionLine(d)] + Lines(rest);
    assert Lines(RenderNote(name, usage)) == lines;
    assert lines[1..][0] == NameLine(name) && lines[1..][1..][0] == DescriptionLine(d);
    assert SummaryOf(lines[1..]) == SummaryOf(lines[1..][1..]) == DescriptionIn(DescriptionLine(d));
    OneLineIsFlat(body);
    OneLineOfFlat(Without(d, Unquotable));
  }

  lemma LabelledLines(name: string, d: string)
    ensures NoBreaks(NameLine(name)) && !IsFence(NameLine(name))
    ensures NoBreaks(DescriptionLine(d)) && !IsFence(DescriptionLine(d))
  {
    FrontmatterLine("name: ", name);
    FrontmatterLine("description: ", d);
  }

  lemma RenderedLines(name: string, usage: string)
    ensures var body := BoundedUsage(usage);
            Lines(RenderNote(name, usage)) == ["---", NameLine(name), DescriptionLine(OneLine(body))]
                                             + Lines("---" + "\n" + (body + "\n"))
  {
    hide Quote, OneLine, BoundedUsage, Trim, Lines;
    var body := BoundedUsage(usage);
    var d := OneLine(body);
    LabelledLines(name, d);
    var rest := "---" + "\n" + (body + "\n");
    LinesCons(DescriptionLine(d), rest);
    var r2 := DescriptionLine(d) + "\n" + rest;
    LinesCons(NameLine(name), r2);
    var r1 := NameLine(name) + "\n" + r2;
    LinesCons("---", r1);
    assert RenderNote(name, usage) == "---" + "\n" + r1;
  }
}
