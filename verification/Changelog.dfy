/** `promote` of scripts/promote_unreleased_changelog.py: it moves the notes of the
    Unreleased section under a version heading. */
module Changelog {

  // ----- lines --------------------------------------------------------------

  /** The line boundaries of Python's `str.splitlines`. */
  predicate IsBreak(c: char) {
    c in ['\n', '\r', 0x0b as char, 0x0c as char, 0x1c as char, 0x1d as char, 0x1e as char, 0x85 as char,
          0x2028 as char, 0x2029 as char]
  }

  /** The length of the first line with its ending. */
  function FirstLine(text: string): (n: nat)
    requires text != ""
    ensures 1 <= n <= |text|
  {
    if IsBreak(text[0]) then (if text[0] == '\r' && |text| > 1 && text[1] == '\n' then 2 else 1)
    else if |text| == 1 then 1
    else 1 + FirstLine(text[1..])
  }

  /** `splitlines(keepends=True)` */
  function SplitLines(text: string): seq<string>
    decreases |text|
  {
    if text == "" then [] else [text[..FirstLine(text)]] + SplitLines(text[FirstLine(text)..])
  }

  function Join(lines: seq<string>): string {
    if lines == [] then "" else lines[0] + Join(lines[1..])
  }

  predicate OneLine(line: string) { line != "" && FirstLine(line) == |line| }

  predicate EndsIn(line: string, c: char) { line != "" && line[|line| - 1] == c }

  /** `line` is complete when `next` follows it. */
  predicate Ended(line: string, next: string) {
    && line != "" && IsBreak(line[|line| - 1])
    && !(EndsIn(line, '\r') && next != "" && next[0] == '\n')
  }

  /** Lines that read back as themselves. */
  predicate WellCut(lines: seq<string>) {
    && (forall i :: 0 <= i < |lines| ==> OneLine(lines[i]))
    && (forall i :: 0 <= i < |lines| - 1 ==> Ended(lines[i], lines[i + 1]))
  }

  lemma {:induction false} FirstLineOf(line: string, rest: string)
    requires OneLine(line) && (rest == "" || Ended(line, rest))
    ensures FirstLine(line + rest) == |line|
    decreases |line|
  {
    if rest == "" {
      assert line + rest == line;
    } else if |line| > 1 && !IsBreak(line[0]) {
      FirstLineOf(line[1..], rest);
      assert (line + rest)[1..] == line[1..] + rest;
    }
  }

  lemma SplitStep(line: string, rest: string)
    requires OneLine(line) && (rest == "" || Ended(line, rest))
    ensures SplitLines(line + rest) == [line] + SplitLines(rest)
  {
    FirstLineOf(line, rest);
    assert (line + rest)[..|line|] == line && (line + rest)[|line|..] == rest;
  }

  lemma EndedBefore(line: string, next: string, next': string)
    requires Ended(line, next) && next != "" && next' != "" && next[0] == next'[0]
    ensures Ended(line, next')
  {
  }

  lemma WellCutTail(lines: seq<string>)
    requires WellCut(lines) && lines != []
    ensures OneLine(lines[0]) && WellCut(lines[1..])
    ensures lines[1..] != [] ==> lines[1] != "" && Ended(lines[0], lines[1])
  {
    hide OneLine, Ended;
    assert |lines| > 1 ==> Ended(lines[0], lines[0 + 1]);
    var tail := lines[1..];
    forall i | 0 <= i < |tail| - 1 ensures Ended(tail[i], tail[i + 1]) {
      assert Ended(lines[i + 1], lines[i + 1 + 1]);
    }
    if |lines| > 1 { OneLineNonempty(lines[1]); }
  }

  lemma {:induction false} SplitAppend(lines: seq<string>, rest: string)
    requires WellCut(lines) && (lines == [] || rest == "" || Ended(lines[|lines| - 1], rest))
    ensures SplitLines(Join(lines) + rest) == lines + SplitLines(rest)
    decreases |lines|
  {
    hide Ended, SplitLines, OneLine, WellCut;
    if lines == [] {
      assert Join(lines) + rest == rest;
    } else {
      var tail := lines[1..];
      WellCutTail(lines);
      SplitAppend(tail, rest);
      SplitCons(lines[0], tail, rest);
      assert lines == [lines[0]] + tail;
    }
  }

  lemma SplitCons(line: string, tail: seq<string>, rest: string)
    requires OneLine(line)
    requires if tail == [] then rest == "" || Ended(line, rest) else tail[0] != "" && Ended(line, tail[0])
    ensures SplitLines(line + Join(tail) + rest) == [line] + SplitLines(Join(tail) + rest)
  {
    hide Ended, OneLine, SplitLines;
    var after := Join(tail) + rest;
    assert line + Join(tail) + rest == line + after;
    if tail == [] {
      assert after == rest;
    } else {
      assert after[0] == tail[0][0];
      EndedBefore(line, tail[0], after);
    }
    SplitStep(line, after);
  }

  lemma WellCutCons(line: string, rest: seq<string>)
    requires OneLine(line) && WellCut(rest) && (rest == [] || Ended(line, rest[0]))
    ensures WellCut([line] + rest)
  {
    hide OneLine, Ended;
    var lines := [line] + rest;
    forall i | 0 <= i < |lines| - 1 ensures Ended(lines[i], lines[i + 1]) {
      if i > 0 { assert Ended(rest[i - 1], rest[i - 1 + 1]); }
    }
  }

  lemma {:induction false} SplitIsWellCut(text: string)
    ensures WellCut(SplitLines(text)) && Join(SplitLines(text)) == text
    decreases |text|
  {
    hide OneLine, Ended, FirstLine, WellCut;
    if text == "" {
      EmptyWellCut();
    } else {
      var n := FirstLine(text);
      var line, rest := text[..n], text[n..];
      SplitIsWellCut(rest);
      FirstLineCut(text);
      assert text == line + rest;
      if rest != "" { EndedBefore(line, rest, SplitLines(rest)[0]); }
      WellCutCons(line, SplitLines(rest));
      assert ([line] + SplitLines(rest))[1..] == SplitLines(rest);
    }
  }

  lemma EmptyWellCut()
    ensures WellCut([])
  {
  }

  lemma {:induction false} FirstLineCut(text: string)
    requires text != ""
    ensures OneLine(text[..FirstLine(text)])
    ensures FirstLine(text) < |text| ==> Ended(text[..FirstLine(text)], text[FirstLine(text)..])
    decreases |text|
  {
    var n := FirstLine(text);
    if !IsBreak(text[0]) && |text| > 1 {
      FirstLineCut(text[1..]);
      assert text[..n][1..] == text[1..][..n - 1];
      assert text[n..] == text[1..][n - 1..];
    }
  }

  /** Lines read back as themselves exactly when they are well cut. */
  lemma ReadBack(lines: seq<string>)
    ensures SplitLines(Join(lines)) == lines <==> WellCut(lines)
  {
    SplitIsWellCut(Join(lines));
    if WellCut(lines) {
      SplitAppend(lines, "");
      assert Join(lines) + "" == Join(lines);
    }
  }

  lemma {:induction false} JoinConcat(a: seq<string>, b: seq<string>)
    ensures Join(a + b) == Join(a) + Join(b)
  {
    if a == [] {
      assert a + b == b;
    } else {
      assert (a + b)[1..] == a[1..] + b;
      JoinConcat(a[1..], b);
    }
  }

  // ----- the sections -------------------------------------------------------

  predicate StartsWith(line: string, mark: string) { mark <= line }

  predicate Unreleased(line: string) { StartsWith(line, "## Unreleased") || StartsWith(line, "## [Unreleased]") }

  /** The first Unreleased heading, or the number of lines. */
  function Start(lines: seq<string>): (s: nat)
    ensures s <= |lines| && (s < |lines| ==> Unreleased(lines[s]))
    ensures forall k :: 0 <= k < s ==> !Unreleased(lines[k])
  {
    if lines == [] || Unreleased(lines[0]) then 0
    else
      var s := Start(lines[1..]);
      assert forall k :: 1 <= k < s + 1 ==> lines[k] == lines[1..][k - 1];
      s + 1
  }

  lemma StartIs(lines: seq<string>, s: nat)
    requires s <= |lines| && (s < |lines| ==> Unreleased(lines[s])) && forall k :: 0 <= k < s ==> !Unreleased(lines[k])
    ensures Start(lines) == s
  {
    hide Unreleased;
  }

  /** The first second-level heading from `i` on, or the number of lines. */
  function End(lines: seq<string>, i: nat): (e: nat)
    requires i <= |lines|
    ensures i <= e <= |lines| && (e < |lines| ==> StartsWith(lines[e], "## "))
    ensures forall k :: i <= k < e ==> !StartsWith(lines[k], "## ")
    decreases |lines| - i
  {
    if i == |lines| || StartsWith(lines[i], "## ") then i else End(lines, i + 1)
  }

  predicate HasNotes(body: seq<string>) { exists i :: 0 <= i < |body| && StartsWith(body[i], "- ") }

  function Heading(version: string): string { "## [" + version + "]" }

  predicate Listed(lines: seq<string>, version: string) {
    exists i :: 0 <= i < |lines| && StartsWith(lines[i], Heading(version))
  }

  predicate EndsWith(line: string, mark: string) { |mark| <= |line| && line[|line| - |mark|..] == mark }

  /** A line has no break before its ending. */
  lemma {:induction false} NoInnerBreak(line: string, i: nat)
    requires OneLine(line) && i < |line| - 1 && IsBreak(line[i])
    ensures i == |line| - 2 && line[i] == '\r' && line[i + 1] == '\n'
    decreases |line|
  {
    if i > 0 {
      NoInnerBreak(line[1..], i - 1);
    }
  }

  lemma TwoNewlines(text: string)
    requires EndsWith(text, "\n\n")
    ensures |text| >= 2 && text[|text| - 2] == '\n' && text[|text| - 1] == '\n'
  {
    var end := text[|text| - 2..];
    assert end[0] == text[|text| - 2] && end[1] == text[|text| - 1];
  }

  /** So the blank line before the next section is always added. */
  lemma NeverTwoNewlines(line: string)
    requires OneLine(line)
    ensures !EndsWith(Closed(line), "\n\n")
  {
    if EndsWith(Closed(line), "\n\n") {
      TwoNewlines(Closed(line));
      NoInnerBreak(line, |line| - 2);
    }
  }

  function Closed(line: string): string { if EndsIn(line, '\n') then line else line + "\n" }

  function Release(version: string, date: string): string { Heading(version) + " - " + date + "\n" }

  /** The changelog's lines after a promotion of lines `s + 1` to `e`. */
  function Rewritten(lines: seq<string>, s: nat, e: nat, version: string, date: string): seq<string>
    requires s + 1 < e <= |lines|
  {
    lines[..s + 1] + ["\n", Release(version, date), "\n"] + lines[s + 1..e - 1] + [Closed(lines[e - 1])]
    + (if e < |lines| then ["\n"] else []) + lines[e..]
  }

  datatype Outcome = Text(text: string) | NoSection | AlreadyListed

  function Promoted(text: string, version: string, date: string): Outcome {
    var lines := SplitLines(text);
    var s := Start(lines);
    if s == |lines| then NoSection
    else
      var e := End(lines, s + 1);
      if !HasNotes(lines[s + 1..e]) then Text(text)
      else if Listed(lines, version) then AlreadyListed
      else Text(Join(Rewritten(lines, s, e, version, date)))
  }

  method Promote(text: string, version: string, date: string) returns (r: Outcome)
    ensures r == Promoted(text, version, date)
  {
    hide OneLine, IsBreak, FirstLine, SplitLines, Join, Release, Unreleased, EndsWith, Ended;
    var lines := SplitLines(text);
    var start := |lines|;
    for index := 0 to |lines|
      invariant start == |lines|
      invariant forall k :: 0 <= k < index ==> !Unreleased(lines[k])
    {
      if Unreleased(lines[index]) {
        start := index;
        break;
      }
    }
    StartIs(lines, start);
    if start == |lines| {
      return NoSection;
    }
    var end := |lines|;
    for index := start + 1 to |lines|
      invariant end == |lines|
      invariant End(lines, start + 1) == End(lines, index)
    {
      if StartsWith(lines[index], "## ") {
        end := index;
        break;
      }
    }
    var body := lines[start + 1..end];
    if !HasNotes(body) {
      return Text(text);
    }
    if Listed(lines, version) {
      return AlreadyListed;
    }
    SplitIsWellCut(text);
    var rewritten := Splice(lines, start, end, version, date);
    return Text(Join(rewritten));
  }

  /** The list surgery at the end of `promote`. */
  method Splice(lines: seq<string>, start: nat, end: nat, version: string, date: string) returns (rewritten: seq<string>)
    requires start + 1 < end <= |lines| && OneLine(lines[end - 1])
    ensures rewritten == Rewritten(lines, start, end, version, date)
  {
    hide OneLine, Release, EndsWith;
    var body, last := lines[start + 1..end], lines[end - 1];
    NeverTwoNewlines(last);
    var promoted := [Release(version, date), "\n"] + body;
    assert body == lines[start + 1..end - 1] + [last];
    if promoted[|promoted| - 1] != "" && !EndsIn(promoted[|promoted| - 1], '\n') {
      promoted := promoted[|promoted| - 1 := promoted[|promoted| - 1] + "\n"];
    }
    OneLineNonempty(last);
    assert promoted == [Release(version, date), "\n"] + lines[start + 1..end - 1] + [Closed(last)];
    if end < |lines| && !EndsWith(promoted[|promoted| - 1], "\n\n") {
      promoted := promoted + ["\n"];
    }
    rewritten := lines[..start + 1] + ["\n"] + promoted + lines[end..];
  }

  lemma OneLineNonempty(line: string)
    requires OneLine(line)
    ensures line != ""
  {
  }

  // ----- what a promotion keeps --------------------------------------------

  /** The notes of `text` are promoted: an Unreleased section with notes, and a new version. */
  predicate Promotes(text: string, version: string) {
    var lines := SplitLines(text);
    var s := Start(lines);
    s < |lines| && HasNotes(lines[s + 1..End(lines, s + 1)]) && !Listed(lines, version)
  }

  /** What goes behind the moved notes. */
  function Closing(notes: string, after: string): string {
    (if EndsIn(notes, '\n') then "" else "\n") + (if after == "" then "" else "\n")
  }

  /** A promotion only inserts: the text is cut behind the Unreleased heading and
      behind its notes, and the heading, blank lines and a missing newline go in. */
  lemma PromotionInserts(text: string, version: string, date: string) returns (s: nat, e: nat)
    requires Promotes(text, version)
    ensures s == Start(SplitLines(text)) && s < |SplitLines(text)| && e == End(SplitLines(text), s + 1)
    ensures var lines := SplitLines(text);
            var before, notes, after := Join(lines[..s + 1]), Join(lines[s + 1..e]), Join(lines[e..]);
            && text == before + notes + after
            && Promoted(text, version, date)
               == Text(before + "\n" + Release(version, date) + "\n" + notes + Closing(notes, after) + after)
  {
    hide SplitLines, Release, Listed, Unreleased, WellCut, Join, Rewritten, Closing;
    var lines := SplitLines(text);
    s := Start(lines);
    e := End(lines, s + 1);
    SplitIsWellCut(text);
    ThreeParts(lines, s + 1, e);
    RewrittenInserts(lines, s, e, version, date);
  }

  lemma RewrittenInserts(lines: seq<string>, s: nat, e: nat, version: string, date: string)
    requires s + 1 < e <= |lines| && WellCut(lines)
    ensures var before, notes, after := Join(lines[..s + 1]), Join(lines[s + 1..e]), Join(lines[e..]);
            Join(Rewritten(lines, s, e, version, date))
            == before + "\n" + Release(version, date) + "\n" + notes + Closing(notes, after) + after
  {
    hide Release, WellCut, Join, Rewritten, Closing, EndsIn, Closed;
    LastOfNotes(lines, s + 1, e);
    RewrittenText(lines, s, e, version, date);
    var before, notes, after := Join(lines[..s + 1]), Join(lines[s + 1..e]), Join(lines[e..]);
    var gap := if e < |lines| then "\n" else "";
    var fix := ClosedNotes(Join(lines[s + 1..e - 1]), lines[e - 1], notes, gap, after);
    RegroupInserted(before, Release(version, date), Join(lines[s + 1..e - 1]), Closed(lines[e - 1]), notes, fix, gap,
                    after);
  }

  lemma ClosedNotes(middle: string, last: string, notes: string, gap: string, after: string) returns (fix: string)
    requires notes == middle + last && (EndsIn(notes, '\n') <==> EndsIn(last, '\n'))
    requires gap == if after == "" then "" else "\n"
    ensures middle + Closed(last) == notes + fix && Closing(notes, after) == fix + gap
  {
    fix := if EndsIn(notes, '\n') then "" else "\n";
  }

  lemma RegroupInserted(before: string, release: string, middle: string, last: string, notes: string, fix: string,
                        gap: string, after: string)
    requires middle + last == notes + fix
    ensures before + "\n" + release + "\n" + middle + last + gap + after
            == before + "\n" + release + "\n" + notes + (fix + gap) + after
  {
    var front := before + "\n" + release + "\n";
    assert front + middle + last == front + (middle + last);
    assert front + notes + (fix + gap) == front + (notes + fix) + gap;
  }

  lemma CutInThree<T>(xs: seq<T>, i: nat, j: nat)
    requires i <= j <= |xs|
    ensures xs == xs[..i] + xs[i..j] + xs[j..]
  {
  }

  lemma ThreeParts(lines: seq<string>, i: nat, j: nat)
    requires i <= j <= |lines|
    ensures Join(lines) == Join(lines[..i]) + Join(lines[i..j]) + Join(lines[j..])
  {
    hide Join;
    CutInThree(lines, i, j);
    JoinConcat(lines[..i] + lines[i..j], lines[j..]);
    JoinConcat(lines[..i], lines[i..j]);
  }

  lemma LastOfNotes(lines: seq<string>, i: nat, e: nat)
    requires i < e <= |lines| && WellCut(lines)
    ensures Join(lines[i..e]) == Join(lines[i..e - 1]) + lines[e - 1]
    ensures EndsIn(Join(lines[i..e]), '\n') <==> EndsIn(lines[e - 1], '\n')
    ensures Join(lines[e..]) == "" <==> e == |lines|
  {
    assert lines[i..e] == lines[i..e - 1] + [lines[e - 1]];
    JoinConcat(lines[i..e - 1], [lines[e - 1]]);
    assert Join([lines[e - 1]]) == lines[e - 1];
    OneLineNonempty(lines[e - 1]);
    if e < |lines| { OneLineNonempty(lines[e]); }
  }

  lemma RewrittenText(lines: seq<string>, s: nat, e: nat, version: string, date: string)
    requires s + 1 < e <= |lines|
    ensures Join(Rewritten(lines, s, e, version, date))
            == Join(lines[..s + 1]) + "\n" + Release(version, date) + "\n" + Join(lines[s + 1..e - 1])
               + Closed(lines[e - 1]) + (if e < |lines| then "\n" else "") + Join(lines[e..])
  {
    hide Release, Closed, Join;
    var gap: seq<string> := if e < |lines| then ["\n"] else [];
    var top: seq<string> := ["\n", Release(version, date), "\n"];
    var head, middle, last, tail := lines[..s + 1], lines[s + 1..e - 1], [Closed(lines[e - 1])], lines[e..];
    SixParts(head, top, middle, last, gap, tail);
    JoinOne(Closed(lines[e - 1]));
    JoinOne("\n");
    JoinTop(Release(version, date));
    assert Join(head) + ("\n" + Release(version, date) + "\n")
        == Join(head) + "\n" + Release(version, date) + "\n";
  }

  lemma SixParts(a: seq<string>, b: seq<string>, c: seq<string>, d: seq<string>, e: seq<string>, f: seq<string>)
    ensures Join(a + b + c + d + e + f) == Join(a) + Join(b) + Join(c) + Join(d) + Join(e) + Join(f)
  {
    hide Join;
    JoinConcat(a + b + c + d + e, f);
    JoinConcat(a + b + c + d, e);
    JoinConcat(a + b + c, d);
    JoinConcat(a + b, c);
    JoinConcat(a, b);
  }

  lemma JoinOne(line: string)
    ensures Join([line]) == line && Join([]) == ""
  {
  }

  lemma JoinTop(heading: string)
    ensures Join(["\n", heading, "\n"]) == "\n" + heading + "\n"
  {
    assert ["\n", heading, "\n"][1..] == [heading, "\n"];
    assert [heading, "\n"][1..] == ["\n"];
    JoinOne("\n");
  }

  // ----- reading the result back -------------------------------------------

  predicate NoBreak(text: string) { forall i :: 0 <= i < |text| ==> !IsBreak(text[i]) }

  /** No line break, but for a final CR, which a line feed completes. */
  predicate Unbroken(text: string) { NoBreak(if EndsIn(text, '\r') then text[..|text| - 1] else text) }

  lemma NoBreakCons(text: string)
    requires text != ""
    ensures NoBreak(text) <==> !IsBreak(text[0]) && NoBreak(text[1..])
  {
    assert forall i :: 1 <= i < |text| ==> text[i] == text[1..][i - 1];
  }

  lemma {:induction false} UnbrokenLine(text: string)
    ensures OneLine(text + "\n") <==> Unbroken(text)
    decreases |text|
  {
    if |text| <= 1 {
    } else {
      UnbrokenLine(text[1..]);
      assert (text + "\n")[1..] == text[1..] + "\n";
      assert text[..|text| - 1][1..] == text[1..][..|text| - 2];
      NoBreakCons(text);
      NoBreakCons(text[..|text| - 1]);
    }
  }

  lemma ReleaseLine(version: string, date: string)
    ensures OneLine(Release(version, date)) <==> NoBreak(version) && Unbroken(date)
  {
    hide FirstLine, OneLine, IsBreak;
    var front := Heading(version) + " - ";
    assert Release(version, date) == front + date + "\n";
    UnbrokenLine(front + date);
    FrontBreaks(version);
    if EndsIn(date, '\r') {
      assert (front + date)[..|front + date| - 1] == front + date[..|date| - 1];
      NoBreakConcat(front, date[..|date| - 1]);
    } else {
      NoBreakConcat(front, date);
    }
  }

  lemma NoBreakConcat(a: string, b: string)
    ensures NoBreak(a + b) <==> NoBreak(a) && NoBreak(b)
  {
    var c := a + b;
    if NoBreak(c) {
      forall i | 0 <= i < |a| ensures !IsBreak(a[i]) { assert c[i] == a[i]; }
      forall i | 0 <= i < |b| ensures !IsBreak(b[i]) { assert c[|a| + i] == b[i]; }
    }
  }

  lemma FrontBreaks(version: string)
    ensures NoBreak(Heading(version) + " - ") <==> NoBreak(version)
    ensures !EndsIn(Heading(version) + " - ", '\r')
  {
    NoBreakConcat(Heading(version), " - ");
    NoBreakConcat("## [" + version, "]");
    NoBreakConcat("## [", version);
  }

  /** The last note can be closed with a newline without becoming two lines. */
  predicate Closable(line: string) {
    line != "" && (EndsIn(line, '\n') || EndsIn(line, '\r') || !IsBreak(line[|line| - 1]))
  }

  lemma {:induction false} ClosedLine(line: string)
    requires OneLine(line)
    ensures OneLine(Closed(line)) <==> Closable(line)
    ensures Closed(line)[0] == line[0] && EndsIn(Closed(line), '\n')
    decreases |line|
  {
    if !EndsIn(line, '\n') && |line| > 1 && !IsBreak(line[0]) {
      ClosedLine(line[1..]);
      assert Closed(line)[1..] == Closed(line[1..]);
    }
  }

  lemma {:induction false} WellCutConcat(a: seq<string>, b: seq<string>)
    ensures WellCut(a + b) <==> WellCut(a) && WellCut(b) && (a == [] || b == [] || Ended(a[|a| - 1], b[0]))
  {
    hide OneLine, Ended;
    var c := a + b;
    if WellCut(c) {
      forall i | 0 <= i < |a| ensures OneLine(a[i]) { assert c[i] == a[i]; }
      forall i | 0 <= i < |b| ensures OneLine(b[i]) { assert c[|a| + i] == b[i]; }
      forall i | 0 <= i < |a| - 1 ensures Ended(a[i], a[i + 1]) { assert c[i] == a[i] && c[i + 1] == a[i + 1]; }
      forall i | 0 <= i < |b| - 1 ensures Ended(b[i], b[i + 1]) {
        assert c[|a| + i] == b[i] && c[|a| + i + 1] == b[i + 1];
      }
      if a != [] && b != [] { assert Ended(c[|a| - 1], c[|a| - 1 + 1]); }
    }
    if WellCut(a) && WellCut(b) && (a == [] || b == [] || Ended(a[|a| - 1], b[0])) {
      forall i | 0 <= i < |c| - 1 ensures Ended(c[i], c[i + 1]) {
        if i >= |a| { assert Ended(b[i - |a|], b[i - |a| + 1]); }
      }
    }
  }

  lemma WellCutPart(lines: seq<string>, i: nat, j: nat)
    requires i <= j <= |lines| && WellCut(lines)
    ensures WellCut(lines[i..j])
  {
    hide WellCut;
    CutInThree(lines, i, j);
    WellCutConcat(lines[..i] + lines[i..j], lines[j..]);
    WellCutConcat(lines[..i], lines[i..j]);
  }

  /** The rewritten lines are the lines of the result exactly when the new heading
      is one line, the Unreleased heading does not end in a bare CR, and the last
      note can be closed. */
  lemma RewrittenReadsBack(text: string, version: string, date: string) returns (s: nat, e: nat)
    requires Promotes(text, version)
    ensures s == Start(SplitLines(text)) && s < |SplitLines(text)| && e == End(SplitLines(text), s + 1)
    ensures s + 1 < e && Promoted(text, version, date) == Text(Join(Rewritten(SplitLines(text), s, e, version, date)))
    ensures var lines := SplitLines(text);
            SplitLines(Join(Rewritten(lines, s, e, version, date))) == Rewritten(lines, s, e, version, date)
            <==> NoBreak(version) && Unbroken(date) && !EndsIn(lines[s], '\r') && Closable(lines[e - 1])
  {
    hide SplitLines, Join, Rewritten, NoBreak, Unbroken, Closable;
    var lines := SplitLines(text);
    s := Start(lines);
    e := End(lines, s + 1);
    SplitIsWellCut(text);
    ReadBack(Rewritten(lines, s, e, version, date));
    ReleaseLine(version, date);
    LineFacts(lines, s, e);
    RewrittenWellCut(lines, s, e, version, date);
  }

  lemma LineFacts(lines: seq<string>, s: nat, e: nat)
    requires WellCut(lines) && s + 1 < e <= |lines|
    ensures OneLine(Closed(lines[e - 1])) <==> Closable(lines[e - 1])
  {
    ClosedLine(lines[e - 1]);
  }

  lemma AfterNewline(line: string, next: string)
    requires EndsIn(line, '\n')
    ensures Ended(line, next)
  {
  }

  lemma TopWellCut(release: string)
    requires EndsIn(release, '\n')
    ensures WellCut(["\n", release, "\n"]) <==> OneLine(release)
  {
    hide Ended, FirstLine;
    var top: seq<string> := ["\n", release, "\n"];
    AfterNewline("\n", release);
    AfterNewline(release, "\n");
    assert OneLine("\n") by { UnbrokenLine(""); assert "" + "\n" == "\n"; }
    assert OneLine(release) <==> OneLine(top[1]);
  }

  lemma LastWellCut(last: string, gap: seq<string>, tail: seq<string>)
    requires EndsIn(last, '\n') && WellCut(tail)
    requires gap == if tail == [] then [] else ["\n"]
    ensures WellCut([last] + gap + tail) <==> OneLine(last)
  {
    hide Ended, FirstLine;
    var all := [last] + gap + tail;
    assert all[0] == last;
    if tail != [] && OneLine(last) {
      AfterNewline(last, "\n");
      AfterNewline("\n", tail[0]);
      assert OneLine("\n") by { UnbrokenLine(""); assert "" + "\n" == "\n"; }
      WellCutCons("\n", tail);
      WellCutCons(last, ["\n"] + tail);
      assert all == [last] + (["\n"] + tail);
    }
  }

  /** Where the inserted lines meet the old ones. */
  lemma Seams(lines: seq<string>, s: nat, e: nat)
    requires WellCut(lines) && s + 1 < e <= |lines|
    ensures Ended(lines[s], "\n") <==> !EndsIn(lines[s], '\r')
    ensures s + 1 < e - 1 ==> Ended(lines[e - 2], Closed(lines[e - 1]))
    ensures EndsIn(Closed(lines[e - 1]), '\n')
  {
    hide FirstLine, IsBreak;
    assert Ended(lines[s], lines[s + 1]);
    assert Ended(lines[e - 2], lines[e - 2 + 1]);
    ClosedLine(lines[e - 1]);
  }

  lemma RewrittenWellCut(lines: seq<string>, s: nat, e: nat, version: string, date: string)
    requires WellCut(lines) && s + 1 < e <= |lines|
    ensures WellCut(Rewritten(lines, s, e, version, date))
            <==> OneLine(Release(version, date)) && !EndsIn(lines[s], '\r') && OneLine(Closed(lines[e - 1]))
  {
    hide WellCut, OneLine, Ended, Closed, Release;
    var head, middle, tail := lines[..s + 1], lines[s + 1..e - 1], lines[e..];
    var last, release := Closed(lines[e - 1]), Release(version, date);
    var gap: seq<string> := if e < |lines| then ["\n"] else [];
    var top: seq<string> := ["\n", release, "\n"];
    var behind := [last] + gap + tail;
    PartsWellCut(lines, s, e);
    Seams(lines, s, e);
    ReleaseEnds(version, date);
    TopWellCut(release);
    LastWellCut(last, gap, tail);
    assert behind[0] == last;
    WellCutConcat(middle, behind);
    AfterNewline("\n", (middle + behind)[0]);
    WellCutConcat(top, middle + behind);
    WellCutConcat(head, top + (middle + behind));
    Regroup(head, top, middle, last, gap, tail);
  }

  lemma ReleaseEnds(version: string, date: string)
    ensures EndsIn(Release(version, date), '\n')
  {
  }

  lemma PartsWellCut(lines: seq<string>, s: nat, e: nat)
    requires WellCut(lines) && s + 1 < e <= |lines|
    ensures WellCut(lines[..s + 1]) && WellCut(lines[s + 1..e - 1]) && WellCut(lines[e..])
  {
    hide WellCut;
    WellCutPart(lines, 0, s + 1);
    WellCutPart(lines, s + 1, e - 1);
    WellCutPart(lines, e, |lines|);
    WholePart(lines, s + 1, e);
  }

  lemma WholePart<T>(xs: seq<T>, i: nat, j: nat)
    requires i <= |xs| && j <= |xs|
    ensures xs[0..i] == xs[..i] && xs[j..|xs|] == xs[j..]
  {
  }

  lemma Regroup<T>(a: seq<T>, b: seq<T>, c: seq<T>, d: T, e: seq<T>, f: seq<T>)
    ensures a + b + c + [d] + e + f == a + (b + (c + ([d] + e + f)))
  {
  }

  // ----- promoting again ----------------------------------------------------

  lemma EndIs(lines: seq<string>, i: nat, e: nat)
    requires i <= e < |lines| && StartsWith(lines[e], "## ")
    requires forall k :: i <= k < e ==> !StartsWith(lines[k], "## ")
    ensures End(lines, i) == e
  {
    hide StartsWith;
  }

  /** A changelog whose Unreleased section is blank stays as it is. */
  lemma BlankSectionStays(text: string, s: nat, e: nat, version: string, date: string)
    requires var lines := SplitLines(text);
             && s < e < |lines| && Unreleased(lines[s]) && (forall k :: 0 <= k < s ==> !Unreleased(lines[k]))
             && (forall k :: s < k < e ==> lines[k] == "\n") && StartsWith(lines[e], "## ")
    ensures Promoted(text, version, date) == Text(text)
  {
    hide SplitLines, Unreleased, Listed, Join;
    var lines := SplitLines(text);
    StartIs(lines, s);
    EndIs(lines, s + 1, e);
    var body := lines[s + 1..e];
    assert forall i :: 0 <= i < |body| ==> body[i] == "\n";
  }

  lemma HeadingLine(rest: string)
    requires "## [" <= rest
    ensures SplitLines(rest) != [] && StartsWith(SplitLines(rest)[0], "## ")
  {
    assert rest[0] == '#' && rest[1] == '#' && rest[2] == ' ';
    assert rest[1..][1..][0] == ' ';
    assert rest[1..][0] == '#';
    assert FirstLine(rest) >= 3;
    assert rest[..FirstLine(rest)][..3] == "## ";
  }

  /** What follows the Unreleased heading is a blank line, or the heading's own
      line feed, and then the new heading. */
  lemma AfterTheHeading(lines: seq<string>, s: nat, rest: string)
    returns (e: nat)
    requires WellCut(lines) && s < |lines| - 1 && Unreleased(lines[s]) && "## [" <= rest
    ensures var again := SplitLines(Join(lines[..s + 1]) + "\n" + rest);
            && s < e < |again| && again[..s] == lines[..s] && Unreleased(again[s])
            && (forall k :: s < k < e ==> again[k] == "\n") && StartsWith(again[e], "## ")
  {
    HeadingLine(rest);
    var tail := SplitLines(rest);
    hide SplitLines, Join, StartsWith, WellCut, OneLine, Ended, FirstLine;
    if EndsIn(lines[s], '\r') {
      var joined := JoinedHeading(lines, s, rest);
      e := s + 1;
      assert SplitLines(Join(lines[..s + 1]) + "\n" + rest) == lines[..s] + [joined] + tail;
    } else {
      BlankAfterHeading(lines, s, rest);
      e := s + 2;
      assert SplitLines(Join(lines[..s + 1]) + "\n" + rest) == lines[..s + 1] + ["\n"] + tail;
    }
  }

  lemma BlankAfterHeading(lines: seq<string>, s: nat, rest: string)
    requires WellCut(lines) && s < |lines| - 1 && !EndsIn(lines[s], '\r') && rest != ""
    ensures SplitLines(Join(lines[..s + 1]) + "\n" + rest) == lines[..s + 1] + ["\n"] + SplitLines(rest)
  {
    hide SplitLines, Join, FirstLine;
    var head := lines[..s + 1];
    WellCutPart(lines, 0, s + 1);
    WholePart(lines, s + 1, s + 1);
    assert Ended(lines[s], lines[s + 1]);
    assert Ended(head[|head| - 1], "\n" + rest);
    SplitAppend(head, "\n" + rest);
    assert OneLine("\n") by { UnbrokenLine(""); assert "" + "\n" == "\n"; }
    AfterNewline("\n", rest);
    SplitStep("\n", rest);
    assert Join(head) + "\n" + rest == Join(head) + ("\n" + rest);
  }

  lemma JoinedHeading(lines: seq<string>, s: nat, rest: string) returns (joined: string)
    requires WellCut(lines) && s < |lines| - 1 && EndsIn(lines[s], '\r') && rest != ""
    ensures joined == lines[s] + "\n"
    ensures SplitLines(Join(lines[..s + 1]) + "\n" + rest) == lines[..s] + [joined] + SplitLines(rest)
  {
    hide SplitLines, Join, FirstLine, Ended;
    joined := lines[s] + "\n";
    var head := lines[..s];
    WellCutPart(lines, 0, s);
    WholePart(lines, s, s);
    ClosedLine(lines[s]);
    assert joined == Closed(lines[s]) && OneLine(joined);
    if head != [] {
      assert Ended(lines[s - 1], lines[s - 1 + 1]);
      EndedBefore(lines[s - 1], lines[s], joined + rest);
    }
    SplitAppend(head, joined + rest);
    AfterNewline(joined, rest);
    SplitStep(joined, rest);
    assert lines[..s + 1] == head + [lines[s]];
    JoinConcat(head, [lines[s]]);
    JoinOne(lines[s]);
    assert Join(head) + lines[s] + "\n" + rest == Join(head) + (joined + rest);
  }

  lemma RestGroups(before: string, version: string, date: string, notes: string, closing: string, after: string)
    ensures var rest := Release(version, date) + "\n" + notes + closing + after;
            && before + "\n" + Release(version, date) + "\n" + notes + closing + after == before + "\n" + rest
            && "## [" <= rest
  {
    assert "## [" <= Release(version, date);
    hide Release;
    var release := Release(version, date);
    assert before + "\n" + release + "\n" == before + "\n" + (release + "\n");
    assert before + "\n" + (release + "\n") + notes == before + "\n" + (release + "\n" + notes);
  }

  lemma NotesBehind(text: string, version: string)
    requires Promotes(text, version)
    ensures Start(SplitLines(text)) < |SplitLines(text)| - 1
  {
    hide SplitLines, Listed, Unreleased, Start, End;
    var lines := SplitLines(text);
    NotesFollow(lines, Start(lines), End(lines, Start(lines) + 1));
  }

  lemma StillFirst(lines: seq<string>, again: seq<string>, s: nat)
    requires s <= |lines| && s <= |again| && again[..s] == lines[..s] && forall k :: 0 <= k < s ==> !Unreleased(lines[k])
    ensures forall k :: 0 <= k < s ==> !Unreleased(again[k])
  {
    hide Unreleased;
    forall k | 0 <= k < s ensures !Unreleased(again[k]) {
      assert again[k] == again[..s][k] == lines[k];
    }
  }

  lemma PromotedStays(text: string, version: string, date: string, version': string, date': string)
    requires Promotes(text, version)
    ensures Promoted(text, version, date).Text?
    ensures Promoted(Promoted(text, version, date).text, version', date') == Promoted(text, version, date)
  {
    hide SplitLines, Join, Unreleased, HasNotes, Promoted, Promotes, Closing, Release, WellCut, Start, End, StartsWith;
    var lines := SplitLines(text);
    NotesBehind(text, version);
    SplitIsWellCut(text);
    var s, e := PromotionInserts(text, version, date);
    var notes, after := Join(lines[s + 1..e]), Join(lines[e..]);
    var rest := Release(version, date) + "\n" + notes + Closing(notes, after) + after;
    var again := Join(lines[..s + 1]) + "\n" + rest;
    RestGroups(Join(lines[..s + 1]), version, date, notes, Closing(notes, after), after);
    assert Promoted(text, version, date) == Text(again);
    var e' := AfterTheHeading(lines, s, rest);
    StillFirst(lines, SplitLines(again), s);
    BlankSectionStays(again, s, e', version', date');
  }

  /** Promoting a promoted changelog, under any version and date, changes nothing. */
  lemma PromoteTwice(text: string, version: string, date: string, version': string, date': string)
    requires Promoted(text, version, date).Text?
    ensures Promoted(Promoted(text, version, date).text, version', date') == Promoted(text, version, date)
  {
    hide SplitLines, Join, Listed, Rewritten, Unreleased, HasNotes;
    if Promotes(text, version) {
      PromotedStays(text, version, date, version', date');
    }
  }

  lemma NotesFollow(lines: seq<string>, s: nat, e: nat)
    requires s < e <= |lines| && HasNotes(lines[s + 1..e])
    ensures s < |lines| - 1
  {
  }
}
