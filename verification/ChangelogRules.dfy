/** What promoting a changelog does, written out: where its lines are cut, which of the four
    outcomes a text has, and the text a promotion leaves. */
module ChangelogRules {
  import opened Changelog

  // ----- lines --------------------------------------------------------------

  /** The ten characters that end a line. */
  predicate Breaks(c: char) {
    var n := c as int;
    10 <= n <= 13 || 28 <= n <= 30 || n == 133 || n == 8232 || n == 8233
  }

  lemma BreaksExactly(c: char)
    ensures Breaks(c) <==> IsBreak(c)
  {
  }

  /** A nonempty piece of text with a line break at its very end at most, where CR and LF are one break. */
  predicate Whole(line: string) {
    && line != ""
    && forall k :: 0 <= k < |line| - 1 && Breaks(line[k]) ==>
         k == |line| - 2 && line[k] == '\r' && line[k + 1] == '\n'
  }

  /** Every text is cut into whole lines in one way: each but the last ends in a break, no break is cut
      in two, and nothing is lost. */
  lemma LinesExactly(text: string)
    ensures var lines := SplitLines(text);
            && Join(lines) == text && (forall i :: 0 <= i < |lines| ==> Whole(lines[i]))
            && (forall i :: 0 <= i < |lines| - 1 ==>
                  var line := lines[i];
                  line != "" && Breaks(line[|line| - 1]) && !("\n" <= lines[i + 1] && line[|line| - 1] == '\r'))
  {
    hide SplitLines, Join, OneLine, Ended, IsBreak, Breaks;
    SplitIsWellCut(text);
    var lines := SplitLines(text);
    forall i | 0 <= i < |lines| ensures Whole(lines[i]) { OneIsWhole(lines[i]); }
    forall i | 0 <= i < |lines| - 1
      ensures lines[i] != "" && Breaks(lines[i][|lines[i]| - 1])
              && !("\n" <= lines[i + 1] && lines[i][|lines[i]| - 1] == '\r')
    {
      assert Ended(lines[i], lines[i + 1]);
      EndedBreaks(lines[i], lines[i + 1]);
    }
  }

  lemma EndedBreaks(line: string, next: string)
    requires Ended(line, next)
    ensures line != "" && Breaks(line[|line| - 1]) && !("\n" <= next && line[|line| - 1] == '\r')
  {
    hide IsBreak, Breaks;
    BreaksExactly(line[|line| - 1]);
  }

  lemma OneIsWhole(line: string)
    requires OneLine(line)
    ensures Whole(line)
  {
    hide FirstLine, IsBreak, Breaks;
    forall k | 0 <= k < |line| - 1 && Breaks(line[k])
      ensures k == |line| - 2 && line[k] == '\r' && line[k + 1] == '\n'
    {
      BreaksExactly(line[k]);
      NoInnerBreak(line, k);
    }
  }

  // ----- outcomes -----------------------------------------------------------

  predicate UnreleasedHeading(line: string) { "## Unreleased" <= line || "## [Unreleased]" <= line }

  /** Lines `s` to `e` are the Unreleased section: the first such heading up to the next second-level one. */
  predicate Section(lines: seq<string>, s: nat, e: nat) {
    && s < e <= |lines| && UnreleasedHeading(lines[s])
    && (forall k :: 0 <= k < s ==> !UnreleasedHeading(lines[k]))
    && (forall k :: s < k < e ==> !("## " <= lines[k]))
    && (e < |lines| ==> "## " <= lines[e])
  }

  predicate AnyNote(lines: seq<string>, s: nat, e: nat)
    requires s < e <= |lines|
  {
    exists k :: s < k < e && "- " <= lines[k]
  }

  predicate HasVersion(lines: seq<string>, version: string) {
    exists k :: 0 <= k < |lines| && "## [" + version + "]" <= lines[k]
  }

  lemma SectionEnd(lines: seq<string>, s: nat, e: nat)
    requires Section(lines, s, e)
    ensures End(lines, s + 1) == e
  {
    hide End, UnreleasedHeading;
    var e' := End(lines, s + 1);
    assert e < e' ==> !StartsWith(lines[e], "## ");
  }

  lemma SectionIs(lines: seq<string>, s: nat, e: nat)
    requires Section(lines, s, e)
    ensures Start(lines) == s && End(lines, s + 1) == e
    ensures HasNotes(lines[s + 1..e]) <==> AnyNote(lines, s, e)
  {
    StartIs(lines, s);
    hide Start, Unreleased, End;
    SectionEnd(lines, s, e);
    var body := lines[s + 1..e];
    if AnyNote(lines, s, e) {
      var k :| s < k < e && "- " <= lines[k];
      assert StartsWith(body[k - s - 1], "- ");
    }
  }

  /** What a promotion inserts behind the heading, in front of the notes. */
  function Inserted(version: string, date: string): string { "\n## [" + version + "] - " + date + "\n\n" }

  predicate NoHeading(lines: seq<string>) { forall k :: 0 <= k < |lines| ==> !UnreleasedHeading(lines[k]) }

  lemma NoStart(lines: seq<string>)
    ensures Start(lines) == |lines| <==> NoHeading(lines)
  {
    hide Unreleased, UnreleasedHeading;
    forall k | 0 <= k < |lines| ensures UnreleasedHeading(lines[k]) <==> Unreleased(lines[k]) { HeadingIs(lines[k]); }
    if Start(lines) < |lines| { assert UnreleasedHeading(lines[Start(lines)]); }
  }

  /** Without an Unreleased heading there is nothing to promote, which is an error. */
  lemma NoSectionExactly(text: string, version: string, date: string)
    ensures Promoted(text, version, date) == NoSection <==> NoHeading(SplitLines(text))
  {
    hide SplitLines, Join, NoHeading;
    NoStart(SplitLines(text));
  }

  lemma HeadingIs(line: string)
    ensures UnreleasedHeading(line) <==> Unreleased(line)
  {
  }

  /** The text with the notes of lines `s` to `e` below a new heading. */
  function Moved(lines: seq<string>, s: nat, e: nat, version: string, date: string): string
    requires s < e <= |lines|
  {
    var notes := Join(lines[s + 1..e]);
    Join(lines[..s + 1]) + Inserted(version, date) + notes + (if Last(notes) == "\n" then "" else "\n")
    + (if e < |lines| then "\n" else "") + Join(lines[e..])
  }

  lemma SectionMoved(text: string, version: string, date: string, s: nat, e: nat)
    requires var lines := SplitLines(text);
             s + 1 < e <= |lines| && s == Start(lines) && e == End(lines, s + 1) && Promotes(text, version)
    ensures Promoted(text, version, date) == Text(Moved(SplitLines(text), s, e, version, date))
  {
    hide SplitLines, Join, Start, End, Inserted, Closing, Promoted, Promotes, Release, WellCut;
    var lines := SplitLines(text);
    SplitIsWellCut(text);
    var s', e' := PromotionInserts(text, version, date);
    var before, notes, after := Join(lines[..s + 1]), Join(lines[s + 1..e]), Join(lines[e..]);
    LastOfNotes(lines, s + 1, e);
    ClosingIs(notes, after);
    InsertedIs(before, version, date, notes, if Last(notes) == "\n" then "" else "\n",
               if e < |lines| then "\n" else "", after);
  }

  /** A section without notes leaves the text alone; a version that already has a heading is an error; otherwise
      the notes go below a new heading, closed by a line feed if the last one is not, with a blank line
      before what follows. */
  lemma SectionPromoted(text: string, version: string, date: string, s: nat, e: nat)
    requires Section(SplitLines(text), s, e)
    ensures var lines := SplitLines(text);
            Promoted(text, version, date) ==
              if !AnyNote(lines, s, e) then Text(text)
              else if HasVersion(lines, version) then AlreadyListed
              else Text(Moved(lines, s, e, version, date))
  {
    hide SplitLines, Join, HasNotes, Start, End, Moved, Listed, HasVersion, Rewritten;
    var lines := SplitLines(text);
    SectionIs(lines, s, e);
    ListedIs(lines, version);
    if AnyNote(lines, s, e) && !HasVersion(lines, version) {
      SectionMoved(text, version, date, s, e);
    }
  }

  /** The last character, or nothing. */
  function Last(s: string): string { if s == "" then "" else [s[|s| - 1]] }

  lemma ListedIs(lines: seq<string>, version: string)
    ensures Listed(lines, version) <==> HasVersion(lines, version)
  {
  }

  lemma ClosingIs(notes: string, after: string)
    ensures Closing(notes, after) == (if Last(notes) == "\n" then "" else "\n") + (if after == "" then "" else "\n")
  {
  }

  lemma InsertedIs(before: string, version: string, date: string, notes: string, fix: string, gap: string, after: string)
    ensures before + "\n" + Release(version, date) + "\n" + notes + (fix + gap) + after
            == before + Inserted(version, date) + notes + fix + gap + after
  {
    var heading: string := "## [" + version + "] - " + date + "\n";
    ReleaseIs(version, date);
    assert before + "\n" + heading + "\n" == before + ("\n" + heading + "\n");
    assert "\n" + heading + "\n" == Inserted(version, date);
    var front := before + Inserted(version, date) + notes;
    assert front + (fix + gap) == front + fix + gap;
  }

  lemma ReleaseIs(version: string, date: string)
    ensures Release(version, date) == "## [" + version + "] - " + date + "\n"
  {
    assert "## [" + version + "]" + " - " == "## [" + version + "] - ";
  }
}
