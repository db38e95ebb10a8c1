/** What a connector note holds, line by line, and what its readers find in any text: the
    laws of acp/src/connector_notes.rs written out. */
module NoteRules {
  import opened Text
  import opened ConnectorNotes

  // ----- bounded texts ------------------------------------------------------

  /** Dropping characters works piece by piece. */
  lemma {:induction false} WithoutConcat(a: string, b: string, drop: char -> bool)
    ensures Without(a + b, drop) == Without(a, drop) + Without(b, drop)
    decreases |a|
  {
    if a == "" {
      assert a + b == b;
    } else {
      assert (a + b)[0] == a[0] && (a + b)[1..] == a[1..] + b;
      WithoutConcat(a[1..], b, drop);
    }
  }

  lemma WithoutOne(c: char, drop: char -> bool)
    ensures Without([c], drop) == if drop(c) then "" else [c]
  {
    assert [c][1..] == "";
  }

  /** `kept` is what is left of the first `k` characters of `raw` without NULs: all of them, or `limit`. */
  predicate FirstOf(raw: string, limit: nat, k: nat, kept: string) {
    && k <= |raw| && |kept| <= limit && (k < |raw| ==> |kept| == limit)
    && kept == Without(raw[..k], (c: char) => c == '\0')
  }

  lemma {:induction false} TakeIsFirst(raw: string, limit: nat) returns (k: nat)
    ensures FirstOf(raw, limit, k, Take(Without(raw, IsNul), limit))
    decreases |raw|
  {
    SameDrop(raw);
    if |Without(raw, IsNul)| <= limit {
      k := |raw|;
      assert raw[..k] == raw;
    } else {
      var n := |raw| - 1;
      var init := raw[..n];
      assert raw == init + [raw[n]];
      WithoutConcat(init, [raw[n]], IsNul);
      WithoutOne(raw[n], IsNul);
      k := TakeIsFirst(init, limit);
      assert init[..k] == raw[..k];
      var all, less := Without(raw, IsNul), Without(init, IsNul);
      assert |less| >= limit;
      assert Take(all, limit) == Take(less, limit);
      if k == |init| { assert init[..k] == init; SameDrop(init); }
    }
  }

  lemma {:induction false} SameDrop(s: string)
    ensures Without(s, IsNul) == Without(s, (c: char) => c == '\0')
  {
    if s != "" { SameDrop(s[1..]); }
  }

  /** The body of a note: the first 8000 characters of the usage text other than NUL, trimmed. */
  lemma UsageExactly(raw: string) returns (k: nat, kept: string)
    ensures FirstOf(raw, 8000, k, kept) && BoundedUsage(raw) == Trim(kept)
  {
    hide Trim, Without;
    kept := Take(Without(raw, IsNul), 8000);
    k := TakeIsFirst(raw, 8000);
  }

  /** Its description: every white space a blank, NULs gone, trimmed, and then at most 160 characters. */
  lemma DescriptionExactly(raw: string) returns (flat: string)
    ensures |flat| == |raw| && forall i :: 0 <= i < |raw| ==> flat[i] == if IsWhitespace(raw[i]) then ' ' else raw[i]
    ensures var text := Trim(Without(flat, (c: char) => c == '\0'));
            OneLine(raw) == if |text| <= 160 then text else text[..160]
  {
    hide Trim, Without;
    flat := Blanked(raw);
    SameDrop(flat);
  }

  // ----- the printed note ---------------------------------------------------

  /** A quoted value has its characters in order between double quotes, but for line breaks, double
      quotes and backslashes. */
  lemma {:induction false} QuotedExactly(value: string)
    ensures Quote(value) == "\"" + Without(value, (c: char) => c as int in {10, 13, 34, 92}) + "\""
  {
    SameQuoting(value);
  }

  lemma {:induction false} SameQuoting(s: string)
    ensures Without(s, Unquotable) == Without(s, (c: char) => c as int in {10, 13, 34, 92})
  {
    if s != "" { SameQuoting(s[1..]); }
  }

  /** A slug is printed as it is. */
  lemma SlugQuoted(name: string)
    requires SlugOk(name)
    ensures Quote(name) == "\"" + name + "\""
  {
    WithoutNothing(name, Unquotable);
  }

  /** The frontmatter of a printed note: a fence, the name, the description, a fence. */
  lemma FrontmatterOfRenderedNote(name: string, usage: string)
    requires SlugOk(name)
    ensures var lines := Lines(RenderNote(name, usage));
            && |lines| >= 4 && lines[0] == "---" && lines[1] == "name: \"" + name + "\"" && lines[3] == "---"
            && lines[2] == "description: \"" + Without(OneLine(BoundedUsage(usage)), Unquotable) + "\""
  {
    hide Lines, OneLine, BoundedUsage, Without, RenderNote, SlugOk;
    var body := BoundedUsage(usage);
    RenderedLines(name, usage);
    SlugQuoted(name);
    LinesCons("---", body + "\n");
    Prepended("name: ", name);
    Prepended("description: ", Without(OneLine(body), Unquotable));
  }

  lemma Prepended(key: string, value: string)
    ensures key + ("\"" + value + "\"") == key + "\"" + value + "\""
  {
  }

  // ----- the readers --------------------------------------------------------

  /** A line `description: ...`, and what stands behind its first colon. */
  predicate DescriptionAt(line: string, colon: nat) {
    && colon < |line| && line[colon] == ':' && (forall i :: 0 <= i < colon ==> line[i] != ':')
    && Trim(line[..colon]) == "description"
  }

  /** The line decides what the reader finds: it closes the frontmatter or describes the note. */
  ghost predicate Decides(line: string) { Trim(line) == "---" || exists colon: nat :: DescriptionAt(line, colon) }

  lemma DescriptionIs(line: string, colon: nat)
    ensures DescriptionAt(line, colon) <==> IsDescription(line) && colon == ColonAt(line)
  {
    hide Trim;
  }

  lemma {:induction false} FirstDecides(lines: seq<string>, k: nat)
    requires k <= |lines| && (forall i :: 0 <= i < k ==> !Decides(lines[i])) && (k < |lines| ==> Decides(lines[k]))
    ensures k == |lines| || Trim(lines[k]) == "---" ==> SummaryOf(lines) == None
    ensures k < |lines| && Trim(lines[k]) != "---" ==>
              IsDescription(lines[k]) && SummaryOf(lines) == DescriptionIn(lines[k])
    decreases |lines|
  {
    hide Trim, OneLine, Unquote, DescriptionIn, ColonAt;
    if lines != [] {
      forall colon: nat ensures DescriptionAt(lines[0], colon) <==> IsDescription(lines[0]) && colon == ColonAt(lines[0]) {
        DescriptionIs(lines[0], colon);
      }
      if k > 0 {
        var rest := lines[1..];
        assert !Decides(lines[0]) && !DescriptionAt(lines[0], ColonAt(lines[0]));
        forall i | 0 <= i < k - 1 ensures !Decides(rest[i]) { assert !Decides(lines[i + 1]); }
        FirstDecides(rest, k - 1);
      }
    }
  }

  /** The description found in any text: nothing unless the first line is a fence; otherwise the
      first line that closes the frontmatter or describes the note decides. A description is what stands behind
      its first colon, trimmed, unquoted and put on one line, and an empty one counts as none. */
  lemma SummaryExactly(text: string, k: nat)
    requires var lines := Lines(text);
             1 <= k <= |lines| && (forall i :: 1 <= i < k ==> !Decides(lines[i])) && (k < |lines| ==> Decides(lines[k]))
    ensures var lines := Lines(text);
            if Trim(lines[0]) != "---" || k == |lines| || Trim(lines[k]) == "---" then Summary(text) == None
            else exists colon: nat :: DescriptionAt(lines[k], colon)
                   && Summary(text) == NonEmpty(OneLine(Unquoted(Trim(lines[k][colon + 1..]))))
  {
    hide Lines, Trim, OneLine, Unquote, Unquoted, Decides, SummaryOf;
    var lines := Lines(text);
    var rest := lines[1..];
    forall i | 0 <= i < k - 1 ensures !Decides(rest[i]) { assert !Decides(lines[i + 1]); }
    FirstDecides(rest, k - 1);
    if k < |lines| {
      assert rest[k - 1] == lines[k];
      if Trim(lines[k]) != "---" {
        DescriptionIs(lines[k], ColonAt(lines[k]));
        UnquotedIs(Trim(lines[k][ColonAt(lines[k]) + 1..]));
      }
    }
  }

  function NonEmpty(s: string): Option<string> { if s == "" then None else Some(s) }

  /** Without the matching quotes around it. */
  function Unquoted(s: string): string {
    if |s| >= 2 && s[0] == s[|s| - 1] && (s[0] == '"' || s[0] == '\'') then s[1..|s| - 1] else s
  }

  lemma UnquotedIs(s: string)
    ensures Unquote(s) == Unquoted(s)
  {
  }

  /** A text whose first logical line is no fence, byte order marks apart, is its own body. */
  lemma BodyWithoutFence(text: string)
    requires var lines := Cuts(StripBom(text)); lines == [] || Trim(lines[0].line) != "---"
    ensures Body(text) == Some(text)
  {
    hide Trim, FirstLine, StripBom, AfterFence;
    var s := StripBom(text);
    if s != "" { assert Cuts(s)[0] == FirstLine(s); }
  }
}
