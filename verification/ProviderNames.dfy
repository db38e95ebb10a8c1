/** Provider names of acp/src/cc_switch.rs: a slug of the label, made unique by a
    decimal suffix. */
module ProviderNames {
  import opened Text

  const PROVIDER_NAME: string := "cc-switch"
  const PREFIX: string := "cc-switch-"

  // ----- slugs --------------------------------------------------------------

  predicate IsLetter(c: char) { 'a' <= c <= 'z' || 'A' <= c <= 'Z' || '0' <= c <= '9' }

  function Lower(c: char): char { if 'A' <= c <= 'Z' then (c as int + 32) as char else c }

  /** The maximal runs of ASCII letters and digits, in lower case. */
  function Runs(title: string): seq<string> {
    if title == "" then []
    else
      var init, c := title[..|title| - 1], title[|title| - 1];
      if !IsLetter(c) then Runs(init)
      else if init != "" && IsLetter(init[|init| - 1]) && Runs(init) != [] then
        Runs(init)[|Runs(init)| - 1 := Runs(init)[|Runs(init)| - 1] + [Lower(c)]]
      else Runs(init) + [[Lower(c)]]
  }

  function Hyphenated(runs: seq<string>): string {
    if runs == [] then "" else if |runs| == 1 then runs[0]
    else Hyphenated(runs[..|runs| - 1]) + "-" + runs[|runs| - 1]
  }

  function Slug(title: string): string {
    if Runs(title) == [] then "provider" else Hyphenated(Runs(title))
  }

  predicate EndsInLetter(s: string) { s != "" && IsLetter(s[|s| - 1]) }

  lemma {:induction false} RunsEndInLetters(s: string)
    ensures EndsInLetter(s) ==> Runs(s) != []
    ensures forall i :: 0 <= i < |Runs(s)| ==> Word(Runs(s)[i])
  {
    if s != "" { RunsEndInLetters(s[..|s| - 1]); }
  }

  predicate Word(w: string) { w != "" && forall i :: 0 <= i < |w| ==> IsLetter(w[i]) && Lower(w[i]) == w[i] }

  lemma HyphenatedExtend(runs: seq<string>, c: char)
    requires runs != []
    ensures Hyphenated(runs[|runs| - 1 := runs[|runs| - 1] + [c]]) == Hyphenated(runs) + [c]
  {
    var n := |runs| - 1;
    assert runs[n := runs[n] + [c]][..n] == runs[..n];
  }

  lemma HyphenatedAppend(runs: seq<string>, w: string)
    ensures Hyphenated(runs + [w]) == if runs == [] then w else Hyphenated(runs) + "-" + w
  {
    assert (runs + [w])[..|runs|] == runs;
  }

  lemma {:induction false} HyphenatedShape(runs: seq<string>)
    requires forall i :: 0 <= i < |runs| ==> Word(runs[i])
    ensures runs != [] ==> EndsInLetter(Hyphenated(runs))
  {
  }

  lemma RunsStep(front: string, c: char)
    ensures !IsLetter(c) ==> Runs(front + [c]) == Runs(front)
    ensures IsLetter(c) ==> Runs(front + [c]) != []
    ensures IsLetter(c) && (EndsInLetter(front) || Runs(front) == []) ==>
              Hyphenated(Runs(front + [c])) == Hyphenated(Runs(front)) + [Lower(c)]
    ensures IsLetter(c) && !EndsInLetter(front) && Runs(front) != [] ==>
              Hyphenated(Runs(front + [c])) == Hyphenated(Runs(front)) + "-" + [Lower(c)]
  {
    assert (front + [c])[..|front|] == front;
    RunsEndInLetters(front);
    if Runs(front) != [] { HyphenatedExtend(Runs(front), Lower(c)); }
    HyphenatedAppend(Runs(front), [Lower(c)]);
  }

  /** `provider_slug` */
  method ProviderSlug(title: string) returns (slug: string)
    ensures slug == Slug(title)
  {
    hide Runs, Hyphenated;
    slug := "";
    var hyphen := false;
    NoRuns();
    for k := 0 to |title|
      invariant hyphen <==> slug != "" && k > 0 && !IsLetter(title[k - 1])
      invariant slug == Hyphenated(Runs(title[..k])) + if hyphen then "-" else ""
      invariant slug == "" <==> Runs(title[..k]) == []
    {
      var c := title[k];
      assert title[..k + 1] == title[..k] + [c];
      RunsStep(title[..k], c);
      if IsLetter(c) {
        slug := slug + [Lower(c)];
        hyphen := false;
      } else if slug != "" && !hyphen {
        slug := slug + "-";
        hyphen := true;
      }
    }
    assert title[..|title|] == title;
    slug := DropHyphens(title, slug);
    if slug == "" {
      slug := "provider";
    }
  }

  lemma NoRuns()
    ensures Runs("") == [] && Hyphenated([]) == ""
  {
  }

  /** The trailing loop. */
  method DropHyphens(title: string, slug0: string) returns (slug: string)
    requires slug0 == Hyphenated(Runs(title)) || slug0 == Hyphenated(Runs(title)) + "-"
    requires slug0 == "" <==> Runs(title) == []
    ensures slug == Hyphenated(Runs(title)) && (slug == "" <==> Runs(title) == [])
  {
    RunsEndInLetters(title);
    HyphenatedShape(Runs(title));
    slug := slug0;
    while slug != "" && slug[|slug| - 1] == '-'
      invariant Runs(title) == [] ==> slug == ""
      invariant Runs(title) != [] ==> slug == Hyphenated(Runs(title)) || slug == Hyphenated(Runs(title)) + "-"
      decreases |slug|
    {
      slug := slug[..|slug| - 1];
    }
  }

  // ----- a slug is its own slug --------------------------------------------

  lemma {:induction false} RunsOfWord(front: string, w: string)
    requires Word(w) && !EndsInLetter(front)
    ensures Runs(front + w) == Runs(front) + [w]
    decreases |w|
  {
    var s, n := front + w, |w| - 1;
    assert s[..|s| - 1] == front + w[..n];
    if n == 0 {
      assert front + w[..n] == front;
      assert w == [w[0]];
    } else {
      assert Word(w[..n]);
      RunsOfWord(front, w[..n]);
      var runs := Runs(front) + [w[..n]];
      assert runs[|runs| - 1 := w[..n] + [w[n]]] == Runs(front) + [w[..n] + [w[n]]];
      assert w == w[..n] + [w[n]];
    }
  }

  lemma {:induction false} RunsOfHyphenated(words: seq<string>)
    requires forall i :: 0 <= i < |words| ==> Word(words[i])
    ensures Runs(Hyphenated(words)) == words
    decreases |words|
  {
    if words == [] {
    } else if |words| == 1 {
      RunsOfWord("", words[0]);
      assert "" + words[0] == words[0];
    } else {
      var init, w := words[..|words| - 1], words[|words| - 1];
      RunsOfHyphenated(init);
      var front := Hyphenated(init) + "-";
      assert front[..|front| - 1] == Hyphenated(init);
      RunsOfWord(front, w);
      assert words == init + [w];
    }
  }

  /** A slug is never empty, holds only words joined by single hyphens, and is its own slug. */
  lemma SlugFixpoint(title: string)
    ensures Slug(Slug(title)) == Slug(title) && EndsInLetter(Slug(title))
  {
    RunsEndInLetters(title);
    var words := if Runs(title) == [] then ["provider"] else Runs(title);
    RunsOfHyphenated(words);
    HyphenatedShape(words);
  }

  // ----- unique names -------------------------------------------------------

  /** The `n`-th name tried: the plain one, then `-2`, `-3`, ... */
  function Candidate(slug: string, n: nat): string {
    if n <= 1 then PREFIX + slug else PREFIX + slug + "-" + Decimal(n)
  }

  lemma CandidatesDiffer(slug: string, m: nat, n: nat)
    requires 1 <= m < n
    ensures Candidate(slug, m) != Candidate(slug, n)
  {
    var front := PREFIX + slug;
    if m > 1 && Candidate(slug, m) == Candidate(slug, n) {
      assert Candidate(slug, m)[|front| + 1..] == Decimal(m);
      assert Candidate(slug, n)[|front| + 1..] == Decimal(n);
      DecimalInjective(m, n);
    }
  }

  function Tried(slug: string, n: nat): set<string> { set m | 1 <= m < n :: Candidate(slug, m) }

  /** No more names can be taken than there are names in use. */
  lemma {:induction false} TriedCount(slug: string, n: nat)
    requires n >= 1
    ensures |Tried(slug, n)| == n - 1
  {
    if n == 1 {
      assert Tried(slug, n) == {};
    } else {
      TriedCount(slug, n - 1);
      assert Tried(slug, n) == Tried(slug, n - 1) + {Candidate(slug, n - 1)};
      forall m | 1 <= m < n - 1 ensures Candidate(slug, m) != Candidate(slug, n - 1) {
        CandidatesDiffer(slug, m, n - 1);
      }
    }
  }

  lemma TriedFits(slug: string, n: nat, used: set<string>)
    requires n >= 1 && Tried(slug, n) <= used
    ensures n - 1 <= |used|
  {
    TriedCount(slug, n);
    SmallerSet(Tried(slug, n), used);
  }

  lemma SmallerSet(a: set<string>, b: set<string>)
    requires a <= b
    ensures |a| <= |b|
  {
    if a != {} {
      var x :| x in a;
      SmallerSet(a - {x}, b - {x});
    }
  }

  /** `name` is the first free candidate. */
  ghost predicate FirstFree(slug: string, used: set<string>, n: nat, name: string) {
    && n >= 1 && name == Candidate(slug, n) && name !in used && Tried(slug, n) <= used
  }

  /** `unique_provider_name`: the first free candidate, found within |used| + 1 tries; `suffix` is the
      counter's last value. */
  method UniqueProviderName(slug: string, used: set<string>) returns (name: string, used': set<string>, suffix: nat)
    ensures suffix >= 2 && FirstFree(slug, used, suffix - 1, name) && suffix - 1 <= |used| + 1
    ensures used' == used + {name}
  {
    name, suffix := PREFIX + slug, 2;
    assert Tried(slug, 1) == {};
    while name in used
      invariant suffix >= 2 && name == Candidate(slug, suffix - 1)
      invariant Tried(slug, suffix - 1) <= used
      decreases |used| + 2 - suffix
    {
      assert Tried(slug, suffix) == Tried(slug, suffix - 1) + {name};
      TriedFits(slug, suffix, used);
      name := PREFIX + slug + "-" + Decimal(suffix);
      suffix := suffix + 1;
    }
    TriedFits(slug, suffix - 1, used);
    used' := used + {name};
  }
}
