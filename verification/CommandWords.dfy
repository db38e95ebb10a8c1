/** The quote-aware word splitter of acp/src/approval_learning.rs. */
module CommandWords {
  import opened Text

  // ----- splitting into words ----------------------------------------------

  datatype Scanner = Scanner(words: seq<string>, current: string, inWord: bool, quote: Option<char>)

  function Start(): Scanner { Scanner([], "", false, None) }

  predicate IsQuote(c: char) { c == '\'' || c == '"' }

  /** One character of the loop in `split_words`. */
  function ScanChar(s: Scanner, c: char): Scanner {
    if s.quote.Some? then
      if c == s.quote.value then s.(quote := None) else s.(current := s.current + [c])
    else if IsQuote(c) then s.(quote := Some(c), inWord := true)
    else if IsWhitespace(c) then
      if s.inWord then s.(words := s.words + [s.current], current := "", inWord := false) else s
    else s.(current := s.current + [c], inWord := true)
  }

  function Scan(s: Scanner, text: string): Scanner
    decreases |text|
  {
    if text == "" then s else Scan(ScanChar(s, text[0]), text[1..])
  }

  function Finish(s: Scanner): Option<seq<string>> {
    if s.quote.Some? then None else Some(if s.inWord then s.words + [s.current] else s.words)
  }

  function Split(command: string): Option<seq<string>> { Finish(Scan(Start(), command)) }

  lemma {:induction false} ScanConcat(s: Scanner, a: string, b: string)
    ensures Scan(s, a + b) == Scan(Scan(s, a), b)
    decreases |a|
  {
    if a == "" {
      assert a + b == b;
    } else {
      assert (a + b)[1..] == a[1..] + b;
      ScanConcat(ScanChar(s, a[0]), a[1..], b);
    }
  }

  method SplitWords(command: string) returns (r: Option<seq<string>>)
    ensures r == Split(command)
  {
    var words: seq<string> := [];
    var current := "";
    var inWord := false;
    var quote: Option<char> := None;
    for i := 0 to |command|
      invariant Scan(Start(), command) == Scan(Scanner(words, current, inWord, quote), command[i..])
    {
      var c := command[i];
      assert command[i..][0] == c && command[i..][1..] == command[i + 1..];
      if quote.Some? && c == quote.value {
        quote := None;
      } else if quote.Some? {
        current := current + [c];
      } else if c == '\'' || c == '"' {
        quote := Some(c);
        inWord := true;
      } else if IsWhitespace(c) {
        if inWord {
          words := words + [current];
          current := "";
          inWord := false;
        }
      } else {
        current := current + [c];
        inWord := true;
      }
    }
    if quote.Some? {
      return None;
    }
    if inWord {
      words := words + [current];
    }
    return Some(words);
  }

  // ----- every way to write a list of words --------------------------------

  /** A word is written as bare characters and quoted stretches, in any mix. */
  datatype Segment = Bare(c: char) | Quoted(mark: char, text: string)

  predicate ValidSegment(s: Segment) {
    match s
    case Bare(c) => !IsQuote(c) && !IsWhitespace(c)
    case Quoted(m, text) => IsQuote(m) && forall i :: 0 <= i < |text| ==> text[i] != m
  }

  function SegmentText(s: Segment): string {
    match s case Bare(c) => [c] case Quoted(m, text) => [m] + text + [m]
  }

  function SegmentValue(s: Segment): string {
    match s case Bare(c) => [c] case Quoted(m, text) => text
  }

  function WordText(w: seq<Segment>): string {
    if w == [] then "" else SegmentText(w[0]) + WordText(w[1..])
  }

  function WordValue(w: seq<Segment>): string {
    if w == [] then "" else SegmentValue(w[0]) + WordValue(w[1..])
  }

  /** A written word and the white space before it. */
  datatype Spaced = Spaced(gap: string, word: seq<Segment>)

  predicate ValidSpaced(s: Spaced) {
    && AllWhitespace(s.gap) && s.word != []
    && forall i :: 0 <= i < |s.word| ==> ValidSegment(s.word[i])
  }

  /** Words after the first are set off by at least one white space. */
  predicate ValidLayout(l: seq<Spaced>) {
    forall i :: 0 <= i < |l| ==> ValidSpaced(l[i]) && (i > 0 ==> l[i].gap != "")
  }

  function LayoutText(l: seq<Spaced>): string {
    if l == [] then "" else LayoutText(l[..|l| - 1]) + (l[|l| - 1].gap + WordText(l[|l| - 1].word))
  }

  function LayoutWords(l: seq<Spaced>): seq<string> {
    if l == [] then [] else LayoutWords(l[..|l| - 1]) + [WordValue(l[|l| - 1].word)]
  }

  /** No quote is open. */
  predicate Idle(s: Scanner) { s.quote.None? && (!s.inWord ==> s.current == "") }

  lemma {:induction false} ScanQuotedText(s: Scanner, m: char, text: string)
    requires s.quote == Some(m) && forall i :: 0 <= i < |text| ==> text[i] != m
    ensures Scan(s, text) == s.(current := s.current + text)
    decreases |text|
  {
    if text == "" {
      assert s.current + text == s.current;
    } else {
      ScanQuotedText(s.(current := s.current + [text[0]]), m, text[1..]);
      assert s.current + [text[0]] + text[1..] == s.current + text;
    }
  }

  lemma ScanSegment(s: Scanner, seg: Segment)
    requires s.quote.None? && ValidSegment(seg)
    ensures Scan(s, SegmentText(seg)) == s.(current := s.current + SegmentValue(seg), inWord := true)
  {
    match seg
    case Bare(c) =>
      assert [c][1..] == "";
    case Quoted(m, text) =>
      var open := s.(quote := Some(m), inWord := true);
      ScanConcat(s, [m] + text, [m]);
      ScanConcat(s, [m], text);
      assert [m][1..] == "";
      assert Scan(s, [m]) == open;
      ScanQuotedText(open, m, text);
      var full := open.(current := s.current + text);
      assert Scan(full, [m]) == ScanChar(full, m);
  }

  lemma ScanNothing(s: Scanner)
    ensures Scan(s, "") == s
  {
  }

  lemma {:induction false} ScanWord(s: Scanner, w: seq<Segment>)
    requires s.quote.None? && forall i :: 0 <= i < |w| ==> ValidSegment(w[i])
    ensures Scan(s, WordText(w)) == s.(current := s.current + WordValue(w), inWord := s.inWord || w != [])
    decreases |w|
  {
    hide Scan, ScanChar, SegmentText, SegmentValue, ValidSegment;
    if w == [] {
      ScanNothing(s);
      assert s.current + "" == s.current;
    } else {
      ScanConcat(s, SegmentText(w[0]), WordText(w[1..]));
      ScanSegment(s, w[0]);
      var t := s.(current := s.current + SegmentValue(w[0]), inWord := true);
      ScanWord(t, w[1..]);
      assert s.current + SegmentValue(w[0]) + WordValue(w[1..]) == s.current + WordValue(w);
    }
  }

  /** White space ends an open word and does nothing else. */
  lemma {:induction false} ScanGap(s: Scanner, gap: string)
    requires s.quote.None? && AllWhitespace(gap)
    ensures Scan(s, gap) == if gap != "" && s.inWord then Scanner(s.words + [s.current], "", false, None) else s
    decreases |gap|
  {
    if gap != "" {
      assert IsWhitespace(gap[0]) && !IsQuote(gap[0]);
      ScanGap(ScanChar(s, gap[0]), gap[1..]);
    }
  }

  lemma {:induction false} ScanLayout(l: seq<Spaced>)
    requires ValidLayout(l)
    ensures Scan(Start(), LayoutText(l)) ==
              if l == [] then Start()
              else Scanner(LayoutWords(l[..|l| - 1]), WordValue(l[|l| - 1].word), true, None)
    decreases |l|
  {
    if l != [] {
      var n := |l| - 1;
      var last := l[n];
      ScanLayout(l[..n]);
      ScanConcat(Start(), LayoutText(l[..n]), last.gap + WordText(last.word));
      var s := Scan(Start(), LayoutText(l[..n]));
      ScanConcat(s, last.gap, WordText(last.word));
      ScanGap(s, last.gap);
      var t := Scan(s, last.gap);
      assert t == Scanner(LayoutWords(l[..n]), "", false, None) by {
        if n > 0 { assert l[..n][n - 1] == l[n - 1]; }
      }
      ScanWord(t, last.word);
      assert "" + WordValue(last.word) == WordValue(last.word);
    }
  }

  /** However a list of words is quoted and spaced, splitting returns the words;
      a quote left open makes the whole command unlearnable. */
  lemma SplitInvertsEveryLayout(command: string, l: seq<Spaced>, trailing: string, open: string)
    requires Spells(command, l, trailing, open)
    ensures Split(command) == if open == "" then Some(LayoutWords(l)) else None
  {
    ScanLayout(l);
    ScanConcat(Start(), LayoutText(l) + trailing, open);
    ScanConcat(Start(), LayoutText(l), trailing);
    var s := Scan(Start(), LayoutText(l));
    ScanGap(s, trailing);
    if open != "" {
      var t := Scan(s, trailing).(quote := Some(open[0]), inWord := true);
      assert open == [open[0]] + open[1..];
      ScanQuotedText(t, open[0], open[1..]);
    }
  }

  predicate ValidOpen(open: string) {
    open == "" || (IsQuote(open[0]) && forall i :: 1 <= i < |open| ==> open[i] != open[0])
  }

  /** `l`, `trailing` and `open` spell `command`. */
  predicate Spells(command: string, l: seq<Spaced>, trailing: string, open: string) {
    && ValidLayout(l) && AllWhitespace(trailing) && ValidOpen(open)
    && command == LayoutText(l) + trailing + open
  }

  /** A finished segment extends the last word, or starts a new one after white space. */
  function AddSegment(l: seq<Spaced>, trailing: string, seg: Segment): seq<Spaced> {
    if l == [] || trailing != "" then l + [Spaced(trailing, [seg])]
    else l[..|l| - 1] + [l[|l| - 1].(word := l[|l| - 1].word + [seg])]
  }

  lemma {:induction false} WordTextSnoc(w: seq<Segment>, seg: Segment)
    ensures WordText(w + [seg]) == WordText(w) + SegmentText(seg)
  {
    if w == [] {
      assert w + [seg] == [seg] && [seg][1..] == [];
      assert WordText([seg]) == SegmentText(seg) + "";
    } else {
      assert (w + [seg])[1..] == w[1..] + [seg];
      WordTextSnoc(w[1..], seg);
    }
  }

  lemma AddSegmentSpells(l: seq<Spaced>, trailing: string, seg: Segment)
    requires ValidLayout(l) && AllWhitespace(trailing) && ValidSegment(seg)
    ensures ValidLayout(AddSegment(l, trailing, seg))
    ensures LayoutText(AddSegment(l, trailing, seg)) == LayoutText(l) + trailing + SegmentText(seg)
  {
    hide SegmentText, ValidSegment;
    var r := AddSegment(l, trailing, seg);
    var n := |r| - 1;
    if l == [] || trailing != "" {
      assert r[..n] == l;
      WordTextSnoc([], seg);
      assert [] + [seg] == [seg] && "" + SegmentText(seg) == SegmentText(seg);
      assert LayoutText(r) == LayoutText(l) + (trailing + SegmentText(seg));
    } else {
      var last := l[n];
      assert r[..n] == l[..n];
      WordTextSnoc(last.word, seg);
      assert LayoutText(r) == LayoutText(l[..n]) + (last.gap + (WordText(last.word) + SegmentText(seg)));
      assert LayoutText(l) == LayoutText(l[..n]) + (last.gap + WordText(last.word));
    }
  }

  lemma QuotedText(c: char, open: string)
    requires open != "" && open[0] == c
    ensures SegmentText(Quoted(c, open[1..])) == open + [c]
  {
  }

  lemma BareText(c: char)
    ensures SegmentText(Bare(c)) == [c]
  {
  }

  /** Every command is spelled by some layout, so the lemma above covers them all. */
  lemma {:induction false} EveryCommandIsSpelled(command: string)
    returns (l: seq<Spaced>, trailing: string, open: string)
    ensures Spells(command, l, trailing, open)
    decreases |command|
  {
    hide IsWhitespace, SegmentText, AddSegment;
    if command == "" {
      l, trailing, open := [], "", "";
    } else {
      var n := |command| - 1;
      var c := command[n];
      l, trailing, open := EveryCommandIsSpelled(command[..n]);
      assert command == LayoutText(l) + trailing + open + [c];
      if open != "" && c != open[0] {
        open := open + [c];
      } else if open != "" {
        var seg := Quoted(c, open[1..]);
        assert SegmentText(seg) == open + [c] by { QuotedText(c, open); }
        AddSegmentSpells(l, trailing, seg);
        assert LayoutText(l) + trailing + (open + [c]) == command;
        l, trailing, open := AddSegment(l, trailing, seg), "", "";
      } else if IsQuote(c) {
        open := [c];
      } else if IsWhitespace(c) {
        trailing := trailing + [c];
      } else {
        AddSegmentSpells(l, trailing, Bare(c));
        BareText(c);
        l, trailing := AddSegment(l, trailing, Bare(c)), "";
      }
    }
  }
}
