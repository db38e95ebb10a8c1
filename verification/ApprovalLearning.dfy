/** Learned command rules, acp/src/approval_learning.rs. The shared shell
    classifier (`parses_as_one_simple_command`) is the parameter `simple`. */
module ApprovalLearning {
  import opened Text
  import opened CommandWords

  const MAX_RULES_PER_WORKSPACE: nat := 64
  const MAX_COMMAND_LEN: nat := 4096
  const MAX_TOKEN_LEN: nat := 64

  // ----- characters ---------------------------------------------------------

  predicate IsControl(c: char) { c <= '\U{001F}' || '\U{007F}' <= c <= '\U{009F}' }

  predicate IsShellControl(c: char) {
    c in [';', '&', '|', '$', '`', '<', '>', '(', ')', '{', '}', '\\', '\n', '\r']
  }

  predicate IsNameChar(c: char) {
    || 'a' <= c <= 'z' || 'A' <= c <= 'Z' || '0' <= c <= '9'
    || c == '_' || c == '-' || c == '.' || c == ':'
  }

  predicate IsPlainName(token: string) {
    && token != "" && Utf8Length(token) <= MAX_TOKEN_LEN
    && token[0] != '.' && token[0] != '-'
    && forall i :: 0 <= i < |token| ==> IsNameChar(token[i])
  }

  lemma {:induction false} AsciiLength(s: string)
    requires forall i :: 0 <= i < |s| ==> IsNameChar(s[i]) || s[i] == ' '
    ensures Utf8Length(s) == |s|
  {
    if s != "" { AsciiLength(s[1..]); }
  }

  // ----- what may be learned ------------------------------------------------

  datatype Shape = BareProgram | Subcommand(allowed: seq<string>) | Target | PackageScript

  const GIT: seq<string> := ["status", "diff", "log", "show", "rev-parse", "ls-files", "blame", "grep",
                             "shortlog", "describe"]
  const CARGO: seq<string> := ["build", "check", "test", "clippy", "fmt", "doc", "tree", "metadata", "bench"]
  const GO: seq<string> := ["build", "test", "vet", "fmt", "list"]

  /** `LEARNABLE.iter().find` */
  function ShapeOf(program: string): Option<Shape> {
    if program in ["ls", "pwd", "cat", "head", "tail", "wc", "grep", "rg", "which", "file", "stat", "du", "df",
                   "tree", "diff", "pytest"] then Some(BareProgram)
    else if program == "git" then Some(Subcommand(GIT))
    else if program == "cargo" then Some(Subcommand(CARGO))
    else if program == "go" then Some(Subcommand(GO))
    else if program in ["npm", "pnpm", "yarn", "bun"] then Some(PackageScript)
    else if program in ["just", "make"] then Some(Target)
    else None
  }

  function RefusedPrefixes(program: string): seq<string> {
    if program == "rg" then ["--pre"]
    else if program == "git" then ["--output", "--ext-diff", "-O", "--open-files-in-pager", "--textconv"]
    else if program == "cargo" then ["--config", "-Z"]
    else if program == "make" then ["-f", "--file", "--makefile", "-C", "--directory", "--eval"]
    else if program == "just" then ["-f", "--justfile", "-d", "--working-directory"]
    else []
  }

  predicate RefusesArgument(program: string, argument: string) {
    exists i :: 0 <= i < |RefusedPrefixes(program)| && RefusedPrefixes(program)[i] <= argument
  }

  /** The words of the rule a program and its arguments form. */
  function RuleWords(program: string, rest: seq<string>, shape: Shape): Option<seq<string>> {
    match shape
    case BareProgram => Some([program])
    case Subcommand(allowed) =>
      if rest != [] && rest[0] in allowed then Some([program, rest[0]]) else None
    case Target =>
      if rest != [] && IsPlainName(rest[0]) then Some([program, rest[0]]) else None
    case PackageScript =>
      if rest == [] then None
      else if rest[0] == "test" then Some([program, "test"])
      else if rest[0] == "run" && |rest| > 1 && IsPlainName(rest[1]) then Some([program, "run", rest[1]])
      else None
  }

  function Join(words: seq<string>): string {
    if words == [] then "" else if |words| == 1 then words[0] else words[0] + " " + Join(words[1..])
  }

  /** Everything after the command passed the length, character and classifier checks. */
  function RuleOfWords(words: seq<string>): Option<string> {
    if words == [] || !IsPlainName(words[0]) || ShapeOf(words[0]).None? then None
    else if exists i :: 1 <= i < |words| && RefusesArgument(words[0], words[i]) then None
    else
      var rule := RuleWords(words[0], words[1..], ShapeOf(words[0]).value);
      if rule.None? then None else Some(Join(rule.value))
  }

  predicate PlainText(command: string) {
    && command != "" && Utf8Length(command) <= MAX_COMMAND_LEN
    && forall i :: 0 <= i < |command| ==> !IsShellControl(command[i]) && !IsControl(command[i])
  }

  /** `learnable_rule` */
  function LearnableRule(simple: string -> bool, command: string): Option<string> {
    var c := Trim(command);
    if !PlainText(c) || !simple(c) || Split(c).None? then None
    else RuleOfWords(Split(c).value)
  }

  // ----- rules are fixpoints ------------------------------------------------

  predicate PlainNames(words: seq<string>) { forall i :: 0 <= i < |words| ==> IsPlainName(words[i]) }

  lemma LowerWordIsPlain(s: string)
    requires 1 <= |s| <= 9 && 'a' <= s[0] <= 'z' && forall i :: 0 <= i < |s| ==> 'a' <= s[i] <= 'z' || s[i] == '-'
    ensures IsPlainName(s)
  {
    AsciiLength(s);
  }

  lemma GitNames()
    ensures forall i :: 0 <= i < |GIT| ==> IsPlainName(GIT[i])
  {
    hide IsPlainName;
    LowerWordIsPlain("status");
    LowerWordIsPlain("diff");
    LowerWordIsPlain("log");
    LowerWordIsPlain("show");
    LowerWordIsPlain("rev-parse");
    LowerWordIsPlain("ls-files");
    LowerWordIsPlain("blame");
    LowerWordIsPlain("grep");
    LowerWordIsPlain("shortlog");
    LowerWordIsPlain("describe");
  }

  lemma CargoNames()
    ensures forall i :: 0 <= i < |CARGO| ==> IsPlainName(CARGO[i])
  {
    hide IsPlainName;
    LowerWordIsPlain("build");
    LowerWordIsPlain("check");
    LowerWordIsPlain("test");
    LowerWordIsPlain("clippy");
    LowerWordIsPlain("fmt");
    LowerWordIsPlain("doc");
    LowerWordIsPlain("tree");
    LowerWordIsPlain("metadata");
    LowerWordIsPlain("bench");
  }

  lemma GoNames()
    ensures forall i :: 0 <= i < |GO| ==> IsPlainName(GO[i])
  {
    hide IsPlainName;
    LowerWordIsPlain("build");
    LowerWordIsPlain("test");
    LowerWordIsPlain("vet");
    LowerWordIsPlain("fmt");
    LowerWordIsPlain("list");
  }

  /** A plain name never starts like a refused option. */
  lemma PlainNotRefused(program: string, argument: string)
    requires IsPlainName(argument)
    ensures !RefusesArgument(program, argument)
  {
    forall i | 0 <= i < |RefusedPrefixes(program)| ensures !(RefusedPrefixes(program)[i] <= argument) {
      assert RefusedPrefixes(program)[i][0] == '-';
    }
  }

  /** The rule's own words are plain names and form the same rule again. */
  lemma RuleWordsStable(words: seq<string>)
    requires RuleOfWords(words).Some?
    ensures var rule := RuleWords(words[0], words[1..], ShapeOf(words[0]).value).value;
            && 1 <= |rule| <= 3 && PlainNames(rule)
            && RuleOfWords(words) == Some(Join(rule)) && RuleOfWords(rule) == Some(Join(rule))
  {
    hide IsPlainName, RefusesArgument, Join;
    GitNames();
    CargoNames();
    GoNames();
    LowerWordIsPlain("test");
    LowerWordIsPlain("run");
    var rule := RuleWords(words[0], words[1..], ShapeOf(words[0]).value).value;
    if ShapeOf(words[0]).value.Subcommand? { ShapeLists(words[0]); }
    assert PlainNames(rule);
    forall i | 1 <= i < |rule| ensures !RefusesArgument(rule[0], rule[i]) {
      PlainNotRefused(rule[0], rule[i]);
    }
  }

  lemma ShapeLists(program: string)
    requires ShapeOf(program).Some? && ShapeOf(program).value.Subcommand?
    ensures ShapeOf(program).value.allowed in [GIT, CARGO, GO]
  {
  }

  function BareWord(w: string): seq<Segment> { seq(|w|, i requires 0 <= i < |w| => Bare(w[i])) }

  lemma {:induction false} BareWordText(w: string)
    ensures WordText(BareWord(w)) == w && WordValue(BareWord(w)) == w
  {
    if w != "" {
      assert BareWord(w)[1..] == BareWord(w[1..]);
      BareWordText(w[1..]);
    }
  }

  function BareLayout(words: seq<string>): seq<Spaced> {
    seq(|words|, i requires 0 <= i < |words| => Spaced(if i == 0 then "" else " ", BareWord(words[i])))
  }

  lemma {:induction false} JoinSnoc(words: seq<string>, w: string)
    requires words != []
    ensures Join(words + [w]) == Join(words) + " " + w
  {
    assert (words + [w])[1..] == words[1..] + [w];
    if |words| == 1 {
      assert words[1..] + [w] == [w];
    } else {
      JoinSnoc(words[1..], w);
      assert words[0] + " " + (Join(words[1..]) + " " + w) == words[0] + " " + Join(words[1..]) + " " + w;
    }
  }

  lemma {:induction false} BareLayoutSpells(words: seq<string>)
    requires PlainNames(words)
    ensures LayoutText(BareLayout(words)) == Join(words) && LayoutWords(BareLayout(words)) == words
  {
    hide IsPlainName, WordText, WordValue, BareWord, Join;
    EmptyJoin();
    if words != [] {
      var n := |words| - 1;
      BareLayoutSpells(words[..n]);
      assert BareLayout(words)[..n] == BareLayout(words[..n]);
      BareWordText(words[n]);
      assert words == words[..n] + [words[n]];
      if n > 0 {
        JoinSnoc(words[..n], words[n]);
        assert Join(words[..n]) + (" " + words[n]) == Join(words[..n]) + " " + words[n];
      } else {
        SingleJoin(words[0]);
        assert words == [words[0]] && "" + ("" + words[0]) == words[0];
      }
    }
  }

  lemma BareLayoutValid(words: seq<string>)
    requires PlainNames(words)
    ensures ValidLayout(BareLayout(words))
  {
    hide IsPlainName, ValidSegment, BareWord, AllWhitespace;
    var l := BareLayout(words);
    forall i | 0 <= i < |l| ensures ValidSpaced(l[i]) && (i > 0 ==> l[i].gap != "") {
      PlainIsBare(words[i]);
      BlankGap(l[i].gap);
    }
  }

  lemma BlankGap(gap: string)
    requires gap == "" || gap == " "
    ensures AllWhitespace(gap)
  {
  }

  lemma EmptyJoin()
    ensures Join([]) == ""
  {
  }

  lemma SingleJoin(w: string)
    ensures Join([w]) == w
  {
  }

  lemma PlainIsBare(w: string)
    requires IsPlainName(w)
    ensures BareWord(w) != []
    ensures forall i :: 0 <= i < |BareWord(w)| ==> ValidSegment(BareWord(w)[i])
  {
  }

  /** Splitting undoes joining plain names with single spaces. */
  lemma SplitJoin(words: seq<string>)
    requires PlainNames(words)
    ensures Split(Join(words)) == Some(words)
  {
    BareLayoutSpells(words);
    BareLayoutValid(words);
    assert Join(words) == LayoutText(BareLayout(words)) + "" + "";
    SplitInvertsEveryLayout(Join(words), BareLayout(words), "", "");
  }

  predicate RuleChar(c: char) { IsNameChar(c) || c == ' ' }

  lemma {:induction false} JoinShape(words: seq<string>)
    requires PlainNames(words) && words != []
    ensures var r := Join(words);
            && 1 <= |r| <= 65 * |words| - 1
            && (forall i :: 0 <= i < |r| ==> RuleChar(r[i]))
            && IsNameChar(r[0]) && IsNameChar(r[|r| - 1])
  {
    AsciiLength(words[0]);
    if |words| > 1 {
      JoinShape(words[1..]);
      var r := Join(words);
      assert r[0] == words[0][0];
      assert r[|r| - 1] == Join(words[1..])[|Join(words[1..])| - 1];
    }
  }

  lemma JoinPassesChecks(words: seq<string>)
    requires PlainNames(words) && 1 <= |words| <= 3
    ensures Trim(Join(words)) == Join(words) && PlainText(Join(words))
  {
    hide IsPlainName, Join, IsShellControl, IsControl, IsNameChar, IsWhitespace, Trim;
    JoinShape(words);
    var r := Join(words);
    AsciiLength(r);
    forall i | 0 <= i < |r| ensures !IsShellControl(r[i]) && !IsControl(r[i]) { RuleCharIsSafe(r[i]); }
    NameCharIsVisible(r[0]);
    NameCharIsVisible(r[|r| - 1]);
    TrimFixpoint(r);
  }

  lemma RuleCharIsSafe(c: char)
    requires RuleChar(c)
    ensures !IsShellControl(c) && !IsControl(c)
  {
  }

  lemma NameCharIsVisible(c: char)
    requires IsNameChar(c)
    ensures !IsWhitespace(c)
  {
  }

  /** A rule yields itself: `learnable_rule` is a fixpoint on its own output, as
      far as the shell classifier calls that output one simple command. */
  lemma RuleIsFixpoint(simple: string -> bool, command: string)
    requires LearnableRule(simple, command).Some?
    ensures var r := LearnableRule(simple, command).value;
            LearnableRule(simple, r) == if simple(r) then Some(r) else None
  {
    var words := Split(Trim(command)).value;
    RuleWordsStable(words);
    var rule := RuleWords(words[0], words[1..], ShapeOf(words[0]).value).value;
    JoinPassesChecks(rule);
    SplitJoin(rule);
  }

  /** What a shared rule guarantees: the command has no control syntax and its
      words begin with the words of the rule. */
  lemma RuleIsPrefixOfCommand(simple: string -> bool, command: string)
    requires LearnableRule(simple, command).Some?
    ensures var r := LearnableRule(simple, command).value;
            && PlainText(Trim(command)) && simple(Trim(command))
            && Split(Trim(command)).Some? && Split(r).Some? && Split(r).value != []
            && Split(r).value <= Split(Trim(command)).value
  {
    var words := Split(Trim(command)).value;
    RuleWordsStable(words);
    var rule := RuleWords(words[0], words[1..], ShapeOf(words[0]).value).value;
    SplitJoin(rule);
    WordsExtendRule(words[0], words[1..], ShapeOf(words[0]).value);
    assert words == [words[0]] + words[1..];
  }

  lemma WordsExtendRule(program: string, rest: seq<string>, shape: Shape)
    requires RuleWords(program, rest, shape).Some?
    ensures RuleWords(program, rest, shape).value <= [program] + rest
  {
  }
}
