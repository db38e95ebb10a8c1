/** Which commands have a learned rule, and which words the rule then has, written out program
    by program as acp/src/approval_learning.rs lists them. */
module LearnedRules {
  import opened Text
  import opened CommandWords
  import opened ApprovalLearning

  // ----- commands and words -------------------------------------------------

  /** A nonempty command of at most 4096 bytes without control characters and shell syntax. */
  predicate Quiet(c: string) {
    && c != "" && Utf8Length(c) <= 4096
    && forall i :: 0 <= i < |c| ==>
         && c[i] !in ";&|$`<>(){}\\" && ' ' <= c[i] && !('\U{007F}' <= c[i] <= '\U{009F}')
  }

  /** Up to 64 letters, digits and `_-.:`, not starting with a dot or a hyphen. */
  predicate Name(w: string) {
    && 1 <= |w| <= 64 && w[0] != '.' && w[0] != '-'
    && forall i :: 0 <= i < |w| ==>
         'a' <= w[i] <= 'z' || 'A' <= w[i] <= 'Z' || '0' <= w[i] <= '9' || w[i] in "_-.:"
  }

  /** The argument does not begin with an option that lets the program write or run something else. */
  predicate Harmless(program: string, argument: string) {
    && (program == "rg" ==> !("--pre" <= argument))
    && (program == "git" ==>
          && !("--output" <= argument) && !("--ext-diff" <= argument) && !("-O" <= argument)
          && !("--open-files-in-pager" <= argument) && !("--textconv" <= argument))
    && (program == "cargo" ==> !("--config" <= argument) && !("-Z" <= argument))
    && (program == "make" ==>
          && !("-f" <= argument) && !("--file" <= argument) && !("--makefile" <= argument)
          && !("-C" <= argument) && !("--directory" <= argument) && !("--eval" <= argument))
    && (program == "just" ==>
          && !("-f" <= argument) && !("--justfile" <= argument)
          && !("-d" <= argument) && !("--working-directory" <= argument))
  }

  predicate Reader(program: string) {
    program in ["ls", "pwd", "cat", "head", "tail", "wc", "grep", "rg", "which", "file", "stat", "du", "df", "tree",
                "diff", "pytest"]
  }

  predicate Packager(program: string) { program in ["npm", "pnpm", "yarn", "bun"] }

  predicate KnownSubcommand(program: string, word: string) {
    || (program == "git" && word in ["status", "diff", "log", "show", "rev-parse", "ls-files", "blame", "grep",
                                     "shortlog", "describe"])
    || (program == "cargo" && word in ["build", "check", "test", "clippy", "fmt", "doc", "tree", "metadata", "bench"])
    || (program == "go" && word in ["build", "test", "vet", "fmt", "list"])
    || ((program == "make" || program == "just") && Name(word))
    || (Packager(program) && word == "test")
  }

  /** The command's first `n` words are its rule. */
  predicate RuleOf(words: seq<string>, n: nat) {
    && 1 <= n <= |words|
    && (n == 1 ==> Reader(words[0]))
    && (n == 2 ==> KnownSubcommand(words[0], words[1]))
    && (n == 3 ==> Packager(words[0]) && words[1] == "run" && Name(words[2]))
    && n <= 3
    && forall i :: 1 <= i < |words| ==> Harmless(words[0], words[i])
  }

  // ----- the two descriptions agree ----------------------------------------

  lemma NameExactly(w: string)
    ensures Name(w) <==> IsPlainName(w)
  {
    if Name(w) || IsPlainName(w) { AsciiLength(w); }
  }

  lemma QuietExactly(c: string)
    ensures Quiet(c) <==> PlainText(c)
  {
    hide Utf8Length;
    forall i | 0 <= i < |c|
      ensures (c[i] !in ";&|$`<>(){}\\" && ' ' <= c[i] && !('\U{007F}' <= c[i] <= '\U{009F}'))
              <==> !IsShellControl(c[i]) && !IsControl(c[i])
    {
      QuietChar(c[i]);
    }
  }

  lemma QuietChar(c: char)
    ensures (c !in ";&|$`<>(){}\\" && ' ' <= c && !('\U{007F}' <= c <= '\U{009F}')) <==> !IsShellControl(c) && !IsControl(c)
  {
  }

  lemma HarmlessExactly(program: string, argument: string)
    ensures Harmless(program, argument) <==> !RefusesArgument(program, argument)
  {
    var refused := RefusedPrefixes(program);
    if program == "rg" { assert refused[0] == "--pre"; }
    if program == "git" {
      assert refused[0] == "--output" && refused[1] == "--ext-diff" && refused[2] == "-O";
      assert refused[3] == "--open-files-in-pager" && refused[4] == "--textconv";
    }
    if program == "cargo" { assert refused[0] == "--config" && refused[1] == "-Z"; }
    if program == "make" {
      assert refused[0] == "-f" && refused[1] == "--file" && refused[2] == "--makefile";
      assert refused[3] == "-C" && refused[4] == "--directory" && refused[5] == "--eval";
    }
    if program == "just" {
      assert refused[0] == "-f" && refused[1] == "--justfile" && refused[2] == "-d" && refused[3] == "--working-directory";
    }
  }

  /** The group a program is listed under. */
  lemma Groups(program: string)
    ensures Reader(program) <==> ShapeOf(program) == Some(BareProgram)
    ensures Packager(program) <==> ShapeOf(program) == Some(PackageScript)
    ensures program == "make" || program == "just" <==> ShapeOf(program) == Some(Target)
    ensures program == "git" ==> ShapeOf(program) == Some(Subcommand(GIT))
    ensures program == "cargo" ==> ShapeOf(program) == Some(Subcommand(CARGO))
    ensures program == "go" ==> ShapeOf(program) == Some(Subcommand(GO))
    ensures ShapeOf(program).Some? && ShapeOf(program).value.Subcommand? ==> program in ["git", "cargo", "go"]
  {
  }

  lemma GroupedIsPlain(program: string)
    requires ShapeOf(program).Some?
    ensures IsPlainName(program)
  {
    hide IsPlainName;
    LowerWordIsPlain(program);
  }

  /** The rule of a program and its arguments, by its number of words. */
  lemma GroupRule(words: seq<string>, n: nat)
    requires 1 <= n <= |words| && n <= 3 && ShapeOf(words[0]).Some?
    ensures RuleWords(words[0], words[1..], ShapeOf(words[0]).value) == Some(words[..n]) <==>
              && (n == 1 ==> Reader(words[0]))
              && (n == 2 ==> KnownSubcommand(words[0], words[1]))
              && (n == 3 ==> Packager(words[0]) && words[1] == "run" && Name(words[2]))
  {
    hide ShapeOf, Reader, Packager, Name, IsPlainName;
    Groups(words[0]);
    var rest := words[1..];
    assert rest != [] ==> rest[0] == words[1];
    assert |rest| > 1 ==> rest[1] == words[2];
    if |words| > 1 { NameExactly(words[1]); }
    if |words| > 2 { NameExactly(words[2]); }
    assert words[..1] == [words[0]];
    if |words| > 1 { assert words[..2] == [words[0], words[1]]; }
    if |words| > 2 { assert words[..3] == [words[0], words[1], words[2]]; }
  }

  /** Only the programs listed have a rule. */
  lemma RuleIsGrouped(words: seq<string>, n: nat)
    requires RuleOf(words, n)
    ensures ShapeOf(words[0]).Some?
  {
    hide ShapeOf, Reader, Packager, Name, Harmless;
    Groups(words[0]);
  }

  lemma WordsHaveRule(words: seq<string>, n: nat)
    requires RuleOf(words, n)
    ensures RuleOfWords(words) == Some(Join(words[..n]))
  {
    hide ShapeOf, Reader, Packager, Name, Harmless, KnownSubcommand, IsPlainName, Join, RefusesArgument, RuleWords;
    RuleIsGrouped(words, n);
    GroupedIsPlain(words[0]);
    GroupRule(words, n);
    forall i | 1 <= i < |words| ensures !RefusesArgument(words[0], words[i]) { HarmlessExactly(words[0], words[i]); }
  }

  lemma RuleHasWords(words: seq<string>) returns (n: nat)
    requires RuleOfWords(words).Some?
    ensures RuleOf(words, n)
  {
    hide ShapeOf, Reader, Packager, Name, Harmless, KnownSubcommand, IsPlainName, Join, RefusesArgument;
    var rest := words[1..];
    n := |RuleWords(words[0], rest, ShapeOf(words[0]).value).value|;
    RulePrefix(words);
    GroupRule(words, n);
    forall i | 1 <= i < |words| ensures Harmless(words[0], words[i]) { HarmlessExactly(words[0], words[i]); }
  }

  lemma RulePrefix(words: seq<string>)
    requires words != [] && ShapeOf(words[0]).Some? && RuleWords(words[0], words[1..], ShapeOf(words[0]).value).Some?
    ensures var rule := RuleWords(words[0], words[1..], ShapeOf(words[0]).value).value;
            1 <= |rule| <= 3 && |rule| <= |words| && rule == words[..|rule|]
  {
    hide ShapeOf, IsPlainName;
  }

  /** A command has a rule exactly when it is quiet, one simple command, and its words are those of a
      listed program with the words its group asks for and only harmless arguments; the rule is then its
      first one, two or three words. */
  lemma RuleExactly(simple: string -> bool, command: string, rule: string)
    ensures var c := Trim(command);
            LearnableRule(simple, command) == Some(rule) <==>
              && Quiet(c) && simple(c) && Split(c).Some?
              && exists n: nat :: RuleOf(Split(c).value, n) && rule == Join(Split(c).value[..n])
  {
    hide Trim, Split, Quiet, PlainText, RuleOfWords, Join, Reader, Packager, Name, Harmless, KnownSubcommand;
    var c := Trim(command);
    QuietExactly(c);
    if Split(c).Some? {
      var words := Split(c).value;
      if RuleOfWords(words).Some? {
        var n := RuleHasWords(words);
        WordsHaveRule(words, n);
      }
      forall n: nat | RuleOf(words, n) ensures RuleOfWords(words) == Some(Join(words[..n])) { WordsHaveRule(words, n); }
    }
  }
}
