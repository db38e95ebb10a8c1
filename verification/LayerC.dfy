/** The Layer C certification runner, scripts/layer_c_live_e2e.py: two attempts
    per suite, a receipt for every declared suite whatever happens, and a verdict
    drawn from the receipts. Process results are inputs. */
module LayerC {
  import opened Text

  // ----- data ---------------------------------------------------------------

  datatype Suite = Suite(name: string, package: string, track: string, features: seq<string>, minimumTests: int)

  datatype Counts = Counts(passed: nat, failed: nat, ignored: nat, measured: nat, filtered: nat)

  /** A `test result:` line of the transcript. */
  datatype Summary = Summary(ok: bool, counts: Counts)

  datatype Attempt = Attempt(number: nat, status: string, exitCode: Option<int>, counts: Option<Counts>)

  /** The listing run: its exit code and listed tests, or an exception. */
  datatype Preflight = Listed(code: int, tests: seq<string>) | ListRaised

  /** A test run: its exit code and summaries, or an exception. */
  datatype Execution = Executed(code: int, summaries: seq<Summary>) | Raised

  /** What the outside world answers for one suite: the target's required features (None: no such
      target), the runs, whether the receipt could be written, and whether the campaign was stopped
      right after it was recorded. */
  datatype Probe = Probe(required: Option<set<string>>, preflight: Preflight, first: Execution, second: Execution,
                         written: bool, stopped: bool)

  /** A receipt on disk; a damaged one may lack the last two contract fields. */
  datatype Record = Record(
    name: string, package: string, track: string, features: Option<seq<string>>, minimumTests: Option<int>,
    status: string, firstResult: Option<string>, finalResult: string, preflight: Option<int>,
    attempts: seq<Attempt>, discovered: seq<string>)

  datatype File = Parsed(receipt: Record) | Malformed

  // ----- what the runs amount to -------------------------------------------

  predicate Distinct(xs: seq<string>) { forall i, j :: 0 <= i < j < |xs| ==> xs[i] != xs[j] }

  function Names(xs: seq<string>): set<string> { set x | x in xs }

  /** The suite's target exists and its features are declared: the listing run starts. */
  predicate Buildable(s: Suite, p: Probe) { p.required.Some? && p.required.value <= Names(s.features) }

  predicate Discovers(s: Suite, p: Probe) {
    && Buildable(s, p) && p.preflight.Listed? && p.preflight.code == 0
    && |p.preflight.tests| >= s.minimumTests && Distinct(p.preflight.tests)
  }

  predicate Clean(c: Counts, tests: nat) { c.passed == tests && c.failed == 0 && c.ignored == 0 && c.measured == 0 }

  predicate Passing(e: Execution, tests: nat) {
    && e.Executed? && e.code == 0 && |e.summaries| == 1
    && e.summaries[0].ok && Clean(e.summaries[0].counts, tests)
  }

  /** No run the suite gets to raises. */
  predicate Completes(s: Suite, p: Probe) {
    && (Buildable(s, p) ==> p.preflight.Listed?)
    && (Discovers(s, p) ==> p.first.Executed? && (Passing(p.first, |p.preflight.tests|) || p.second.Executed?))
  }

  predicate Succeeds(s: Suite, p: Probe) {
    && Discovers(s, p) && p.first.Executed?
    && (Passing(p.first, |p.preflight.tests|) || Passing(p.second, |p.preflight.tests|))
  }

  // ----- receipts -----------------------------------------------------------

  /** A receipt under the suite's declared contract. */
  predicate Matches(r: Record, s: Suite) {
    && r.name == s.name && r.package == s.package && r.track == s.track
    && r.features == Some(s.features) && r.minimumTests == Some(s.minimumTests)
  }

  predicate PassedAttempt(a: Attempt, number: nat, tests: nat) {
    && a.number == number && a.status == "passed" && a.exitCode == Some(0)
    && a.counts.Some? && Clean(a.counts.value, tests)
  }

  /** A receipt that shows a complete passing run within two attempts. */
  predicate Evidence(r: Record) {
    && r.preflight == Some(0) && r.minimumTests.Some? && |r.discovered| >= r.minimumTests.value
    && Distinct(r.discovered)
    && 1 <= |r.attempts| <= 2 && PassedAttempt(r.attempts[|r.attempts| - 1], |r.attempts|, |r.discovered|)
    && (|r.attempts| == 2 ==> r.attempts[0].status != "passed")
    && r.firstResult == Some(r.attempts[0].status)
    && r.status == if |r.attempts| == 1 then "passed" else "passed_after_retry"
  }

  /** A receipt whose suite failed, from the first attempt on. */
  predicate Failed(r: Record) {
    && r.status == r.finalResult && r.status != "passed_after_retry"
    && r.firstResult.Some? && r.firstResult.value != "passed"
  }

  /** A finished receipt tells the truth about its suite. */
  predicate Truthful(r: Record, s: Suite, p: Probe) {
    && Matches(r, s)
    && (r.finalResult == "passed" <==> Succeeds(s, p))
    && (r.finalResult == "passed" ==> Evidence(r))
    && (r.finalResult != "passed" ==> Failed(r))
  }

  class Receipt {
    const suite: Suite
    var status: string
    var firstResult: Option<string>
    var finalResult: string
    var preflight: Option<int>
    var attempts: seq<Attempt>
    var discovered: seq<string>

    ghost predicate Initial() reads this {
      && status == "not_run" && firstResult == None && finalResult == "not_run" && preflight == None
      && attempts == [] && discovered == []
    }

    function Value(): (r: Record)
      reads this
      ensures Matches(r, suite)
    {
      Record(suite.name, suite.package, suite.track, Some(suite.features), Some(suite.minimumTests),
             status, firstResult, finalResult, preflight, attempts, discovered)
    }

    /** `initial_receipt` */
    constructor (s: Suite)
      ensures suite == s && Initial()
    {
      suite, status, firstResult, finalResult := s, "not_run", None, "not_run";
      preflight, attempts, discovered := None, [], [];
    }

    /** `failure` */
    method Fail(reason: string)
      modifies this`status, this`firstResult, this`finalResult
      ensures status == finalResult == reason && firstResult == Some(reason)
    {
      status, firstResult, finalResult := reason, Some(reason), reason;
    }
  }

  // ----- one suite ----------------------------------------------------------

  /** The status of one transcript. */
  function Judge(code: int, summaries: seq<Summary>, tests: nat): (status: string)
    ensures status == "passed" <==> Passing(Executed(code, summaries), tests)
    ensures status != "passed_after_retry"
  {
    if |summaries| == 1 then
      if code == 0 && summaries[0].ok && Clean(summaries[0].counts, tests) then "passed"
      else if code == 0 then "execution_count_mismatch" else "execution_failed"
    else if code == 0 then "execution_summary_missing" else "execution_failed"
  }

  /** A receipt after `k` failed attempts. */
  predicate Tried(r: Record, tests: seq<string>, k: nat) {
    && r.preflight == Some(0) && r.discovered == tests && r.status == "not_run" && |r.attempts| == k
    && (k == 0 ==> r.firstResult == None && r.finalResult == "not_run")
    && (k > 0 ==> r.firstResult == Some(r.attempts[0].status) && r.finalResult == r.attempts[k - 1].status)
    && forall i :: 0 <= i < k ==> r.attempts[i].number == i + 1 && r.attempts[i].status != "passed"
                                  && r.attempts[i].status != "passed_after_retry"
  }

  /** The two-attempt loop. */
  method RunAttempts(p: Probe, receipt: Receipt, tests: seq<string>) returns (finished: bool)
    requires Tried(receipt.Value(), tests, 0) && |tests| >= receipt.suite.minimumTests && Distinct(tests)
    modifies receipt
    ensures finished <==> p.first.Executed? && (Passing(p.first, |tests|) || p.second.Executed?)
    ensures finished ==> (receipt.finalResult == "passed" <==> Passing(p.first, |tests|) || Passing(p.second, |tests|))
    ensures receipt.finalResult == "passed" ==> finished && Evidence(receipt.Value())
    ensures receipt.finalResult != "passed" ==> exists k: nat :: k <= 2 && Tried(receipt.Value().(status := "not_run"), tests, k)
    ensures finished && receipt.finalResult != "passed" ==> receipt.status == receipt.finalResult && receipt.attempts != []
    ensures !finished ==> receipt.status == "not_run"
  {
    hide Distinct;
    for number := 1 to 3
      invariant Tried(receipt.Value(), tests, number - 1)
      invariant number > 1 ==> p.first.Executed? && !Passing(p.first, |tests|)
      invariant number > 2 ==> p.second.Executed? && !Passing(p.second, |tests|)
    {
      var e := if number == 1 then p.first else p.second;
      if e.Raised? {
        return false;
      }
      var counts := if |e.summaries| == 1 then Some(e.summaries[0].counts) else None;
      var status := Judge(e.code, e.summaries, |tests|);
      assert status == "passed" <==> Passing(e, |tests|);
      receipt.attempts := receipt.attempts + [Attempt(number, status, Some(e.code), counts)];
      if number == 1 {
        receipt.firstResult := Some(status);
      }
      receipt.finalResult := status;
      if status == "passed" {
        receipt.status := if number == 1 then "passed" else "passed_after_retry";
        return true;
      }
    }
    receipt.status := receipt.finalResult;
    assert Tried(receipt.Value().(status := "not_run"), tests, 2);
    return true;
  }

  /** `run_suite`: false when a run raised, which leaves the receipt as far as it got. */
  method RunSuite(p: Probe, receipt: Receipt) returns (finished: bool)
    requires receipt.Initial()
    modifies receipt
    ensures finished <==> Completes(receipt.suite, p)
    ensures finished ==> Truthful(receipt.Value(), receipt.suite, p)
    ensures p.required.None? ==> receipt.status == "target_missing"
    ensures p.required.Some? && !Buildable(receipt.suite, p) ==> receipt.status == "feature_missing"
    ensures Buildable(receipt.suite, p) && p.preflight.Listed? && p.preflight.code != 0 ==>
              receipt.status == "compile_failed"
    ensures Buildable(receipt.suite, p) && p.preflight.Listed? && p.preflight.code == 0 && !Discovers(receipt.suite, p) ==>
              receipt.status == "discovery_failed"
    ensures !finished ==> receipt.finalResult != "passed" && receipt.status == "not_run"
    ensures |receipt.attempts| <= 2
  {
    hide Passing, Evidence, Names, Distinct;
    var s := receipt.suite;
    if p.required.None? {
      receipt.Fail("target_missing");
      return true;
    }
    NoneMissing(p.required.value, Names(s.features));
    if p.required.value - Names(s.features) != {} {
      receipt.Fail("feature_missing");
      return true;
    }
    if p.preflight.ListRaised? {
      return false;
    }
    receipt.preflight := Some(p.preflight.code);
    if p.preflight.code != 0 {
      receipt.Fail("compile_failed");
      return true;
    }
    var tests := p.preflight.tests;
    receipt.discovered := tests;
    DistinctIffNames(tests);
    if |tests| < s.minimumTests || |Names(tests)| != |tests| {
      receipt.Fail("discovery_failed");
      return true;
    }
    finished := RunAttempts(p, receipt, tests);
    EvidenceAttempts(receipt.Value());
  }

  lemma NoneMissing(required: set<string>, declared: set<string>)
    ensures required - declared == {} <==> required <= declared
  {
    if required - declared == {} {
      forall x | x in required ensures x in declared { assert x !in required - declared; }
    }
  }

  lemma EvidenceAttempts(r: Record)
    ensures Evidence(r) ==> |r.attempts| <= 2
  {
  }

  lemma {:induction false} DistinctIffNames(xs: seq<string>)
    ensures |Names(xs)| <= |xs|
    ensures Distinct(xs) <==> |Names(xs)| == |xs|
  {
    if xs != [] {
      var init, x := xs[..|xs| - 1], xs[|xs| - 1];
      DistinctIffNames(init);
      assert xs == init + [x];
      assert Names(xs) == Names(init) + {x};
      if x in init {
        var i :| 0 <= i < |init| && init[i] == x;
        assert xs[i] == xs[|xs| - 1];
      }
    }
  }

  // ----- reconciliation -----------------------------------------------------

  predicate UniqueNames(suites: seq<Suite>) {
    forall i, j :: 0 <= i < j < |suites| ==> suites[i].name != suites[j].name
  }

  predicate Answers(f: File, s: Suite) { f.Parsed? && Matches(f.receipt, s) }

  /** Receipts and suites pair off under matching contracts. */
  ghost predicate Reconciled(suites: seq<Suite>, files: seq<File>) {
    |files| == |suites| && EveryFileDeclared(suites, files) && EverySuiteAnswered(suites, files)
  }

  ghost predicate EveryFileDeclared(suites: seq<Suite>, files: seq<File>) {
    forall f :: f in files ==> exists s :: s in suites && Answers(f, s)
  }

  ghost predicate EverySuiteAnswered(suites: seq<Suite>, files: seq<File>) {
    forall s :: s in suites ==> exists f :: f in files && Answers(f, s)
  }

  function KeyOf(s: Suite): (string, string) { (s.package, s.name) }

  function Keys(suites: seq<Suite>): set<(string, string)> { set s | s in suites :: KeyOf(s) }

  function RecordKey(r: Record): (string, string) { (r.package, r.name) }

  function RecordKeys(rs: seq<Record>): set<(string, string)> { set r | r in rs :: RecordKey(r) }

  predicate ContractsOf(expected: map<(string, string), Suite>, suites: seq<Suite>) {
    && (forall s :: s in suites ==> KeyOf(s) in expected && expected[KeyOf(s)] == s)
    && (forall key :: key in expected ==> expected[key] in suites && KeyOf(expected[key]) == key)
    && |expected| == |suites|
  }

  method Contracts(suites: seq<Suite>) returns (expected: map<(string, string), Suite>)
    requires UniqueNames(suites)
    ensures ContractsOf(expected, suites)
  {
    expected := map[];
    for j := 0 to |suites|
      invariant ContractsOf(expected, suites[..j])
    {
      var s := suites[j];
      assert KeyOf(s) !in expected;
      assert suites[..j + 1] == suites[..j] + [s];
      expected := expected[KeyOf(s) := s];
    }
    assert suites[..|suites|] == suites;
  }

  /** The readable receipts, in listing order, and whether some file was not readable. */
  method ReadReceipts(files: seq<File>) returns (receipts: seq<Record>, errors: bool)
    ensures forall r :: r in receipts <==> Parsed(r) in files
    ensures errors <==> Malformed in files
    ensures !errors ==> |receipts| == |files|
  {
    receipts, errors := [], false;
    for i := 0 to |files|
      invariant forall r :: r in receipts <==> Parsed(r) in files[..i]
      invariant errors <==> Malformed in files[..i]
      invariant !errors ==> |receipts| == i
    {
      assert files[..i + 1] == files[..i] + [files[i]];
      match files[i] {
        case Parsed(r) => receipts := receipts + [r];
        case Malformed => errors := true;
      }
    }
    assert files[..|files|] == files;
  }

  /** Whether every receipt carries a declared contract. */
  method ContractsKept(expected: map<(string, string), Suite>, receipts: seq<Record>) returns (kept: bool)
    ensures kept <==> forall r :: r in receipts ==> Kept(expected, r)
  {
    kept := true;
    for i := 0 to |receipts|
      invariant kept <==> forall r :: r in receipts[..i] ==> Kept(expected, r)
    {
      assert receipts[..i + 1] == receipts[..i] + [receipts[i]];
      assert receipts[i] in receipts[..i + 1];
      var key := RecordKey(receipts[i]);
      if key !in expected || !Matches(receipts[i], expected[key]) {
        kept := false;
      }
    }
    assert receipts[..|receipts|] == receipts;
  }

  /** The number of receipts of a track with some result. */
  function Tally(rs: seq<Record>, track: string, counts: Record -> bool): nat {
    if rs == [] then 0
    else Tally(rs[..|rs| - 1], track, counts)
         + (if rs[|rs| - 1].track == track && counts(rs[|rs| - 1]) then 1 else 0)
  }

  lemma {:induction false} TallyZero(rs: seq<Record>, track: string, counts: Record -> bool)
    ensures Tally(rs, track, counts) == 0 <==> forall r :: r in rs && r.track == track ==> !counts(r)
  {
    if rs != [] {
      TallyZero(rs[..|rs| - 1], track, counts);
      assert rs == rs[..|rs| - 1] + [rs[|rs| - 1]];
    }
  }

  predicate FailedRecord(r: Record) { r.finalResult != "passed" }

  predicate FirstPass(r: Record) { r.firstResult == Some("passed") }

  predicate AfterRetry(r: Record) { r.status == "passed_after_retry" }

  /** `reconcile`: the integrity flag and the number of failed mandatory receipts. */
  method Reconcile(suites: seq<Suite>, files: seq<File>) returns (integrity: bool, failed: nat)
    requires UniqueNames(suites)
    ensures integrity <==> Reconciled(suites, files)
    ensures failed == 0 <==> forall r :: Parsed(r) in files && r.track == "mandatory" ==> r.finalResult == "passed"
  {
    hide Reconciled, UniqueNames;
    var expected := Contracts(suites);
    var receipts, errors := ReadReceipts(files);
    integrity := !errors && RecordKeys(receipts) == expected.Keys && |receipts| == |expected|;
    var kept := ContractsKept(expected, receipts);
    integrity := integrity && kept;
    ReconciledIff(suites, files, expected, receipts);
    failed := Tally(receipts, "mandatory", FailedRecord);
    TallyZero(receipts, "mandatory", FailedRecord);
  }

  predicate Kept(expected: map<(string, string), Suite>, r: Record) {
    RecordKey(r) in expected && Matches(r, expected[RecordKey(r)])
  }

  lemma ReconciledIff(suites: seq<Suite>, files: seq<File>, expected: map<(string, string), Suite>, receipts: seq<Record>)
    requires ContractsOf(expected, suites)
    requires forall r :: r in receipts <==> Parsed(r) in files
    requires Malformed !in files ==> |receipts| == |files|
    ensures Reconciled(suites, files) <==>
              && Malformed !in files && RecordKeys(receipts) == expected.Keys && |receipts| == |expected|
              && forall r :: r in receipts ==> Kept(expected, r)
  {
    if Reconciled(suites, files) {
      ReconciledHolds(suites, files, expected, receipts);
    }
    if && Malformed !in files && RecordKeys(receipts) == expected.Keys && |receipts| == |expected|
       && (forall r :: r in receipts ==> Kept(expected, r)) {
      HoldsReconciled(suites, files, expected, receipts);
    }
  }

  lemma HoldsReconciled(suites: seq<Suite>, files: seq<File>, expected: map<(string, string), Suite>,
                        receipts: seq<Record>)
    requires ContractsOf(expected, suites)
    requires forall r :: r in receipts <==> Parsed(r) in files
    requires |receipts| == |files|
    requires Malformed !in files && RecordKeys(receipts) == expected.Keys && |receipts| == |expected|
    requires forall r :: r in receipts ==> Kept(expected, r)
    ensures Reconciled(suites, files)
  {
    assert EveryFileDeclared(suites, files) by {
      forall f | f in files ensures exists s :: s in suites && Answers(f, s) {
        assert f == Parsed(f.receipt) && Kept(expected, f.receipt);
        assert Answers(f, expected[RecordKey(f.receipt)]);
      }
    }
    assert EverySuiteAnswered(suites, files) by {
      forall s | s in suites ensures exists f :: f in files && Answers(f, s) {
        assert KeyOf(s) in RecordKeys(receipts);
        var r :| r in receipts && RecordKey(r) == KeyOf(s);
        assert Kept(expected, r);
        assert Answers(Parsed(r), s);
      }
    }
  }

  lemma ReconciledHolds(suites: seq<Suite>, files: seq<File>, expected: map<(string, string), Suite>,
                        receipts: seq<Record>)
    requires ContractsOf(expected, suites) && Reconciled(suites, files)
    requires forall r :: r in receipts <==> Parsed(r) in files
    requires Malformed !in files ==> |receipts| == |files|
    ensures Malformed !in files && RecordKeys(receipts) == expected.Keys && |receipts| == |expected|
    ensures forall r :: r in receipts ==> Kept(expected, r)
  {
    hide EveryFileDeclared, EverySuiteAnswered, Matches, ContractsOf;
    forall r | r in receipts ensures Kept(expected, r) {
      FileDeclared(suites, files, expected, Parsed(r));
    }
    forall key | key in expected ensures key in RecordKeys(receipts) {
      var r := KeyAnswered(suites, files, expected, key);
      assert r in receipts;
    }
    if Malformed in files {
      FileDeclared(suites, files, expected, Malformed);
    }
    assert |expected| == |suites| by { ContractCount(expected, suites); }
  }

  lemma ContractCount(expected: map<(string, string), Suite>, suites: seq<Suite>)
    requires ContractsOf(expected, suites)
    ensures |expected| == |suites|
  {
  }

  lemma FileDeclared(suites: seq<Suite>, files: seq<File>, expected: map<(string, string), Suite>, f: File)
    requires ContractsOf(expected, suites) && EveryFileDeclared(suites, files) && f in files
    ensures f.Parsed? && Kept(expected, f.receipt)
  {
    var s :| s in suites && Answers(f, s);
    assert RecordKey(f.receipt) == KeyOf(s);
  }

  lemma KeyAnswered(suites: seq<Suite>, files: seq<File>, expected: map<(string, string), Suite>,
                    key: (string, string)) returns (r: Record)
    requires ContractsOf(expected, suites) && EverySuiteAnswered(suites, files) && key in expected
    ensures Parsed(r) in files && RecordKey(r) == key
  {
    var f :| f in files && Answers(f, expected[key]);
    r := f.receipt;
  }

  // ----- the pairing is one to one -----------------------------------------

  /** Reconciled receipts and suites are in bijection. */
  lemma ReconciledPairsOff(suites: seq<Suite>, files: seq<File>)
    requires UniqueNames(suites) && Reconciled(suites, files)
    ensures forall i, j, k :: 0 <= i < |files| && 0 <= j < |suites| && 0 <= k < |suites| ==>
              Answers(files[i], suites[j]) && Answers(files[i], suites[k]) ==> j == k
    ensures forall i, k, j :: 0 <= i < |files| && 0 <= k < |files| && 0 <= j < |suites| ==>
              Answers(files[i], suites[j]) && Answers(files[k], suites[j]) ==> i == k
  {
    hide Matches, EveryFileDeclared, EverySuiteAnswered;
    forall i, k, j | 0 <= i < |files| && 0 <= k < |files| && 0 <= j < |suites|
                     && Answers(files[i], suites[j]) && Answers(files[k], suites[j])
      ensures i == k
    {
      FileNamesDistinct(suites, files);
      AnswerNames(files[i], suites[j]);
      AnswerNames(files[k], suites[j]);
      assert FileNames(files)[i] == FileNames(files)[k];
    }
    forall i, j, k | 0 <= i < |files| && 0 <= j < |suites| && 0 <= k < |suites|
                     && Answers(files[i], suites[j]) && Answers(files[i], suites[k])
      ensures j == k
    {
      AnswerNames(files[i], suites[j]);
      AnswerNames(files[i], suites[k]);
    }
  }

  lemma AnswerNames(f: File, s: Suite)
    requires Answers(f, s)
    ensures f.receipt.name == s.name
  {
  }

  function SuiteNames(suites: seq<Suite>): (names: seq<string>)
    ensures |names| == |suites| && forall i :: 0 <= i < |suites| ==> names[i] == suites[i].name
  {
    seq(|suites|, i requires 0 <= i < |suites| => suites[i].name)
  }

  function FileNames(files: seq<File>): (names: seq<string>)
    ensures |names| == |files| && forall i :: 0 <= i < |files| && files[i].Parsed? ==> names[i] == files[i].receipt.name
  {
    seq(|files|, i requires 0 <= i < |files| => if files[i].Parsed? then files[i].receipt.name else "")
  }

  /** As many files as suites, and every suite among them: no name twice. */
  lemma FileNamesDistinct(suites: seq<Suite>, files: seq<File>)
    requires UniqueNames(suites) && |files| == |suites| && EverySuiteAnswered(suites, files)
    ensures Distinct(FileNames(files))
  {
    DistinctIffNames(SuiteNames(suites));
    DistinctIffNames(FileNames(files));
    forall n | n in Names(SuiteNames(suites)) ensures n in Names(FileNames(files)) {
      var j :| 0 <= j < |suites| && suites[j].name == n;
      assert suites[j] in suites;
      var f :| f in files && Answers(f, suites[j]);
      var i :| 0 <= i < |files| && files[i] == f;
      AnswerNames(files[i], suites[j]);
      assert FileNames(files)[i] == n;
    }
    SubsetSize(Names(SuiteNames(suites)), Names(FileNames(files)));
  }

  lemma SubsetSize(small: set<string>, large: set<string>)
    requires small <= large
    ensures |small| <= |large|
  {
    if small != {} {
      var x :| x in small;
      SubsetSize(small - {x}, large - {x});
    }
  }

  // ----- the campaign -------------------------------------------------------

  predicate Runnable(manifest: Option<seq<Suite>>) {
    manifest.Some? && manifest.value != [] && UniqueNames(manifest.value)
  }

  /** The receipts of the suites before `n`, each truthful. */
  predicate Recorded(dir: map<string, Record>, suites: seq<Suite>, n: nat, probes: Suite -> Probe)
    requires n <= |suites|
  {
    && (forall name :: name in dir ==> exists k :: 0 <= k < n && suites[k].name == name)
    && (forall k :: 0 <= k < n ==> suites[k].name in dir && Truthful(dir[suites[k].name], suites[k], probes(suites[k])))
  }

  predicate Uneventful(s: Suite, p: Probe) { Completes(s, p) && p.written && !p.stopped }

  /** The loop over the suites: it stops at the first exception, before or right after a receipt is recorded. */
  method RunAll(suites: seq<Suite>, probes: Suite -> Probe)
    returns (dir: map<string, Record>, done: nat, error: bool, active: Receipt?)
    requires UniqueNames(suites)
    ensures done <= |suites| && Recorded(dir, suites, done, probes) && (!error ==> done == |suites|)
    ensures error <==> exists k :: 0 <= k < |suites| && !Uneventful(suites[k], probes(suites[k]))
    ensures active != null ==> fresh(active) && active.suite in suites
  {
    hide Truthful, Completes;
    dir, done, error, active := map[], 0, false, null;
    while done < |suites|
      invariant done <= |suites| && Recorded(dir, suites, done, probes) && !error
      invariant forall k :: 0 <= k < done ==> Uneventful(suites[k], probes(suites[k]))
      invariant active != null ==> fresh(active) && active.suite in suites
    {
      active := new Receipt(suites[done]);
      var finished := RunSuite(probes(suites[done]), active);
      if !finished || !probes(suites[done]).written {
        error := true;
        return;
      }
      dir := dir[suites[done].name := active.Value()];
      done := done + 1;
      if probes(suites[done - 1]).stopped {
        error := true;
        return;
      }
    }
  }

  /** What the directory holds at the end: truthful receipts for the first `done`
      suites, failed ones for the rest. */
  predicate Terminal(dir: map<string, Record>, suites: seq<Suite>, n: nat, done: nat, probes: Suite -> Probe)
    requires n <= |suites|
  {
    && (forall name :: name in dir ==> exists k :: 0 <= k < |suites| && suites[k].name == name && (k < n || k < done))
    && (forall k :: 0 <= k < |suites| && k < done ==>
          suites[k].name in dir && Truthful(dir[suites[k].name], suites[k], probes(suites[k])))
    && (forall k :: done <= k < n ==>
          && suites[k].name in dir && Matches(dir[suites[k].name], suites[k])
          && dir[suites[k].name].finalResult != "passed")
  }

  /** A failed receipt for a suite without one; the interrupted suite keeps what it got to. */
  method Close(suite: Suite, active: Receipt?, logExists: bool) returns (r: Record)
    requires active != null && active.suite.name == suite.name ==> active.suite == suite
    modifies active
    ensures Matches(r, suite) && r.finalResult != "passed"
  {
    if active != null && active.suite.name == suite.name {
      if logExists {
        active.attempts := active.attempts + [Attempt(|active.attempts| + 1, "interrupted", None, None)];
      }
      active.status, active.finalResult := "interrupted", "interrupted";
      active.firstResult := if active.firstResult.None? then Some("interrupted") else active.firstResult;
      return active.Value();
    }
    var receipt := new Receipt(suite);
    receipt.Fail("not_run");
    return receipt.Value();
  }

  /** The `finally` block: every suite without a receipt gets a failed one. */
  method Settle(suites: seq<Suite>, dir0: map<string, Record>, done: nat, active: Receipt?, logExists: bool,
                ghost probes: Suite -> Probe) returns (dir: map<string, Record>)
    requires UniqueNames(suites) && done <= |suites| && Recorded(dir0, suites, done, probes)
    requires active != null ==> active.suite in suites
    modifies active
    ensures Terminal(dir, suites, |suites|, done, probes)
  {
    hide Terminal, Recorded, Truthful, Matches, UniqueNames;
    dir := dir0;
    TerminalStart(dir, suites, done, probes);
    OneSuite(suites);
    for k := 0 to |suites|
      invariant Terminal(dir, suites, k, done, probes)
    {
      KnownIffDone(dir0, suites, done, probes, k);
      if suites[k].name in dir0 {
        TerminalSkip(dir, suites, k, done, probes);
      } else {
        var r := Close(suites[k], active, logExists);
        TerminalStep(dir, suites, k, done, probes, r);
        dir := dir[suites[k].name := r];
      }
    }
  }

  lemma KnownIffDone(dir: map<string, Record>, suites: seq<Suite>, done: nat, probes: Suite -> Probe, k: nat)
    requires UniqueNames(suites) && done <= |suites| && Recorded(dir, suites, done, probes) && k < |suites|
    ensures suites[k].name in dir <==> k < done
  {
    hide Truthful;
  }

  lemma OneSuite(suites: seq<Suite>)
    requires UniqueNames(suites)
    ensures forall s, t :: s in suites && t in suites && s.name == t.name ==> s == t
  {
  }

  lemma TerminalStart(dir: map<string, Record>, suites: seq<Suite>, done: nat, probes: Suite -> Probe)
    requires done <= |suites| && Recorded(dir, suites, done, probes)
    ensures Terminal(dir, suites, 0, done, probes)
  {
    hide Truthful, Matches;
  }

  lemma TerminalSkip(dir: map<string, Record>, suites: seq<Suite>, k: nat, done: nat, probes: Suite -> Probe)
    requires k < |suites| && k < done && Terminal(dir, suites, k, done, probes)
    ensures Terminal(dir, suites, k + 1, done, probes)
  {
    hide Truthful, Matches;
  }

  lemma TerminalStep(dir: map<string, Record>, suites: seq<Suite>, k: nat, done: nat, probes: Suite -> Probe, r: Record)
    requires UniqueNames(suites) && done <= k < |suites| && Terminal(dir, suites, k, done, probes)
    requires Matches(r, suites[k]) && r.finalResult != "passed"
    ensures Terminal(dir[suites[k].name := r], suites, k + 1, done, probes)
  {
    hide Truthful, Matches;
  }

  /** The receipt files, in no particular order. */
  method Listing(dir: map<string, Record>) returns (files: seq<File>)
    ensures |files| == |dir| && Malformed !in files
    ensures forall r :: Parsed(r) in files <==> exists name :: name in dir && dir[name] == r
  {
    files := [];
    var rest := dir.Keys;
    while rest != {}
      invariant rest <= dir.Keys && |files| + |rest| == |dir| && Malformed !in files
      invariant forall r :: Parsed(r) in files <==> exists name :: name in dir && name !in rest && dir[name] == r
      decreases |rest|
    {
      var name :| name in rest;
      files := files + [Parsed(dir[name])];
      rest := rest - {name};
    }
  }

  /** The end of a campaign: one receipt per suite, in bijection. */
  lemma TerminalReconciles(dir: map<string, Record>, suites: seq<Suite>, done: nat, probes: Suite -> Probe, files: seq<File>)
    requires UniqueNames(suites) && done <= |suites| && Terminal(dir, suites, |suites|, done, probes)
    requires |files| == |dir| && Malformed !in files
    requires forall r :: Parsed(r) in files <==> exists name :: name in dir && dir[name] == r
    ensures Reconciled(suites, files)
  {
    hide Matches, Truthful;
    TerminalMatches(dir, suites, done, probes);
    assert EveryFileDeclared(suites, files) by {
      forall f | f in files ensures exists s :: s in suites && Answers(f, s) {
        assert f == Parsed(f.receipt);
        var name :| name in dir && dir[name] == f.receipt;
        var k :| 0 <= k < |suites| && suites[k].name == name;
        assert suites[k] in suites && Answers(f, suites[k]);
      }
    }
    assert EverySuiteAnswered(suites, files) by {
      forall s | s in suites ensures exists f :: f in files && Answers(f, s) {
        var k :| 0 <= k < |suites| && suites[k] == s;
        assert Parsed(dir[s.name]) in files && Answers(Parsed(dir[s.name]), s);
      }
    }
    DistinctIffNames(SuiteNames(suites));
    assert dir.Keys == Names(SuiteNames(suites)) by {
      forall name ensures name in dir <==> name in Names(SuiteNames(suites)) {
        if name in dir {
          var k :| 0 <= k < |suites| && suites[k].name == name;
          assert SuiteNames(suites)[k] == name;
        }
      }
    }
  }

  lemma TerminalMatches(dir: map<string, Record>, suites: seq<Suite>, done: nat, probes: Suite -> Probe)
    requires done <= |suites| && Terminal(dir, suites, |suites|, done, probes)
    ensures forall name :: name in dir ==> exists k :: 0 <= k < |suites| && suites[k].name == name
    ensures forall k :: 0 <= k < |suites| ==> suites[k].name in dir && Matches(dir[suites[k].name], suites[k])
  {
    forall k | 0 <= k < |suites| ensures suites[k].name in dir && Matches(dir[suites[k].name], suites[k]) {
      if k < done {
        assert Truthful(dir[suites[k].name], suites[k], probes(suites[k]));
      }
    }
  }

  /** The verdict of `main`. */
  predicate Certified(manifest: Option<seq<Suite>>, ready: bool, probes: Suite -> Probe) {
    && Runnable(manifest) && ready
    && (forall s :: s in manifest.value ==> Uneventful(s, probes(s)))
    && (forall s :: s in manifest.value && s.track == "mandatory" ==> Succeeds(s, probes(s)))
  }

  /** A run of `tests` tests that all pass: exit code 0 and one summary, an ok one, that counts exactly these tests
      as passed and none as failed, ignored or measured. */
  predicate AllPassed(e: Execution, tests: nat) {
    && e.Executed? && e.code == 0 && |e.summaries| == 1 && e.summaries[0].ok
    && e.summaries[0].counts.passed == tests && e.summaries[0].counts.failed == 0
    && e.summaries[0].counts.ignored == 0 && e.summaries[0].counts.measured == 0
  }

  /** The suite lists at least its minimum of tests, no two alike, from a target whose features it declares. */
  predicate TestsListed(s: Suite, p: Probe) {
    && p.required.Some? && (forall f :: f in p.required.value ==> f in s.features)
    && p.preflight.Listed? && p.preflight.code == 0 && |p.preflight.tests| >= s.minimumTests
    && forall i, j :: 0 <= i < j < |p.preflight.tests| ==> p.preflight.tests[i] != p.preflight.tests[j]
  }

  /** All listed tests pass in the first run, or in the second when the first at least ran to its end. */
  predicate SuitePassed(s: Suite, p: Probe) {
    && TestsListed(s, p) && p.first.Executed?
    && (AllPassed(p.first, |p.preflight.tests|) || AllPassed(p.second, |p.preflight.tests|))
  }

  lemma SuiteExactly(s: Suite, p: Probe)
    ensures Discovers(s, p) <==> TestsListed(s, p)
    ensures Succeeds(s, p) <==> SuitePassed(s, p)
  {
    if p.required.Some? {
      if forall f :: f in p.required.value ==> f in s.features {
        assert p.required.value <= Names(s.features);
      }
    }
  }

  /** When a campaign is certified, written out: the manifest was read and lists suites under different names, the
      setup succeeded, nothing was interrupted and every receipt was written, and every mandatory suite listed
      its tests and passed all of them in one of two runs. */
  lemma CertifiedExactly(manifest: Option<seq<Suite>>, ready: bool, probes: Suite -> Probe)
    ensures Certified(manifest, ready, probes) <==>
              && manifest.Some? && manifest.value != [] && ready
              && (forall i, j :: 0 <= i < j < |manifest.value| ==> manifest.value[i].name != manifest.value[j].name)
              && (forall s :: s in manifest.value ==> Completes(s, probes(s)) && probes(s).written && !probes(s).stopped)
              && (forall s :: s in manifest.value && s.track == "mandatory" ==>
                    SuitePassed(s, probes(s)))
  {
    hide Completes, Succeeds, SuitePassed;
    if manifest.Some? {
      forall s | s in manifest.value ensures Succeeds(s, probes(s)) <==> SuitePassed(s, probes(s)) {
        SuiteExactly(s, probes(s));
      }
    }
  }

  /** `main`, from the parsed manifest to the verdict: `ready` when the manifest copy and the target list
      were obtained, `logExists` when the interrupted attempt had opened its log. A runnable manifest leaves
      one receipt per suite whatever happens, no receipt claims a pass without evidence, and the
      verdict is PASS exactly for certified campaigns. */
  method Certify(manifest: Option<seq<Suite>>, ready: bool, probes: Suite -> Probe, logExists: bool)
    returns (pass: bool, files: seq<File>)
    ensures pass <==> Certified(manifest, ready, probes)
    ensures Runnable(manifest) ==> Reconciled(manifest.value, files)
    ensures forall r :: Parsed(r) in files && r.finalResult == "passed" ==> Evidence(r)
    ensures pass ==> forall r :: Parsed(r) in files && r.track == "mandatory" ==> r.finalResult == "passed"
    ensures pass ==> forall r :: Parsed(r) in files && r.finalResult != "passed" ==> Failed(r)
  {
    hide Truthful, Recorded, Terminal, Uneventful, Reconciled, UniqueNames, Evidence, Failed;
    var suites := if Runnable(manifest) then manifest.value else [];
    NoSuites(suites, probes);
    var dir: map<string, Record>, done: nat, error: bool, active: Receipt? := map[], 0, true, null;
    if Runnable(manifest) && ready {
      dir, done, error, active := RunAll(suites, probes);
    }
    dir := Settle(suites, dir, done, active, logExists, probes);
    files := Listing(dir);
    var integrity, failed := Reconcile(suites, files);
    pass := suites != [] && !error && integrity && failed == 0;
    TerminalReconciles(dir, suites, done, probes, files);
    TerminalEvidence(dir, suites, done, probes);
    if done == |suites| {
      TerminalVerdict(dir, suites, probes, files);
    }
    assert forall k :: 0 <= k < |suites| ==> suites[k] in suites;
  }

  lemma NoSuites(suites: seq<Suite>, probes: Suite -> Probe)
    ensures Recorded(map[], suites, 0, probes)
    ensures suites == [] ==> UniqueNames(suites)
  {
  }

  lemma TerminalEvidence(dir: map<string, Record>, suites: seq<Suite>, done: nat, probes: Suite -> Probe)
    requires done <= |suites| && Terminal(dir, suites, |suites|, done, probes)
    ensures forall name :: name in dir && dir[name].finalResult == "passed" ==> Evidence(dir[name])
    ensures done == |suites| ==> forall name :: name in dir && dir[name].finalResult != "passed" ==> Failed(dir[name])
  {
    hide Evidence, Succeeds, Matches, Failed;
  }

  lemma TerminalVerdict(dir: map<string, Record>, suites: seq<Suite>, probes: Suite -> Probe, files: seq<File>)
    requires Terminal(dir, suites, |suites|, |suites|, probes)
    requires forall r :: Parsed(r) in files <==> exists name :: name in dir && dir[name] == r
    ensures (forall r :: Parsed(r) in files && r.track == "mandatory" ==> r.finalResult == "passed") <==>
            (forall s :: s in suites && s.track == "mandatory" ==> Succeeds(s, probes(s)))
  {
    hide Evidence, Succeeds;
    if forall r :: Parsed(r) in files && r.track == "mandatory" ==> r.finalResult == "passed" {
      forall s | s in suites && s.track == "mandatory" ensures Succeeds(s, probes(s)) {
        var k :| 0 <= k < |suites| && suites[k] == s;
        assert Parsed(dir[s.name]) in files;
      }
    }
    if forall s :: s in suites && s.track == "mandatory" ==> Succeeds(s, probes(s)) {
      forall r | Parsed(r) in files && r.track == "mandatory" ensures r.finalResult == "passed" {
        var name :| name in dir && dir[name] == r;
        var k :| 0 <= k < |suites| && suites[k].name == name;
        assert suites[k] in suites;
      }
    }
  }

  /** The summary of a campaign without exceptions adds up: first passes, passes
      after a retry and failures are all the receipts of a track. */
  lemma {:induction false} TallyConserved(rs: seq<Record>, track: string)
    requires forall r :: r in rs ==> if r.finalResult == "passed" then Evidence(r) else Failed(r)
    ensures Tally(rs, track, FirstPass) + Tally(rs, track, AfterRetry) + Tally(rs, track, FailedRecord)
            == Tally(rs, track, r => true)
  {
    if rs != [] {
      var init, r := rs[..|rs| - 1], rs[|rs| - 1];
      assert r in rs && forall x :: x in init ==> x in rs;
      TallyConserved(init, track);
    }
  }
}
