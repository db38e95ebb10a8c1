/** The campaign level of scripts/verify_tui_coding_evidence.py: the four phases,
    what is carried between them, and what an accepted campaign guarantees. */
module CampaignAudit {
  import opened Text
  import opened EffectEncoding
  import opened CodingFacts
  import opened FactAudit

  // ----- checks outside the phase loop -------------------------------------

  /** Public facts against the private originals, through a dictionary by number. */
  method CrossCheck(facts: seq<Row>, raw: seq<PrivateRow>) returns (ok: bool)
    requires Increasing(facts)
    ensures ok <==> NothingWithheld(facts, raw)
  {
    var public: map<int, Row> := map[];
    for i := 0 to |facts|
      invariant forall s :: s in public ==> public[s] in facts && public[s].seqNo == s
      invariant forall j :: 0 <= j < i ==> facts[j].seqNo in public && public[facts[j].seqNo] == facts[j]
    {
      public := public[facts[i].seqNo := facts[i]];
    }
    for i := 0 to |raw|
      invariant NothingWithheld(facts, raw[..i])
    {
      assert raw[..i + 1][i] == raw[i];
      var projected := Project(raw[i].original);
      if projected.Some? {
        if raw[i].seqNo !in public || public[raw[i].seqNo] != Row(raw[i].seqNo, projected.value) {
          return false;
        }
      }
      assert raw[..i + 1] == raw[..i] + [raw[i]];
    }
    assert raw[..|raw|] == raw;
    return true;
  }

  lemma LastCheckUnique(h: Hashes, rows: seq<Row>, passing: bool, m: nat, k: nat)
    requires LastCheck(h, rows, passing, m) && LastCheck(h, rows, passing, k)
    ensures m == k
  {
  }

  /** The last element of the filtered list of checks. */
  method FindLastCheck(h: Hashes, rows: seq<Row>, checks: seq<nat>, passing: bool) returns (r: Option<nat>)
    requires CheckList(h, rows, |rows|, checks)
    ensures r.Some? <==> exists m: nat :: LastCheck(h, rows, passing, m)
    ensures r.Some? ==> LastCheck(h, rows, passing, r.value)
  {
    hide IsCheck, Ran;
    assert forall j :: 0 <= j < |checks| ==> checks[j] in checks;
    var n := |checks|;
    while n > 0
      invariant 0 <= n <= |checks| && forall j :: 0 <= j < |checks| ==> checks[j] < |rows|
      invariant forall j :: n <= j < |checks| ==> !Ran(rows[checks[j]].payload, passing)
    {
      assert checks[n - 1] in checks;
      if Ran(rows[checks[n - 1]].payload, passing) {
        forall k: nat | checks[n - 1] < k < |rows| && IsCheck(h, rows, k) ensures !Ran(rows[k].payload, passing) {
          var j :| 0 <= j < |checks| && checks[j] == k;
        }
        assert LastCheck(h, rows, passing, checks[n - 1]);
        return Some(checks[n - 1]);
      }
      n := n - 1;
    }
    forall m: nat ensures !LastCheck(h, rows, passing, m) {
      if m < |rows| && IsCheck(h, rows, m) {
        var j :| 0 <= j < |checks| && checks[j] == m;
      }
    }
    return None;
  }

  // ----- the end of a phase -------------------------------------------------

  method CloseUnverified(h: Hashes, raw: seq<PrivateRow>, rows: seq<Row>, scan: Scan) returns (ok: bool)
    requires ReplyOk(rows) && CheckList(h, rows, |rows|, scan.checks) && scan.completes == Completions(rows)
    ensures ok <==> UnverifiedOk(h, raw, rows)
  {
    hide CheckList, LastCheck, WireShows, ReplyQuotesFailure, Completions;
    var reply := rows[LastModel(rows)];
    var failed := FindLastCheck(h, rows, scan.checks, false);
    var anyPassed := exists i :: 0 <= i < |rows| && rows[i].payload.ToolResult?
                                 && rows[i].payload.report.status == Some("passed");
    if scan.completes != [] || failed.None? || anyPassed {
      return false;
    }
    LastCheckInRange(h, rows, false, failed.value);
    forall m: nat | LastCheck(h, rows, false, m) ensures m == failed.value {
      LastCheckUnique(h, rows, false, m, failed.value);
    }
    ok := rows[failed.value].seqNo < reply.seqNo && ReplyQuotesFailure(raw, reply.seqNo)
          && WireShows(raw, rows[failed.value].seqNo, true, FAIL);
  }

  lemma LastCheckInRange(h: Hashes, rows: seq<Row>, passing: bool, m: nat)
    requires LastCheck(h, rows, passing, m)
    ensures m < |rows| && rows[m].payload.ToolResult?
  {
  }

  /** `effect_digest`: fails exactly on an unacceptable file identity. */
  method RecomputeDigest(h: Hashes, state: seq<Item>) returns (digest: Option<string>)
    requires DistinctPaths(state)
    ensures digest == EffectDigest(h, state)
    ensures digest.Some? <==> AllAcceptable(state)
  {
    hide EncodeItems, Header, Acceptable;
    var encoded := EffectBytes(state);
    SortSorts(state);
    SameAcceptance(Sort(state), state);
    digest := if encoded.Some? then Some(h.effect(encoded.value)) else None;
  }

  method CloseVerified(h: Hashes, raw: seq<PrivateRow>, rows: seq<Row>, scan: Scan) returns (r: Option<string>)
    requires ReplyOk(rows) && CheckList(h, rows, |rows|, scan.checks) && DistinctPaths(scan.state)
    requires |Completions(rows)| == 1 && Completions(rows)[0].payload.TurnComplete?
    ensures r.Some? <==> VerifiedOk(h, raw, rows, scan.state)
    ensures r.Some? ==> r == EffectDigest(h, scan.state) == Completions(rows)[0].payload.completeDigest
  {
    hide CheckList, LastCheck, WireShows, Completions, DistinctPaths, AllAcceptable, EffectDigest;
    var c, reply := Completions(rows)[0].payload, rows[LastModel(rows)];
    var passed := FindLastCheck(h, rows, scan.checks, true);
    if passed.None? || c.terminal != "verified" {
      return None;
    }
    LastCheckInRange(h, rows, true, passed.value);
    forall m: nat | LastCheck(h, rows, true, m) ensures m == passed.value {
      LastCheckUnique(h, rows, true, m, passed.value);
    }
    var checker := rows[passed.value];
    if !(checker.seqNo < reply.seqNo && reply.payload.quotesChecker) {
      return None;
    }
    if h.invocation(checker.payload.identity) !in c.receiptKeys
       || checker.payload.report.subject != Some("shell:contract:dual-defect") {
      return None;
    }
    var expected := RecomputeDigest(h, scan.state);
    if expected.None? || expected != c.completeDigest || expected != checker.payload.report.effectDigest {
      return None;
    }
    if !WireShows(raw, checker.seqNo, false, PASS) {
      return None;
    }
    return expected;
  }

  /** The checks after the loop over a phase's facts; `reports` are the recomputed digests. */
  method ClosePhase(h: Hashes, raw: seq<PrivateRow>, rows: seq<Row>, p: nat, scan: Scan, carried: set<string>)
    returns (reports: Option<seq<string>>)
    requires PreparedKeysAre(h, rows, scan.prepared) && CheckList(h, rows, |rows|, scan.checks)
    requires scan.results == KeySet(h, rows) && scan.completes == Completions(rows) && DistinctPaths(scan.state)
    ensures reports.Some? <==> CloseOk(h, raw, rows, p, carried, scan.state)
    ensures reports.Some? && p < 2 ==> reports.value == []
    ensures reports.Some? && p >= 2 ==> EffectDigest(h, scan.state).Some? && reports.value == [EffectDigest(h, scan.state).value]
  {
    hide CheckList, Completions, UnverifiedOk, VerifiedOk, KeySet, EffectDigest, DistinctPaths;
    SettledIff(h, rows, scan.prepared);
    if scan.prepared == {} || scan.prepared != scan.results {
      return None;
    }
    if !ReplyOk(rows) {
      return None;
    }
    if p == 1 {
      var ok := CloseUnverified(h, raw, rows, scan);
      return if ok then Some([]) else None;
    }
    if !CompletionOk(rows, carried) {
      return None;
    }
    if p == 0 {
      return if NarrativeOk(rows, scan.state) then Some([]) else None;
    }
    var digest := CloseVerified(h, raw, rows, scan);
    return if digest.Some? then Some([digest.value]) else None;
  }

  lemma SettledIff(h: Hashes, rows: seq<Row>, prepared: set<string>)
    requires PreparedKeysAre(h, rows, prepared)
    ensures AllSettled(h, rows) <==> prepared != {} && prepared == KeySet(h, rows)
  {
    hide KeySet, PreparedBefore;
    if prepared != {} {
      var key :| key in prepared;
      assert PreparedBefore(h, rows, |rows|, key);
    }
  }

  // ----- the folded workspace state ----------------------------------------

  lemma {:induction false} SetItemMeans(state: seq<Item>, item: Item)
    requires DistinctPaths(state)
    ensures DistinctPaths(SetItem(state, item))
    ensures forall x :: x in SetItem(state, item) <==> x == item || (x in state && x.path != item.path)
    decreases |state|
  {
    if state != [] {
      var rest := state[1..];
      assert state == [state[0]] + rest;
      assert forall x :: x in state <==> x == state[0] || x in rest;
      if state[0].path == item.path {
        assert forall x :: x in rest ==> x.path != item.path;
      } else {
        SetItemMeans(rest, item);
        var tail := SetItem(rest, item);
        forall j | 0 <= j < |tail| ensures tail[j].path != state[0].path { assert tail[j] in tail; }
      }
    }
  }

  /** `x` is the last change to its path. */
  predicate LastChange(changes: seq<Item>, x: Item) {
    exists i :: 0 <= i < |changes| && changes[i] == x && forall j :: i < j < |changes| ==> changes[j].path != x.path
  }

  lemma LastChangeSnoc(changes: seq<Item>, c: Item, x: Item)
    ensures LastChange(changes + [c], x) <==> x == c || (LastChange(changes, x) && x.path != c.path)
  {
    var all := changes + [c];
    if x == c { assert all[|changes|] == x; }
    if LastChange(changes, x) && x.path != c.path {
      var i :| 0 <= i < |changes| && changes[i] == x && forall j :: i < j < |changes| ==> changes[j].path != x.path;
      assert all[i] == x;
    }
    if LastChange(all, x) && x != c {
      var i :| 0 <= i < |all| && all[i] == x && forall j :: i < j < |all| ==> all[j].path != x.path;
      assert all[|changes|] == c;
      assert forall j :: i < j < |changes| ==> changes[j] == all[j];
      assert changes[i] == x;
    }
  }

  /** The folded state holds, for each path, what its last change left there. */
  lemma {:induction false} FoldMeansLastChange(changes: seq<Item>)
    ensures DistinctPaths(FoldChanges([], changes))
    ensures forall x :: x in FoldChanges([], changes) <==> LastChange(changes, x)
    decreases |changes|
  {
    if changes != [] {
      var rest, c := changes[..|changes| - 1], changes[|changes| - 1];
      FoldMeansLastChange(rest);
      SetItemMeans(FoldChanges([], rest), c);
      assert changes == rest + [c];
      forall x ensures x in FoldChanges([], changes) <==> LastChange(changes, x) {
        LastChangeSnoc(rest, c, x);
      }
    }
  }

  // ----- the campaign -------------------------------------------------------

  lemma {:induction false} BetweenMembers(facts: seq<Row>, first: int, last: int, row: Row)
    ensures row in Between(facts, first, last) <==> row in facts && first <= row.seqNo <= last
  {
    if facts != [] {
      BetweenMembers(facts[1..], first, last, row);
      assert facts == [facts[0]] + facts[1..];
    }
  }

  lemma {:induction false} BetweenIncreasing(facts: seq<Row>, first: int, last: int)
    requires Increasing(facts)
    ensures Increasing(Between(facts, first, last))
  {
    if facts != [] {
      var rest := facts[1..];
      BetweenIncreasing(rest, first, last);
      var tail := Between(rest, first, last);
      forall j | 0 <= j < |tail| ensures facts[0].seqNo < tail[j].seqNo {
        BetweenMembers(rest, first, last, tail[j]);
      }
    }
  }

  /** What the audit reports of an accepted campaign. */
  datatype Summary = Summary(receipts: nat, digests: seq<string>)

  /** State and receipt keys at the start of phase `p`. */
  ghost predicate CarryInv(h: Hashes, a: Artifact, p: nat, state: seq<Item>, carried: set<string>) {
    && state == FoldChanges([], if p == 2 then Changes(RowsOf(a, 1)) else [])
    && carried == if p == 2 then KeySet(h, RowsOf(a, 1)) else {}
  }

  /** The number of results in the phases before `p`. */
  function ResultCount(h: Hashes, a: Artifact, p: nat): nat {
    if p == 0 then 0 else ResultCount(h, a, p - 1) + |ResultKeys(h, RowsOf(a, p - 1))|
  }

  /** The digest recomputed for the workspace of phase `p`, if there is one. */
  function DigestOf(h: Hashes, a: Artifact, p: nat): seq<string> {
    var digest := EffectDigest(h, FoldChanges([], ChangesSince(a, p)));
    if digest.Some? then [digest.value] else []
  }

  /** The digests recomputed for the verified completions before phase `p`. */
  function Digests(h: Hashes, a: Artifact, p: nat): seq<string> {
    if p < 3 then [] else Digests(h, a, p - 1) + DigestOf(h, a, p - 1)
  }

  method AuditPhase(h: Hashes, a: Artifact, raw: seq<PrivateRow>, p: nat, state: seq<Item>, carried: set<string>)
    returns (r: Option<(nat, seq<string>, seq<Item>, set<string>)>)
    requires |a.phases| == 4 && p < 4 && Increasing(a.facts) && CarryInv(h, a, p, state, carried)
    ensures r.Some? <==> PhaseOk(h, a, raw, p)
    ensures r.Some? ==> CarryInv(h, a, p + 1, r.value.2, r.value.3)
    ensures r.Some? ==> r.value.0 == |ResultKeys(h, RowsOf(a, p))|
    ensures r.Some? ==> Digests(h, a, p + 1) == Digests(h, a, p) + r.value.1
  {
    hide HeaderOk, InputOk, RowsOk, CloseOk, Changes, KeySet, ResultKeys, Between, FoldChanges, EffectDigest,
         CheckList, PreparedKeysAre, Increasing;
    if !HeaderOk(h, a.phases, p) || !InputOk(raw, a.phases[p], p) {
      return None;
    }
    var rows := RowsOf(a, p);
    BetweenIncreasing(a.facts, a.phases[p].first, a.phases[p].last);
    var scan := ScanPhase(h, rows, p, a.phases[p], state);
    if scan.None? {
      return None;
    }
    FoldConcat([], if p == 2 then Changes(RowsOf(a, 1)) else [], Changes(rows));
    assert scan.value.state == FoldChanges([], ChangesSince(a, p));
    FoldMeansLastChange(ChangesSince(a, p));
    var keys := carried + scan.value.results;
    assert keys == Carried(h, a, p);
    var reports := ClosePhase(h, raw, rows, p, scan.value, keys);
    if reports.None? {
      return None;
    }
    if p == 1 {
      assert [] + Changes(rows) == Changes(rows);
      return Some((|scan.value.results|, reports.value, scan.value.state, keys));
    }
    EmptyFold();
    return Some((|scan.value.results|, reports.value, [], {}));
  }

  lemma EmptyFold()
    ensures FoldChanges([], []) == []
  {
  }

  /** The audit accepts exactly the campaigns in order. */
  method VerifyArtifact(h: Hashes, a: Artifact, raw: seq<PrivateRow>) returns (r: Option<Summary>)
    ensures r.Some? <==> Audited(h, a, raw)
    ensures r.Some? ==> r.value == Summary(ResultCount(h, a, 4), Digests(h, a, 4))
  {
    hide PhaseOk, CarryInv, Covered, NothingWithheld, EffectDigest, ChangesSince;
    if !(a.finished && !a.panicked && a.checkerUnchanged && Flattened(a) && DistinctPhases(a)) {
      return None;
    }
    if !Increasing(a.facts) || !IncreasingPrivate(raw) {
      return None;
    }
    var agrees := CrossCheck(a.facts, raw);
    if !agrees {
      return None;
    }
    var state: seq<Item>, carried: set<string>, digests: seq<string>, total: nat := [], {}, [], 0;
    StartCarry(h, a);
    for p := 0 to 4
      invariant CarryInv(h, a, p, state, carried)
      invariant forall q :: 0 <= q < p ==> PhaseOk(h, a, raw, q)
      invariant total == ResultCount(h, a, p) && digests == Digests(h, a, p)
    {
      var step := AuditPhase(h, a, raw, p, state, carried);
      if step.None? {
        return None;
      }
      total, digests, state, carried := total + step.value.0, digests + step.value.1, step.value.2, step.value.3;
    }
    if !Covered(a) {
      return None;
    }
    return Some(Summary(total, digests));
  }

  lemma StartCarry(h: Hashes, a: Artifact)
    ensures CarryInv(h, a, 0, [], {})
  {
    EmptyFold();
  }
}
