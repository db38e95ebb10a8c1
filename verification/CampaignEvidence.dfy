/** What an accepted campaign shows, phase by phase, in terms of its rows and of the
    original facts behind them: the checker runs that count, the replies that quote them,
    the completions that cover them, and the files that may change. */
module CampaignEvidence {
  import opened Text
  import opened EffectEncoding
  import opened CodingFacts
  import opened CampaignGuarantees
  import CampaignAudit

  // ----- checker runs -------------------------------------------------------

  /** Row `m` is the result of a bash call marked as the exact checker command: a model turn made the
      call, a later row prepared it, and the result is bound to that preparation. */
  ghost predicate RanChecker(h: Hashes, rows: seq<Row>, m: nat) {
    && m < |rows| && rows[m].payload.ToolResult?
    && exists i: nat, j: nat, k: nat :: j < i < m && CheckerChain(h, rows, m, i, j, k)
  }

  predicate CheckerChain(h: Hashes, rows: seq<Row>, m: nat, i: nat, j: nat, k: nat)
    requires j < i < m < |rows| && rows[m].payload.ToolResult?
  {
    && rows[i].payload.ToolPrepared? && rows[j].payload.ModelTurn? && k < |rows[j].payload.calls|
    && var result, item, call := rows[m].payload, rows[i].payload.item, rows[j].payload.calls[k];
       && h.invocation(item.identity) == h.invocation(result.identity) && h.prepared(item) == result.preparedDigest
       && call.id == item.identity.callId && call.name == item.toolName == "bash" && call.exactChecker
       && call.argsDigest == item.originalArgs
  }

  lemma RanIsChecker(h: Hashes, rows: seq<Row>, m: nat)
    ensures RanChecker(h, rows, m) <==> IsChecker(h, rows, m)
  {
    if RanChecker(h, rows, m) {
      var i: nat, j: nat, k: nat :| j < i < m && CheckerChain(h, rows, m, i, j, k);
      assert PreparedBy(h, rows, m, rows[m].payload, i);
      assert CalledBy(rows, i, rows[i].payload.item, j, k, rows[j].payload.calls[k]);
    }
    if IsChecker(h, rows, m) {
      var i, j, k, c :| PreparedBy(h, rows, m, rows[m].payload, i) && CalledBy(rows, i, rows[i].payload.item, j, k, c)
                        && rows[i].payload.item.toolName == "bash" && c.exactChecker;
      assert CheckerChain(h, rows, m, i, j, k);
    }
  }

  /** The last model turn of a phase. */
  predicate FinalReply(rows: seq<Row>, r: nat) {
    && r < |rows| && rows[r].payload.ModelTurn? && rows[r].payload.kind == "text"
    && forall k :: r < k < |rows| ==> !rows[k].payload.ModelTurn?
  }

  /** The original behind a result shows this line, as an error or not. */
  predicate Shows(o: Original, isError: bool, line: string) {
    && o.OriginalResult? && o.wire.Some? && o.wire.value.kind == "a3s.fact_tool_result"
    && o.wire.value.isError == isError && line in o.wire.value.lines
  }

  /** The parts of an accepted campaign one phase is about. */
  lemma PhaseParts(h: Hashes, a: Artifact, raw: seq<PrivateRow>, p: nat)
    requires Audited(h, a, raw) && p < 4
    ensures |a.phases| == 4 && PhaseOk(h, a, raw, p) && Increasing(RowsOf(a, p))
    ensures CloseOk(h, raw, RowsOf(a, p), p, Carried(h, a, p), FoldChanges([], ChangesSince(a, p)))
    ensures RowsOk(h, RowsOf(a, p), p, a.phases[p])
  {
    hide HeaderOk, InputOk, RowsOk, CloseOk, Between, Changes, NothingWithheld, Covered, DistinctPhases, FoldChanges;
    assert PhaseOk(h, a, raw, p);
    CampaignAudit.BetweenIncreasing(a.facts, a.phases[p].first, a.phases[p].last);
  }

  lemma Reply(rows: seq<Row>) returns (r: nat)
    requires ReplyOk(rows)
    ensures r == LastModel(rows) && FinalReply(rows, r)
  {
    r := LastModel(rows);
  }

  /** Row `m` is a checker run that ended this way, and no later one did. */
  ghost predicate LastRun(h: Hashes, rows: seq<Row>, m: nat, outcome: string, exitCode: int, status: Option<string>) {
    && RanChecker(h, rows, m) && Ended(rows[m].payload, outcome, exitCode, status)
    && forall k: nat :: m < k < |rows| && RanChecker(h, rows, k) ==> !Ended(rows[k].payload, outcome, exitCode, status)
  }

  predicate Ended(p: Payload, outcome: string, exitCode: int, status: Option<string>) {
    && p.ToolResult? && p.outcome == outcome && p.exitCode == Some(exitCode)
    && (status.Some? ==> p.report.status == status)
  }

  lemma LastRuns(h: Hashes, rows: seq<Row>, passing: bool, m: nat)
    requires LastCheck(h, rows, passing, m)
    ensures passing ==> LastRun(h, rows, m, "succeeded", 0, Some("passed"))
    ensures !passing ==> LastRun(h, rows, m, "failed", 1, None)
  {
    hide IsChecker, RanChecker;
    RanIsChecker(h, rows, m);
    forall k: nat | m < k < |rows| && RanChecker(h, rows, k)
      ensures passing ==> !Ended(rows[k].payload, "succeeded", 0, Some("passed"))
      ensures !passing ==> !Ended(rows[k].payload, "failed", 1, None)
    {
      RanIsChecker(h, rows, k);
    }
  }

  // ----- completions --------------------------------------------------------

  /** Row `c` is the one completion of the phase. */
  predicate OnlyCompletion(rows: seq<Row>, c: nat) {
    && c < |rows| && rows[c].payload.TurnComplete?
    && forall k :: 0 <= k < |rows| && rows[k].payload.TurnComplete? ==> k == c
  }

  lemma {:induction false} CompletionAt(rows: seq<Row>) returns (c: nat)
    requires |Completions(rows)| == 1
    ensures OnlyCompletion(rows, c) && Completions(rows)[0] == rows[c]
  {
    var n := |rows| - 1;
    if rows[n].payload.TurnComplete? {
      c := n;
      NoneComplete(rows[..n]);
    } else {
      c := CompletionAt(rows[..n]);
    }
  }

  lemma {:induction false} NoneComplete(rows: seq<Row>)
    requires Completions(rows) == []
    ensures forall k :: 0 <= k < |rows| ==> !rows[k].payload.TurnComplete?
  {
    if rows != [] { NoneComplete(rows[..|rows| - 1]); }
  }

  /** The completion answers for the final reply and for exactly these results, each once. */
  ghost predicate Covers(rows: seq<Row>, c: nat, r: nat, keys: set<string>)
    requires r < |rows| && c < |rows| && rows[c].payload.TurnComplete?
  {
    var done := rows[c].payload;
    && rows[r].seqNo <= done.cut < rows[c].seqNo && done.backgroundKeys == []
    && (forall key :: key in done.receiptKeys <==> key in keys) && |done.receiptKeys| == |keys|
  }

  lemma Covering(rows: seq<Row>, carried: set<string>) returns (c: nat, r: nat)
    requires ReplyOk(rows) && CompletionOk(rows, carried)
    ensures OnlyCompletion(rows, c) && Completions(rows)[0] == rows[c]
    ensures FinalReply(rows, r) && r == LastModel(rows) && Covers(rows, c, r, carried)
  {
    hide Completions, LastModel;
    r := Reply(rows);
    c := CompletionAt(rows);
    var keys := rows[c].payload.receiptKeys;
    forall key ensures key in keys <==> key in carried {
      assert key in (set x | x in keys) <==> key in keys;
    }
  }

  // ----- the phases ---------------------------------------------------------

  /** What a verified phase shows: its last passing checker run `m` is reported under the digest the
      completion `c` claims, precedes a final reply `r` that quotes it, is covered by the completion, and
      the original `o` behind it shows the pass mark. */
  ghost predicate VerifiedEvidence(h: Hashes, raw: seq<PrivateRow>, rows: seq<Row>, keys: set<string>,
                                   digest: Option<string>, m: nat, r: nat, c: nat, o: nat) {
    && LastRun(h, rows, m, "succeeded", 0, Some("passed")) && FinalReply(rows, r) && m < r
    && rows[m].payload.report.subject == Some("shell:contract:dual-defect")
    && rows[m].payload.report.effectDigest == digest && digest.Some? && rows[r].payload.quotesChecker
    && OnlyCompletion(rows, c) && Covers(rows, c, r, keys)
    && rows[c].payload.terminal == "verified" && rows[c].payload.completeDigest == digest
    && h.invocation(rows[m].payload.identity) in rows[c].payload.receiptKeys
    && o < |raw| && raw[o].seqNo == rows[m].seqNo && Shows(raw[o].original, false, "DUAL-GATE-7K")
  }

  /** Every verified phase of an accepted campaign shows this, under the digest its completion claims. */
  lemma VerifiedPhase(h: Hashes, a: Artifact, raw: seq<PrivateRow>, p: nat) returns (m: nat, r: nat, c: nat, o: nat)
    requires Audited(h, a, raw) && 2 <= p < 4
    ensures VerifiedEvidence(h, raw, RowsOf(a, p), Carried(h, a, p), ClaimedDigest(a, p), m, r, c, o)
  {
    hide RowsOf, RowsOk, Completions, LastModel, IsChecker, Carried, EffectDigest, FoldChanges, LastRun, Audited, PhaseOk,
         AllSettled, ChangesSince;
    PhaseParts(h, a, raw, p);
    var rows := RowsOf(a, p);
    c, r := Covering(rows, Carried(h, a, p));
    m :| m < |rows| && rows[m].payload.ToolResult? && LastCheck(h, rows, true, m) && rows[m].seqNo < rows[r].seqNo
         && h.invocation(rows[m].payload.identity) in rows[c].payload.receiptKeys
         && rows[m].payload.report.subject == Some("shell:contract:dual-defect")
         && EffectDigest(h, FoldChanges([], ChangesSince(a, p))).Some?
         && EffectDigest(h, FoldChanges([], ChangesSince(a, p))) == rows[c].payload.completeDigest
            == rows[m].payload.report.effectDigest
         && WireShows(raw, rows[m].seqNo, false, PASS);
    LastRuns(h, rows, true, m);
    LaterRow(rows, m, r);
    o :| 0 <= o < |raw| && raw[o].seqNo == rows[m].seqNo && Shows(raw[o].original, false, PASS);
  }

  lemma LaterRow(rows: seq<Row>, m: nat, r: nat)
    requires Increasing(rows) && m < |rows| && r < |rows| && rows[m].seqNo < rows[r].seqNo
    ensures m < r
  {
  }

  /** What the failed checkpoint shows: nothing completes it and no result claims a pass; its last
      failing checker run `m` precedes a final reply `r` whose original `q` quotes the failure, and
      the original `o` behind the run shows the fail mark. */
  ghost predicate FailureEvidence(h: Hashes, raw: seq<PrivateRow>, rows: seq<Row>, m: nat, r: nat, o: nat, q: nat) {
    && LastRun(h, rows, m, "failed", 1, None) && FinalReply(rows, r) && m < r
    && (forall k :: 0 <= k < |rows| ==> !rows[k].payload.TurnComplete?)
    && (forall k :: 0 <= k < |rows| && rows[k].payload.ToolResult? ==> rows[k].payload.report.status != Some("passed"))
    && o < |raw| && raw[o].seqNo == rows[m].seqNo && Shows(raw[o].original, true, "DUAL-HOLD")
    && q < |raw| && raw[q].seqNo == rows[r].seqNo
    && ((raw[q].original.OriginalModel? && raw[q].original.quotesFail)
        || (raw[q].original.UserMessage? && Contains(raw[q].original.text, "DUAL-HOLD")))
  }

  lemma FailureShown(h: Hashes, raw: seq<PrivateRow>, rows: seq<Row>) returns (m: nat, r: nat, o: nat, q: nat)
    requires Increasing(rows) && ReplyOk(rows) && UnverifiedOk(h, raw, rows)
    ensures FailureEvidence(h, raw, rows, m, r, o, q)
  {
    hide Completions, LastModel, IsChecker, LastRun, MarkAt, Contains;
    r := Reply(rows);
    NoneComplete(rows);
    m :| m < |rows| && rows[m].payload.ToolResult? && LastCheck(h, rows, false, m) && rows[m].seqNo < rows[r].seqNo
         && ReplyQuotesFailure(raw, rows[r].seqNo) && WireShows(raw, rows[m].seqNo, true, FAIL);
    LastRuns(h, rows, false, m);
    LaterRow(rows, m, r);
    o :| 0 <= o < |raw| && raw[o].seqNo == rows[m].seqNo && Shows(raw[o].original, true, FAIL);
    q :| 0 <= q < |raw| && raw[q].seqNo == rows[r].seqNo && QuotesFailure(raw[q].original);
    if raw[q].original.UserMessage? { Quoted(raw[q].original.text); }
  }

  lemma UnverifiedPhase(h: Hashes, a: Artifact, raw: seq<PrivateRow>) returns (m: nat, r: nat, o: nat, q: nat)
    requires Audited(h, a, raw)
    ensures FailureEvidence(h, raw, RowsOf(a, 1), m, r, o, q)
  {
    hide RowsOf, RowsOk, UnverifiedOk, Carried, FoldChanges, Audited, PhaseOk, AllSettled, ChangesSince, FailureEvidence,
         Increasing, ReplyOk;
    PhaseParts(h, a, raw, 1);
    m, r, o, q := FailureShown(h, raw, RowsOf(a, 1));
  }

  ghost predicate Contains(text: string, mark: string) {
    exists before: string, after: string :: text == before + mark + after
  }

  lemma Quoted(text: string)
    requires exists i :: 0 <= i <= |text| && MarkAt(text, i, FAIL)
    ensures Contains(text, FAIL)
  {
    var i :| 0 <= i <= |text| && MarkAt(text, i, FAIL);
    assert text == text[..i] + FAIL + text[i + |FAIL|..];
  }

  /** What the diagnosis shows: no result changes a file, and the one completion claims no digest. */
  ghost predicate DiagnosisEvidence(rows: seq<Row>, keys: set<string>, r: nat, c: nat) {
    && FinalReply(rows, r) && OnlyCompletion(rows, c) && Covers(rows, c, r, keys)
    && rows[c].payload.terminal == "narrative" && rows[c].payload.completeDigest == None
    && forall k :: 0 <= k < |rows| && rows[k].payload.ToolResult? ==> rows[k].payload.effects.changes == []
  }

  lemma DiagnosisPhase(h: Hashes, a: Artifact, raw: seq<PrivateRow>) returns (r: nat, c: nat)
    requires Audited(h, a, raw)
    ensures DiagnosisEvidence(RowsOf(a, 0), Carried(h, a, 0), r, c)
  {
    hide RowsOf, Completions, LastModel, Carried, FoldChanges, Audited, PhaseOk, AllSettled, ChangesSince;
    PhaseParts(h, a, raw, 0);
    var rows := RowsOf(a, 0);
    c, r := Covering(rows, Carried(h, a, 0));
    forall k | 0 <= k < |rows| && rows[k].payload.ToolResult? ensures rows[k].payload.effects.changes == [] {
      assert RowOk(h, rows, k, 0, a.phases[0]);
      var changes := rows[k].payload.effects.changes;
      assert changes != [] ==> ChangeOk(changes[0].path, 0);
    }
  }

  /** A settled result of phase `p` with complete effects, which change files only where they were asked to:
      nothing in the diagnosis, `fee.py` not before the third phase, and never anything but the two
      sources and the checker's own log. */
  predicate ChangesAsked(result: Payload, p: nat) {
    && result.ToolResult? && result.outcome in ["succeeded", "failed", "denied"]
    && result.effects.completeness == "complete" && result.effects.unresolved == []
    && forall x :: x in result.effects.changes ==>
         p >= 1 && (x.path == "rate.py" || x.path == "runs.txt" || (x.path == "fee.py" && p >= 2))
  }

  lemma ChangesWhereAsked(h: Hashes, a: Artifact, raw: seq<PrivateRow>, p: nat, k: nat)
    requires Audited(h, a, raw) && p < 4 && k < |RowsOf(a, p)| && RowsOf(a, p)[k].payload.ToolResult?
    ensures ChangesAsked(RowsOf(a, p)[k].payload, p)
  {
    hide RowsOf, CloseOk, FoldChanges, Audited, PhaseOk, ChangesSince, Carried;
    PhaseParts(h, a, raw, p);
    assert RowOk(h, RowsOf(a, p), k, p, a.phases[p]);
    var changes := RowsOf(a, p)[k].payload.effects.changes;
    forall x | x in changes
      ensures p >= 1 && (x.path == "rate.py" || x.path == "runs.txt" || (x.path == "fee.py" && p >= 2))
    {
      var i :| 0 <= i < |changes| && changes[i] == x;
      assert ChangeOk(changes[i].path, p);
    }
  }

  predicate Apart(x: Phase, y: Phase) {
    && 0 < x.request.seqNo < x.response.seqNo < y.request.seqNo < y.response.seqNo
    && 0 < x.first <= x.last < y.first <= y.last
    && x.runId != y.runId && x.request.promptId != y.request.promptId && x.request.rpcId != y.request.rpcId
    && x.request.sessionId == y.request.sessionId == x.response.sessionId == y.response.sessionId
  }

  /** The exchanges do not overlap: every request is answered before the next one is sent, under the same
      ids, in one session and with nothing else in flight; the second answer alone is an error. */
  lemma ExchangesInOrder(h: Hashes, a: Artifact, raw: seq<PrivateRow>, p: nat, q: nat)
    requires Audited(h, a, raw) && p < q < 4
    ensures |a.phases| == 4 && Apart(a.phases[p], a.phases[q])
  {
    hide PhaseOk, NothingWithheld, Covered, Increasing, IncreasingPrivate, Prompt;
    HeaderOf(h, a, raw, 0);
    HeaderOf(h, a, raw, 1);
    HeaderOf(h, a, raw, 2);
    HeaderOf(h, a, raw, 3);
  }

  lemma HeaderOf(h: Hashes, a: Artifact, raw: seq<PrivateRow>, p: nat)
    requires Audited(h, a, raw) && p < 4
    ensures p < |a.phases| && HeaderOk(h, a.phases, p)
  {
    hide HeaderOk, InputOk, RowsOk, CloseOk, NothingWithheld, Covered, Increasing, IncreasingPrivate, RowsOf, Carried,
         FoldChanges, ChangesSince, DistinctPhases;
    assert PhaseOk(h, a, raw, p);
  }

  /** The response belongs to the request of this prompt; a refusal is the completion gate's error. */
  predicate AnsweredTo(x: Event, y: Event, prompt: string, refused: bool) {
    && x.kind == "prompt-request" && y.kind == "prompt-response" && x.inFlightBefore == 0
    && x.promptDigest == y.promptDigest == Some(prompt)
    && x.rpcId == y.rpcId && x.promptId == y.promptId && x.rpcId.Some? && x.promptId.Some?
    && y.errorCode == (if refused then Some(-32603) else None) && (y.completionGate <==> refused)
    && y.stopReason == if refused then None else Some("end_turn")
  }

  lemma ExchangeAnswered(h: Hashes, a: Artifact, raw: seq<PrivateRow>, p: nat)
    requires Audited(h, a, raw) && p < 4
    ensures |a.phases| == 4 && AnsweredTo(a.phases[p].request, a.phases[p].response, h.prompt(Prompt(p)), p == 1)
  {
    hide InputOk, RowsOk, CloseOk, NothingWithheld, Covered, Increasing, IncreasingPrivate, RowsOf, Carried, FoldChanges,
         ChangesSince, Prompt;
    assert PhaseOk(h, a, raw, p);
  }

  /** A preparation of the run and thread of its phase, under the known schema and recovery rules, with
      digests in the printed form. */
  predicate PreparedFor(item: Prepared, runId: string, session: Option<string>) {
    && item.identity.runId == runId && Some(item.identity.threadId) == session
    && item.identity.turn > 0 && item.identity.callId != ""
    && item.schema == "a3s.code.tool-prepared.v1"
    && (item.recovery == "never_replay" || item.recovery == "query_status" || item.recovery == "idempotency_key")
    && Printed(item.originalArgs) && Printed(item.effectiveArgs) && Printed(item.identity.binding)
  }

  /** `sha256:` and 64 lower-case hexadecimal digits. */
  predicate Printed(digest: string) {
    && |digest| == 71 && digest[..7] == "sha256:"
    && forall i :: 7 <= i < 71 ==> '0' <= digest[i] <= '9' || 'a' <= digest[i] <= 'f'
  }

  lemma DigestPrinted(digest: string)
    requires ValidDigest(digest)
    ensures Printed(digest)
  {
  }

  lemma PreparationNamesItsRun(h: Hashes, a: Artifact, raw: seq<PrivateRow>, p: nat, k: nat)
    requires Audited(h, a, raw) && p < 4 && k < |RowsOf(a, p)| && RowsOf(a, p)[k].payload.ToolPrepared?
    ensures p < |a.phases|
    ensures PreparedFor(RowsOf(a, p)[k].payload.item, a.phases[p].runId, a.phases[p].request.sessionId)
  {
    hide RowsOf, CloseOk, FoldChanges, Audited, PhaseOk, ChangesSince, Carried, ValidDigest, Printed, CalledBy, PreparedBefore;
    PhaseParts(h, a, raw, p);
    assert RowOk(h, RowsOf(a, p), k, p, a.phases[p]);
    var item := RowsOf(a, p)[k].payload.item;
    DigestPrinted(item.originalArgs);
    DigestPrinted(item.effectiveArgs);
    DigestPrinted(item.identity.binding);
  }

  // ----- the requests -------------------------------------------------------

  predicate UserMessageAt(raw: seq<PrivateRow>, phase: Phase, i: nat) {
    i < |raw| && phase.first <= raw[i].seqNo <= phase.last && raw[i].original.UserMessage?
  }

  lemma {:induction false} NoText(raw: seq<PrivateRow>, phase: Phase)
    requires UserTexts(raw, phase.first, phase.last) == []
    ensures forall i :: 0 <= i < |raw| ==> !UserMessageAt(raw, phase, i)
  {
    if raw != [] {
      NoText(raw[1..], phase);
      forall i | 0 <= i < |raw| ensures !UserMessageAt(raw, phase, i) {
        assert i > 0 ==> raw[i] == raw[1..][i - 1] && !UserMessageAt(raw[1..], phase, i - 1);
      }
    }
  }

  lemma {:induction false} OneText(raw: seq<PrivateRow>, phase: Phase) returns (i: nat)
    requires |UserTexts(raw, phase.first, phase.last)| == 1
    ensures UserMessageAt(raw, phase, i) && raw[i].original.text == UserTexts(raw, phase.first, phase.last)[0]
    ensures forall j :: 0 <= j < |raw| && UserMessageAt(raw, phase, j) ==> j == i
  {
    var rest := raw[1..];
    if UserMessageAt(raw, phase, 0) {
      NoText(rest, phase);
      i := 0;
    } else {
      var k := OneText(rest, phase);
      i := k + 1;
    }
    forall j | 0 <= j < |raw| && UserMessageAt(raw, phase, j) ensures j == i {
      if j > 0 { assert raw[j] == rest[j - 1] && UserMessageAt(rest, phase, j - 1); }
    }
  }

  /** The only user message of a phase is its prompt; the third may carry the work still owed. */
  lemma PromptIsTheOnlyInput(h: Hashes, a: Artifact, raw: seq<PrivateRow>, p: nat) returns (i: nat)
    requires Audited(h, a, raw) && p < 4
    ensures p < |a.phases| && UserMessageAt(raw, a.phases[p], i)
    ensures forall j :: 0 <= j < |raw| && UserMessageAt(raw, a.phases[p], j) ==> j == i
    ensures raw[i].original.text == Prompt(p)
            || (p == 2 && Prompt(p) + "\n\n[owed work] " <= raw[i].original.text)
  {
    hide HeaderOk, RowsOk, CloseOk, NothingWithheld, Covered, Increasing, IncreasingPrivate, RowsOf, Carried, FoldChanges,
         ChangesSince, Prompt, UserTexts, DistinctPhases;
    assert PhaseOk(h, a, raw, p);
    i := OneText(raw, a.phases[p]);
  }

  // ----- what stands behind the rows ---------------------------------------

  /** A checker run was executed with the arguments the model asked for, and every model turn used tokens. */
  lemma CheckerRanAsAsked(h: Hashes, a: Artifact, raw: seq<PrivateRow>, p: nat, m: nat, i: nat, j: nat, k: nat)
    requires Audited(h, a, raw) && p < 4 && j < i < m < |RowsOf(a, p)| && RowsOf(a, p)[m].payload.ToolResult?
    requires CheckerChain(h, RowsOf(a, p), m, i, j, k)
    ensures RowsOf(a, p)[i].payload.item.effectiveArgs == RowsOf(a, p)[j].payload.calls[k].argsDigest
    ensures RowsOf(a, p)[j].payload.promptTokens.Some? && RowsOf(a, p)[j].payload.promptTokens.value > 0
  {
    hide RowsOf, CloseOk, FoldChanges, Audited, PhaseOk, ChangesSince, Carried, CallRepeats, PreparedBefore, ResultBefore;
    PhaseParts(h, a, raw, p);
    var rows := RowsOf(a, p);
    assert RowOk(h, rows, m, p, a.phases[p]) && RowOk(h, rows, j, p, a.phases[p]);
    assert PreparedBy(h, rows, m, rows[m].payload, i);
    assert CalledBy(rows, i, rows[i].payload.item, j, k, rows[j].payload.calls[k]);
  }

  /** The public fact an original of an audited kind must appear as. */
  ghost predicate PublishedAs(o: Original, p: Payload) {
    match o
    case OriginalModel(kind, tokens, calls, quotesPass, _) => p == ModelTurn(kind, tokens, quotesPass, calls)
    case OriginalPrepared(item) => p == ToolPrepared(item)
    case OriginalResult(identity, digest, outcome, effects, wire) =>
      && p.ToolResult? && p.identity == identity && p.preparedDigest == digest && p.outcome == outcome
      && p.effects == effects && (wire.Some? ==> p.exitCode == wire.value.exitCode && p.report == wire.value.report)
    case OriginalComplete(terminal, digest, cut, keys, background) =>
      p == TurnComplete(terminal, digest, cut, keys, background)
    case UserMessage(_) => true
    case OtherOriginal => true
  }

  /** Nothing is withheld: every original model turn, preparation, result and completion is public, under its
      number and unchanged. The run itself ended properly and the checker was not touched. */
  lemma NothingIsWithheld(h: Hashes, a: Artifact, raw: seq<PrivateRow>, i: nat) returns (r: nat)
    requires Audited(h, a, raw) && i < |raw|
    requires !raw[i].original.UserMessage? && !raw[i].original.OtherOriginal?
    ensures a.finished && !a.panicked && a.checkerUnchanged
    ensures r < |a.facts| && a.facts[r].seqNo == raw[i].seqNo && PublishedAs(raw[i].original, a.facts[r].payload)
  {
    hide PhaseOk, Covered, Flattened, DistinctPhases, Increasing, IncreasingPrivate;
    var row := Row(raw[i].seqNo, Project(raw[i].original).value);
    assert row in a.facts;
    r :| r < |a.facts| && a.facts[r] == row;
  }
}
