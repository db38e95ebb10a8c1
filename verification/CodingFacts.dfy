/** The facts of a coding campaign and what it means for one to be in order:
    the declarative side of scripts/verify_tui_coding_evidence.py. Hashes are
    parameters; JSON values are typed. */
module CodingFacts {
  import opened Text
  import opened EffectEncoding

  // ----- data ---------------------------------------------------------------

  datatype Identity = Identity(
    turn: int, cycle: int, callId: string, batchIndex: Option<int>,
    runId: string, threadId: string, binding: string)

  datatype Call = Call(id: string, name: string, argsDigest: string, exactChecker: bool)

  datatype Prepared = Prepared(
    schema: string, identity: Identity, toolName: string, originalArgs: string, effectiveArgs: string,
    recovery: string, baseline: Option<string>)

  datatype Effects = Effects(completeness: string, changes: seq<Item>, unresolved: seq<string>)

  datatype Report = Report(status: Option<string>, subject: Option<string>, effectDigest: Option<string>)

  datatype Payload =
    | ModelTurn(kind: string, promptTokens: Option<int>, quotesChecker: bool, calls: seq<Call>)
    | ToolPrepared(item: Prepared)
    | ToolResult(identity: Identity, preparedDigest: string, outcome: string, effects: Effects,
                 exitCode: Option<int>, report: Report)
    | TurnComplete(terminal: string, completeDigest: Option<string>, cut: int, receiptKeys: seq<string>,
                   backgroundKeys: seq<string>)
    | OtherFact

  datatype Row = Row(seqNo: int, payload: Payload)

  /** The stored tool output: its kind, error flag, stripped lines and metadata. */
  datatype Wire = Wire(kind: string, isError: bool, lines: seq<string>, exitCode: Option<int>, report: Report)

  /** An original fact. `quotesPass`/`quotesFail`: its text contains the checker's marks. */
  datatype Original =
    | OriginalModel(modelKind: string, tokens: Option<int>, calls: seq<Call>, quotesPass: bool, quotesFail: bool)
    | OriginalPrepared(item: Prepared)
    | OriginalResult(identity: Identity, preparedDigest: string, outcome: string, effects: Effects,
                     wire: Option<Wire>)
    | OriginalComplete(terminal: string, completeDigest: Option<string>, cut: int, receiptKeys: seq<string>,
                       backgroundKeys: seq<string>)
    | UserMessage(text: string)
    | OtherOriginal

  datatype PrivateRow = PrivateRow(seqNo: int, original: Original)

  datatype Event = Event(
    kind: string, seqNo: int, rpcId: Option<string>, promptId: Option<string>, sessionId: Option<string>,
    promptDigest: Option<string>, inFlightBefore: int, errorCode: Option<int>, completionGate: bool,
    stopReason: Option<string>)

  datatype Phase = Phase(runId: string, request: Event, response: Event, first: int, last: int)

  datatype Artifact = Artifact(
    finished: bool, panicked: bool, checkerUnchanged: bool, phases: seq<Phase>, events: seq<Event>,
    facts: seq<Row>)

  /** SHA-256 under its domains. */
  datatype Hashes = Hashes(
    invocation: Identity -> string, prepared: Prepared -> string, effect: seq<byte> -> string,
    prompt: string -> string)

  /** The four requests of the campaign. */
  function Prompt(p: nat): string
    requires p < 4
  {
    if p == 0 then "Read rate.py, fee.py, and gate.py. Name both wrong returns. Do not edit."
    else if p == 1 then "Fix only rate.py. Run exactly `python3 gate.py`. If denied, request escalation. Quote output."
    else if p == 2 then "Fix fee.py. Run exactly `python3 gate.py`. If denied, request escalation. Quote output."
    else "Run exactly `python3 gate.py`. If denied, request escalation. Quote its output."
  }

  const OWED_WORK: string := "\n\n[owed work] "
  const PASS: string := "DUAL-GATE-7K"
  const FAIL: string := "DUAL-HOLD"

  // ----- one fact -----------------------------------------------------------

  predicate IdentityOk(i: Identity) { i.turn > 0 && i.callId != "" && i.runId != "" && i.threadId != "" }

  predicate PreparedOk(p: Prepared) {
    && p.schema == "a3s.code.tool-prepared.v1"
    && p.recovery in ["never_replay", "query_status", "idempotency_key"]
    && ValidDigest(p.originalArgs) && ValidDigest(p.effectiveArgs) && ValidDigest(p.identity.binding)
  }

  predicate EffectsOk(e: Effects, index: nat) {
    && e.completeness == "complete" && e.unresolved == []
    && forall i :: 0 <= i < |e.changes| ==> ChangeOk(e.changes[i].path, index)
  }

  predicate ChangeOk(path: string, index: nat) {
    && path in ["rate.py", "fee.py", "runs.txt"]
    && index != 0 && !(index == 1 && path == "fee.py")
  }

  // ----- facts in context ---------------------------------------------------

  /** Row `i` is a model turn whose `k`-th call is `c`. */
  predicate CallAt(rows: seq<Row>, i: int, k: int, c: Call) {
    && 0 <= i < |rows| && rows[i].payload.ModelTurn?
    && 0 <= k < |rows[i].payload.calls| && rows[i].payload.calls[k] == c
  }

  predicate PreparedAt(h: Hashes, rows: seq<Row>, i: int, key: string) {
    0 <= i < |rows| && rows[i].payload.ToolPrepared? && h.invocation(rows[i].payload.item.identity) == key
  }

  predicate ResultAt(h: Hashes, rows: seq<Row>, i: int, key: string) {
    0 <= i < |rows| && rows[i].payload.ToolResult? && h.invocation(rows[i].payload.identity) == key
  }

  /** Call `k` of row `n` reuses the id of an earlier call. */
  ghost predicate CallRepeats(rows: seq<Row>, n: int, k: int, id: string) {
    exists i, l, c :: CallAt(rows, i, l, c) && c.id == id && (i < n || (i == n && l < k))
  }

  ghost predicate PreparedBefore(h: Hashes, rows: seq<Row>, n: int, key: string) {
    exists i :: i < n && PreparedAt(h, rows, i, key)
  }

  ghost predicate ResultBefore(h: Hashes, rows: seq<Row>, n: int, key: string) {
    exists i :: i < n && ResultAt(h, rows, i, key)
  }

  /** A preparation names an earlier model call, with its tool and arguments. */
  predicate CalledBy(rows: seq<Row>, n: int, item: Prepared, i: int, k: int, c: Call) {
    && i < n && CallAt(rows, i, k, c) && c.id == item.identity.callId
    && c.name == item.toolName && c.argsDigest == item.originalArgs
  }

  /** A result follows the preparation it is bound to. */
  predicate PreparedBy(h: Hashes, rows: seq<Row>, n: int, r: Payload, i: int)
    requires r.ToolResult?
  {
    && i < n && PreparedAt(h, rows, i, h.invocation(r.identity))
    && r.preparedDigest == h.prepared(rows[i].payload.item)
  }

  /** The result of row `n` comes from the exact checker command. */
  ghost predicate IsChecker(h: Hashes, rows: seq<Row>, n: int) {
    && 0 <= n < |rows| && rows[n].payload.ToolResult?
    && exists i, j, k, c :: PreparedBy(h, rows, n, rows[n].payload, i)
                            && CalledBy(rows, i, rows[i].payload.item, j, k, c)
                            && rows[i].payload.item.toolName == "bash" && c.exactChecker
  }

  /** What the phase loop demands of row `n`, given the rows before it. */
  ghost predicate RowOk(h: Hashes, rows: seq<Row>, n: nat, index: nat, phase: Phase)
    requires n < |rows|
  {
    match rows[n].payload
    case ModelTurn(_, tokens, _, calls) =>
      && tokens.Some? && tokens.value > 0
      && forall k :: 0 <= k < |calls| ==> !CallRepeats(rows, n, k, calls[k].id)
    case ToolPrepared(item) =>
      && IdentityOk(item.identity)
      && item.identity.runId == phase.runId && Some(item.identity.threadId) == phase.request.sessionId
      && !PreparedBefore(h, rows, n, h.invocation(item.identity))
      && (exists i, k, c :: CalledBy(rows, n, item, i, k, c))
      && PreparedOk(item)
    case ToolResult(identity, digest, outcome, effects, _, _) =>
      && IdentityOk(identity)
      && (exists i :: PreparedBy(h, rows, n, rows[n].payload, i))
      && !ResultBefore(h, rows, n, h.invocation(identity))
      && outcome in ["succeeded", "failed", "denied"]
      && EffectsOk(effects, index)
      && (forall i, j, k, c :: PreparedBy(h, rows, n, rows[n].payload, i)
            && CalledBy(rows, i, rows[i].payload.item, j, k, c)
            && rows[i].payload.item.toolName == "bash" && c.exactChecker
            ==> rows[i].payload.item.originalArgs == rows[i].payload.item.effectiveArgs)
    case _ => true
  }

  ghost predicate RowsOk(h: Hashes, rows: seq<Row>, index: nat, phase: Phase) {
    forall n :: 0 <= n < |rows| ==> RowOk(h, rows, n, index, phase)
  }

  // ----- what a phase leaves behind ----------------------------------------

  /** `state[path] = after` on a dictionary kept in insertion order. */
  function SetItem(state: seq<Item>, item: Item): seq<Item> {
    if state == [] then [item]
    else if state[0].path == item.path then [item] + state[1..]
    else [state[0]] + SetItem(state[1..], item)
  }

  function FoldChanges(state: seq<Item>, changes: seq<Item>): seq<Item> {
    if changes == [] then state
    else SetItem(FoldChanges(state, changes[..|changes| - 1]), changes[|changes| - 1])
  }

  /** All file changes of the results among `rows`, in order. */
  function Changes(rows: seq<Row>): seq<Item> {
    if rows == [] then []
    else
      var last := rows[|rows| - 1].payload;
      Changes(rows[..|rows| - 1]) + (if last.ToolResult? then last.effects.changes else [])
  }

  function ResultKeys(h: Hashes, rows: seq<Row>): seq<string> {
    if rows == [] then []
    else
      var last := rows[|rows| - 1].payload;
      ResultKeys(h, rows[..|rows| - 1]) + (if last.ToolResult? then [h.invocation(last.identity)] else [])
  }

  function KeySet(h: Hashes, rows: seq<Row>): set<string> { set key | key in ResultKeys(h, rows) }

  function Completions(rows: seq<Row>): seq<Row> {
    if rows == [] then []
    else
      var last := rows[|rows| - 1];
      Completions(rows[..|rows| - 1]) + (if last.payload.TurnComplete? then [last] else [])
  }

  // ----- public facts against original ones --------------------------------

  /** `raw_projection` for the four audited kinds. */
  function Project(o: Original): Option<Payload> {
    match o
    case OriginalModel(kind, tokens, calls, pass, _) => Some(ModelTurn(kind, tokens, pass, calls))
    case OriginalPrepared(item) => Some(ToolPrepared(item))
    case OriginalResult(id, digest, outcome, effects, wire) =>
      Some(ToolResult(id, digest, outcome, effects, if wire.Some? then wire.value.exitCode else None,
                      if wire.Some? then wire.value.report else Report(None, None, None)))
    case OriginalComplete(terminal, digest, cut, keys, background) =>
      Some(TurnComplete(terminal, digest, cut, keys, background))
    case _ => None
  }

  predicate Increasing(rows: seq<Row>) {
    forall i, j :: 0 <= i < j < |rows| ==> rows[i].seqNo < rows[j].seqNo
  }

  predicate IncreasingPrivate(raw: seq<PrivateRow>) {
    forall i, j :: 0 <= i < j < |raw| ==> raw[i].seqNo < raw[j].seqNo
  }

  /** Every audited original fact is public, unchanged, under its own number. */
  predicate NothingWithheld(facts: seq<Row>, raw: seq<PrivateRow>) {
    forall i :: 0 <= i < |raw| && Project(raw[i].original).Some? ==>
      Row(raw[i].seqNo, Project(raw[i].original).value) in facts
  }

  // ----- phases -------------------------------------------------------------

  function Between(facts: seq<Row>, first: int, last: int): seq<Row> {
    if facts == [] then []
    else (if first <= facts[0].seqNo <= last then [facts[0]] else []) + Between(facts[1..], first, last)
  }

  /** The facts of phase `p`, in order. */
  function RowsOf(a: Artifact, p: nat): seq<Row> {
    if p < |a.phases| then Between(a.facts, a.phases[p].first, a.phases[p].last) else []
  }

  predicate SameText(x: Option<string>, y: Option<string>) { x == y && x.Some? && x.value != "" }

  /** The request/response pair of phase `p`. */
  predicate ExchangeOk(h: Hashes, phases: seq<Phase>, p: nat)
    requires p < |phases| && p < 4
  {
    var q, r := phases[p].request, phases[p].response;
    && q.kind == "prompt-request" && r.kind == "prompt-response" && q.inFlightBefore == 0
    && (if p == 0 then 0 else phases[p - 1].response.seqNo) < q.seqNo < r.seqNo
    && q.promptDigest == Some(h.prompt(Prompt(p)))
    && SameText(q.rpcId, r.rpcId) && SameText(q.promptId, r.promptId)
    && SameText(q.sessionId, r.sessionId) && SameText(q.promptDigest, r.promptDigest)
    && (if p == 1 then r.errorCode == Some(-32603) && r.completionGate && r.stopReason.None?
        else r.errorCode.None? && r.stopReason == Some("end_turn") && !r.completionGate)
  }

  /** The fact range of phase `p` follows the one before. */
  predicate RangeOk(phases: seq<Phase>, p: nat)
    requires p < |phases|
  {
    (if p == 0 then 0 else phases[p - 1].last) < phases[p].first <= phases[p].last
  }

  predicate HeaderOk(h: Hashes, phases: seq<Phase>, p: nat)
    requires p < |phases| && p < 4
  {
    ExchangeOk(h, phases, p) && RangeOk(phases, p)
  }

  function UserTexts(raw: seq<PrivateRow>, first: int, last: int): seq<string> {
    if raw == [] then []
    else (if first <= raw[0].seqNo <= last && raw[0].original.UserMessage? then [raw[0].original.text] else [])
         + UserTexts(raw[1..], first, last)
  }

  predicate InputOk(raw: seq<PrivateRow>, phase: Phase, p: nat)
    requires p < 4
  {
    var texts := UserTexts(raw, phase.first, phase.last);
    |texts| == 1 && (texts[0] == Prompt(p) || (p == 2 && Prompt(p) + OWED_WORK <= texts[0]))
  }

  // ----- the end of a phase -------------------------------------------------

  ghost predicate IsCheck(h: Hashes, rows: seq<Row>, m: nat) {
    IsChecker(h, rows, m) && rows[m].payload.exitCode.Some?
  }

  predicate FailedRun(p: Payload) { p.ToolResult? && p.outcome == "failed" && p.exitCode == Some(1) }

  predicate PassedRun(p: Payload) {
    p.ToolResult? && p.outcome == "succeeded" && p.exitCode == Some(0) && p.report.status == Some("passed")
  }

  predicate Ran(p: Payload, passing: bool) { if passing then PassedRun(p) else FailedRun(p) }

  /** Row `m` is the last checker run that passed, or failed. */
  ghost predicate LastCheck(h: Hashes, rows: seq<Row>, passing: bool, m: nat) {
    && m < |rows| && IsCheck(h, rows, m) && Ran(rows[m].payload, passing)
    && forall k: nat :: m < k < |rows| && IsCheck(h, rows, k) ==> !Ran(rows[k].payload, passing)
  }

  /** The index of the last model turn, or -1. */
  function LastModel(rows: seq<Row>): (i: int)
    ensures -1 <= i < |rows|
    ensures i >= 0 ==> rows[i].payload.ModelTurn?
    ensures forall k :: i < k < |rows| ==> !rows[k].payload.ModelTurn?
  {
    if rows == [] then -1
    else if rows[|rows| - 1].payload.ModelTurn? then |rows| - 1
    else LastModel(rows[..|rows| - 1])
  }

  predicate ReplyOk(rows: seq<Row>) { LastModel(rows) >= 0 && rows[LastModel(rows)].payload.kind == "text" }

  /** The original of a checker result carries the expected output. */
  predicate WireShows(raw: seq<PrivateRow>, seqNo: int, isError: bool, mark: string) {
    exists i :: 0 <= i < |raw| && raw[i].seqNo == seqNo && raw[i].original.OriginalResult?
                && raw[i].original.wire.Some? && raw[i].original.wire.value.kind == "a3s.fact_tool_result"
                && raw[i].original.wire.value.isError == isError && mark in raw[i].original.wire.value.lines
  }

  predicate ReplyQuotesFailure(raw: seq<PrivateRow>, seqNo: int) {
    exists i :: 0 <= i < |raw| && raw[i].seqNo == seqNo && QuotesFailure(raw[i].original)
  }

  predicate MarkAt(text: string, i: nat, mark: string) {
    i + |mark| <= |text| && text[i..i + |mark|] == mark
  }

  predicate QuotesFailure(o: Original) {
    match o
    case OriginalModel(_, _, _, _, fail) => fail
    case UserMessage(text) => exists i :: 0 <= i <= |text| && MarkAt(text, i, FAIL)
    case _ => false
  }

  /** Every preparation has its result, and there is one. */
  ghost predicate AllSettled(h: Hashes, rows: seq<Row>) {
    && (exists key :: PreparedBefore(h, rows, |rows|, key))
    && (forall key :: PreparedBefore(h, rows, |rows|, key) <==> key in KeySet(h, rows))
  }

  ghost predicate UnverifiedOk(h: Hashes, raw: seq<PrivateRow>, rows: seq<Row>)
    requires ReplyOk(rows)
  {
    var reply := rows[LastModel(rows)];
    && Completions(rows) == []
    && (forall i :: 0 <= i < |rows| && rows[i].payload.ToolResult? ==> rows[i].payload.report.status != Some("passed"))
    && exists m: nat :: LastCheck(h, rows, false, m)
                   && rows[m].seqNo < reply.seqNo && ReplyQuotesFailure(raw, reply.seqNo)
                   && WireShows(raw, rows[m].seqNo, true, FAIL)
  }

  /** The completion covers exactly the receipts carried to it. */
  predicate CompletionOk(rows: seq<Row>, carried: set<string>)
    requires ReplyOk(rows)
  {
    && |Completions(rows)| == 1 && Completions(rows)[0].payload.TurnComplete?
    && var c, reply := Completions(rows)[0], rows[LastModel(rows)];
       && reply.seqNo <= c.payload.cut < c.seqNo
       && (set key | key in c.payload.receiptKeys) == carried && |c.payload.receiptKeys| == |carried|
       && c.payload.backgroundKeys == []
  }

  predicate NarrativeOk(rows: seq<Row>, state: seq<Item>)
    requires |Completions(rows)| == 1 && Completions(rows)[0].payload.TurnComplete?
  {
    var c := Completions(rows)[0].payload;
    c.terminal == "narrative" && state == [] && c.completeDigest.None?
  }

  function EffectDigest(h: Hashes, state: seq<Item>): Option<string> {
    if AllAcceptable(Sort(state)) then Some(h.effect(Header() + EncodeItems(Sort(state)))) else None
  }

  ghost predicate VerifiedOk(h: Hashes, raw: seq<PrivateRow>, rows: seq<Row>, state: seq<Item>)
    requires ReplyOk(rows) && |Completions(rows)| == 1 && Completions(rows)[0].payload.TurnComplete?
  {
    var c, reply := Completions(rows)[0].payload, rows[LastModel(rows)];
    && c.terminal == "verified"
    && exists m: nat :: LastCheck(h, rows, true, m)
                   && rows[m].seqNo < reply.seqNo && reply.payload.quotesChecker
                   && h.invocation(rows[m].payload.identity) in c.receiptKeys
                   && rows[m].payload.report.subject == Some("shell:contract:dual-defect")
                   && EffectDigest(h, state).Some?
                   && EffectDigest(h, state) == c.completeDigest == rows[m].payload.report.effectDigest
                   && WireShows(raw, rows[m].seqNo, false, PASS)
  }

  ghost predicate CloseOk(h: Hashes, raw: seq<PrivateRow>, rows: seq<Row>, p: nat, carried: set<string>,
                          state: seq<Item>) {
    && AllSettled(h, rows) && ReplyOk(rows)
    && if p == 1 then UnverifiedOk(h, raw, rows)
       else CompletionOk(rows, carried)
            && if p == 0 then NarrativeOk(rows, state) else VerifiedOk(h, raw, rows, state)
  }

  // ----- the campaign -------------------------------------------------------

  /** Receipts a completion in phase `p` answers for: those since the previous
      completion, so the third phase also carries the second's. */
  function Carried(h: Hashes, a: Artifact, p: nat): set<string> {
    KeySet(h, RowsOf(a, p)) + if p == 2 then KeySet(h, RowsOf(a, 1)) else {}
  }

  /** The file changes since the previous completion, in order. */
  function ChangesSince(a: Artifact, p: nat): seq<Item> {
    (if p == 2 then Changes(RowsOf(a, 1)) else []) + Changes(RowsOf(a, p))
  }

  predicate Flattened(a: Artifact) {
    && |a.phases| == 4 && |a.events| == 8
    && forall p :: 0 <= p < 4 ==> a.events[2 * p] == a.phases[p].request && a.events[2 * p + 1] == a.phases[p].response
  }

  predicate DistinctPhases(a: Artifact) {
    && (forall i, j :: 0 <= i < j < |a.phases| ==>
          && a.phases[i].runId != a.phases[j].runId
          && a.phases[i].request.promptId != a.phases[j].request.promptId
          && a.phases[i].request.rpcId != a.phases[j].request.rpcId)
    && (forall i, j :: 0 <= i < j < |a.phases| ==> a.phases[i].request.sessionId == a.phases[j].request.sessionId)
  }

  predicate Covered(a: Artifact) {
    forall i :: 0 <= i < |a.facts| ==> InSomePhase(a.phases, a.facts[i].seqNo)
  }

  predicate InSomePhase(phases: seq<Phase>, seqNo: int) {
    exists p :: 0 <= p < |phases| && phases[p].first <= seqNo <= phases[p].last
  }

  predicate Preamble(a: Artifact, raw: seq<PrivateRow>) {
    && a.finished && !a.panicked && a.checkerUnchanged
    && Flattened(a) && DistinctPhases(a)
    && Increasing(a.facts) && IncreasingPrivate(raw) && NothingWithheld(a.facts, raw)
  }

  ghost predicate PhaseOk(h: Hashes, a: Artifact, raw: seq<PrivateRow>, p: nat)
    requires p < |a.phases| && p < 4
  {
    && HeaderOk(h, a.phases, p) && InputOk(raw, a.phases[p], p)
    && RowsOk(h, RowsOf(a, p), p, a.phases[p])
    && CloseOk(h, raw, RowsOf(a, p), p, Carried(h, a, p), FoldChanges([], ChangesSince(a, p)))
  }

  /** A campaign in order. */
  ghost predicate Audited(h: Hashes, a: Artifact, raw: seq<PrivateRow>) {
    && Preamble(a, raw) && Covered(a)
    && forall p :: 0 <= p < 4 ==> PhaseOk(h, a, raw, p)
  }
}
