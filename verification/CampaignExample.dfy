/** A campaign in order: four phases of one checker run each, the second one failing, so
    that what CampaignGuarantees states of audited campaigns is said of something. */
module CampaignExample {
  import opened Text
  import opened EffectEncoding
  import opened CodingFacts
  import CampaignGuarantees

  /** The name of phase `p` wherever one is needed. */
  function Tag(p: nat): (t: string)
    ensures |t| == p + 1
  {
    seq(p + 1, i => 'r')
  }

  function Sum(): (s: string)
    ensures ValidDigest(s)
  {
    "sha256:" + seq(64, i => 'a')
  }

  function ExampleHashes(): Hashes {
    Hashes((i: Identity) => i.runId, (item: Prepared) => "p", (bytes: seq<byte>) => "e", (text: string) => "t")
  }

  function Caller(p: nat): Identity { Identity(1, 0, Tag(p), None, Tag(p), "s", Sum()) }

  function Preparation(p: nat): Prepared {
    Prepared("a3s.code.tool-prepared.v1", Caller(p), "bash", Sum(), Sum(), "never_replay", None)
  }

  /** The last two phases pass the checker. */
  predicate Passing(p: nat) { p >= 2 }

  function ReportOf(p: nat): Report {
    if Passing(p) then Report(Some("passed"), Some("shell:contract:dual-defect"), Some("e")) else Report(None, None, None)
  }

  function ExitOf(p: nat): Option<int> { if Passing(p) then Some(0) else Some(1) }

  function OutcomeOf(p: nat): string { if Passing(p) then "succeeded" else "failed" }

  function ReceiptsOf(p: nat): seq<string> { if p == 2 then [Tag(1), Tag(2)] else [Tag(p)] }

  function Asks(p: nat): Row { Row(10 * p + 2, ModelTurn("tools", Some(1), false, [Call(Tag(p), "bash", Sum(), true)])) }

  function Prepares(p: nat): Row { Row(10 * p + 3, ToolPrepared(Preparation(p))) }

  function Answers(p: nat): Row {
    Row(10 * p + 4, ToolResult(Caller(p), "p", OutcomeOf(p), Effects("complete", [], []), ExitOf(p), ReportOf(p)))
  }

  function Replies(p: nat): Row { Row(10 * p + 5, ModelTurn("text", Some(1), Passing(p), [])) }

  function Completes(p: nat): Row {
    Row(10 * p + 6, TurnComplete(if p == 0 then "narrative" else "verified", if p == 0 then None else Some("e"),
                                 10 * p + 5, ReceiptsOf(p), []))
  }

  /** The facts of phase `p`; the second has no completion. */
  function Rows(p: nat): seq<Row> {
    [Asks(p), Prepares(p), Answers(p), Replies(p)] + if p == 1 then [] else [Completes(p)]
  }

  function Original(p: nat, row: Row): Original {
    match row.payload
    case ModelTurn(kind, tokens, quotes, calls) => OriginalModel(kind, tokens, calls, quotes, !Passing(p))
    case ToolPrepared(item) => OriginalPrepared(item)
    case ToolResult(identity, digest, outcome, effects, exitCode, report) =>
      OriginalResult(identity, digest, outcome, effects,
                     Some(Wire("a3s.fact_tool_result", !Passing(p), [if Passing(p) then PASS else FAIL], exitCode, report)))
    case TurnComplete(terminal, digest, cut, keys, background) =>
      OriginalComplete(terminal, digest, cut, keys, background)
    case OtherFact => OtherOriginal
  }

  /** The originals of phase `p`: the request, and one behind every fact. */
  function Raw(p: nat): (raw: seq<PrivateRow>)
    requires p < 4
    ensures |raw| == |Rows(p)| + 1
  {
    [PrivateRow(10 * p + 1, UserMessage(Prompt(p)))]
    + seq(|Rows(p)|, i requires 0 <= i < |Rows(p)| => PrivateRow(Rows(p)[i].seqNo, Original(p, Rows(p)[i])))
  }

  function Sent(p: nat, kind: string, seqNo: int): Event {
    var answered := kind == "prompt-response";
    Event(kind, seqNo, Some(Tag(p)), Some(Tag(p)), Some("s"), Some("t"), 0,
          if answered && p == 1 then Some(-32603) else None, answered && p == 1,
          if answered && p != 1 then Some("end_turn") else None)
  }

  function PhaseOf(p: nat): Phase {
    Phase(Tag(p), Sent(p, "prompt-request", 2 * p + 1), Sent(p, "prompt-response", 2 * p + 2), 10 * p + 1, 10 * p + 9)
  }

  function Phases(): (phases: seq<Phase>)
    ensures |phases| == 4 && forall p :: 0 <= p < 4 ==> phases[p] == PhaseOf(p)
  {
    seq(4, p requires 0 <= p => PhaseOf(p))
  }

  function Events(): (events: seq<Event>)
    ensures |events| == 8
    ensures forall p :: 0 <= p < 4 ==> events[2 * p] == PhaseOf(p).request && events[2 * p + 1] == PhaseOf(p).response
  {
    seq(8, i requires 0 <= i => if i % 2 == 0 then PhaseOf(i / 2).request else PhaseOf(i / 2).response)
  }

  /** The facts, and the originals, of the first `n` phases. */
  function Facts(n: nat): seq<Row> { if n == 0 then [] else Facts(n - 1) + Rows(n - 1) }

  function Originals(n: nat): seq<PrivateRow>
    requires n <= 4
  {
    if n == 0 then [] else Originals(n - 1) + Raw(n - 1)
  }

  function Example(): Artifact { Artifact(true, false, true, Phases(), Events(), Facts(4)) }

  // ----- the facts in order -------------------------------------------------

  lemma RowNumbers(p: nat)
    ensures |Rows(p)| == if p == 1 then 4 else 5
    ensures forall i :: 0 <= i < |Rows(p)| ==> Rows(p)[i].seqNo == 10 * p + 2 + i
  {
    hide Sum, Tag;
  }

  lemma {:induction false} FactNumbers(n: nat)
    ensures Increasing(Facts(n)) && forall r :: r in Facts(n) ==> 0 < r.seqNo < 10 * n
    ensures forall p :: 0 <= p < n ==> forall r :: r in Rows(p) ==> r in Facts(n)
  {
    hide Rows;
    if n > 0 {
      FactNumbers(n - 1);
      RowNumbers(n - 1);
      var before := Facts(n - 1);
      assert Facts(n) == before + Rows(n - 1);
      assert forall i :: 0 <= i < |before| ==> before[i] in before;
    }
  }

  lemma RawNumbers(p: nat)
    requires p < 4
    ensures forall i :: 0 <= i < |Raw(p)| ==> Raw(p)[i].seqNo == 10 * p + 1 + i < 10 * p + 10
  {
    hide Rows, Prompt, Original;
    RowNumbers(p);
    forall i | 0 <= i < |Raw(p)| ensures Raw(p)[i].seqNo == 10 * p + 1 + i < 10 * p + 10 {
      if i > 0 { assert Raw(p)[i].seqNo == Rows(p)[i - 1].seqNo; }
    }
  }

  lemma {:induction false} OriginalNumbers(n: nat)
    requires n <= 4
    ensures IncreasingPrivate(Originals(n)) && forall i :: 0 <= i < |Originals(n)| ==> 0 < Originals(n)[i].seqNo < 10 * n
  {
    hide Raw;
    if n > 0 {
      OriginalNumbers(n - 1);
      RawNumbers(n - 1);
      assert Originals(n) == Originals(n - 1) + Raw(n - 1);
    }
  }

  lemma {:induction false} OriginalsHold(n: nat, p: nat, r: PrivateRow)
    requires p < n <= 4 && r in Raw(p)
    ensures r in Originals(n)
  {
    hide Raw;
    if p < n - 1 { OriginalsHold(n - 1, p, r); }
  }

  lemma {:induction false} OriginalOf(n: nat, r: PrivateRow) returns (p: nat)
    requires n <= 4 && r in Originals(n)
    ensures p < n && r in Raw(p)
  {
    hide Raw;
    if r in Raw(n - 1) {
      p := n - 1;
    } else {
      p := OriginalOf(n - 1, r);
    }
  }

  lemma Public(p: nat, i: nat)
    requires p < 4 && i < |Raw(p)| && Project(Raw(p)[i].original).Some?
    ensures Row(Raw(p)[i].seqNo, Project(Raw(p)[i].original).value) in Rows(p)
  {
    hide Rows, Prompt;
    RowShapes(p);
    assert i > 0 ==> Rows(p)[i - 1] in Rows(p);
  }

  /** No fact of another kind. */
  lemma RowShapes(p: nat)
    ensures forall i :: 0 <= i < |Rows(p)| ==> !Rows(p)[i].payload.OtherFact? && Projects(p, Rows(p)[i])
  {
    hide Sum, Tag;
  }

  predicate Projects(p: nat, row: Row) { Project(Original(p, row)) == Some(row.payload) }

  lemma Published()
    ensures NothingWithheld(Facts(4), Originals(4))
  {
    hide Raw, Facts, Rows, Project, Originals;
    FactNumbers(4);
    var raw := Originals(4);
    forall i | 0 <= i < |raw| && Project(raw[i].original).Some?
      ensures Row(raw[i].seqNo, Project(raw[i].original).value) in Facts(4)
    {
      assert raw[i] in raw;
      var p := OriginalOf(4, raw[i]);
      var j :| 0 <= j < |Raw(p)| && Raw(p)[j] == raw[i];
      Public(p, j);
    }
  }

  lemma {:induction false} BetweenConcat(x: seq<Row>, y: seq<Row>, first: int, last: int)
    ensures Between(x + y, first, last) == Between(x, first, last) + Between(y, first, last)
  {
    if x == [] {
      assert x + y == y;
    } else {
      assert (x + y)[1..] == x[1..] + y;
      BetweenConcat(x[1..], y, first, last);
    }
  }

  lemma {:induction false} FactsOf(n: nat, p: nat)
    requires p < n
    ensures Between(Facts(n), 10 * p + 1, 10 * p + 9) == Rows(p)
  {
    hide Rows, Between;
    RowNumbers(n - 1);
    FactNumbers(n - 1);
    BetweenConcat(Facts(n - 1), Rows(n - 1), 10 * p + 1, 10 * p + 9);
    if p == n - 1 {
      CampaignGuarantees.NothingBetween(Facts(n - 1), 10 * p + 1, 10 * p + 9);
      CampaignGuarantees.AllBetween(Rows(p), 10 * p + 1, 10 * p + 9);
    } else {
      CampaignGuarantees.NothingBetween(Rows(n - 1), 10 * p + 1, 10 * p + 9);
      FactsOf(n - 1, p);
    }
  }

  // ----- the phases in order ------------------------------------------------

  lemma Exchanges(p: nat)
    requires p < 4
    ensures HeaderOk(ExampleHashes(), Phases(), p)
  {
    hide Prompt;
    assert Phases()[p] == PhaseOf(p) && (p > 0 ==> Phases()[p - 1] == PhaseOf(p - 1));
  }

  lemma Named()
    ensures Flattened(Example()) && DistinctPhases(Example())
  {
    hide Facts, Phases, Events;
  }

  lemma {:induction false} TextsConcat(x: seq<PrivateRow>, y: seq<PrivateRow>, first: int, last: int)
    ensures UserTexts(x + y, first, last) == UserTexts(x, first, last) + UserTexts(y, first, last)
  {
    if x == [] {
      assert x + y == y;
    } else {
      assert (x + y)[1..] == x[1..] + y;
      TextsConcat(x[1..], y, first, last);
    }
  }

  lemma {:induction false} NoTexts(raw: seq<PrivateRow>, first: int, last: int)
    requires forall i :: 0 <= i < |raw| ==> !(first <= raw[i].seqNo <= last && raw[i].original.UserMessage?)
    ensures UserTexts(raw, first, last) == []
  {
    if raw != [] { NoTexts(raw[1..], first, last); }
  }

  lemma OneText(p: nat)
    requires p < 4
    ensures UserTexts(Raw(p), 10 * p + 1, 10 * p + 9) == [Prompt(p)]
  {
    hide Rows, Prompt;
    RowShapes(p);
    NoTexts(Raw(p)[1..], 10 * p + 1, 10 * p + 9);
  }

  lemma {:induction false} TextsOf(n: nat, p: nat)
    requires p < n <= 4
    ensures UserTexts(Originals(n), 10 * p + 1, 10 * p + 9) == [Prompt(p)]
  {
    hide Raw, UserTexts, Prompt;
    RawNumbers(n - 1);
    OriginalNumbers(n - 1);
    TextsConcat(Originals(n - 1), Raw(n - 1), 10 * p + 1, 10 * p + 9);
    if p == n - 1 {
      NoTexts(Originals(n - 1), 10 * p + 1, 10 * p + 9);
      OneText(p);
    } else {
      NoTexts(Raw(n - 1), 10 * p + 1, 10 * p + 9);
      TextsOf(n - 1, p);
    }
  }

  lemma CallInOrder(p: nat)
    ensures RowOk(ExampleHashes(), Rows(p), 0, p, PhaseOf(p)) && RowOk(ExampleHashes(), Rows(p), 3, p, PhaseOf(p))
  {
    hide Sum, Tag;
  }

  lemma PreparationInOrder(p: nat)
    ensures RowOk(ExampleHashes(), Rows(p), 1, p, PhaseOf(p))
  {
    hide Sum, Tag;
    var rows := Rows(p);
    assert CalledBy(rows, 1, Preparation(p), 0, 0, rows[0].payload.calls[0]);
  }

  lemma ResultInOrder(p: nat)
    ensures RowOk(ExampleHashes(), Rows(p), 2, p, PhaseOf(p))
  {
    hide Sum, Tag;
    var h, rows := ExampleHashes(), Rows(p);
    assert PreparedBy(h, rows, 2, rows[2].payload, 1);
  }

  lemma RowsInOrder(p: nat)
    ensures RowsOk(ExampleHashes(), Rows(p), p, PhaseOf(p))
  {
    CallInOrder(p);
    PreparationInOrder(p);
    ResultInOrder(p);
    hide Sum, Tag, ExampleHashes, PhaseOf;
  }

  // ----- the ends of the phases ---------------------------------------------

  lemma Parts(p: nat)
    ensures |Rows(p)| >= 4 && Rows(p)[0] == Asks(p) && Rows(p)[1] == Prepares(p)
    ensures Rows(p)[2] == Answers(p) && Rows(p)[3] == Replies(p)
    ensures p != 1 ==> |Rows(p)| == 5 && Rows(p)[4] == Completes(p)
    ensures p == 1 ==> |Rows(p)| == 4
  {
    hide Asks, Prepares, Answers, Replies, Completes;
  }

  lemma Keys(p: nat)
    ensures KeySet(ExampleHashes(), Rows(p)) == {Tag(p)}
  {
    hide Rows, ResultKeys, Tag, Sum;
    var h, rows := ExampleHashes(), Rows(p);
    Parts(p);
    forall key ensures key in ResultKeys(h, rows) <==> key == Tag(p) {
      CampaignGuarantees.ResultKeysMean(h, rows, key);
      assert key == Tag(p) ==> ResultAt(h, rows, 2, key);
    }
  }

  lemma Settled(p: nat)
    ensures AllSettled(ExampleHashes(), Rows(p))
  {
    hide Rows, KeySet, Tag, Sum;
    var h, rows := ExampleHashes(), Rows(p);
    Parts(p);
    Keys(p);
    assert PreparedAt(h, rows, 1, Tag(p));
    assert PreparedBefore(h, rows, |rows|, Tag(p));
  }

  lemma Reply(p: nat)
    ensures LastModel(Rows(p)) == 3 && ReplyOk(Rows(p))
  {
    hide Rows, LastModel;
    Parts(p);
  }

  lemma {:induction false} NoCompletions(rows: seq<Row>)
    requires forall i :: 0 <= i < |rows| ==> !rows[i].payload.TurnComplete?
    ensures Completions(rows) == []
  {
    if rows != [] { NoCompletions(rows[..|rows| - 1]); }
  }

  lemma Completion(p: nat)
    ensures Completions(Rows(p)) == if p == 1 then [] else [Completes(p)]
  {
    hide Rows;
    Parts(p);
    if p == 1 {
      NoCompletions(Rows(p));
    } else {
      NoCompletions(Rows(p)[..4]);
    }
  }

  lemma {:induction false} Unchanged(rows: seq<Row>)
    requires forall i :: 0 <= i < |rows| && rows[i].payload.ToolResult? ==> rows[i].payload.effects.changes == []
    ensures Changes(rows) == []
  {
    if rows != [] { Unchanged(rows[..|rows| - 1]); }
  }

  lemma NoChanges(p: nat)
    ensures Changes(Rows(p)) == []
  {
    hide Rows;
    Parts(p);
    Unchanged(Rows(p));
  }

  /** The one checker run of a phase is its last. */
  lemma Checked(p: nat)
    ensures LastCheck(ExampleHashes(), Rows(p), Passing(p), 2)
  {
    hide Rows, Tag, Sum;
    var h, rows := ExampleHashes(), Rows(p);
    Parts(p);
    assert PreparedBy(h, rows, 2, rows[2].payload, 1);
    assert CalledBy(rows, 1, rows[1].payload.item, 0, 0, rows[0].payload.calls[0]);
  }

  lemma Shown(p: nat, raw: seq<PrivateRow>)
    requires p < 4 && forall r :: r in Raw(p) ==> r in raw
    ensures WireShows(raw, 10 * p + 4, !Passing(p), if Passing(p) then PASS else FAIL)
    ensures !Passing(p) ==> ReplyQuotesFailure(raw, 10 * p + 5)
  {
    hide Rows, Prompt, Tag, Sum;
    Parts(p);
    var r, reply := Raw(p)[3], Raw(p)[4];
    assert r in Raw(p) && reply in Raw(p);
    var i :| 0 <= i < |raw| && raw[i] == r;
    var j :| 0 <= j < |raw| && raw[j] == reply;
  }

  lemma CarriedKeys(p: nat)
    requires p < 4
    ensures Carried(ExampleHashes(), Example(), p) == set key | key in ReceiptsOf(p)
    ensures |ReceiptsOf(p)| == |Carried(ExampleHashes(), Example(), p)|
    ensures ChangesSince(Example(), p) == []
  {
    hide Rows, Facts, KeySet, Between, Changes, Tag;
    FactsOf(4, p);
    FactsOf(4, 1);
    Keys(p);
    Keys(1);
    NoChanges(p);
    NoChanges(1);
  }

  lemma FailedEnd(p: nat, raw: seq<PrivateRow>)
    requires p == 1 && forall r :: r in Raw(p) ==> r in raw
    ensures ReplyOk(Rows(p)) && UnverifiedOk(ExampleHashes(), raw, Rows(p))
  {
    hide Rows, LastModel, Completions, WireShows, ReplyQuotesFailure, LastCheck, Raw, Tag, Sum;
    Parts(p);
    Reply(p);
    Completion(p);
    Checked(p);
    Shown(p, raw);
  }

  ghost predicate EndsVerified(h: Hashes, raw: seq<PrivateRow>, rows: seq<Row>) {
    && ReplyOk(rows) && |Completions(rows)| == 1 && Completions(rows)[0].payload.TurnComplete?
    && VerifiedOk(h, raw, rows, [])
  }

  lemma VerifiedEnd(p: nat, raw: seq<PrivateRow>)
    requires 2 <= p < 4 && forall r :: r in Raw(p) ==> r in raw
    ensures EndsVerified(ExampleHashes(), raw, Rows(p))
  {
    hide Rows, LastModel, Completions, WireShows, LastCheck, Raw, Tag, Sum;
    Parts(p);
    Reply(p);
    Completion(p);
    Checked(p);
    Shown(p, raw);
    assert Sort([]) == [];
  }

  lemma Ends(p: nat, raw: seq<PrivateRow>)
    requires p < 4 && forall r :: r in Raw(p) ==> r in raw
    ensures CloseOk(ExampleHashes(), raw, Rows(p), p, Carried(ExampleHashes(), Example(), p), [])
  {
    hide Rows, LastModel, Completions, AllSettled, VerifiedOk, UnverifiedOk, Carried, Tag, Sum, Example, Raw;
    Settled(p);
    Reply(p);
    Parts(p);
    Completion(p);
    CarriedKeys(p);
    if p == 1 { FailedEnd(p, raw); }
    if p >= 2 { VerifiedEnd(p, raw); }
  }

  lemma PhaseInOrder(p: nat)
    requires p < 4
    ensures PhaseOk(ExampleHashes(), Example(), Originals(4), p)
  {
    hide Rows, HeaderOk, UserTexts, RowsOk, CloseOk, Prompt, Raw, Facts, Originals, Between, ExampleHashes, ChangesSince,
         Carried;
    Exchanges(p);
    TextsOf(4, p);
    FactsOf(4, p);
    RowsInOrder(p);
    CarriedKeys(p);
    forall r | r in Raw(p) ensures r in Originals(4) { OriginalsHold(4, p, r); }
    Ends(p, Originals(4));
  }

  /** There is a campaign in order. */
  lemma AuditedExists() returns (h: Hashes, a: Artifact, raw: seq<PrivateRow>)
    ensures Audited(h, a, raw)
  {
    hide PhaseOk, Facts, Originals, Flattened, DistinctPhases, Increasing, IncreasingPrivate, NothingWithheld, Rows;
    h, a, raw := ExampleHashes(), Example(), Originals(4);
    Named();
    FactNumbers(4);
    OriginalNumbers(4);
    Published();
    Everywhere();
    forall p | 0 <= p < 4 ensures PhaseOk(h, a, raw, p) { PhaseInOrder(p); }
  }

  lemma Everywhere()
    ensures Covered(Example())
  {
    hide Facts;
    forall i | 0 <= i < |Facts(4)| ensures InSomePhase(Phases(), Facts(4)[i].seqNo) {
      var p := FactOf(4, Facts(4)[i]);
      assert Phases()[p] == PhaseOf(p);
    }
  }

  lemma {:induction false} FactOf(n: nat, r: Row) returns (p: nat)
    requires r in Facts(n)
    ensures p < n && 10 * p + 1 <= r.seqNo <= 10 * p + 9
  {
    hide Rows;
    if r in Rows(n - 1) {
      RowNumbers(n - 1);
      p := n - 1;
    } else {
      p := FactOf(n - 1, r);
    }
  }
}
