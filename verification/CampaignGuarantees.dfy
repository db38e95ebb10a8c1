/** What an accepted coding campaign guarantees: its facts split into the four
    phases, tool calls, preparations and results correspond one to one, the
    completions account for every receipt once, and a verified completion names
    the workspace its changes leave behind. */
module CampaignGuarantees {
  import opened Text
  import opened EffectEncoding
  import opened CodingFacts
  import opened FactAudit
  import opened CampaignAudit

  // ----- phases partition the facts ----------------------------------------

  ghost predicate OrderedRanges(phases: seq<Phase>) {
    && (forall p :: 0 <= p < |phases| ==> phases[p].first <= phases[p].last)
    && (forall p, q :: 0 <= p < q < |phases| ==> phases[p].last < phases[q].first)
  }

  lemma RangesOrdered(h: Hashes, a: Artifact)
    requires |a.phases| == 4 && forall p :: 0 <= p < 4 ==> HeaderOk(h, a.phases, p)
    ensures OrderedRanges(a.phases)
  {
    hide ExchangeOk;
    assert HeaderOk(h, a.phases, 0) && HeaderOk(h, a.phases, 1) && HeaderOk(h, a.phases, 2) && HeaderOk(h, a.phases, 3);
  }

  lemma {:induction false} NothingBetween(facts: seq<Row>, first: int, last: int)
    requires forall i :: 0 <= i < |facts| ==> !(first <= facts[i].seqNo <= last)
    ensures Between(facts, first, last) == []
  {
    if facts != [] {
      NothingBetween(facts[1..], first, last);
    }
  }

  lemma {:induction false} AllBetween(facts: seq<Row>, first: int, last: int)
    requires forall i :: 0 <= i < |facts| ==> first <= facts[i].seqNo <= last
    ensures Between(facts, first, last) == facts
  {
    if facts != [] {
      AllBetween(facts[1..], first, last);
    }
  }

  /** Two ranges with no fact in the gap join. */
  lemma {:induction false} JoinRanges(facts: seq<Row>, first: int, last: int, first': int, last': int)
    requires Increasing(facts) && first <= last < first' <= last'
    requires forall i :: 0 <= i < |facts| ==> !(last < facts[i].seqNo < first')
    ensures Between(facts, first, last) + Between(facts, first', last') == Between(facts, first, last')
  {
    hide Between;
    BetweenFirst(facts, first, last);
    BetweenFirst(facts, first', last');
    BetweenFirst(facts, first, last');
    if facts != [] {
      var rest := facts[1..];
      JoinRanges(rest, first, last, first', last');
      if first' <= facts[0].seqNo {
        NothingBetween(rest, first, last);
      }
    }
  }

  lemma BetweenFirst(facts: seq<Row>, first: int, last: int)
    ensures Between(facts, first, last)
            == if facts == [] then []
               else (if first <= facts[0].seqNo <= last then [facts[0]] else []) + Between(facts[1..], first, last)
  {
  }

  lemma NoFactInGap(a: Artifact, p: nat)
    requires |a.phases| == 4 && OrderedRanges(a.phases) && Covered(a) && p < 3
    ensures forall i :: 0 <= i < |a.facts| ==> !(a.phases[p].last < a.facts[i].seqNo < a.phases[p + 1].first)
  {
    forall i | 0 <= i < |a.facts| ensures !(a.phases[p].last < a.facts[i].seqNo < a.phases[p + 1].first) {
      assert InSomePhase(a.phases, a.facts[i].seqNo);
      var q :| 0 <= q < 4 && a.phases[q].first <= a.facts[i].seqNo <= a.phases[q].last;
    }
  }

  lemma RangesPartition(a: Artifact)
    requires |a.phases| == 4 && OrderedRanges(a.phases) && Covered(a) && Increasing(a.facts)
    ensures a.facts == RowsOf(a, 0) + RowsOf(a, 1) + RowsOf(a, 2) + RowsOf(a, 3)
  {
    hide Between, Increasing;
    var f, s := a.facts, a.phases;
    assert forall i :: 0 <= i < |f| ==> InSomePhase(s, f[i].seqNo);
    AllBetween(f, s[0].first, s[3].last);
    hide Covered, InSomePhase;
    NoFactInGap(a, 0);
    NoFactInGap(a, 1);
    NoFactInGap(a, 2);
    JoinRanges(f, s[0].first, s[0].last, s[1].first, s[1].last);
    JoinRanges(f, s[0].first, s[1].last, s[2].first, s[2].last);
    JoinRanges(f, s[0].first, s[2].last, s[3].first, s[3].last);
  }

  /** Every public fact belongs to exactly one phase, and the phases follow each other. */
  lemma PhasesPartitionFacts(h: Hashes, a: Artifact, raw: seq<PrivateRow>)
    requires Audited(h, a, raw)
    ensures a.facts == RowsOf(a, 0) + RowsOf(a, 1) + RowsOf(a, 2) + RowsOf(a, 3)
    ensures forall p: nat, q: nat, x, y :: p < q < 4 && x in RowsOf(a, p) && y in RowsOf(a, q) ==> x.seqNo < y.seqNo
  {
    hide InputOk, RowsOk, CloseOk, NothingWithheld, HeaderOk, Between;
    assert PhaseOk(h, a, raw, 0) && PhaseOk(h, a, raw, 1) && PhaseOk(h, a, raw, 2) && PhaseOk(h, a, raw, 3);
    RangesOrdered(h, a);
    RangesPartition(a);
    forall p: nat, q: nat, x, y | p < q < 4 && x in RowsOf(a, p) && y in RowsOf(a, q) ensures x.seqNo < y.seqNo {
      BetweenMembers(a.facts, a.phases[p].first, a.phases[p].last, x);
      BetweenMembers(a.facts, a.phases[q].first, a.phases[q].last, y);
    }
  }

  // ----- calls, preparations and results -----------------------------------

  /** Call ids are unique within a phase. */
  lemma OneCallPerId(h: Hashes, rows: seq<Row>, index: nat, phase: Phase, i: int, k: int, c: Call, j: int, l: int, d: Call)
    requires RowsOk(h, rows, index, phase)
    requires CallAt(rows, i, k, c) && CallAt(rows, j, l, d) && c.id == d.id
    ensures i == j && k == l
  {
    hide IdentityOk, PreparedOk, EffectsOk;
    assert RowOk(h, rows, i, index, phase) && RowOk(h, rows, j, index, phase);
    assert i < j || (i == j && k < l) ==> CallRepeats(rows, j, l, d.id);
    assert j < i || (i == j && l < k) ==> CallRepeats(rows, i, k, c.id);
  }

  /** A preparation answers exactly one model call of its phase, an earlier one. */
  lemma PreparationAnswersOneCall(h: Hashes, rows: seq<Row>, index: nat, phase: Phase, n: nat)
    returns (i: int, k: int, c: Call)
    requires RowsOk(h, rows, index, phase) && n < |rows| && rows[n].payload.ToolPrepared?
    ensures CalledBy(rows, n, rows[n].payload.item, i, k, c)
    ensures forall j, l, d :: CallAt(rows, j, l, d) && d.id == rows[n].payload.item.identity.callId ==> j == i && l == k
  {
    hide IdentityOk, PreparedOk, EffectsOk;
    assert RowOk(h, rows, n, index, phase);
    i, k, c :| CalledBy(rows, n, rows[n].payload.item, i, k, c);
    forall j, l, d | CallAt(rows, j, l, d) && d.id == rows[n].payload.item.identity.callId ensures j == i && l == k {
      OneCallPerId(h, rows, index, phase, i, k, c, j, l, d);
    }
  }

  lemma OnePreparationPerKey(h: Hashes, rows: seq<Row>, index: nat, phase: Phase, i: int, j: int, key: string)
    requires RowsOk(h, rows, index, phase) && PreparedAt(h, rows, i, key) && PreparedAt(h, rows, j, key)
    ensures i == j
  {
    hide IdentityOk, PreparedOk, EffectsOk;
    assert RowOk(h, rows, i, index, phase) && RowOk(h, rows, j, index, phase);
    assert i < j ==> PreparedBefore(h, rows, j, key);
    assert j < i ==> PreparedBefore(h, rows, i, key);
  }

  lemma OneResultPerKey(h: Hashes, rows: seq<Row>, index: nat, phase: Phase, i: int, j: int, key: string)
    requires RowsOk(h, rows, index, phase) && ResultAt(h, rows, i, key) && ResultAt(h, rows, j, key)
    ensures i == j
  {
    hide IdentityOk, PreparedOk, EffectsOk;
    assert RowOk(h, rows, i, index, phase) && RowOk(h, rows, j, index, phase);
    assert i < j ==> ResultBefore(h, rows, j, key);
    assert j < i ==> ResultBefore(h, rows, i, key);
  }

  /** A result answers exactly one preparation of its phase, an earlier one bound by its digest. */
  lemma ResultAnswersOnePreparation(h: Hashes, rows: seq<Row>, index: nat, phase: Phase, n: nat) returns (i: int)
    requires RowsOk(h, rows, index, phase) && n < |rows| && rows[n].payload.ToolResult?
    ensures PreparedBy(h, rows, n, rows[n].payload, i)
    ensures forall j :: PreparedAt(h, rows, j, h.invocation(rows[n].payload.identity)) ==> j == i
  {
    hide IdentityOk, PreparedOk, EffectsOk;
    assert RowOk(h, rows, n, index, phase);
    i :| PreparedBy(h, rows, n, rows[n].payload, i);
    var key := h.invocation(rows[n].payload.identity);
    forall j | PreparedAt(h, rows, j, key) ensures j == i {
      OnePreparationPerKey(h, rows, index, phase, i, j, key);
    }
  }

  lemma {:induction false} ResultKeysMean(h: Hashes, rows: seq<Row>, key: string)
    ensures key in ResultKeys(h, rows) <==> exists i :: ResultAt(h, rows, i, key)
    decreases |rows|
  {
    if rows != [] {
      var init, n := rows[..|rows| - 1], |rows| - 1;
      ResultKeysMean(h, init, key);
      if i :| ResultAt(h, init, i, key) { assert ResultAt(h, rows, i, key); }
      if i :| ResultAt(h, rows, i, key) { assert i < n ==> ResultAt(h, init, i, key); }
      if rows[n].payload.ToolResult? && h.invocation(rows[n].payload.identity) == key {
        assert ResultAt(h, rows, n, key);
      }
    }
  }

  /** In a settled phase a preparation has exactly one result, a later one. */
  lemma PreparationHasOneResult(h: Hashes, rows: seq<Row>, index: nat, phase: Phase, n: nat) returns (m: int)
    requires RowsOk(h, rows, index, phase) && AllSettled(h, rows) && n < |rows| && rows[n].payload.ToolPrepared?
    ensures n < m && ResultAt(h, rows, m, h.invocation(rows[n].payload.item.identity))
    ensures PreparedBy(h, rows, m, rows[m].payload, n)
    ensures forall j :: ResultAt(h, rows, j, h.invocation(rows[n].payload.item.identity)) ==> j == m
  {
    hide RowOk, RowsOk, ResultKeys;
    var key := h.invocation(rows[n].payload.item.identity);
    assert PreparedAt(h, rows, n, key);
    assert PreparedBefore(h, rows, |rows|, key);
    ResultKeysMean(h, rows, key);
    m :| ResultAt(h, rows, m, key);
    var i := ResultAnswersOnePreparation(h, rows, index, phase, m);
    forall j | ResultAt(h, rows, j, key) ensures j == m {
      OneResultPerKey(h, rows, index, phase, j, m, key);
    }
  }

  // ----- receipts -----------------------------------------------------------

  lemma {:induction false} ResultKeysConcat(h: Hashes, x: seq<Row>, y: seq<Row>)
    ensures ResultKeys(h, x + y) == ResultKeys(h, x) + ResultKeys(h, y)
    decreases |y|
  {
    if y == [] {
      assert x + y == x;
    } else {
      assert (x + y)[..|x + y| - 1] == x + y[..|y| - 1];
      ResultKeysConcat(h, x, y[..|y| - 1]);
    }
  }

  lemma {:induction false} ResultKeysDistinct(h: Hashes, rows: seq<Row>, n: nat, index: nat, phase: Phase)
    requires RowsOk(h, rows, index, phase) && n <= |rows|
    ensures |KeySet(h, rows[..n])| == |ResultKeys(h, rows[..n])|
    decreases n
  {
    hide RowsOk, RowOk;
    if n > 0 {
      ResultKeysDistinct(h, rows, n - 1, index, phase);
      ResultKeysNext(h, rows, n - 1);
      var last, init := rows[n - 1].payload, rows[..n - 1];
      if last.ToolResult? {
        var key := h.invocation(last.identity);
        ResultKeysMean(h, init, key);
        if i :| ResultAt(h, init, i, key) {
          assert ResultAt(h, rows, i, key) && ResultAt(h, rows, n - 1, key);
          OneResultPerKey(h, rows, index, phase, i, n - 1, key);
        }
        assert KeySet(h, rows[..n]) == KeySet(h, init) + {key};
      } else {
        assert KeySet(h, rows[..n]) == KeySet(h, init);
      }
    }
  }

  ghost predicate Injective(f: Identity -> string) { forall x, y :: f(x) == f(y) ==> x == y }

  /** A receipt key carries the run id of its phase. */
  lemma KeyHasRunId(h: Hashes, rows: seq<Row>, index: nat, phase: Phase, key: string) returns (id: Identity)
    requires RowsOk(h, rows, index, phase) && key in KeySet(h, rows)
    ensures h.invocation(id) == key && id.runId == phase.runId
  {
    hide RowsOk, ResultKeys;
    ResultKeysMean(h, rows, key);
    var m :| ResultAt(h, rows, m, key);
    var i := ResultAnswersOnePreparation(h, rows, index, phase, m);
    assert RowOk(h, rows, i, index, phase) by { PhaseRow(h, rows, index, phase, i); }
    id := rows[i].payload.item.identity;
  }

  lemma PhaseRow(h: Hashes, rows: seq<Row>, index: nat, phase: Phase, i: int)
    requires RowsOk(h, rows, index, phase) && 0 <= i < |rows|
    ensures RowOk(h, rows, i, index, phase)
  {
  }

  lemma PhaseKeysDisjoint(h: Hashes, a: Artifact, raw: seq<PrivateRow>, p: nat, q: nat)
    requires Audited(h, a, raw) && Injective(h.invocation) && p < q < 4
    ensures KeySet(h, RowsOf(a, p)) !! KeySet(h, RowsOf(a, q))
  {
    hide RowsOk, KeySet, CloseOk, HeaderOk, InputOk, NothingWithheld, Covered;
    assert PhaseOk(h, a, raw, p) && PhaseOk(h, a, raw, q);
    forall key | key in KeySet(h, RowsOf(a, p)) && key in KeySet(h, RowsOf(a, q)) ensures false {
      var x := KeyHasRunId(h, RowsOf(a, p), p, a.phases[p], key);
      var y := KeyHasRunId(h, RowsOf(a, q), q, a.phases[q], key);
    }
  }

  /** The receipt keys named by the completion of phase `p`. */
  function Receipts(a: Artifact, p: nat): seq<string> {
    var done := Completions(RowsOf(a, p));
    if done != [] && done[0].payload.TurnComplete? then done[0].payload.receiptKeys else []
  }

  lemma CompletionCarries(h: Hashes, a: Artifact, raw: seq<PrivateRow>, p: nat)
    requires Audited(h, a, raw) && p < 4 && p != 1
    ensures (set key | key in Receipts(a, p)) == Carried(h, a, p) && |Receipts(a, p)| == |Carried(h, a, p)|
  {
    hide RowsOk, HeaderOk, InputOk, NothingWithheld, Covered, Carried, NarrativeOk, VerifiedOk, AllSettled;
    assert PhaseOk(h, a, raw, p);
  }

  lemma PhaseKeyCount(h: Hashes, a: Artifact, raw: seq<PrivateRow>, p: nat)
    requires Audited(h, a, raw) && p < 4
    ensures |KeySet(h, RowsOf(a, p))| == |ResultKeys(h, RowsOf(a, p))|
  {
    hide RowsOk, HeaderOk, InputOk, NothingWithheld, Covered, CloseOk, KeySet, ResultKeys, Between;
    assert PhaseOk(h, a, raw, p);
    var rows := RowsOf(a, p);
    ResultKeysDistinct(h, rows, |rows|, p, a.phases[p]);
    assert rows[..|rows|] == rows;
  }

  lemma FactKeys(h: Hashes, a: Artifact, raw: seq<PrivateRow>)
    requires Audited(h, a, raw)
    ensures ResultKeys(h, a.facts) == ResultKeys(h, RowsOf(a, 0)) + ResultKeys(h, RowsOf(a, 1))
                                      + ResultKeys(h, RowsOf(a, 2)) + ResultKeys(h, RowsOf(a, 3))
    ensures KeySet(h, a.facts) == KeySet(h, RowsOf(a, 0)) + KeySet(h, RowsOf(a, 1)) + KeySet(h, RowsOf(a, 2))
                                  + KeySet(h, RowsOf(a, 3))
  {
    hide Audited, ResultKeys, KeySet, RowsOf;
    PhasesPartitionFacts(h, a, raw);
    var r0, r1, r2, r3 := RowsOf(a, 0), RowsOf(a, 1), RowsOf(a, 2), RowsOf(a, 3);
    KeysConcat(h, r0 + r1 + r2, r3);
    KeysConcat(h, r0 + r1, r2);
    KeysConcat(h, r0, r1);
  }

  lemma KeysConcat(h: Hashes, x: seq<Row>, y: seq<Row>)
    ensures ResultKeys(h, x + y) == ResultKeys(h, x) + ResultKeys(h, y)
    ensures KeySet(h, x + y) == KeySet(h, x) + KeySet(h, y)
  {
    hide ResultKeys;
    ResultKeysConcat(h, x, y);
  }

  /** The audit's count is the number of result facts. */
  lemma ReceiptsAreResults(h: Hashes, a: Artifact, raw: seq<PrivateRow>)
    requires Audited(h, a, raw)
    ensures ResultCount(h, a, 4) == |ResultKeys(h, a.facts)|
  {
    hide Audited, ResultKeys, RowsOf;
    FactKeys(h, a, raw);
    CountStep(h, a, 0);
    CountStep(h, a, 1);
    CountStep(h, a, 2);
    CountStep(h, a, 3);
  }

  lemma CountStep(h: Hashes, a: Artifact, p: nat)
    ensures ResultCount(h, a, p + 1) == ResultCount(h, a, p) + |ResultKeys(h, RowsOf(a, p))|
    ensures ResultCount(h, a, 0) == 0
  {
  }

  /** The three completions answer for every receipt of the campaign, each once;
      the unfinished second phase is answered for by the third. */
  lemma CompletionsPartitionReceipts(h: Hashes, a: Artifact, raw: seq<PrivateRow>)
    requires Audited(h, a, raw) && Injective(h.invocation)
    ensures Receipts(a, 1) == []
    ensures forall key :: key in Receipts(a, 0) + Receipts(a, 2) + Receipts(a, 3) <==> key in ResultKeys(h, a.facts)
    ensures forall key :: !(key in Receipts(a, 0) && key in Receipts(a, 2))
                          && !(key in Receipts(a, 0) && key in Receipts(a, 3))
                          && !(key in Receipts(a, 2) && key in Receipts(a, 3))
    ensures |Receipts(a, 0)| + |Receipts(a, 2)| + |Receipts(a, 3)| == |ResultKeys(h, a.facts)|
  {
    hide Audited, ResultKeys, RowsOf, Receipts, KeySet, Injective;
    NoCompletion(h, a, raw);
    FactKeys(h, a, raw);
    AllPhaseKeys(h, a, raw);
    AllCompletions(h, a, raw);
    ReceiptArithmetic(KeySet(h, RowsOf(a, 0)), KeySet(h, RowsOf(a, 1)), KeySet(h, RowsOf(a, 2)),
                      KeySet(h, RowsOf(a, 3)), Receipts(a, 0), Receipts(a, 2), Receipts(a, 3));
    forall key ensures key in ResultKeys(h, a.facts) <==> key in KeySet(h, a.facts) {
      InKeySet(h, a.facts, key);
    }
  }

  lemma AllPhaseKeys(h: Hashes, a: Artifact, raw: seq<PrivateRow>)
    requires Audited(h, a, raw) && Injective(h.invocation)
    ensures var k0, k1, k2, k3 := KeySet(h, RowsOf(a, 0)), KeySet(h, RowsOf(a, 1)), KeySet(h, RowsOf(a, 2)),
                                  KeySet(h, RowsOf(a, 3));
            && k0 !! k1 && k0 !! k2 && k0 !! k3 && k1 !! k2 && k1 !! k3 && k2 !! k3
            && |k0| == |ResultKeys(h, RowsOf(a, 0))| && |k1| == |ResultKeys(h, RowsOf(a, 1))|
            && |k2| == |ResultKeys(h, RowsOf(a, 2))| && |k3| == |ResultKeys(h, RowsOf(a, 3))|
  {
    hide Audited, ResultKeys, RowsOf, KeySet, Injective;
    PhaseKeyCount(h, a, raw, 0);
    PhaseKeyCount(h, a, raw, 1);
    PhaseKeyCount(h, a, raw, 2);
    PhaseKeyCount(h, a, raw, 3);
    PhaseKeysDisjoint(h, a, raw, 0, 1);
    PhaseKeysDisjoint(h, a, raw, 0, 2);
    PhaseKeysDisjoint(h, a, raw, 0, 3);
    PhaseKeysDisjoint(h, a, raw, 1, 2);
    PhaseKeysDisjoint(h, a, raw, 1, 3);
    PhaseKeysDisjoint(h, a, raw, 2, 3);
  }

  lemma AllCompletions(h: Hashes, a: Artifact, raw: seq<PrivateRow>)
    requires Audited(h, a, raw)
    ensures var k0, k1, k2, k3 := KeySet(h, RowsOf(a, 0)), KeySet(h, RowsOf(a, 1)), KeySet(h, RowsOf(a, 2)),
                                  KeySet(h, RowsOf(a, 3));
            && (set key | key in Receipts(a, 0)) == k0 && |Receipts(a, 0)| == |k0|
            && (set key | key in Receipts(a, 2)) == k2 + k1 && |Receipts(a, 2)| == |k2 + k1|
            && (set key | key in Receipts(a, 3)) == k3 && |Receipts(a, 3)| == |k3|
  {
    hide Audited, Receipts, KeySet, RowsOf, Carried;
    CompletionCarries(h, a, raw, 0);
    CompletionCarries(h, a, raw, 2);
    CompletionCarries(h, a, raw, 3);
    CarriedSets(h, a);
  }

  lemma CarriedSets(h: Hashes, a: Artifact)
    ensures Carried(h, a, 0) == KeySet(h, RowsOf(a, 0)) && Carried(h, a, 3) == KeySet(h, RowsOf(a, 3))
    ensures Carried(h, a, 2) == KeySet(h, RowsOf(a, 2)) + KeySet(h, RowsOf(a, 1))
  {
    hide KeySet, RowsOf;
  }

  lemma InKeySet(h: Hashes, rows: seq<Row>, key: string)
    ensures key in KeySet(h, rows) <==> key in ResultKeys(h, rows)
  {
  }

  lemma NoCompletion(h: Hashes, a: Artifact, raw: seq<PrivateRow>)
    requires Audited(h, a, raw)
    ensures Receipts(a, 1) == []
  {
    hide RowsOk, HeaderOk, InputOk, NothingWithheld, Covered, LastCheck, AllSettled, Completions;
    assert PhaseOk(h, a, raw, 1);
  }

  lemma ReceiptArithmetic(k0: set<string>, k1: set<string>, k2: set<string>, k3: set<string>,
                          r0: seq<string>, r2: seq<string>, r3: seq<string>)
    requires k0 !! k1 && k0 !! k2 && k0 !! k3 && k1 !! k2 && k1 !! k3 && k2 !! k3
    requires (set key | key in r0) == k0 && (set key | key in r2) == k2 + k1 && (set key | key in r3) == k3
    requires |r0| == |k0| && |r2| == |k2 + k1| && |r3| == |k3|
    ensures forall key :: key in r0 + r2 + r3 <==> key in k0 + k1 + k2 + k3
    ensures forall key :: !(key in r0 && key in r2) && !(key in r0 && key in r3) && !(key in r2 && key in r3)
    ensures |r0| + |r2| + |r3| == |k0| + |k1| + |k2| + |k3|
  {
    forall key
      ensures (key in r0 <==> key in k0) && (key in r2 <==> key in k2 + k1) && (key in r3 <==> key in k3)
    {
      assert key in (set x | x in r0) <==> key in r0;
      assert key in (set x | x in r2) <==> key in r2;
      assert key in (set x | x in r3) <==> key in r3;
    }
  }

  // ----- verified completions name the workspace ---------------------------

  /** The digest a completion of phase `p` claims. */
  function ClaimedDigest(a: Artifact, p: nat): Option<string> {
    var done := Completions(RowsOf(a, p));
    if done != [] && done[0].payload.TurnComplete? then done[0].payload.completeDigest else None
  }

  lemma VerifiedDigest(h: Hashes, a: Artifact, raw: seq<PrivateRow>, p: nat)
    requires Audited(h, a, raw) && 2 <= p < 4
    ensures ClaimedDigest(a, p).Some? && ClaimedDigest(a, p) == EffectDigest(h, FoldChanges([], ChangesSince(a, p)))
  {
    hide RowsOk, HeaderOk, InputOk, NothingWithheld, Covered, LastCheck, AllSettled, EffectDigest, FoldChanges;
    assert PhaseOk(h, a, raw, p);
  }

  /** Without hash collisions, the digest of a verified completion belongs to one
      workspace only: for each path, what its last change since the previous
      completion left there. */
  lemma VerifiedCompletionNamesTheWorkspace(h: Hashes, a: Artifact, raw: seq<PrivateRow>, p: nat, files: seq<Item>)
    requires Audited(h, a, raw) && 2 <= p < 4
    requires forall x, y :: h.effect(x) == h.effect(y) ==> x == y
    requires DistinctPaths(files)
    ensures EffectDigest(h, files) == ClaimedDigest(a, p) <==>
              forall x :: x in files <==> LastChange(ChangesSince(a, p), x)
  {
    hide Audited, DistinctPaths, LastChange, ChangesSince, ClaimedDigest, FoldChanges, EffectDigest, Elements;
    var state := FoldChanges([], ChangesSince(a, p));
    VerifiedDigest(h, a, raw, p);
    FoldMeansLastChange(ChangesSince(a, p));
    DigestIffSameFiles(h, files, state);
    SameElements(files, state);
  }

  lemma SameElements(xs: seq<Item>, ys: seq<Item>)
    ensures Elements(xs) == Elements(ys) <==> forall x :: x in xs <==> x in ys
  {
    if Elements(xs) == Elements(ys) {
      forall x ensures x in xs <==> x in ys {
        assert (x in xs <==> x in Elements(xs)) && (x in ys <==> x in Elements(ys));
      }
    }
  }

  lemma DigestIffSameFiles(h: Hashes, xs: seq<Item>, ys: seq<Item>)
    requires forall x, y :: h.effect(x) == h.effect(y) ==> x == y
    requires DistinctPaths(xs) && DistinctPaths(ys) && EffectDigest(h, ys).Some?
    ensures EffectDigest(h, xs) == EffectDigest(h, ys) <==> Elements(xs) == Elements(ys)
  {
    hide EncodeItems, Header, Acceptable, Sorted;
    SortSorts(xs);
    SortSorts(ys);
    if Elements(xs) == Elements(ys) {
      SameAcceptance(Sort(xs), Sort(ys));
    }
    if AllAcceptable(Sort(xs)) {
      EncodingDeterminesState(xs, ys);
    }
  }
}
