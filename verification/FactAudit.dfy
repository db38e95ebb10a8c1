/** `verify_artifact` of scripts/verify_tui_coding_evidence.py: the audit loop with
    its dictionaries, proved to accept exactly the campaigns that are in order. */
module FactAudit {
  import opened Text
  import opened EffectEncoding
  import opened CodingFacts

  // ----- the dictionaries of one phase -------------------------------------

  datatype Seen = Seen(seqNo: int, call: Call)

  datatype Entry = Entry(seqNo: int, digest: string, item: Prepared, call: Call)

  /** `calls` holds the calls of the rows before `n` and the first `k` of row `n`. */
  ghost predicate CallsInv(rows: seq<Row>, n: int, k: int, calls: map<string, Seen>) {
    && (forall id :: id in calls ==>
          exists i, l :: CallAt(rows, i, l, calls[id].call) && (i < n || (i == n && l < k))
                         && calls[id].call.id == id && rows[i].seqNo == calls[id].seqNo)
    && (forall i, l, c :: CallAt(rows, i, l, c) && (i < n || (i == n && l < k)) ==>
          c.id in calls && calls[c.id] == Seen(rows[i].seqNo, c))
  }

  /** `entry` is what the loop stored for the preparation in row `i`. */
  ghost predicate EntryFor(h: Hashes, rows: seq<Row>, i: int, calls: map<string, Seen>, entry: Entry) {
    && 0 <= i < |rows| && rows[i].payload.ToolPrepared?
    && entry.item == rows[i].payload.item && entry.seqNo == rows[i].seqNo
    && entry.digest == h.prepared(entry.item)
    && entry.item.identity.callId in calls && entry.call == calls[entry.item.identity.callId].call
    && exists j, k :: CalledBy(rows, i, entry.item, j, k, entry.call)
  }

  /** `prepared` maps the key of every preparation before row `n` to its entry. */
  ghost predicate PreparedInv(h: Hashes, rows: seq<Row>, n: int, calls: map<string, Seen>,
                              prepared: map<string, Entry>) {
    && (forall key :: key in prepared ==>
          exists i :: i < n && PreparedAt(h, rows, i, key) && EntryFor(h, rows, i, calls, prepared[key]))
    && (forall i, key :: i < n && PreparedAt(h, rows, i, key) ==>
          key in prepared && EntryFor(h, rows, i, calls, prepared[key]))
  }

  ghost predicate ResultsInv(h: Hashes, rows: seq<Row>, n: int, results: set<string>) {
    && (forall key :: key in results ==> ResultBefore(h, rows, n, key))
    && (forall i, key :: i < n && ResultAt(h, rows, i, key) ==> key in results)
  }

  lemma RepeatsIffSeen(rows: seq<Row>, n: int, k: int, calls: map<string, Seen>, id: string)
    requires CallsInv(rows, n, k, calls)
    ensures CallRepeats(rows, n, k, id) <==> id in calls
  {
  }

  lemma CallsAdd(rows: seq<Row>, n: int, k: int, calls: map<string, Seen>, c: Call)
    requires CallsInv(rows, n, k, calls) && CallAt(rows, n, k, c) && c.id !in calls
    ensures CallsInv(rows, n, k + 1, calls[c.id := Seen(rows[n].seqNo, c)])
  {
    var calls' := calls[c.id := Seen(rows[n].seqNo, c)];
    forall id | id in calls'
      ensures exists i, l :: CallAt(rows, i, l, calls'[id].call) && (i < n || (i == n && l < k + 1))
                             && calls'[id].call.id == id && rows[i].seqNo == calls'[id].seqNo
    {
      if id == c.id {
        assert CallAt(rows, n, k, calls'[id].call);
      } else {
        var i, l :| CallAt(rows, i, l, calls[id].call) && (i < n || (i == n && l < k))
                    && calls[id].call.id == id && rows[i].seqNo == calls[id].seqNo;
        assert CallAt(rows, i, l, calls'[id].call);
      }
    }
  }

  lemma CallsNextRow(rows: seq<Row>, n: int, k: int, calls: map<string, Seen>)
    requires CallsInv(rows, n, k, calls) && 0 <= n < |rows|
    requires if rows[n].payload.ModelTurn? then k == |rows[n].payload.calls| else k == 0
    ensures CallsInv(rows, n + 1, 0, calls)
  {
  }

  /** The inner loop over the calls of a model turn. */
  method AddCalls(rows: seq<Row>, n: nat, calls0: map<string, Seen>) returns (r: Option<map<string, Seen>>)
    requires n < |rows| && rows[n].payload.ModelTurn? && CallsInv(rows, n, 0, calls0)
    ensures r.Some? <==> forall k :: 0 <= k < |rows[n].payload.calls|
                                     ==> !CallRepeats(rows, n, k, rows[n].payload.calls[k].id)
    ensures r.Some? ==> CallsInv(rows, n + 1, 0, r.value)
    ensures r.Some? ==> forall id :: id in calls0 ==> id in r.value && r.value[id] == calls0[id]
  {
    hide CallsInv, CallRepeats;
    var list := rows[n].payload.calls;
    var calls := calls0;
    for k := 0 to |list|
      invariant CallsInv(rows, n, k, calls)
      invariant forall j :: 0 <= j < k ==> !CallRepeats(rows, n, j, list[j].id)
      invariant forall id :: id in calls0 ==> id in calls && calls[id] == calls0[id]
    {
      RepeatsIffSeen(rows, n, k, calls, list[k].id);
      if list[k].id in calls {
        return None;
      }
      assert CallAt(rows, n, k, list[k]);
      CallsAdd(rows, n, k, calls, list[k]);
      calls := calls[list[k].id := Seen(rows[n].seqNo, list[k])];
    }
    CallsNextRow(rows, n, |list|, calls);
    return Some(calls);
  }

  // ----- preparations -------------------------------------------------------

  lemma CalledIffSeen(rows: seq<Row>, n: int, calls: map<string, Seen>, item: Prepared)
    requires CallsInv(rows, n, 0, calls)
    ensures (exists i, k, c :: CalledBy(rows, n, item, i, k, c)) <==>
              item.identity.callId in calls
              && calls[item.identity.callId].call.name == item.toolName
              && calls[item.identity.callId].call.argsDigest == item.originalArgs
    ensures forall i, k, c :: CalledBy(rows, n, item, i, k, c) ==>
              item.identity.callId in calls && calls[item.identity.callId] == Seen(rows[i].seqNo, c)
  {
    var id := item.identity.callId;
    if id in calls && calls[id].call.name == item.toolName && calls[id].call.argsDigest == item.originalArgs {
      var i, l :| CallAt(rows, i, l, calls[id].call) && (i < n || (i == n && l < 0))
                  && calls[id].call.id == id && rows[i].seqNo == calls[id].seqNo;
      assert CalledBy(rows, n, item, i, l, calls[id].call);
    }
  }

  lemma PreparedIffKnown(h: Hashes, rows: seq<Row>, n: int, calls: map<string, Seen>, prepared: map<string, Entry>,
                         key: string)
    requires PreparedInv(h, rows, n, calls, prepared)
    ensures PreparedBefore(h, rows, n, key) <==> key in prepared
  {
  }

  lemma PreparedAdd(h: Hashes, rows: seq<Row>, n: int, calls: map<string, Seen>, prepared: map<string, Entry>,
                    key: string, entry: Entry)
    requires PreparedInv(h, rows, n, calls, prepared) && PreparedAt(h, rows, n, key) && key !in prepared
    requires EntryFor(h, rows, n, calls, entry)
    ensures PreparedInv(h, rows, n + 1, calls, prepared[key := entry])
  {
    hide EntryFor;
    var p := prepared[key := entry];
    forall k | k in p
      ensures exists i :: i < n + 1 && PreparedAt(h, rows, i, k) && EntryFor(h, rows, i, calls, p[k])
    {
      if k == key {
        assert PreparedAt(h, rows, n, k) && EntryFor(h, rows, n, calls, p[k]);
      } else {
        var i :| i < n && PreparedAt(h, rows, i, k) && EntryFor(h, rows, i, calls, prepared[k]);
        assert EntryFor(h, rows, i, calls, p[k]);
      }
    }
  }

  lemma PreparedNextRow(h: Hashes, rows: seq<Row>, n: int, calls: map<string, Seen>, calls': map<string, Seen>,
                        prepared: map<string, Entry>)
    requires PreparedInv(h, rows, n, calls, prepared) && 0 <= n < |rows| && !rows[n].payload.ToolPrepared?
    requires forall id :: id in calls ==> id in calls' && calls'[id] == calls[id]
    ensures PreparedInv(h, rows, n + 1, calls', prepared)
  {
    forall i, entry | EntryFor(h, rows, i, calls, entry) ensures EntryFor(h, rows, i, calls', entry) {}
    hide EntryFor;
    forall key | key in prepared
      ensures exists i :: i < n + 1 && PreparedAt(h, rows, i, key) && EntryFor(h, rows, i, calls', prepared[key])
    {
      var i :| i < n && PreparedAt(h, rows, i, key) && EntryFor(h, rows, i, calls, prepared[key]);
      assert EntryFor(h, rows, i, calls', prepared[key]);
    }
  }

  /** The `tool.prepared` branch. */
  method AdmitPreparation(h: Hashes, rows: seq<Row>, n: nat, index: nat, phase: Phase,
                          calls: map<string, Seen>, prepared: map<string, Entry>)
    returns (r: Option<map<string, Entry>>)
    requires n < |rows| && rows[n].payload.ToolPrepared? && Increasing(rows)
    requires CallsInv(rows, n, 0, calls) && PreparedInv(h, rows, n, calls, prepared)
    ensures r.Some? <==> RowOk(h, rows, n, index, phase)
    ensures r.Some? ==> PreparedInv(h, rows, n + 1, calls, r.value)
    ensures r.Some? ==> r.value.Keys == prepared.Keys + {h.invocation(rows[n].payload.item.identity)}
  {
    hide CallsInv, PreparedInv, PreparedOk, EntryFor;
    var item := rows[n].payload.item;
    if !IdentityOk(item.identity) {
      return None;
    }
    if item.identity.runId != phase.runId || Some(item.identity.threadId) != phase.request.sessionId {
      return None;
    }
    var key := h.invocation(item.identity);
    PreparedIffKnown(h, rows, n, calls, prepared, key);
    if key in prepared {
      return None;
    }
    CalledIffSeen(rows, n, calls, item);
    if item.identity.callId !in calls {
      return None;
    }
    var seen := calls[item.identity.callId];
    if seen.call.name != item.toolName || seen.call.argsDigest != item.originalArgs {
      return None;
    }
    if !PreparedOk(item) {
      return None;
    }
    var entry := Entry(rows[n].seqNo, h.prepared(item), item, seen.call);
    EntryStored(h, rows, n, calls, entry);
    PreparedAdd(h, rows, n, calls, prepared, key, entry);
    return Some(prepared[key := entry]);
  }

  lemma EntryStored(h: Hashes, rows: seq<Row>, n: nat, calls: map<string, Seen>, entry: Entry)
    requires n < |rows| && rows[n].payload.ToolPrepared? && CallsInv(rows, n, 0, calls)
    requires entry.item == rows[n].payload.item && entry.seqNo == rows[n].seqNo
    requires entry.digest == h.prepared(entry.item)
    requires entry.item.identity.callId in calls && entry.call == calls[entry.item.identity.callId].call
    requires entry.call.name == entry.item.toolName && entry.call.argsDigest == entry.item.originalArgs
    ensures EntryFor(h, rows, n, calls, entry)
  {
    CalledIffSeen(rows, n, calls, entry.item);
    var i, k, c :| CalledBy(rows, n, entry.item, i, k, c);
    assert CalledBy(rows, n, entry.item, i, k, entry.call);
  }

  // ----- results ------------------------------------------------------------

  /** The inner loop over the changed files. */
  method ApplyChanges(state0: seq<Item>, changes: seq<Item>, index: nat) returns (r: Option<seq<Item>>)
    ensures r.Some? <==> forall i :: 0 <= i < |changes| ==> ChangeOk(changes[i].path, index)
    ensures r.Some? ==> r.value == FoldChanges(state0, changes)
  {
    var state := state0;
    for i := 0 to |changes|
      invariant forall j :: 0 <= j < i ==> ChangeOk(changes[j].path, index)
      invariant state == FoldChanges(state0, changes[..i])
    {
      if !ChangeOk(changes[i].path, index) {
        return None;
      }
      assert changes[..i + 1][..i] == changes[..i];
      state := SetItem(state, changes[i]);
    }
    assert changes[..|changes|] == changes;
    return Some(state);
  }

  /** The result of row `n` is bound to the entry under its key, and to no other. */
  lemma BoundToEntry(h: Hashes, rows: seq<Row>, n: int, calls: map<string, Seen>, prepared: map<string, Entry>)
    requires 0 <= n < |rows| && rows[n].payload.ToolResult?
    requires CallsInv(rows, n, 0, calls) && PreparedInv(h, rows, n, calls, prepared)
    ensures var p, key := rows[n].payload, h.invocation(rows[n].payload.identity);
            && ((exists i :: PreparedBy(h, rows, n, p, i)) <==>
                key in prepared && p.preparedDigest == prepared[key].digest)
            && (forall i, j, k, c :: PreparedBy(h, rows, n, p, i) && CalledBy(rows, i, rows[i].payload.item, j, k, c)
                  ==> key in prepared && prepared[key].item == rows[i].payload.item && prepared[key].call == c)
  {
    var p, key := rows[n].payload, h.invocation(rows[n].payload.identity);
    if key in prepared && p.preparedDigest == prepared[key].digest {
      var i :| i < n && PreparedAt(h, rows, i, key) && EntryFor(h, rows, i, calls, prepared[key]);
      assert PreparedBy(h, rows, n, p, i);
    }
    forall i | PreparedBy(h, rows, n, p, i)
      ensures key in prepared && EntryFor(h, rows, i, calls, prepared[key])
    {
      assert PreparedAt(h, rows, i, key);
    }
    forall i, j, k, c | PreparedBy(h, rows, n, p, i) && CalledBy(rows, i, rows[i].payload.item, j, k, c)
      ensures prepared[key].call == c
    {
      assert CallAt(rows, j, k, c) && j < n;
    }
  }

  lemma CheckerIffEntry(h: Hashes, rows: seq<Row>, n: int, calls: map<string, Seen>, prepared: map<string, Entry>)
    requires 0 <= n < |rows| && rows[n].payload.ToolResult?
    requires CallsInv(rows, n, 0, calls) && PreparedInv(h, rows, n, calls, prepared)
    requires exists i :: PreparedBy(h, rows, n, rows[n].payload, i)
    ensures var key := h.invocation(rows[n].payload.identity);
            && key in prepared
            && (IsChecker(h, rows, n) <==> prepared[key].item.toolName == "bash" && prepared[key].call.exactChecker)
  {
    BoundToEntry(h, rows, n, calls, prepared);
    var p, key := rows[n].payload, h.invocation(rows[n].payload.identity);
    var i :| PreparedBy(h, rows, n, p, i);
    assert PreparedAt(h, rows, i, key);
    assert EntryFor(h, rows, i, calls, prepared[key]);
    var j, k :| CalledBy(rows, i, prepared[key].item, j, k, prepared[key].call);
    assert CalledBy(rows, i, rows[i].payload.item, j, k, prepared[key].call);
  }

  lemma ResultIffKnown(h: Hashes, rows: seq<Row>, n: int, results: set<string>, key: string)
    requires ResultsInv(h, rows, n, results)
    ensures ResultBefore(h, rows, n, key) <==> key in results
  {
  }

  lemma ResultsAdd(h: Hashes, rows: seq<Row>, n: int, results: set<string>, key: string)
    requires ResultsInv(h, rows, n, results) && ResultAt(h, rows, n, key)
    ensures ResultsInv(h, rows, n + 1, results + {key})
  {
    forall k | k in results + {key} ensures ResultBefore(h, rows, n + 1, k) {
      if k == key {
        assert ResultAt(h, rows, n, k);
      } else {
        assert ResultBefore(h, rows, n, k);
      }
    }
  }

  lemma ResultsNextRow(h: Hashes, rows: seq<Row>, n: int, results: set<string>)
    requires ResultsInv(h, rows, n, results) && 0 <= n < |rows| && !rows[n].payload.ToolResult?
    ensures ResultsInv(h, rows, n + 1, results)
  {
    forall k | k in results ensures ResultBefore(h, rows, n + 1, k) { assert ResultBefore(h, rows, n, k); }
  }

  /** A result that passed the branch: the keys so far, the state, and whether it
      is a checker run that has an exit code. */
  datatype Settled = Settled(results: set<string>, state: seq<Item>, check: bool)

  /** The `tool.result` branch. */
  method AdmitResult(h: Hashes, rows: seq<Row>, n: nat, index: nat, phase: Phase, calls: map<string, Seen>,
                     prepared: map<string, Entry>, results: set<string>, state0: seq<Item>)
    returns (r: Option<Settled>)
    requires n < |rows| && rows[n].payload.ToolResult? && Increasing(rows)
    requires CallsInv(rows, n, 0, calls) && PreparedInv(h, rows, n, calls, prepared)
    requires ResultsInv(h, rows, n, results)
    ensures r.Some? <==> RowOk(h, rows, n, index, phase)
    ensures r.Some? ==> var key := h.invocation(rows[n].payload.identity);
                        key !in results && r.value.results == results + {key}
    ensures r.Some? ==> ResultsInv(h, rows, n + 1, r.value.results)
    ensures r.Some? ==> r.value.state == FoldChanges(state0, rows[n].payload.effects.changes)
    ensures r.Some? ==> (r.value.check <==> IsChecker(h, rows, n) && rows[n].payload.exitCode.Some?)
  {
    hide CallsInv, PreparedInv, ResultsInv, ChangeOk, CalledBy, PreparedBy, IsChecker, FoldChanges;
    var p := rows[n].payload;
    if !IdentityOk(p.identity) {
      return None;
    }
    var key := h.invocation(p.identity);
    BoundToEntry(h, rows, n, calls, prepared);
    ResultIffKnown(h, rows, n, results, key);
    if key !in prepared || key in results {
      return None;
    }
    var entry := prepared[key];
    if p.preparedDigest != entry.digest {
      return None;
    }
    if p.outcome !in ["succeeded", "failed", "denied"] {
      return None;
    }
    if p.effects.completeness != "complete" || p.effects.unresolved != [] {
      return None;
    }
    var state := ApplyChanges(state0, p.effects.changes, index);
    if state.None? {
      return None;
    }
    ResultsAdd(h, rows, n, results, key);
    CheckerIffEntry(h, rows, n, calls, prepared);
    CheckerArgs(h, rows, n, calls, prepared);
    var checker := entry.item.toolName == "bash" && entry.call.exactChecker;
    if checker && entry.item.originalArgs != entry.item.effectiveArgs {
      return None;
    }
    return Some(Settled(results + {key}, state.value, checker && p.exitCode.Some?));
  }

  lemma CheckerArgs(h: Hashes, rows: seq<Row>, n: int, calls: map<string, Seen>, prepared: map<string, Entry>)
    requires 0 <= n < |rows| && rows[n].payload.ToolResult?
    requires CallsInv(rows, n, 0, calls) && PreparedInv(h, rows, n, calls, prepared)
    requires exists i :: PreparedBy(h, rows, n, rows[n].payload, i)
    ensures var key := h.invocation(rows[n].payload.identity);
            && key in prepared
            && ((forall i, j, k, c :: PreparedBy(h, rows, n, rows[n].payload, i)
                   && CalledBy(rows, i, rows[i].payload.item, j, k, c)
                   && rows[i].payload.item.toolName == "bash" && c.exactChecker
                   ==> rows[i].payload.item.originalArgs == rows[i].payload.item.effectiveArgs)
                <==> (prepared[key].item.toolName == "bash" && prepared[key].call.exactChecker
                      ==> prepared[key].item.originalArgs == prepared[key].item.effectiveArgs))
  {
    BoundToEntry(h, rows, n, calls, prepared);
    var p, key := rows[n].payload, h.invocation(rows[n].payload.identity);
    var i :| PreparedBy(h, rows, n, p, i);
    assert PreparedAt(h, rows, i, key);
    assert EntryFor(h, rows, i, calls, prepared[key]);
    var j, k :| CalledBy(rows, i, prepared[key].item, j, k, prepared[key].call);
    assert CalledBy(rows, i, rows[i].payload.item, j, k, prepared[key].call);
  }

  // ----- one phase ----------------------------------------------------------

  datatype Scan = Scan(prepared: set<string>, results: set<string>, checks: seq<nat>, completes: seq<Row>,
                       state: seq<Item>)

  /** `checks` lists, in order, the rows before `n` that ran the exact checker to an exit code. */
  ghost predicate CheckList(h: Hashes, rows: seq<Row>, n: int, checks: seq<nat>) {
    && (forall a, b :: 0 <= a < b < |checks| ==> checks[a] < checks[b])
    && (forall m :: m in checks ==> m < n && IsCheck(h, rows, m))
    && (forall m: nat :: m < n && IsCheck(h, rows, m) ==> m in checks)
  }

  lemma CheckListNext(h: Hashes, rows: seq<Row>, n: nat, checks: seq<nat>, yes: bool)
    requires CheckList(h, rows, n, checks) && n < |rows| && (yes <==> IsCheck(h, rows, n))
    ensures CheckList(h, rows, n + 1, if yes then checks + [n] else checks)
  {
    hide IsCheck;
    var next := if yes then checks + [n] else checks;
    forall a, b | 0 <= a < b < |next| ensures next[a] < next[b] {
      if b == |checks| { assert checks[a] in checks; }
    }
    forall m: nat | m < n + 1 && IsCheck(h, rows, m) ensures m in next {
      if m == n { assert next[|checks|] == n; }
    }
  }

  ghost predicate PreparedKeysAre(h: Hashes, rows: seq<Row>, keys: set<string>) {
    forall key :: key in keys <==> PreparedBefore(h, rows, |rows|, key)
  }

  lemma ResultKeysNext(h: Hashes, rows: seq<Row>, n: nat)
    requires n < |rows|
    ensures var p := rows[n].payload;
            && ResultKeys(h, rows[..n + 1])
               == ResultKeys(h, rows[..n]) + (if p.ToolResult? then [h.invocation(p.identity)] else [])
            && Changes(rows[..n + 1]) == Changes(rows[..n]) + (if p.ToolResult? then p.effects.changes else [])
            && Completions(rows[..n + 1]) == Completions(rows[..n]) + (if p.TurnComplete? then [rows[n]] else [])
  {
    assert rows[..n + 1][..n] == rows[..n];
  }

  lemma {:induction false} FoldConcat(state: seq<Item>, a: seq<Item>, b: seq<Item>)
    ensures FoldChanges(state, a + b) == FoldChanges(FoldChanges(state, a), b)
    decreases |b|
  {
    if b == [] {
      assert a + b == a;
    } else {
      assert (a + b)[..|a + b| - 1] == a + b[..|b| - 1];
      FoldConcat(state, a, b[..|b| - 1]);
    }
  }

  /** The dictionaries and lists after the first `n` rows. */
  ghost predicate ScanInv(h: Hashes, rows: seq<Row>, n: nat, index: nat, phase: Phase, calls: map<string, Seen>,
                          prepared: map<string, Entry>, scan: Scan, state0: seq<Item>) {
    && n <= |rows|
    && CallsInv(rows, n, 0, calls) && PreparedInv(h, rows, n, calls, prepared)
    && ResultsInv(h, rows, n, scan.results) && CheckList(h, rows, n, scan.checks)
    && scan.prepared == prepared.Keys
    && OutputInv(h, rows[..n], scan, state0)
    && forall m :: 0 <= m < n ==> RowOk(h, rows, m, index, phase)
  }

  ghost predicate OutputInv(h: Hashes, rows: seq<Row>, scan: Scan, state0: seq<Item>) {
    && scan.results == KeySet(h, rows) && |scan.results| == |ResultKeys(h, rows)|
    && scan.completes == Completions(rows) && scan.state == FoldChanges(state0, Changes(rows))
  }

  lemma OutputNext(h: Hashes, rows: seq<Row>, n: nat, scan: Scan, state0: seq<Item>, scan': Scan)
    requires n < |rows| && OutputInv(h, rows[..n], scan, state0)
    requires var p := rows[n].payload;
             && (p.ToolResult? ==>
                   && h.invocation(p.identity) !in scan.results
                   && scan'.results == scan.results + {h.invocation(p.identity)}
                   && scan'.state == FoldChanges(scan.state, p.effects.changes)
                   && scan'.completes == scan.completes)
             && (!p.ToolResult? ==> scan'.results == scan.results && scan'.state == scan.state)
             && (!p.ToolResult? ==> scan'.completes == scan.completes + (if p.TurnComplete? then [rows[n]] else []))
    ensures OutputInv(h, rows[..n + 1], scan', state0)
  {
    ResultKeysNext(h, rows, n);
    var p := rows[n].payload;
    if p.ToolResult? {
      FoldConcat(state0, Changes(rows[..n]), p.effects.changes);
    } else {
      FoldConcat(state0, Changes(rows[..n]), []);
    }
  }

  /** The loop over the facts of a phase: it accepts exactly the rows that are in
      order and leaves the keys, checks, completions and folded state of them. */
  method ScanPhase(h: Hashes, rows: seq<Row>, index: nat, phase: Phase, state0: seq<Item>) returns (r: Option<Scan>)
    requires Increasing(rows)
    ensures r.Some? <==> RowsOk(h, rows, index, phase)
    ensures r.Some? ==> PreparedKeysAre(h, rows, r.value.prepared)
    ensures r.Some? ==> CheckList(h, rows, |rows|, r.value.checks)
    ensures r.Some? ==> OutputInv(h, rows, r.value, state0)
  {
    hide CallsInv, PreparedInv, ResultsInv, CheckList, OutputInv, RowOk;
    var calls: map<string, Seen> := map[];
    var prepared: map<string, Entry> := map[];
    var scan := Scan({}, {}, [], [], state0);
    ScanStart(h, rows, index, phase, state0);
    for n := 0 to |rows|
      invariant ScanInv(h, rows, n, index, phase, calls, prepared, scan, state0)
    {
      ghost var before := scan;
      var p := rows[n].payload;
      match p {
        case ModelTurn(kind, tokens, quotes, list) =>
          ModelRowOk(h, rows, n, index, phase);
          if tokens.None? || tokens.value <= 0 {
            return None;
          }
          var more := AddCalls(rows, n, calls);
          if more.None? {
            return None;
          }
          PreparedNextRow(h, rows, n, calls, more.value, prepared);
          ResultsNextRow(h, rows, n, scan.results);
          calls := more.value;
        case ToolPrepared(item) =>
          var more := AdmitPreparation(h, rows, n, index, phase, calls, prepared);
          if more.None? {
            return None;
          }
          CallsNextRow(rows, n, 0, calls);
          ResultsNextRow(h, rows, n, scan.results);
          prepared := more.value;
          scan := scan.(prepared := prepared.Keys);
        case ToolResult(_, _, _, _, _, _) =>
          var more := AdmitResult(h, rows, n, index, phase, calls, prepared, scan.results, scan.state);
          if more.None? {
            return None;
          }
          CallsNextRow(rows, n, 0, calls);
          PreparedNextRow(h, rows, n, calls, calls, prepared);
          scan := scan.(results := more.value.results, state := more.value.state,
                        checks := if more.value.check then scan.checks + [n] else scan.checks);
        case TurnComplete(_, _, _, _, _) =>
          PlainRow(h, rows, n, index, phase, calls, prepared, scan.results);
          scan := scan.(completes := scan.completes + [rows[n]]);
        case OtherFact =>
          PlainRow(h, rows, n, index, phase, calls, prepared, scan.results);
      }
      CheckListNext(h, rows, n, before.checks, p.ToolResult? && scan.checks != before.checks);
      OutputNext(h, rows, n, before, state0, scan);
    }
    assert rows[..|rows|] == rows;
    FinalKeys(h, rows, calls, prepared);
    return Some(scan);
  }

  lemma ScanStart(h: Hashes, rows: seq<Row>, index: nat, phase: Phase, state0: seq<Item>)
    ensures ScanInv(h, rows, 0, index, phase, map[], map[], Scan({}, {}, [], [], state0), state0)
  {
  }

  lemma ModelRowOk(h: Hashes, rows: seq<Row>, n: nat, index: nat, phase: Phase)
    requires n < |rows| && rows[n].payload.ModelTurn?
    ensures var p := rows[n].payload;
            RowOk(h, rows, n, index, phase) <==>
              && p.promptTokens.Some? && p.promptTokens.value > 0
              && forall k :: 0 <= k < |p.calls| ==> !CallRepeats(rows, n, k, p.calls[k].id)
  {
  }

  lemma PlainRow(h: Hashes, rows: seq<Row>, n: nat, index: nat, phase: Phase, calls: map<string, Seen>,
                 prepared: map<string, Entry>, results: set<string>)
    requires n < |rows| && (rows[n].payload.TurnComplete? || rows[n].payload.OtherFact?)
    requires CallsInv(rows, n, 0, calls) && PreparedInv(h, rows, n, calls, prepared) && ResultsInv(h, rows, n, results)
    ensures RowOk(h, rows, n, index, phase)
    ensures CallsInv(rows, n + 1, 0, calls) && PreparedInv(h, rows, n + 1, calls, prepared)
    ensures ResultsInv(h, rows, n + 1, results)
  {
    CallsNextRow(rows, n, 0, calls);
    PreparedNextRow(h, rows, n, calls, calls, prepared);
    ResultsNextRow(h, rows, n, results);
  }

  lemma FinalKeys(h: Hashes, rows: seq<Row>, calls: map<string, Seen>, prepared: map<string, Entry>)
    requires PreparedInv(h, rows, |rows|, calls, prepared)
    ensures PreparedKeysAre(h, rows, prepared.Keys)
  {
    forall key ensures key in prepared.Keys <==> PreparedBefore(h, rows, |rows|, key) {
      PreparedIffKnown(h, rows, |rows|, calls, prepared, key);
    }
  }
}
