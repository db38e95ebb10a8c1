/** Reading the event log of core/src/core_event_log.rs back: paging and
    verification, what the chain head vouches for, and when paging and replay
    fall short of what they are for. */
module EventReplay {
  import opened Text
  import opened EventLog

  // ----- pages --------------------------------------------------------------

  datatype Page = Page(entries: seq<Entry>, firstAvailable: Option<nat>, latest: nat, nextCursor: Option<nat>,
                       retentionGap: bool, hasMore: bool)

  datatype PageResult = Paged(page: Page) | Refused(error: Error)

  predicate After(e: Entry, after: Option<nat>) { after.None? || e.event.cursor > after.value }

  /** The entries behind a cursor. */
  function Matching(entries: seq<Entry>, after: Option<nat>): seq<Entry> {
    if entries == [] then []
    else Matching(entries[..|entries| - 1], after)
         + (if After(entries[|entries| - 1], after) then [entries[|entries| - 1]] else [])
  }

  /** The first problem met when reading entries that should follow `previous`. */
  function Visit(c: Codec, previous: string, entries: seq<Entry>): Option<Error> {
    if entries == [] then None
    else
      var init, e := entries[..|entries| - 1], entries[|entries| - 1];
      if Visit(c, previous, init).Some? then Visit(c, previous, init)
      else if Problem(c, e).Some? then Problem(c, e)
      else if e.previous != (if init == [] then previous else init[|init| - 1].digest) then Some(CausalityConflict)
      else None
  }

  function Min(a: nat, b: nat): nat { if a <= b then a else b }

  function Requested(after: Option<nat>): nat { if after.None? then 0 else (after.value + 1) % (MAX_U64 + 1) }

  /** The page the code delivers. */
  function PageOf(c: Codec, b: Buffer, after: Option<nat>, limit: nat): PageResult {
    var matching := Matching(b.entries, after);
    var seen := matching[..Min(|matching|, limit + 1)];
    var given := matching[..Min(|matching|, limit)];
    var first := if b.entries == [] then None else Some(b.entries[0].event.cursor);
    if limit == 0 then Refused(InvalidLimit)
    else if b.entries != [] && Visit(c, b.entries[0].previous, seen).Some? then
      Refused(Visit(c, b.entries[0].previous, seen).value)
    else
      Paged(Page(given, first, b.latest, if given == [] then after else Some(given[|given| - 1].event.cursor),
                 Requested(after) < b.latest && (first.None? || Requested(after) < first.value),
                 |matching| > limit + 1))
  }

  /** The reading loop: the iterator is the index `k` into the matching entries. */
  method ReadEntries(c: Codec, previous: string, matching: seq<Entry>, limit: nat)
    returns (problem: Option<Error>, entries: seq<Entry>, hasMore: bool)
    requires limit > 0
    ensures problem == Visit(c, previous, matching[..Min(|matching|, limit + 1)])
    ensures problem.None? ==> entries == matching[..Min(|matching|, limit)] && hasMore == (|matching| > limit + 1)
  {
    hide Visit, Problem;
    entries, hasMore := [], false;
    var expected, k := previous, 0;
    VisitNothing(c, previous);
    assert matching[..0] == [];
    while k < |matching|
      invariant k <= |matching| && k <= limit && entries == matching[..k] && !hasMore
      invariant expected == if k == 0 then previous else matching[k - 1].digest
      invariant Visit(c, previous, matching[..k]).None?
    {
      var e := matching[k];
      k := k + 1;
      VisitStep(c, previous, matching, k - 1);
      problem := Problem(c, e);
      if problem.Some? {
        VisitStops(c, previous, matching, k, Min(|matching|, limit + 1));
        return;
      }
      if e.previous != expected {
        problem := Some(CausalityConflict);
        VisitStops(c, previous, matching, k, Min(|matching|, limit + 1));
        return;
      }
      expected := e.digest;
      if |entries| < limit {
        assert matching[..k] == matching[..k - 1] + [e];
        entries := entries + [e];
      } else {
        hasMore := true;
        break;
      }
    }
    problem := None;
    if |entries| == limit {
      hasMore := k < |matching|;
    }
  }

  lemma VisitNothing(c: Codec, previous: string)
    ensures Visit(c, previous, []).None?
  {
  }

  lemma VisitStep(c: Codec, previous: string, entries: seq<Entry>, k: nat)
    requires k < |entries| && Visit(c, previous, entries[..k]).None?
    ensures Visit(c, previous, entries[..k + 1])
            == if Problem(c, entries[k]).Some? then Problem(c, entries[k])
               else if entries[k].previous != (if k == 0 then previous else entries[k - 1].digest)
               then Some(CausalityConflict) else None
  {
    assert entries[..k + 1][..k] == entries[..k];
  }

  /** A problem found early is the problem of every longer reading. */
  lemma {:induction false} VisitStops(c: Codec, previous: string, entries: seq<Entry>, j: nat, k: nat)
    requires j <= k <= |entries| && Visit(c, previous, entries[..j]).Some?
    ensures Visit(c, previous, entries[..k]) == Visit(c, previous, entries[..j])
    decreases k
  {
    hide Problem;
    if j < k {
      VisitStops(c, previous, entries, j, k - 1);
      assert entries[..k][..k - 1] == entries[..k - 1];
    }
  }

  /** `page`, on any buffer, intact or not. */
  method ReadPage(c: Codec, b: Buffer, after: Option<nat>, limit: nat) returns (r: PageResult)
    ensures r == PageOf(c, b, after, limit)
  {
    hide Matching, Visit;
    if limit == 0 {
      return Refused(InvalidLimit);
    }
    var first := if b.entries == [] then None else Some(b.entries[0].event.cursor);
    var start := Requested(after);
    var gap := if start >= b.latest then false else first.None? || start < first.value;
    var previous := if b.entries == [] then "" else b.entries[0].previous;
    var matching := Matching(b.entries, after);
    NothingMatches(c, after);
    var problem, entries, hasMore := ReadEntries(c, previous, matching, limit);
    if problem.Some? {
      return Refused(problem.value);
    }
    return Paged(Page(entries, first, b.latest,
                      if entries == [] then after else Some(entries[|entries| - 1].event.cursor), gap, hasMore));
  }

  lemma NothingMatches(c: Codec, after: Option<nat>)
    ensures Matching([], after) == [] && Visit(c, "", []).None?
  {
  }

  // ----- pages of an intact stream -----------------------------------------

  /** No two genuine entries share a digest, and none has the digest of the genesis. */
  ghost predicate CollisionFree(c: Codec) {
    && (forall s, e, p, r, s', e', p', r' ::
          c.entryDigest(s, e, p, r) == c.entryDigest(s', e', p', r') ==> s == s' && e == e' && p == p' && r == r')
    && (forall s, e, p, r :: c.entryDigest(s, e, p, r) != GENESIS)
    && (forall x, y :: c.eventValid(x) && c.eventValid(y) && x.digest == y.digest ==> x == y)
  }

  lemma ChainEntry(c: Codec, operation: string, log: seq<Entry>, i: nat)
    requires Chain(c, operation, log) && i < |log|
    ensures Genuine(c, log[i]) && log[i].event.cursor == i
    ensures log[i].previous == if i == 0 then GENESIS else log[i - 1].digest
  {
    hide Genuine, Fresh;
    assert Extends(log[..i], log[i]);
  }

  lemma SameDigest(c: Codec, x: Entry, y: Entry)
    requires CollisionFree(c) && Genuine(c, x) && Genuine(c, y) && x.digest == y.digest
    ensures x == y
  {
  }

  lemma NotGenesis(c: Codec, x: Entry)
    requires CollisionFree(c) && Genuine(c, x)
    ensures x.digest != GENESIS
  {
  }

  /** The chain head vouches for the whole history. */
  lemma {:induction false} HeadDeterminesHistory(c: Codec, operation: string, a: seq<Entry>, b: seq<Entry>)
    requires CollisionFree(c) && Chain(c, operation, a) && Chain(c, operation, b) && Head(a) == Head(b)
    ensures a == b
    decreases |a|
  {
    hide CollisionFree, Chain, Genuine;
    if a == [] {
      if b != [] {
        ChainEntry(c, operation, b, |b| - 1);
        NotGenesis(c, b[|b| - 1]);
      }
    } else if b == [] {
      ChainEntry(c, operation, a, |a| - 1);
      NotGenesis(c, a[|a| - 1]);
    } else {
      ChainEntry(c, operation, a, |a| - 1);
      ChainEntry(c, operation, b, |b| - 1);
      SameDigest(c, a[|a| - 1], b[|b| - 1]);
      ChainPrefix(c, operation, a);
      ChainPrefix(c, operation, b);
      HeadDeterminesHistory(c, operation, a[..|a| - 1], b[..|b| - 1]);
      assert a == a[..|a| - 1] + [a[|a| - 1]] && b == b[..|b| - 1] + [b[|b| - 1]];
    }
  }

  lemma ChainPrefix(c: Codec, operation: string, log: seq<Entry>)
    requires Chain(c, operation, log) && log != []
    ensures Chain(c, operation, log[..|log| - 1]) && Head(log[..|log| - 1]) == log[|log| - 1].previous
  {
    hide Genuine, Fresh;
    var init := log[..|log| - 1];
    forall i | 0 <= i < |init|
      ensures Genuine(c, init[i]) && init[i].event.operation == operation && Extends(init[..i], init[i])
    {
      assert init[..i] == log[..i];
    }
    assert Extends(log[..|log| - 1], log[|log| - 1]);
  }

  /** How many retained entries a cursor skips. */
  function Skipped(b: Buffer, after: Option<nat>): (k: nat)
    ensures k <= |b.entries|
  {
    if after.None? || b.entries == [] || after.value < b.entries[0].event.cursor then 0
    else Min(after.value + 1 - b.entries[0].event.cursor, |b.entries|)
  }

  lemma {:induction false} MatchingSuffix(entries: seq<Entry>, after: Option<nat>, first: nat, k: nat)
    requires forall i :: 0 <= i < |entries| ==> entries[i].event.cursor == first + i
    requires k <= |entries| && (forall i :: 0 <= i < |entries| ==> (After(entries[i], after) <==> i >= k))
    ensures Matching(entries, after) == entries[k..]
    decreases |entries|
  {
    if entries != [] {
      var init := entries[..|entries| - 1];
      MatchingSuffix(init, after, first, Min(k, |init|));
      if k < |entries| {
        assert entries[k..] == init[k..] + [entries[|entries| - 1]];
      } else {
        assert entries[k..] == [] && init[Min(k, |init|)..] == [];
      }
    }
  }

  lemma IntactMatching(c: Codec, limits: Limits, operation: string, b: Buffer, log: seq<Entry>, after: Option<nat>)
    requires StreamInv(c, limits, operation, b, log)
    ensures Matching(b.entries, after) == b.entries[Skipped(b, after)..]
  {
    hide Chain, Matching;
    var first := |log| - |b.entries|;
    forall i | 0 <= i < |b.entries| ensures b.entries[i].event.cursor == first + i {
      RetainedCursor(c, operation, b, log, i);
    }
    MatchingSuffix(b.entries, after, first, Skipped(b, after));
  }

  lemma {:induction false} VisitChain(c: Codec, operation: string, log: seq<Entry>, i: nat, m: nat)
    requires Chain(c, operation, log) && i < |log| && i + m <= |log|
    ensures Visit(c, log[i].previous, log[i..][..m]).None?
    decreases m
  {
    hide Chain, Genuine, Visit, Problem;
    var entries := log[i..];
    if m == 0 {
      assert entries[..0] == [];
      VisitNothing(c, log[i].previous);
    } else {
      VisitChain(c, operation, log, i, m - 1);
      ChainEntry(c, operation, log, i + m - 1);
      GenuineIs(c, log[i + m - 1]);
      VisitStep(c, log[i].previous, entries, m - 1);
    }
  }

  /** Reading from the middle of a chain against the anchor of another entry fails at once. */
  lemma VisitMisplaced(c: Codec, previous: string, entries: seq<Entry>, k: nat)
    requires 0 < k <= |entries| && Genuine(c, entries[0]) && entries[0].previous != previous
    ensures Visit(c, previous, entries[..k]) == Some(CausalityConflict)
  {
    hide Genuine, Problem;
    GenuineIs(c, entries[0]);
    VisitNothing(c, previous);
    assert entries[..0] == [];
    VisitStep(c, previous, entries, 0);
    VisitStops(c, previous, entries, 1, k);
  }

  /** The anchors of two entries of a chain differ. */
  lemma AnchorsDiffer(c: Codec, operation: string, log: seq<Entry>, i: nat, j: nat)
    requires CollisionFree(c) && Chain(c, operation, log) && i < j < |log|
    ensures log[i].previous != log[j].previous
  {
    hide CollisionFree, Chain, Genuine;
    ChainEntry(c, operation, log, i);
    ChainEntry(c, operation, log, j);
    ChainEntry(c, operation, log, j - 1);
    NotGenesis(c, log[j - 1]);
    if i > 0 && log[i - 1].digest == log[j - 1].digest {
      ChainEntry(c, operation, log, i - 1);
      SameDigest(c, log[i - 1], log[j - 1]);
    }
  }

  /** A page of an intact stream is delivered exactly when the cursor skips none of
      the retained entries or all of them; any other page is refused. */
  lemma PageDeliveredExactly(c: Codec, limits: Limits, operation: string, b: Buffer, log: seq<Entry>, after: Option<nat>,
                             limit: nat)
    requires CollisionFree(c) && StreamInv(c, limits, operation, b, log) && limit > 0
    ensures PageOf(c, b, after, limit).Paged? <==> Skipped(b, after) == 0 || Skipped(b, after) == |b.entries|
    ensures PageOf(c, b, after, limit).Refused? ==> PageOf(c, b, after, limit).error == CausalityConflict
  {
    hide CollisionFree, Matching, Visit, Chain, Skipped;
    var k := Skipped(b, after);
    IntactMatching(c, limits, operation, b, log, after);
    var matching := Matching(b.entries, after);
    var first, n := |log| - |b.entries|, Min(|matching|, limit + 1);
    if b.entries == [] {
    } else if k == |b.entries| {
      VisitNothing(c, b.entries[0].previous);
      assert matching[..n] == [];
    } else if k == 0 {
      VisitChain(c, operation, log, first, n);
    } else {
      ChainEntry(c, operation, log, first + k);
      AnchorsDiffer(c, operation, log, first, first + k);
      VisitMisplaced(c, b.entries[0].previous, matching, n);
    }
  }

  /** What a delivered page holds, and when its `hasMore` tells the truth. */
  lemma PageContents(c: Codec, limits: Limits, operation: string, b: Buffer, log: seq<Entry>, after: Option<nat>, limit: nat)
    requires StreamInv(c, limits, operation, b, log) && PageOf(c, b, after, limit).Paged?
    ensures var page, left := PageOf(c, b, after, limit).page, |b.entries| - Skipped(b, after);
            && page.entries == b.entries[Skipped(b, after)..][..Min(left, limit)]
            && ((page.hasMore <==> left > limit) <==> left != limit + 1)
            && (page.retentionGap && after != Some(MAX_U64) ==> Requested(after) < |log| - |b.entries|)
            && (after != Some(MAX_U64) && Requested(after) < |log| - |b.entries| ==> page.retentionGap)
  {
    hide Matching, Visit, Chain, Skipped;
    IntactMatching(c, limits, operation, b, log, after);
    if b.entries != [] {
      RetainedCursor(c, operation, b, log, 0);
    }
  }

  /** Where a reader that has seen everything up to `after` goes on in a log that retains its last
      `retained` entries. */
  function ResumeAt(log: seq<Entry>, retained: nat, after: Option<nat>): (from: nat)
    requires retained <= |log|
    ensures |log| - retained <= from <= |log|
  {
    var first, want := |log| - retained, if after.None? then 0 else after.value + 1;
    if want < first then first else if want > |log| then |log| else want
  }

  /** A delivered page by the whole history: the entries from where the reader goes on, up to the limit;
      the cursor of the last one, or the one given when there is none; the oldest cursor retained; and
      the number of all entries. */
  lemma PageOfLog(c: Codec, limits: Limits, operation: string, b: Buffer, log: seq<Entry>, after: Option<nat>,
                  limit: nat)
    requires StreamInv(c, limits, operation, b, log) && PageOf(c, b, after, limit).Paged?
    ensures |b.entries| <= |log|
    ensures var page, from := PageOf(c, b, after, limit).page, ResumeAt(log, |b.entries|, after);
            var to := if |log| - from <= limit then |log| else from + limit;
            && page.entries == log[from..to]
            && page.nextCursor == (if from == to then after else Some(to - 1))
            && page.firstAvailable == (if b.entries == [] then None else Some(|log| - |b.entries|))
            && page.latest == |log|
  {
    hide StreamInv, Chain, Retains, PageOf, ResumeAt, Matching, GENESIS, GenerationMax, RevisionMax;
    StreamParts(c, limits, operation, b, log);
    PageFields(c, b, after, limit);
    var from := ResumeAt(log, |b.entries|, after);
    var to := if |log| - from <= limit then |log| else from + limit;
    EntriesOfLog(c, limits, operation, b, log, after, limit, from, to);
    if b.entries != [] { RetainedCursor(c, operation, b, log, 0); }
    LastCursor(c, operation, log, from, to);
  }

  lemma LastCursor(c: Codec, operation: string, log: seq<Entry>, from: nat, to: nat)
    requires Chain(c, operation, log) && from <= to <= |log|
    ensures |log[from..to]| == to - from
    ensures from < to ==> log[from..to][to - from - 1].event.cursor == to - 1
  {
    hide Chain;
    if from < to { ChainEntry(c, operation, log, to - 1); }
  }

  /** What a delivered page says of the rest: more is announced exactly when two entries or more are left
      behind it, and a gap exactly when the next entry the reader wants is no longer retained. */
  lemma PageFlags(c: Codec, limits: Limits, operation: string, b: Buffer, log: seq<Entry>, after: Option<nat>,
                  limit: nat)
    requires StreamInv(c, limits, operation, b, log) && PageOf(c, b, after, limit).Paged?
    ensures |b.entries| <= |log|
    ensures PageOf(c, b, after, limit).page.hasMore <==> |log| - ResumeAt(log, |b.entries|, after) >= limit + 2
    ensures after.None? || after.value < MAX_U64 ==>
              (PageOf(c, b, after, limit).page.retentionGap <==>
                 (if after.None? then 0 else after.value + 1) < |log| - |b.entries|)
  {
    hide StreamInv, Chain, Retains, Skipped, PageOf, ResumeAt, Matching;
    StreamParts(c, limits, operation, b, log);
    PageContents(c, limits, operation, b, log, after, limit);
    PageFields(c, b, after, limit);
    IntactMatching(c, limits, operation, b, log, after);
    SkippedByLog(c, operation, b, log, after);
  }

  lemma EntriesOfLog(c: Codec, limits: Limits, operation: string, b: Buffer, log: seq<Entry>, after: Option<nat>,
                     limit: nat, from: nat, to: nat)
    requires StreamInv(c, limits, operation, b, log) && PageOf(c, b, after, limit).Paged? && |b.entries| <= |log|
    requires from == ResumeAt(log, |b.entries|, after) && to == if |log| - from <= limit then |log| else from + limit
    ensures PageOf(c, b, after, limit).page.entries == log[from..to]
  {
    hide StreamInv, Chain, Retains, Skipped, PageOf, ResumeAt;
    StreamParts(c, limits, operation, b, log);
    PageContents(c, limits, operation, b, log, after, limit);
    SkippedByLog(c, operation, b, log, after);
    RetainedPart(c, b, log, from, to);
  }

  lemma RetainedPart(c: Codec, b: Buffer, log: seq<Entry>, from: nat, to: nat)
    requires Retains(c, b, log) && |log| - |b.entries| <= from <= to <= |log|
    ensures b.entries[from - (|log| - |b.entries|)..][..to - from] == log[from..to]
  {
  }

  lemma PageFields(c: Codec, b: Buffer, after: Option<nat>, limit: nat)
    requires PageOf(c, b, after, limit).Paged?
    ensures var page := PageOf(c, b, after, limit).page;
            && page.nextCursor == (if page.entries == [] then after else Some(page.entries[|page.entries| - 1].event.cursor))
            && page.firstAvailable == (if b.entries == [] then None else Some(b.entries[0].event.cursor))
            && page.latest == b.latest && (page.hasMore <==> |Matching(b.entries, after)| > limit + 1)
  {
    hide Matching, Visit;
  }

  lemma SkippedByLog(c: Codec, operation: string, b: Buffer, log: seq<Entry>, after: Option<nat>)
    requires Chain(c, operation, log) && Retains(c, b, log)
    ensures |log| - |b.entries| + Skipped(b, after) == ResumeAt(log, |b.entries|, after)
  {
    hide Chain;
    if b.entries != [] { RetainedCursor(c, operation, b, log, 0); }
  }

  /** Continuing behind a page that left entries unread is always refused. */
  lemma ContinuationRefused(c: Codec, limits: Limits, operation: string, b: Buffer, log: seq<Entry>, limit: nat, limit': nat)
    requires CollisionFree(c) && StreamInv(c, limits, operation, b, log) && 0 < limit < |b.entries| && 0 < limit'
    ensures PageOf(c, b, None, limit).Paged?
    ensures PageOf(c, b, PageOf(c, b, None, limit).page.nextCursor, limit') == Refused(CausalityConflict)
  {
    hide CollisionFree, StreamInv, PageOf, Skipped;
    NothingSkipped(b);
    PageDeliveredExactly(c, limits, operation, b, log, None, limit);
    var next := NextAfterFirstPage(c, limits, operation, b, log, limit);
    PageDeliveredExactly(c, limits, operation, b, log, next, limit');
  }

  lemma NothingSkipped(b: Buffer)
    ensures Skipped(b, None) == 0
  {
  }

  lemma NextAfterFirstPage(c: Codec, limits: Limits, operation: string, b: Buffer, log: seq<Entry>, limit: nat)
    returns (next: Option<nat>)
    requires StreamInv(c, limits, operation, b, log) && 0 < limit < |b.entries| && PageOf(c, b, None, limit).Paged?
    ensures next == PageOf(c, b, None, limit).page.nextCursor && Skipped(b, next) == limit
  {
    hide StreamInv, PageOf, Chain, Retains;
    next := NextOfFirstPage(c, b, limit);
    StreamParts(c, limits, operation, b, log);
    RetainedCursor(c, operation, b, log, 0);
    RetainedCursor(c, operation, b, log, limit - 1);
  }

  lemma NextOfFirstPage(c: Codec, b: Buffer, limit: nat) returns (next: Option<nat>)
    requires 0 < limit < |b.entries| && PageOf(c, b, None, limit).Paged?
    ensures next == PageOf(c, b, None, limit).page.nextCursor == Some(b.entries[limit - 1].event.cursor)
  {
    hide Matching, Visit;
    MatchingAll(b.entries);
    next := PageOf(c, b, None, limit).page.nextCursor;
    assert b.entries[..limit][limit - 1] == b.entries[limit - 1];
  }

  /** With two entries and pages of one: the first page denies the second entry,
      and asking for it is refused. */
  lemma TwoEntries(c: Codec, limits: Limits, operation: string, b: Buffer, log: seq<Entry>)
    requires CollisionFree(c) && StreamInv(c, limits, operation, b, log) && |log| == 2 && b.entries == log
    ensures PageOf(c, b, None, 1).Paged? && !PageOf(c, b, None, 1).page.hasMore
    ensures PageOf(c, b, Some(0), 1) == Refused(CausalityConflict)
  {
    hide CollisionFree, StreamInv, Visit, Matching;
    ContinuationRefused(c, limits, operation, b, log, 1, 1);
    PageContents(c, limits, operation, b, log, None, 1);
    StreamParts(c, limits, operation, b, log);
    RetainedCursor(c, operation, b, log, 0);
  }

  // ----- verification -------------------------------------------------------

  datatype Verification = Verification(verified: nat, firstAvailable: Option<nat>, latest: nat, chainHead: string)

  /** Every entry is genuine and linked to the one before it, the first to `previous`. */
  predicate Verified(c: Codec, previous: string, entries: seq<Entry>) {
    forall i :: 0 <= i < |entries| ==> LinkedAt(c, previous, entries, i)
  }

  predicate LinkedAt(c: Codec, previous: string, entries: seq<Entry>, i: nat)
    requires i < |entries|
  {
    Genuine(c, entries[i]) && entries[i].previous == if i == 0 then previous else entries[i - 1].digest
  }

  lemma VerifiedSnoc(c: Codec, previous: string, entries: seq<Entry>)
    requires entries != []
    ensures var n := |entries| - 1;
            Verified(c, previous, entries) <==> Verified(c, previous, entries[..n]) && LinkedAt(c, previous, entries, n)
  {
    hide Genuine;
    var n := |entries| - 1;
    var init := entries[..n];
    forall i | 0 <= i < n ensures LinkedAt(c, previous, init, i) <==> LinkedAt(c, previous, entries, i) {
    }
  }

  lemma NothingVerified(c: Codec, previous: string)
    ensures Verified(c, previous, [])
  {
  }

  lemma {:induction false} VisitExactly(c: Codec, previous: string, entries: seq<Entry>)
    ensures Visit(c, previous, entries).None? <==> Verified(c, previous, entries)
    decreases |entries|
  {
    hide Problem, Verified;
    if entries == [] {
      assert Verified(c, previous, entries) by { NothingVerified(c, previous); }
    } else {
      VisitExactly(c, previous, entries[..|entries| - 1]);
      VerifiedSnoc(c, previous, entries);
    }
  }

  /** `verify`: one page of everything. */
  method Verify(c: Codec, b: Buffer) returns (r: Option<Verification>, error: Option<Error>)
    ensures r.Some? <==> error.None?
    ensures r.Some? <==> b.entries == [] || Verified(c, b.entries[0].previous, b.entries)
    ensures r.Some? ==> r.value.verified == |b.entries| && r.value.latest == b.latest
                        && r.value.chainHead == Head(b.entries)
                        && r.value.firstAvailable == if b.entries == [] then None else Some(b.entries[0].event.cursor)
  {
    hide Matching, Visit;
    MatchingAll(b.entries);
    if b.entries != [] { VisitExactly(c, b.entries[0].previous, b.entries); }
    assert b.entries[..|b.entries|] == b.entries;
    var page := ReadPage(c, b, None, |b.entries| + 1);
    if page.Refused? {
      return None, Some(page.error);
    }
    var entries := page.page.entries;
    return Some(Verification(|entries|, page.page.firstAvailable, page.page.latest,
                             if entries == [] then GENESIS else entries[|entries| - 1].digest)), None;
  }

  lemma {:induction false} MatchingAll(entries: seq<Entry>)
    ensures Matching(entries, None) == entries
  {
    if entries != [] {
      MatchingAll(entries[..|entries| - 1]);
    }
  }

  /** Verification passes on every stream that appends build, and names the head of
      its history unless retention has emptied it. */
  lemma IntactVerifies(c: Codec, limits: Limits, operation: string, b: Buffer, log: seq<Entry>)
    requires StreamInv(c, limits, operation, b, log)
    ensures b.entries == [] || Verified(c, b.entries[0].previous, b.entries)
    ensures CollisionFree(c) ==> (Head(b.entries) == Head(log) <==> b.entries != [] || log == [])
  {
    hide Visit, Chain, Verified, CollisionFree;
    var first := |log| - |b.entries|;
    if b.entries != [] {
      VisitChain(c, operation, log, first, |b.entries|);
      assert b.entries[..|b.entries|] == b.entries;
      VisitExactly(c, b.entries[0].previous, b.entries);
    }
    if log != [] {
      ChainEntry(c, operation, log, |log| - 1);
      if CollisionFree(c) { NotGenesis(c, log[|log| - 1]); }
    }
  }

  /** Entries that verify from the genesis on are the chain of their contents: changing
      any of them without the head changing is detected. */
  lemma {:induction false} VerifiedHeadDetermines(c: Codec, previous: string, a: seq<Entry>, b: seq<Entry>)
    requires CollisionFree(c) && |a| == |b| && Head(a) == Head(b)
    requires Verified(c, previous, a) && Verified(c, previous, b)
    ensures a == b
    decreases |a|
  {
    hide CollisionFree, Genuine, Verified;
    if a != [] {
      VerifiedSnoc(c, previous, a);
      VerifiedSnoc(c, previous, b);
      var x, y := a[|a| - 1], b[|b| - 1];
      SameDigest(c, x, y);
      if |a| > 1 {
        VerifiedHeadDetermines(c, previous, a[..|a| - 1], b[..|b| - 1]);
      }
      assert a == a[..|a| - 1] + [x] && b == b[..|b| - 1] + [y];
    }
  }

  // ----- replays ------------------------------------------------------------

  lemma {:induction false} RevisionBound(log: seq<Entry>, i: nat)
    requires i < |log|
    ensures log[i].event.revision <= RevisionMax(log)
    ensures log[i].event.generation.Some? ==>
              GenerationMax(log).Some? && log[i].event.generation.value <= GenerationMax(log).value
    decreases |log|
  {
    if i < |log| - 1 {
      RevisionBound(log[..|log| - 1], i);
    }
  }

  lemma {:induction false} MaximaReached(log: seq<Entry>)
    ensures log != [] ==> exists i :: 0 <= i < |log| && log[i].event.revision == RevisionMax(log)
    ensures GenerationMax(log).Some? ==> exists i :: 0 <= i < |log| && log[i].event.generation == GenerationMax(log)
    decreases |log|
  {
    if log != [] {
      var init, last := log[..|log| - 1], log[|log| - 1];
      MaximaReached(init);
      assert forall i :: 0 <= i < |init| ==> init[i] == log[i];
      assert RevisionMax(log) == last.event.revision || (init != [] && RevisionMax(log) == RevisionMax(init));
    }
  }

  /** Revisions and stamped generations never fall along a chain. */
  lemma NeverFalls(c: Codec, operation: string, log: seq<Entry>, i: nat, j: nat)
    requires Chain(c, operation, log) && i < j < |log|
    ensures log[i].event.revision <= log[j].event.revision
    ensures log[i].event.generation.Some? && log[j].event.generation.Some? ==>
              log[i].event.generation.value <= log[j].event.generation.value
  {
    hide Genuine, GenerationMax, RevisionMax;
    assert Extends(log[..j], log[j]);
    RevisionBound(log[..j], i);
  }

  predicate Raises(later: Entry, e: Entry) {
    || later.event.revision > e.event.revision
    || (e.event.generation.Some? && later.event.generation.Some?
        && later.event.generation.value > e.event.generation.value)
  }

  /** Offering a retained entry again is a replay exactly while no later entry has
      raised the revision or, for a stamped entry, the generation. */
  lemma ReplayExactly(c: Codec, operation: string, log: seq<Entry>, i: nat)
    requires Chain(c, operation, log) && i < |log|
    ensures Fresh(log, log[i]) <==> forall j :: i < j < |log| ==> !Raises(log[j], log[i])
  {
    hide Chain, GenerationMax, RevisionMax;
    var e := log[i];
    if Fresh(log, e) {
      forall j | i < j < |log| ensures !Raises(log[j], e) { RevisionBound(log, j); }
    }
    if forall j :: i < j < |log| ==> !Raises(log[j], e) {
      MaximaReached(log);
      var r :| 0 <= r < |log| && log[r].event.revision == RevisionMax(log);
      if r < i { NeverFalls(c, operation, log, r, i); }
      if GenerationMax(log).Some? && e.event.generation.Some? {
        var g :| 0 <= g < |log| && log[g].event.generation == GenerationMax(log);
        if g < i { NeverFalls(c, operation, log, g, i); }
      }
    }
  }

  /** The newest entry can always be replayed; an older one of an earlier revision cannot. */
  lemma ReplayAfterRevision(c: Codec, operation: string, log: seq<Entry>)
    requires Chain(c, operation, log) && |log| == 2 && log[0].event.revision < log[1].event.revision
    ensures Fresh(log, log[1]) && !Fresh(log, log[0])
  {
    hide Chain, Fresh;
    ReplayExactly(c, operation, log, 0);
    ReplayExactly(c, operation, log, 1);
    assert Raises(log[1], log[0]);
  }
}
