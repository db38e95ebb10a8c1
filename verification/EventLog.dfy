/** The hash-chained event log of core/src/core_event_log.rs: fail-closed admission,
    FIFO retention, and the invariant every run of appends keeps. */
module EventLog {
  import opened Text
  import opened EffectEncoding

  // ----- data ---------------------------------------------------------------

  /** A core event identity; `content` stands for the fields the log does not look at. */
  datatype Event = Event(operation: string, cursor: nat, generation: Option<nat>, revision: nat, digest: string,
                         content: string)

  datatype Entry = Entry(schema: string, event: Event, previous: string, refs: seq<string>, digest: string)

  /** SHA-256 under the entry domain, event validation and serialized sizes. */
  datatype Codec = Codec(entryDigest: (string, string, string, seq<string>) -> string, eventValid: Event -> bool,
                         size: Entry -> nat)

  datatype Error =
    | UnsupportedSchema | InvalidEvent | DigestMismatch | InvalidRefs | InvalidLimit | CursorOverflow
    | CursorGap | CursorConflict | CausalityConflict | StaleGeneration | StaleRevision

  datatype Buffer = Buffer(entries: seq<Entry>, bytes: nat, latest: nat, tail: Option<string>,
                           generationMax: Option<nat>, revisionMax: nat)

  const SCHEMA: string := "a3s.code.core-event-log-entry.v1"

  /** A digest of one repeated character. */
  function Stamp(c: char): (s: string)
    ensures |s| == 71 && s[70] == c && (IsLowerHex(c) ==> ValidDigest(s))
  {
    "sha256:" + seq(64, i => c)
  }

  const GENESIS: string := Stamp('0')
  const MAX_REFS: nat := 128
  const MAX_URI_BYTES: nat := 1024
  const MAX_U64: nat := 0xFFFF_FFFF_FFFF_FFFF

  // ----- entries ------------------------------------------------------------

  function Expected(c: Codec, e: Entry): string { c.entryDigest(e.schema, e.event.digest, e.previous, e.refs) }

  /** `uri.lines().count() == 1` for a nonempty text. */
  predicate SingleLine(uri: string) { forall i :: 0 <= i < |uri| - 1 ==> uri[i] != '\n' }

  predicate RefOk(uri: string) {
    uri != "" && Utf8Length(uri) <= MAX_URI_BYTES && '\0' !in uri && SingleLine(uri)
  }

  predicate RefsOk(refs: seq<string>) {
    && |refs| <= MAX_REFS && (forall i :: 0 <= i < |refs| ==> RefOk(refs[i]))
    && (forall i :: 0 <= i < |refs| - 1 ==> LexLess(refs[i], refs[i + 1]))
  }

  /** `validate`: the first failing check. */
  function Problem(c: Codec, e: Entry): Option<Error> {
    if e.schema != SCHEMA then Some(UnsupportedSchema)
    else if !c.eventValid(e.event) then Some(InvalidEvent)
    else if e.previous != GENESIS && !ValidDigest(e.previous) then Some(DigestMismatch)
    else if !RefsOk(e.refs) then Some(InvalidRefs)
    else if !ValidDigest(e.digest) || e.digest != Expected(c, e) then Some(DigestMismatch)
    else None
  }

  predicate Genuine(c: Codec, e: Entry) { Problem(c, e) == None }

  /** Genuine entries in full: the known schema, a valid event, an anchor in digest form, at most 128
      references in strictly increasing order, each a single nonempty line of at most 1024 bytes
      without NUL, and the digest of exactly these parts. */
  lemma GenuineExactly(c: Codec, e: Entry)
    ensures Genuine(c, e) <==>
              && e.schema == "a3s.code.core-event-log-entry.v1" && c.eventValid(e.event) && ValidDigest(e.previous)
              && |e.refs| <= 128 && (forall i, j :: 0 <= i < j < |e.refs| ==> LexLess(e.refs[i], e.refs[j]))
              && (forall uri :: uri in e.refs ==> 0 < |uri| && Utf8Length(uri) <= 1024 && '\0' !in uri
                                                  && '\n' !in uri[..|uri| - 1])
              && ValidDigest(e.digest) && e.digest == c.entryDigest(e.schema, e.event.digest, e.previous, e.refs)
  {
    hide ValidDigest, LexLess, Utf8Length, RefOk, RefsOk, SCHEMA;
    RefsExactly(e.refs);
    GenesisIsDigest();
    SchemaIs();
  }

  lemma SchemaIs()
    ensures SCHEMA == "a3s.code.core-event-log-entry.v1"
  {
  }

  lemma GenesisIsDigest()
    ensures ValidDigest(GENESIS)
  {
  }

  lemma RefExactly(uri: string)
    ensures RefOk(uri) <==> 0 < |uri| && Utf8Length(uri) <= 1024 && '\0' !in uri && '\n' !in uri[..|uri| - 1]
  {
    hide Utf8Length;
    if uri != "" {
      var front := uri[..|uri| - 1];
      assert forall i :: 0 <= i < |front| ==> front[i] == uri[i];
    }
  }

  lemma {:induction false} Increasing(refs: seq<string>, i: nat, j: nat)
    requires (forall k :: 0 <= k < |refs| - 1 ==> LexLess(refs[k], refs[k + 1])) && i < j < |refs|
    ensures LexLess(refs[i], refs[j])
    decreases j
  {
    hide LexLess;
    if i + 1 < j {
      Increasing(refs, i, j - 1);
      assert LexLess(refs[j - 1], refs[j - 1 + 1]);
      LexTransitive(refs[i], refs[j - 1], refs[j]);
    }
  }

  lemma RefsExactly(refs: seq<string>)
    ensures RefsOk(refs) <==>
              && |refs| <= 128 && (forall i, j :: 0 <= i < j < |refs| ==> LexLess(refs[i], refs[j]))
              && (forall uri :: uri in refs ==> 0 < |uri| && Utf8Length(uri) <= 1024 && '\0' !in uri
                                                && '\n' !in uri[..|uri| - 1])
  {
    hide LexLess, Utf8Length, RefOk;
    forall uri | uri in refs
      ensures RefOk(uri) <==> 0 < |uri| && Utf8Length(uri) <= 1024 && '\0' !in uri && '\n' !in uri[..|uri| - 1]
    {
      RefExactly(uri);
    }
    assert (forall i :: 0 <= i < |refs| ==> RefOk(refs[i])) <==> (forall uri :: uri in refs ==> RefOk(uri));
    if RefsOk(refs) {
      forall i, j | 0 <= i < j < |refs| ensures LexLess(refs[i], refs[j]) { Increasing(refs, i, j); }
    }
  }

  // ----- chains -------------------------------------------------------------

  function Head(log: seq<Entry>): string { if log == [] then GENESIS else log[|log| - 1].digest }

  function GenerationMax(log: seq<Entry>): Option<nat> {
    if log == [] then None
    else
      var before, g := GenerationMax(log[..|log| - 1]), log[|log| - 1].event.generation;
      if g.None? then before else if before.Some? && before.value > g.value then before else g
  }

  function RevisionMax(log: seq<Entry>): nat {
    if log == [] then 0
    else
      var before, r := RevisionMax(log[..|log| - 1]), log[|log| - 1].event.revision;
      if before > r then before else r
  }

  function Bytes(c: Codec, log: seq<Entry>): nat {
    if log == [] then 0 else c.size(log[0]) + Bytes(c, log[1..])
  }

  /** Stamped with an older generation than some entry before. */
  predicate OldGeneration(log: seq<Entry>, e: Entry) {
    e.event.generation.Some? && GenerationMax(log).Some? && e.event.generation.value < GenerationMax(log).value
  }

  predicate Fresh(log: seq<Entry>, e: Entry) { !OldGeneration(log, e) && e.event.revision >= RevisionMax(log) }

  /** `e` extends `log`: next cursor, chained to the head, no older generation or revision. */
  predicate Extends(log: seq<Entry>, e: Entry) {
    e.event.cursor == |log| && e.previous == Head(log) && Fresh(log, e) && e.event.cursor < MAX_U64
  }

  /** A stream of genuine entries, each extending those before it. */
  predicate Chain(c: Codec, operation: string, log: seq<Entry>) {
    forall i :: 0 <= i < |log| ==>
      Genuine(c, log[i]) && log[i].event.operation == operation && Extends(log[..i], log[i])
  }

  // ----- one stream ---------------------------------------------------------

  datatype Limits = Limits(entries: Option<nat>, bytes: Option<nat>)

  predicate Within(limits: Limits, b: Buffer) {
    && (limits.entries.Some? ==> |b.entries| <= limits.entries.value)
    && (limits.bytes.Some? ==> b.bytes <= limits.bytes.value || b.entries == [])
  }

  /** The pins summarize every admitted entry, retained or not. */
  predicate Pinned(b: Buffer, log: seq<Entry>) {
    && b.latest == |log| && b.tail == (if log == [] then None else Some(Head(log)))
    && b.generationMax == GenerationMax(log) && b.revisionMax == RevisionMax(log)
  }

  /** The buffer retains the newest entries of the chain. */
  predicate Retains(c: Codec, b: Buffer, log: seq<Entry>) {
    |b.entries| <= |log| && b.entries == log[|log| - |b.entries|..] && b.bytes == Bytes(c, b.entries)
  }

  predicate StreamInv(c: Codec, limits: Limits, operation: string, b: Buffer, log: seq<Entry>) {
    Chain(c, operation, log) && Pinned(b, log) && Retains(c, b, log) && Within(limits, b)
  }

  datatype Verdict = Admitted(buffer: Buffer) | Replayed | Rejected(error: Error)

  /** The retained entry with this cursor. */
  method FindCursor(entries: seq<Entry>, cursor: nat) returns (r: Option<Entry>)
    ensures r.None? ==> forall i :: 0 <= i < |entries| ==> entries[i].event.cursor != cursor
    ensures r.Some? ==> exists i :: 0 <= i < |entries| && entries[i] == r.value && entries[i].event.cursor == cursor
                                    && forall j :: 0 <= j < i ==> entries[j].event.cursor != cursor
  {
    for i := 0 to |entries|
      invariant forall j :: 0 <= j < i ==> entries[j].event.cursor != cursor
    {
      if entries[i].event.cursor == cursor {
        return Some(entries[i]);
      }
    }
    return None;
  }

  /** In a chain a retained cursor is the entry's index. */
  lemma RetainedCursor(c: Codec, operation: string, b: Buffer, log: seq<Entry>, i: nat)
    requires Chain(c, operation, log) && Retains(c, b, log) && i < |b.entries|
    ensures b.entries[i] == log[|log| - |b.entries| + i]
    ensures b.entries[i].event.cursor == |log| - |b.entries| + i
  {
    hide Genuine, Fresh;
    assert Extends(log[..|log| - |b.entries| + i], log[|log| - |b.entries| + i]);
  }

  datatype Outcome = Done(appended: bool) | Fail(error: Error)

  /** What becomes of a genuine entry offered to a stream with history `log` that
      retains `retained`: taken, replayed, or refused by its exact cause. */
  ghost predicate Answered(log: seq<Entry>, retained: seq<Entry>, e: Entry, r: Outcome) {
    && (r == Done(true) <==> Extends(log, e))
    && (r == Done(false) <==> Fresh(log, e) && e in retained)
    && (r == Fail(StaleGeneration) <==> OldGeneration(log, e))
    && (r == Fail(StaleRevision) <==> !OldGeneration(log, e) && e.event.revision < RevisionMax(log))
    && (r == Fail(CursorConflict) <==> Fresh(log, e) && e !in retained && HasCursor(retained, e.event.cursor))
    && (r == Fail(CursorGap) <==> Fresh(log, e) && !HasCursor(retained, e.event.cursor) && e.event.cursor != |log|)
    && (r == Fail(CausalityConflict) <==> Fresh(log, e) && e.event.cursor == |log| && e.previous != Head(log))
    && (r == Fail(CursorOverflow) <==>
          Fresh(log, e) && e.event.cursor == |log| && e.previous == Head(log) && |log| >= MAX_U64)
  }

  function OutcomeOf(v: Verdict): Outcome {
    match v
    case Admitted(_) => Done(true)
    case Replayed => Done(false)
    case Rejected(error) => Fail(error)
  }

  predicate HasCursor(entries: seq<Entry>, cursor: nat) {
    exists i :: 0 <= i < |entries| && entries[i].event.cursor == cursor
  }

  lemma PinsStep(log: seq<Entry>, e: Entry)
    ensures var g, g' := GenerationMax(log), e.event.generation;
            GenerationMax(log + [e]) == if g'.None? then g else if g.Some? && g.value > g'.value then g else g'
    ensures RevisionMax(log + [e]) == if RevisionMax(log) > e.event.revision then RevisionMax(log) else e.event.revision
    ensures Head(log + [e]) == e.digest
  {
    assert (log + [e])[..|log|] == log;
  }

  /** `admit` */
  method Admit(c: Codec, b: Buffer, e: Entry, ghost operation: string, ghost log: seq<Entry>) returns (v: Verdict)
    requires Chain(c, operation, log) && Pinned(b, log) && Retains(c, b, log)
    ensures Answered(log, b.entries, e, OutcomeOf(v))
    ensures v.Admitted? ==> v.buffer.entries == b.entries && v.buffer.bytes == b.bytes && Pinned(v.buffer, log + [e])
  {
    hide Chain, Retains, Genuine, GenerationMax, RevisionMax;
    var cursor, stamp := e.event.cursor, e.event.generation;
    if stamp.Some? && b.generationMax.Some? && stamp.value < b.generationMax.value {
      return Rejected(StaleGeneration);
    }
    if e.event.revision < b.revisionMax {
      return Rejected(StaleRevision);
    }
    assert Fresh(log, e);
    var existing := FindCursor(b.entries, cursor);
    if existing.Some? {
      ghost var i :| 0 <= i < |b.entries| && b.entries[i] == existing.value && b.entries[i].event.cursor == cursor;
      RetainedCursor(c, operation, b, log, i);
      SameCursor(c, operation, b, log, e, i);
      return if existing.value == e then Replayed else Rejected(CursorConflict);
    }
    assert e !in b.entries && !HasCursor(b.entries, cursor);
    NextCursorNew(c, operation, b, log);
    if cursor != b.latest {
      return Rejected(CursorGap);
    }
    var expected := if b.tail.Some? then b.tail.value else GENESIS;
    if e.previous != expected {
      return Rejected(CausalityConflict);
    }
    if cursor >= MAX_U64 {
      return Rejected(CursorOverflow);
    }
    var generation := if stamp.None? then b.generationMax
                      else if b.generationMax.Some? && b.generationMax.value > stamp.value then b.generationMax else stamp;
    var revision := if b.revisionMax > e.event.revision then b.revisionMax else e.event.revision;
    PinsStep(log, e);
    return Admitted(Buffer(b.entries, b.bytes, cursor + 1, Some(e.digest), generation, revision));
  }

  lemma NextCursorNew(c: Codec, operation: string, b: Buffer, log: seq<Entry>)
    requires Chain(c, operation, log) && Retains(c, b, log)
    ensures !HasCursor(b.entries, |log|)
  {
    hide Chain, Retains;
    forall i | 0 <= i < |b.entries| ensures b.entries[i].event.cursor != |log| {
      RetainedCursor(c, operation, b, log, i);
    }
  }

  lemma SameCursor(c: Codec, operation: string, b: Buffer, log: seq<Entry>, e: Entry, i: nat)
    requires Chain(c, operation, log) && Retains(c, b, log) && i < |b.entries|
    requires b.entries[i].event.cursor == e.event.cursor
    ensures e in b.entries <==> b.entries[i] == e
    ensures !Extends(log, e)
  {
    hide Chain, Retains;
    RetainedCursor(c, operation, b, log, i);
    if e in b.entries {
      var j :| 0 <= j < |b.entries| && b.entries[j] == e;
      RetainedCursor(c, operation, b, log, j);
    }
  }

  // ----- retention ----------------------------------------------------------

  predicate Over(limits: Limits, b: Buffer) {
    || (limits.entries.Some? && |b.entries| > limits.entries.value)
    || (limits.bytes.Some? && b.bytes > limits.bytes.value)
  }

  lemma {:induction false} BytesAppend(c: Codec, log: seq<Entry>, e: Entry)
    ensures Bytes(c, log + [e]) == Bytes(c, log) + c.size(e)
    decreases |log|
  {
    if log == [] {
      assert log + [e] == [e];
    } else {
      assert (log + [e])[1..] == log[1..] + [e];
      BytesAppend(c, log[1..], e);
    }
  }

  /** The buffer without its oldest `k` entries. */
  function Dropped(c: Codec, b: Buffer, k: nat): Buffer
    requires k <= |b.entries|
  {
    b.(entries := b.entries[k..], bytes := Bytes(c, b.entries[k..]))
  }

  lemma DropOne(c: Codec, b: Buffer, k: nat)
    requires k < |b.entries|
    ensures Dropped(c, b, k).entries[0] == b.entries[k] && Dropped(c, b, k).entries[1..] == b.entries[k + 1..]
    ensures Dropped(c, b, k).bytes == c.size(b.entries[k]) + Dropped(c, b, k + 1).bytes
  {
    assert b.entries[k..][1..] == b.entries[k + 1..];
  }

  /** `trim`: drops the oldest entries, and no more of them than the limits ask for. */
  method Trim(c: Codec, b0: Buffer, limits: Limits) returns (b: Buffer, ghost k: nat)
    requires b0.bytes == Bytes(c, b0.entries)
    ensures k <= |b0.entries| && b == Dropped(c, b0, k) && Within(limits, b)
    ensures k > 0 ==> Over(limits, Dropped(c, b0, k - 1))
  {
    hide Bytes;
    b, k := b0, 0;
    assert b0.entries[0..] == b0.entries;
    while Over(limits, b)
      invariant k <= |b0.entries| && b == Dropped(c, b0, k)
      invariant k > 0 ==> Over(limits, Dropped(c, b0, k - 1))
      decreases |b.entries|
    {
      if b.entries == [] {
        NoBytes(c);
        break;
      }
      DropOne(c, b0, k);
      var e := b.entries[0];
      b := b.(entries := b.entries[1..], bytes := if b.bytes > c.size(e) then b.bytes - c.size(e) else 0);
      k := k + 1;
    }
  }

  lemma NoBytes(c: Codec)
    ensures Bytes(c, []) == 0
  {
  }

  // ----- the log ------------------------------------------------------------

  const MAX_ENTRIES: nat := 65_536
  const MAX_BYTES: nat := 64 * 1024 * 1024

  function Capped(limit: Option<nat>, cap: nat): Option<nat> {
    if limit.Some? && limit.value > cap then Some(cap) else limit
  }

  function EmptyBuffer(): Buffer { Buffer([], 0, 0, None, None, 0) }

  function Stream<T>(streams: map<string, seq<T>>, operation: string): seq<T> {
    if operation in streams then streams[operation] else []
  }

  lemma ChainExtend(c: Codec, operation: string, log: seq<Entry>, e: Entry)
    requires Chain(c, operation, log) && Genuine(c, e) && e.event.operation == operation && Extends(log, e)
    ensures Chain(c, operation, log + [e])
  {
    hide Genuine, Extends;
    var more := log + [e];
    forall i | 0 <= i < |more|
      ensures Genuine(c, more[i]) && more[i].event.operation == operation && Extends(more[..i], more[i])
    {
      if i < |log| { assert more[..i] == log[..i]; } else { assert more[..i] == log; }
    }
  }

  lemma RetainsExtend(c: Codec, b: Buffer, log: seq<Entry>, e: Entry, b': Buffer)
    requires Retains(c, b, log) && b'.entries == b.entries + [e] && b'.bytes == b.bytes + c.size(e)
    ensures Retains(c, b', log + [e])
  {
    BytesAppend(c, b.entries, e);
  }

  lemma RetainsTrimmed(c: Codec, b: Buffer, log: seq<Entry>, k: nat)
    requires Retains(c, b, log) && k <= |b.entries|
    ensures Retains(c, Dropped(c, b, k), log)
  {
    hide Bytes;
    assert log[|log| - |b.entries|..][k..] == log[|log| - |b.entries| + k..];
  }

  lemma EmptyStream(c: Codec, limits: Limits, operation: string)
    ensures StreamInv(c, limits, operation, EmptyBuffer(), [])
  {
  }

  // ----- critical sections --------------------------------------------------

  /** What an appender does under the lock, once per section: look for its cursor,
      read the anchor, or write an entry. */
  datatype Section = Look(operation: string, cursor: nat) | Anchor(operation: string) | Write(entry: Entry)

  /** The section admits an entry to the operation, given its history. */
  predicate Admits(c: Codec, log: seq<Entry>, operation: string, section: Section) {
    && section.Write? && section.entry.event.operation == operation
    && Genuine(c, section.entry) && Extends(log, section.entry)
  }

  /** The history of an operation after any sequence of sections. */
  function Accepted(c: Codec, sections: seq<Section>, operation: string): seq<Entry> {
    if sections == [] then []
    else
      var log, last := Accepted(c, sections[..|sections| - 1], operation), sections[|sections| - 1];
      if Admits(c, log, operation, last) then log + [last.entry] else log
  }

  lemma AcceptedNext(c: Codec, sections: seq<Section>, section: Section, operation: string)
    ensures var log := Accepted(c, sections, operation);
            Accepted(c, sections + [section], operation)
            == if Admits(c, log, operation, section) then log + [section.entry] else log
  {
    assert (sections + [section])[..|sections|] == sections;
  }

  /** The histories are those of the sections. */
  ghost predicate Tied(c: Codec, history: map<string, seq<Entry>>, sections: seq<Section>) {
    forall operation :: Stream(history, operation) == Accepted(c, sections, operation)
  }

  lemma TiedWrite(c: Codec, history: map<string, seq<Entry>>, sections: seq<Section>, e: Entry)
    requires Tied(c, history, sections)
    ensures var log := Stream(history, e.event.operation);
            && Tied(c, history[e.event.operation := if Genuine(c, e) && Extends(log, e) then log + [e] else log],
                    sections + [Write(e)])
            && (!Genuine(c, e) ==> Tied(c, history, sections + [Write(e)]))
  {
    hide Genuine, Extends, Accepted;
    forall operation { AcceptedNext(c, sections, Write(e), operation); }
  }

  lemma TiedRead(c: Codec, history: map<string, seq<Entry>>, sections: seq<Section>, section: Section)
    requires Tied(c, history, sections) && !section.Write?
    ensures Tied(c, history, sections + [section])
  {
    hide Accepted;
    forall operation { AcceptedNext(c, sections, section, operation); }
  }

  /** However the sections of concurrent appenders interleave, the history is one chain. */
  lemma {:induction false} NoInterleavingForks(c: Codec, sections: seq<Section>, operation: string)
    ensures Chain(c, operation, Accepted(c, sections, operation))
  {
    if sections != [] {
      hide Genuine, Extends;
      var init, last := sections[..|sections| - 1], sections[|sections| - 1];
      NoInterleavingForks(c, init, operation);
      var log := Accepted(c, init, operation);
      if Admits(c, log, operation, last) {
        ChainExtend(c, operation, log, last.entry);
      }
    }
  }

  class CoreEventLog {
    const codec: Codec
    const limits: Limits
    var streams: map<string, Buffer>
    /** Every entry ever admitted, per operation. */
    ghost var history: map<string, seq<Entry>>
    /** Every critical section so far. */
    ghost var sections: seq<Section>

    ghost predicate Valid() reads this {
      && history.Keys == streams.Keys
      && (forall operation :: operation in streams ==>
            StreamInv(codec, limits, operation, streams[operation], history[operation]))
      && Tied(codec, history, sections)
    }

    function Retained(operation: string): seq<Entry> reads this {
      if operation in streams then streams[operation].entries else []
    }

    /** `with_limits` */
    constructor (codec: Codec, maxEntries: Option<nat>, maxBytes: Option<nat>)
      ensures Valid() && history == map[] && sections == [] && this.codec == codec
      ensures this.limits == Limits(Capped(maxEntries, MAX_ENTRIES), Capped(maxBytes, MAX_BYTES))
    {
      this.codec, limits := codec, Limits(Capped(maxEntries, MAX_ENTRIES), Capped(maxBytes, MAX_BYTES));
      streams, history, sections := map[], map[], [];
    }

    /** `append`: an entry is taken exactly when it is genuine and extends the whole history of its
        operation, and replayed exactly when it is retained and not stale; nothing
        else changes a history, and other operations are not touched. */
    method Append(e: Entry) returns (r: Outcome)
      requires Valid()
      modifies this
      ensures Valid()
      ensures sections == old(sections) + [Write(e)]
      ensures Genuine(codec, e) ==>
                Answered(Stream(old(history), e.event.operation), old(Retained(e.event.operation)), e, r)
      ensures !Genuine(codec, e) ==> r == Fail(Problem(codec, e).value)
      ensures r == Done(true) ==>
                history == old(history)[e.event.operation := Stream(old(history), e.event.operation) + [e]]
      ensures r == Done(false) ==> history == old(history) && streams == old(streams)
      ensures r.Fail? && !Genuine(codec, e) ==> history == old(history) && streams == old(streams)
      ensures r.Fail? && Genuine(codec, e) && e.event.operation in old(streams) ==>
                history == old(history) && streams == old(streams)
      ensures r.Fail? && Genuine(codec, e) && e.event.operation !in old(streams) ==>
                && history == old(history)[e.event.operation := []]
                && streams == old(streams)[e.event.operation := EmptyBuffer()]
      ensures forall operation :: operation in old(streams) && operation != e.event.operation ==>
                operation in streams && streams[operation] == old(streams)[operation]
    {
      hide StreamInv, Genuine, Extends, Fresh, Answered, Tied;
      var operation := e.event.operation;
      TiedWrite(codec, history, sections, e);
      sections := sections + [Write(e)];
      var problem := Problem(codec, e);
      GenuineIs(codec, e);
      if problem.Some? {
        return Fail(problem.value);
      }
      ghost var log := Stream(history, operation);
      var b := if operation in streams then streams[operation] else EmptyBuffer();
      EmptyStream(codec, limits, operation);
      var b';
      r, b' := Offer(codec, limits, operation, b, log, e);
      AnsweredTaken(log, b.entries, e, r);
      streams := streams[operation := b'];
      history := history[operation := if r == Done(true) then log + [e] else log];
      assert r != Done(true) && operation in old(streams) ==> streams == old(streams) && history == old(history);
    }

    /** First section of `append_run_event` and `append_agent_event`: a retained cursor is a replay of the same
        event or a conflict, and nothing is written. */
    method LookUp(event: Event) returns (r: Option<Outcome>)
      requires Valid()
      modifies this`sections
      ensures Valid() && sections == old(sections) + [Look(event.operation, event.cursor)]
      ensures r == Some(Done(false)) <==> exists x :: x in Retained(event.operation) && x.event == event
      ensures r == Some(Fail(CursorConflict)) <==>
                exists x :: x in Retained(event.operation) && x.event.cursor == event.cursor && x.event != event
      ensures r.None? <==> !HasCursor(Retained(event.operation), event.cursor)
    {
      hide StreamInv, Tied;
      TiedRead(codec, history, sections, Look(event.operation, event.cursor));
      sections := sections + [Look(event.operation, event.cursor)];
      if event.operation !in streams {
        return None;
      }
      var b := streams[event.operation];
      var existing := FindCursor(b.entries, event.cursor);
      if existing.None? {
        return None;
      }
      OneCursor(codec, limits, event.operation, b, history[event.operation]);
      return Some(if existing.value.event == event then Done(false) else Fail(CursorConflict));
    }

    /** Second section, and the first of `append_core_event`: the digest of the head, or the genesis. */
    method ReadAnchor(operation: string) returns (anchor: string, ghost at: nat)
      requires Valid()
      modifies this`sections
      ensures Valid() && at == |old(sections)| && sections == old(sections) + [Anchor(operation)]
      ensures anchor == Head(Accepted(codec, sections[..at], operation))
    {
      hide StreamInv, Genuine, Extends, Accepted;
      at := |sections|;
      TiedRead(codec, history, sections, Anchor(operation));
      anchor := GENESIS;
      if operation in streams {
        StreamParts(codec, limits, operation, streams[operation], history[operation]);
        anchor := if streams[operation].tail.Some? then streams[operation].tail.value else GENESIS;
      }
      sections := sections + [Anchor(operation)];
      assert sections[..at] == old(sections);
    }

    /** Last section: the event is linked to the anchor read before, whatever happened since, and offered. */
    method AppendLinked(event: Event, refs: seq<string>, anchor: string, ghost at: nat) returns (r: Outcome)
      requires Valid() && at < |sections| && sections[at] == Anchor(event.operation)
      requires anchor == Head(Accepted(codec, sections[..at], event.operation))
      modifies this
      ensures Valid() && sections == old(sections) + [Write(Linked(codec, anchor, event, refs))]
      ensures var e := Linked(codec, anchor, event, refs);
              && (Genuine(codec, e) ==>
                    Answered(Stream(old(history), event.operation), old(Retained(event.operation)), e, r))
              && (!Genuine(codec, e) ==> r == Fail(Problem(codec, e).value))
              && (r == Done(true) ==>
                    history == old(history)[event.operation := Stream(old(history), event.operation) + [e]])
    {
      hide StreamInv, Genuine, Extends, Fresh, Answered, Accepted, Tied;
      var draft := Entry(SCHEMA, event, anchor, refs, "");
      r := Append(draft.(digest := Expected(codec, draft)));
    }

    /** `append_run_event` and `append_agent_event` when no other appender comes in between. */
    method AppendEvent(event: Event, refs: seq<string>) returns (r: Outcome)
      requires Valid()
      modifies this
      ensures Valid()
      ensures var log, known := Stream(old(history), event.operation), old(Retained(event.operation));
              var e := Linked(codec, Head(log), event, refs);
              && (HasCursor(known, event.cursor) ==>
                    && (r == Done(false) <==> exists x :: x in known && x.event == event)
                    && (r == Fail(CursorConflict) <==> forall x :: x in known ==> x.event != event))
              && (!HasCursor(known, event.cursor) && Genuine(codec, e) ==> Answered(log, known, e, r))
              && (!HasCursor(known, event.cursor) && !Genuine(codec, e) ==> r == Fail(Problem(codec, e).value))
      ensures r != Fail(CausalityConflict)
    {
      hide StreamInv, Genuine, Extends, Fresh, Accepted;
      var known := LookUp(event);
      if known.Some? {
        assert Valid();
        OneCursor(codec, limits, event.operation, streams[event.operation], history[event.operation]);
        return known.value;
      }
      var anchor, at := ReadAnchor(event.operation);
      GenuineIs(codec, Linked(codec, anchor, event, refs));
      r := AppendLinked(event, refs, anchor, at);
    }
  }

  /** The entry that links an event to an anchor. */
  function Linked(c: Codec, anchor: string, event: Event, refs: seq<string>): Entry {
    Entry(SCHEMA, event, anchor, refs, c.entryDigest(SCHEMA, event.digest, anchor, refs))
  }

  lemma AnsweredTaken(log: seq<Entry>, retained: seq<Entry>, e: Entry, r: Outcome)
    requires Answered(log, retained, e, r)
    ensures r == Done(true) <==> Extends(log, e)
    ensures r == Done(false) ==> e in retained
  {
  }

  /** No two retained entries share a cursor. */
  lemma OneCursor(c: Codec, limits: Limits, operation: string, b: Buffer, log: seq<Entry>)
    requires StreamInv(c, limits, operation, b, log)
    ensures forall x, y :: x in b.entries && y in b.entries && x.event.cursor == y.event.cursor ==> x == y
  {
    hide Chain, Retains;
    forall x, y | x in b.entries && y in b.entries && x.event.cursor == y.event.cursor ensures x == y {
      var i :| 0 <= i < |b.entries| && b.entries[i] == x;
      var j :| 0 <= j < |b.entries| && b.entries[j] == y;
      RetainedCursor(c, operation, b, log, i);
      RetainedCursor(c, operation, b, log, j);
    }
  }

  /** One genuine entry offered to its stream. */
  method Offer(c: Codec, limits: Limits, ghost operation: string, b: Buffer, ghost log: seq<Entry>, e: Entry)
    returns (r: Outcome, b': Buffer)
    requires StreamInv(c, limits, operation, b, log) && Genuine(c, e) && e.event.operation == operation
    ensures Answered(log, b.entries, e, r)
    ensures r == Done(true) ==> StreamInv(c, limits, operation, b', log + [e])
    ensures r != Done(true) ==> b' == b
  {
    hide StreamInv, Genuine, Extends, Fresh, Chain, Retains, Pinned, Answered;
    StreamParts(c, limits, operation, b, log);
    var v := Admit(c, b, e, operation, log);
    match v {
      case Admitted(pinned) =>
        AnsweredTaken(log, b.entries, e, Done(true));
        var pushed := pinned.(entries := b.entries + [e], bytes := b.bytes + c.size(e));
        PinnedSame(pinned, pushed, log + [e]);
        b' := Settled(c, limits, operation, b, log, e, pushed);
        return Done(true), b';
      case Replayed =>
        return Done(false), b;
      case Rejected(error) =>
        return Fail(error), b;
    }
  }

  lemma PinnedSame(b: Buffer, b': Buffer, log: seq<Entry>)
    requires Pinned(b, log) && b' == b.(entries := b'.entries, bytes := b'.bytes)
    ensures Pinned(b', log)
  {
  }

  lemma GenuineIs(c: Codec, e: Entry)
    ensures Genuine(c, e) <==> Problem(c, e) == None
  {
  }

  lemma StreamParts(c: Codec, limits: Limits, operation: string, b: Buffer, log: seq<Entry>)
    requires StreamInv(c, limits, operation, b, log)
    ensures Chain(c, operation, log) && Pinned(b, log) && Retains(c, b, log)
  {
  }

  /** The pushed entry settled into its stream. */
  method Settled(c: Codec, limits: Limits, ghost operation: string, ghost b: Buffer, ghost log: seq<Entry>, e: Entry,
                 pushed: Buffer) returns (trimmed: Buffer)
    requires Chain(c, operation, log) && Retains(c, b, log) && Genuine(c, e) && e.event.operation == operation
    requires Extends(log, e) && Pinned(pushed, log + [e])
    requires pushed.entries == b.entries + [e] && pushed.bytes == b.bytes + c.size(e)
    ensures StreamInv(c, limits, operation, trimmed, log + [e])
  {
    hide Genuine, Extends, Chain, Retains, Bytes, GenerationMax, RevisionMax;
    RetainsExtend(c, b, log, e, pushed);
    ChainExtend(c, operation, log, e);
    RetainsBytes(c, pushed, log + [e]);
    ghost var k;
    trimmed, k := Trim(c, pushed, limits);
    RetainsTrimmed(c, pushed, log + [e], k);
  }

  lemma RetainsBytes(c: Codec, b: Buffer, log: seq<Entry>)
    requires Retains(c, b, log)
    ensures b.bytes == Bytes(c, b.entries)
  {
  }
}
