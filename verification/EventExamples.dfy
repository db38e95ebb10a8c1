/** Concrete streams of the event log: one operation, two events of different
    revisions, and a collision-free codec under which their entries are genuine. */
module EventExamples {
  import opened Text
  import opened EffectEncoding
  import opened EventLog
  import opened EventReplay
  import opened EventAppenders

  // ----- a collision-free codec --------------------------------------------

  /** A text that can be told from what follows it. */
  function Marked(s: string): string {
    if s == "" then "0" else "1" + [s[0]] + Marked(s[1..])
  }

  lemma {:induction false} MarkedPrefix(s: string, x: string, t: string, y: string)
    requires Marked(s) + x == Marked(t) + y
    ensures s == t && x == y
    decreases |s|
  {
    var a, b := Marked(s) + x, Marked(t) + y;
    assert a[0] == b[0];
    if s == "" {
      assert a[1..] == x && b[1..] == y;
    } else {
      assert a[1] == s[0] && b[1] == t[0];
      assert a[2..] == Marked(s[1..]) + x && b[2..] == Marked(t[1..]) + y;
      MarkedPrefix(s[1..], x, t[1..], y);
      assert s == [s[0]] + s[1..] && t == [t[0]] + t[1..];
    }
  }

  function MarkedAll(refs: seq<string>): string {
    if refs == [] then "0" else "1" + Marked(refs[0]) + MarkedAll(refs[1..])
  }

  lemma {:induction false} MarkedAllInjective(a: seq<string>, b: seq<string>)
    requires MarkedAll(a) == MarkedAll(b)
    ensures a == b
    decreases |a|
  {
    hide Marked;
    if a != [] && b != [] {
      assert MarkedAll(a)[1..] == Marked(a[0]) + MarkedAll(a[1..]);
      assert MarkedAll(b)[1..] == Marked(b[0]) + MarkedAll(b[1..]);
      MarkedPrefix(a[0], MarkedAll(a[1..]), b[0], MarkedAll(b[1..]));
      MarkedAllInjective(a[1..], b[1..]);
      assert a == [a[0]] + a[1..] && b == [b[0]] + b[1..];
    } else {
      assert MarkedAll(a)[0] == MarkedAll(b)[0];
    }
  }

  function Plain(s: string, e: string, p: string, r: seq<string>): string {
    "x" + (Marked(s) + (Marked(e) + (Marked(p) + MarkedAll(r))))
  }

  lemma PlainInjective(s: string, e: string, p: string, r: seq<string>, s': string, e': string, p': string,
                       r': seq<string>)
    requires Plain(s, e, p, r) == Plain(s', e', p', r')
    ensures s == s' && e == e' && p == p' && r == r'
  {
    hide Marked, MarkedAll;
    var x, x' := Marked(e) + (Marked(p) + MarkedAll(r)), Marked(e') + (Marked(p') + MarkedAll(r'));
    assert Plain(s, e, p, r)[1..] == Marked(s) + x && Plain(s', e', p', r')[1..] == Marked(s') + x';
    MarkedPrefix(s, x, s', x');
    MarkedPrefix(e, Marked(p) + MarkedAll(r), e', Marked(p') + MarkedAll(r'));
    MarkedPrefix(p, MarkedAll(r), p', MarkedAll(r'));
    MarkedAllInjective(r, r');
  }

  const FIRST: Event := Event("op", 0, None, 1, "a", "")
  const SECOND: Event := Event("op", 1, None, 2, "b", "")

  /** Which of the entries used here the arguments belong to, if any. */
  function Known(s: string, e: string, p: string, r: seq<string>): (k: nat)
    ensures k <= 3
  {
    if s != SCHEMA || r != [] then 0
    else if e == "a" && p == GENESIS then 1
    else if e == "b" && p == Stamp('1') then 2
    else if e == "b" && p == GENESIS then 3
    else 0
  }

  /** Digests in the required form for those, plain texts for all others. */
  function Digest(s: string, e: string, p: string, r: seq<string>): string {
    match Known(s, e, p, r)
    case 0 => Plain(s, e, p, r)
    case 1 => Stamp('1')
    case 2 => Stamp('2')
    case _ => Stamp('3')
  }

  function ExampleCodec(): Codec { Codec(Digest, e => e == FIRST || e == SECOND, e => 1) }

  lemma DigestShape(s: string, e: string, p: string, r: seq<string>)
    ensures var d, k := Digest(s, e, p, r), Known(s, e, p, r);
            && (k == 0 ==> d == Plain(s, e, p, r) && d[0] == 'x')
            && (k > 0 ==> |d| == 71 && d[0] == 's' && d[70] == if k == 1 then '1' else if k == 2 then '2' else '3')
            && (k > 0 ==> ValidDigest(d))
  {
    hide Known;
    assert Stamp('1')[0] == 's' && Stamp('2')[0] == 's' && Stamp('3')[0] == 's';
  }

  lemma SameKnown(s: string, e: string, p: string, r: seq<string>, s': string, e': string, p': string, r': seq<string>)
    requires Known(s, e, p, r) == Known(s', e', p', r') > 0
    ensures s == s' && e == e' && p == p' && r == r'
  {
    hide Stamp;
  }

  lemma DigestInjective(s: string, e: string, p: string, r: seq<string>, s': string, e': string, p': string,
                        r': seq<string>)
    requires Digest(s, e, p, r) == Digest(s', e', p', r')
    ensures s == s' && e == e' && p == p' && r == r'
  {
    hide Digest, Known, Plain, ValidDigest;
    DigestShape(s, e, p, r);
    DigestShape(s', e', p', r');
    if Known(s, e, p, r) == 0 {
      PlainInjective(s, e, p, r, s', e', p', r');
    } else {
      SameKnown(s, e, p, r, s', e', p', r');
    }
  }

  lemma NeverGenesis(s: string, e: string, p: string, r: seq<string>)
    ensures Digest(s, e, p, r) != GENESIS
  {
    DigestShape(s, e, p, r);
    assert GENESIS[0] == 's';
    hide Digest, Known, Plain, ValidDigest, Stamp;
  }

  lemma ExampleCollisionFree()
    ensures CollisionFree(ExampleCodec())
  {
    hide Digest, Stamp;
    forall s, e, p, r, s', e', p', r' | Digest(s, e, p, r) == Digest(s', e', p', r')
      ensures s == s' && e == e' && p == p' && r == r' {
      DigestInjective(s, e, p, r, s', e', p', r');
    }
    forall s, e, p, r ensures Digest(s, e, p, r) != GENESIS { NeverGenesis(s, e, p, r); }
  }

  // ----- two entries --------------------------------------------------------

  function FirstEntry(c: Codec): Entry { Linked(c, GENESIS, FIRST, []) }

  /** Linked to the first entry. */
  function SecondEntry(c: Codec): Entry { Linked(c, FirstEntry(c).digest, SECOND, []) }

  /** Linked to the genesis, by an appender that read its anchor before the first entry was written. */
  function LateEntry(c: Codec): Entry { Linked(c, GENESIS, SECOND, []) }

  /** Everything the examples need of a codec. */
  ghost predicate Suitable(c: Codec) {
    && CollisionFree(c) && Genuine(c, FirstEntry(c)) && Genuine(c, SecondEntry(c)) && Genuine(c, LateEntry(c))
  }

  lemma ExampleSuitable()
    ensures Suitable(ExampleCodec())
  {
    hide Stamp, Plain, CollisionFree;
    ExampleCollisionFree();
    var c := ExampleCodec();
    DigestShape(SCHEMA, "a", GENESIS, []);
    DigestShape(SCHEMA, "b", Stamp('1'), []);
    DigestShape(SCHEMA, "b", GENESIS, []);
    assert GENESIS[70] == '0' && Stamp('1')[70] == '1';
    assert FirstEntry(c).digest == Stamp('1');
  }

  /** Two unstamped entries, the second linked to the first and of a newer revision. */
  predicate Pair(c: Codec, operation: string, x: Entry, y: Entry) {
    && Genuine(c, x) && x.event.operation == operation && x.event.cursor == 0 && x.previous == GENESIS
    && Genuine(c, y) && y.event.operation == operation && y.event.cursor == 1 && y.previous == x.digest
    && x.event.generation == y.event.generation == None && x.event.revision < y.event.revision
  }

  lemma PairChain(c: Codec, operation: string, x: Entry, y: Entry)
    requires Pair(c, operation, x, y)
    ensures Chain(c, operation, [x, y]) && Head([x, y]) == y.digest
    ensures GenerationMax([x, y]) == None && RevisionMax([x, y]) == y.event.revision
  {
    hide Genuine, Stamp, GenerationMax, RevisionMax, Chain;
    NoPins();
    assert Chain(c, operation, []) by { EmptyStream(c, Limits(None, None), operation); }
    PinsStep([], x);
    ChainExtend(c, operation, [], x);
    assert [] + [x] == [x] && [x] + [y] == [x, y];
    PinsStep([x], y);
    ChainExtend(c, operation, [x], y);
  }

  lemma StreamOfTwo(c: Codec, operation: string, x: Entry, y: Entry)
    requires Pair(c, operation, x, y)
    ensures StreamInv(c, Limits(None, None), operation,
                      Buffer([x, y], Bytes(c, [x, y]), 2, Some(y.digest), None, y.event.revision), [x, y])
  {
    hide Pair, Bytes, GenerationMax, RevisionMax, Chain;
    PairChain(c, operation, x, y);
    assert [x, y][0..] == [x, y];
  }

  /** An intact stream of two entries under a collision-free codec, the second of a newer revision. */
  lemma TwoEntryStream() returns (c: Codec, b: Buffer, log: seq<Entry>)
    ensures CollisionFree(c) && StreamInv(c, Limits(None, None), "op", b, log)
    ensures |log| == 2 && b.entries == log && log[0].event == FIRST && log[1].event == SECOND
  {
    hide Genuine, CollisionFree, StreamInv, ExampleCodec;
    c := ExampleCodec();
    ExampleSuitable();
    var x, y := FirstEntry(c), SecondEntry(c);
    StreamOfTwo(c, "op", x, y);
    log := [x, y];
    b := Buffer(log, Bytes(c, log), 2, Some(y.digest), None, y.event.revision);
  }

  /** Paging fails on it: the first page of one entry denies the second entry, and
      asking for the second is refused. */
  lemma PagingFails() returns (c: Codec, b: Buffer, log: seq<Entry>)
    ensures CollisionFree(c) && StreamInv(c, Limits(None, None), "op", b, log) && |b.entries| == 2
    ensures PageOf(c, b, None, 1).Paged? && !PageOf(c, b, None, 1).page.hasMore
    ensures PageOf(c, b, Some(0), 1) == Refused(CausalityConflict)
  {
    hide CollisionFree, StreamInv, PageOf;
    c, b, log := TwoEntryStream();
    TwoEntries(c, Limits(None, None), "op", b, log);
  }

  /** Replay fails on it: the older entry, retained, is refused as stale. */
  lemma ReplayFails() returns (c: Codec, b: Buffer, log: seq<Entry>)
    ensures StreamInv(c, Limits(None, None), "op", b, log) && |log| == 2 && log[0] in b.entries
    ensures forall r :: Answered(log, b.entries, log[0], r) ==> r == Fail(StaleRevision)
  {
    hide StreamInv, CollisionFree, GenerationMax, RevisionMax;
    c, b, log := TwoEntryStream();
    NoPins();
    assert log == [] + [log[0]] + [log[1]];
    PinsStep([], log[0]);
    PinsStep([] + [log[0]], log[1]);
  }

  lemma NoPins()
    ensures GenerationMax([]) == None && RevisionMax([]) == 0
  {
  }

  method RunTwoAppenders(c: Codec) returns (log: CoreEventLog, first: Outcome, second: Outcome)
    requires Suitable(c)
    ensures log.Valid() && log.codec == c
    ensures log.sections == [Anchor("op"), Anchor("op"), Write(FirstEntry(c)), Write(LateEntry(c))]
    ensures first == Done(true) && second == Fail(CausalityConflict)
  {
    hide CollisionFree, Genuine, Stamp, StreamInv, Tied, GenerationMax, RevisionMax, Accepted;
    NoPins();
    log := new CoreEventLog(c, None, None);
    var a, i := log.ReadAnchor("op");
    var b, j := log.ReadAnchor("op");
    assert log.sections[..i] == [] && log.sections[..j] == [] + [Anchor("op")];
    NothingAccepted(c);
    first := log.AppendLinked(FIRST, [], a, i);
    assert [] + [FirstEntry(c)] == [FirstEntry(c)];
    PinsStep([], FirstEntry(c));
    NotGenesis(c, FirstEntry(c));
    assert log.sections[..j] == [] + [Anchor("op")];
    second := log.AppendLinked(SECOND, [], b, j);
  }

  lemma NothingAccepted(c: Codec)
    ensures Accepted(c, [], "op") == [] && Accepted(c, [] + [Anchor("op")], "op") == []
  {
    AcceptedNext(c, [], Anchor("op"), "op");
  }

  /** Two appenders read the same anchor; the first entry is taken, and the second, whose cursor is
      next by then, is refused as a causality conflict. */
  method TwoAppenders() returns (log: CoreEventLog, first: Outcome, second: Outcome)
    ensures log.Valid() && CollisionFree(log.codec)
    ensures |log.sections| == 4 && log.sections[0] == log.sections[1] == Anchor("op")
    ensures log.sections[2] == Write(FirstEntry(log.codec)) && log.sections[3] == Write(LateEntry(log.codec))
    ensures first == Done(true) && second == Fail(CausalityConflict)
  {
    hide CollisionFree, ExampleCodec, Genuine, Tied, StreamInv;
    ExampleSuitable();
    log, first, second := RunTwoAppenders(ExampleCodec());
  }
}
