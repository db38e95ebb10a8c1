/** The bounded turn queue of acp/src/agent.rs as a state machine. Each step is
    one atomic access: a fetch-add, a fetch-sub, or a move of the turn lock.
    Any number of callers interleave them in any order. */
module TurnQueue {
  import opened Text

  type Caller = nat

  const MAX_QUEUED_PROMPTS: nat := 32
  const USIZE: nat := 0x1_0000_0000_0000_0000

  /** Where a caller stands inside `acquire_owned` and the turn that follows. */
  datatype Phase =
    | Added(seen: nat)  // fetch-add done; `seen` is the counter it read plus one
    | Reserved          // holds a slot, has not asked for the lock
    | Queued            // holds a slot, waits for the lock
    | Granted           // holds a slot and the lock
    | Dropping          // the future was dropped; only its slot is left
    | Running           // gave the slot back, owns the turn

  /** `waiting` is the AtomicUsize. The lock is tokio's fair mutex: a release
      hands it to the head of `queue`. `joined`, `granted` and `abandoned` record
      who reached the lock, who got it and who gave up. */
  datatype State = State(
    waiting: nat,
    phases: map<Caller, Phase>,
    owner: Option<Caller>,
    queue: seq<Caller>,
    joined: seq<Caller>,
    granted: seq<Caller>,
    abandoned: set<Caller>)

  datatype Step =
    | FetchAdd(c: Caller)
    | RejectUndo(c: Caller)
    | KeepSlot(c: Caller)
    | Join(c: Caller)
    | GiveSlotBack(c: Caller)
    | Release(c: Caller)
    | DropFuture(c: Caller)
    | DropSlot(c: Caller)

  function Init(): State { State(0, map[], None, [], [], [], {}) }

  function Add(w: nat): nat { (w + 1) % USIZE }
  function Sub(w: nat): nat { (w + USIZE - 1) % USIZE }

  predicate At(s: State, c: Caller, p: Phase) { c in s.phases && s.phases[c] == p }

  /** A caller that never came before starts; fewer than 2^64 callers exist at once. */
  predicate Enabled(s: State, step: Step) {
    match step
    case FetchAdd(c) => c !in s.phases && c !in s.joined && |s.phases| + 1 < USIZE
    case RejectUndo(c) => c in s.phases && s.phases[c].Added? && s.phases[c].seen > MAX_QUEUED_PROMPTS
    case KeepSlot(c) => c in s.phases && s.phases[c].Added? && s.phases[c].seen <= MAX_QUEUED_PROMPTS
    case Join(c) => At(s, c, Reserved)
    case GiveSlotBack(c) => At(s, c, Granted)
    case Release(c) => At(s, c, Running)
    case DropFuture(c) => At(s, c, Queued) || At(s, c, Granted)
    case DropSlot(c) => At(s, c, Dropping)
  }

  function Remove(q: seq<Caller>, c: Caller): seq<Caller> {
    if q == [] then [] else if q[0] == c then Remove(q[1..], c) else [q[0]] + Remove(q[1..], c)
  }

  /** The owner lets go: the longest waiter owns the lock next. */
  function HandOver(s: State): State {
    if s.queue == [] then s.(owner := None)
    else
      var head := s.queue[0];
      s.(owner := Some(head), queue := s.queue[1..], phases := s.phases[head := Granted],
         granted := s.granted + [head])
  }

  function Apply(s: State, step: Step): State
    requires Enabled(s, step)
  {
    match step
    case FetchAdd(c) => s.(waiting := Add(s.waiting), phases := s.phases[c := Added(s.waiting + 1)])
    case RejectUndo(c) => s.(waiting := Sub(s.waiting), phases := s.phases - {c})
    case KeepSlot(c) => s.(phases := s.phases[c := Reserved])
    case Join(c) =>
      if s.owner.None? && s.queue == [] then
        s.(owner := Some(c), phases := s.phases[c := Granted],
           joined := s.joined + [c], granted := s.granted + [c])
      else
        s.(queue := s.queue + [c], phases := s.phases[c := Queued], joined := s.joined + [c])
    case GiveSlotBack(c) => s.(waiting := Sub(s.waiting), phases := s.phases[c := Running])
    case Release(c) => HandOver(s.(phases := s.phases - {c}))
    case DropFuture(c) =>
      if s.phases[c].Queued? then
        s.(queue := Remove(s.queue, c), phases := s.phases[c := Dropping], abandoned := s.abandoned + {c})
      else HandOver(s.(phases := s.phases[c := Dropping]))
    case DropSlot(c) => s.(waiting := Sub(s.waiting), phases := s.phases - {c})
  }

  // ----- runs ---------------------------------------------------------------

  /** `run` starts empty and every state follows from the one before by a step. */
  predicate IsRun(run: seq<State>, steps: seq<Step>) {
    && |run| == |steps| + 1
    && run[0] == Init()
    && forall i :: 0 <= i < |steps| ==> Enabled(run[i], steps[i]) && run[i + 1] == Apply(run[i], steps[i])
  }

  // ----- what every state keeps --------------------------------------------

  predicate HasSlot(p: Phase) { p.Reserved? || p.Queued? || p.Granted? || p.Dropping? }
  predicate Counted(p: Phase) { p.Added? || HasSlot(p) }
  predicate ReachedLock(p: Phase) { p.Queued? || p.Granted? || p.Dropping? || p.Running? }
  predicate Admitted(p: Phase) { HasSlot(p) || (p.Added? && p.seen <= MAX_QUEUED_PROMPTS) }

  function Slots(s: State): set<Caller> { set c | c in s.phases && HasSlot(s.phases[c]) }
  function CountedCallers(s: State): set<Caller> { set c | c in s.phases && Counted(s.phases[c]) }
  function AdmittedCallers(s: State): set<Caller> { set c | c in s.phases && Admitted(s.phases[c]) }

  predicate Distinct(q: seq<Caller>) { forall i, j :: 0 <= i < j < |q| ==> q[i] != q[j] }

  /** Waiters that did not give up, in the order in which they reached the lock. */
  function Kept(q: seq<Caller>, gone: set<Caller>): seq<Caller> {
    if q == [] then [] else (if q[0] in gone then [] else [q[0]]) + Kept(q[1..], gone)
  }

  predicate CounterInv(s: State) {
    && |s.phases| < USIZE
    && s.waiting == |CountedCallers(s)|
    && |AdmittedCallers(s)| <= MAX_QUEUED_PROMPTS
  }

  predicate OwnsLock(p: Phase) { p.Granted? || p.Running? }

  /** The lock's queue is the set of queued callers, each once. */
  predicate QueueInv(s: State) {
    && Distinct(s.queue)
    && (forall c :: c in s.queue ==> c in s.phases && s.phases[c].Queued?)
    && (forall c :: c in s.phases && s.phases[c].Queued? ==> c in s.queue)
  }

  predicate LockInv(s: State) {
    && QueueInv(s)
    && (s.owner.None? ==> s.queue == [])
    && (forall c :: c in s.phases && OwnsLock(s.phases[c]) ==> s.owner == Some(c))
    && (s.owner.Some? ==> s.owner.value in s.phases && OwnsLock(s.phases[s.owner.value]))
  }

  predicate OrderInv(s: State) {
    && Distinct(s.joined)
    && (forall c :: c in s.phases && ReachedLock(s.phases[c]) ==> c in s.joined)
    && (forall c :: c in s.phases && (s.phases[c].Added? || s.phases[c].Reserved?) ==> c !in s.joined)
    && s.abandoned <= (set c | c in s.joined)
    && (forall c :: c in s.queue ==> c !in s.abandoned)
    && Kept(s.joined, s.abandoned) == s.granted + s.queue
  }

  predicate Inv(s: State) { CounterInv(s) && LockInv(s) && OrderInv(s) }

  // ----- the counter --------------------------------------------------------

  lemma CountedBound(s: State)
    ensures CountedCallers(s) <= s.phases.Keys && |CountedCallers(s)| <= |s.phases|
  {
    SubsetSize(CountedCallers(s), s.phases.Keys);
  }

  lemma {:induction false} SubsetSize(a: set<Caller>, b: set<Caller>)
    requires a <= b
    ensures |a| <= |b|
  {
    assert b == a + (b - a);
  }

  lemma AddWraps(w: nat)
    requires w + 1 < USIZE
    ensures Add(w) == w + 1
  {
  }

  lemma SubWraps(w: nat)
    requires 0 < w < USIZE
    ensures Sub(w) == w - 1
  {
  }

  lemma CounterAdd(s: State, c: Caller)
    requires CounterInv(s) && Enabled(s, FetchAdd(c))
    ensures CounterInv(Apply(s, FetchAdd(c)))
  {
    var t := Apply(s, FetchAdd(c));
    CountedBound(s);
    AddWraps(s.waiting);
    assert CountedCallers(t) == CountedCallers(s) + {c};
    assert t.phases.Keys == s.phases.Keys + {c};
    SubsetSize(AdmittedCallers(s), CountedCallers(s));
    if s.waiting + 1 <= MAX_QUEUED_PROMPTS {
      assert AdmittedCallers(t) == AdmittedCallers(s) + {c};
    } else {
      assert AdmittedCallers(t) == AdmittedCallers(s);
    }
  }

  /** A counted caller stops counting: the counter goes down by one and is not zero before. */
  lemma CounterSub(s: State, c: Caller, t: State)
    requires CounterInv(s) && c in s.phases && Counted(s.phases[c])
    requires t.waiting == Sub(s.waiting)
    requires t.phases == s.phases - {c} || t.phases == s.phases[c := Running]
    ensures s.waiting > 0 && CounterInv(t)
  {
    CountedBound(s);
    assert c in CountedCallers(s);
    SubWraps(s.waiting);
    assert CountedCallers(t) == CountedCallers(s) - {c};
    assert AdmittedCallers(t) == AdmittedCallers(s) - {c};
    SubsetSize(AdmittedCallers(t), AdmittedCallers(s));
    assert t.phases.Keys <= s.phases.Keys;
    SubsetSize(t.phases.Keys, s.phases.Keys);
  }

  /** Moves between phases that count alike leave the counter right. */
  lemma CounterMove(s: State, t: State)
    requires CounterInv(s) && t.waiting == s.waiting
    requires t.phases.Keys <= s.phases.Keys
    requires forall c :: c in s.phases && c !in t.phases ==> !Counted(s.phases[c])
    requires forall c :: c in t.phases ==>
               (Counted(t.phases[c]) <==> Counted(s.phases[c])) && (Admitted(t.phases[c]) <==> Admitted(s.phases[c]))
    ensures CounterInv(t)
  {
    assert CountedCallers(t) == CountedCallers(s);
    assert AdmittedCallers(t) == AdmittedCallers(s);
    SubsetSize(t.phases.Keys, s.phases.Keys);
  }

  lemma CounterStep(s: State, step: Step)
    requires CounterInv(s) && LockInv(s) && Enabled(s, step)
    ensures CounterInv(Apply(s, step))
  {
    match step
    case FetchAdd(c) => CounterAdd(s, c);
    case RejectUndo(c) => CounterSub(s, c, Apply(s, step));
    case GiveSlotBack(c) => CounterSub(s, c, Apply(s, step));
    case DropSlot(c) => CounterSub(s, c, Apply(s, step));
    case KeepSlot(c) => CounterMove(s, Apply(s, step));
    case Join(c) => CounterMove(s, Apply(s, step));
    case Release(c) => CounterRelease(s, c);
    case DropFuture(c) => CounterDrop(s, c);
  }

  lemma CounterRelease(s: State, c: Caller)
    requires CounterInv(s) && QueueInv(s) && At(s, c, Running)
    ensures CounterInv(Apply(s, Release(c)))
  {
    CounterMove(s, s.(phases := s.phases - {c}));
    CounterHandOver(s.(phases := s.phases - {c}));
  }

  lemma CounterDrop(s: State, c: Caller)
    requires CounterInv(s) && QueueInv(s) && Enabled(s, DropFuture(c))
    ensures CounterInv(Apply(s, DropFuture(c)))
  {
    var t := s.(phases := s.phases[c := Dropping]);
    CounterMove(s, t);
    if s.phases[c].Queued? {
      CounterMove(t, Apply(s, DropFuture(c)));
    } else {
      CounterHandOver(t);
    }
  }

  lemma CounterHandOver(s: State)
    requires CounterInv(s) && QueueInv(s)
    ensures CounterInv(HandOver(s))
  {
    if s.queue != [] { assert s.queue[0] in s.queue; }
    CounterMove(s, HandOver(s));
  }

  // ----- the lock -----------------------------------------------------------

  lemma {:induction false} RemoveElements(q: seq<Caller>, c: Caller)
    requires Distinct(q)
    ensures Distinct(Remove(q, c))
    ensures forall x :: x in Remove(q, c) <==> x in q && x != c
  {
    if q != [] {
      var rest := Remove(q[1..], c);
      RemoveElements(q[1..], c);
      assert q == [q[0]] + q[1..];
      assert q[0] !in q[1..];
    }
  }

  lemma LockHandOver(s: State)
    requires QueueInv(s)
    requires forall c :: c in s.phases ==> !OwnsLock(s.phases[c])
    ensures LockInv(HandOver(s))
  {
    if s.queue != [] {
      var t := HandOver(s);
      assert s.queue == [s.queue[0]] + t.queue;
      assert s.queue[0] in s.queue && s.queue[0] !in t.queue;
      assert forall c :: c in t.queue ==> c in s.queue;
    }
  }

  lemma LockStep(s: State, step: Step)
    requires LockInv(s) && Enabled(s, step)
    ensures LockInv(Apply(s, step))
  {
    match step
    case FetchAdd(c) => assert c !in s.queue;
    case RejectUndo(c) => assert c !in s.queue;
    case KeepSlot(c) => assert c !in s.queue;
    case Join(c) => assert c !in s.queue;
    case GiveSlotBack(c) => assert c !in s.queue;
    case Release(c) => LockHandOver(s.(phases := s.phases - {c}));
    case DropFuture(c) =>
      if s.phases[c].Queued? {
        RemoveElements(s.queue, c);
      } else {
        LockHandOver(s.(phases := s.phases[c := Dropping]));
      }
    case DropSlot(c) => assert c !in s.queue;
  }

  // ----- the order ----------------------------------------------------------

  lemma {:induction false} KeptAppend(q: seq<Caller>, c: Caller, gone: set<Caller>)
    requires c !in gone
    ensures Kept(q + [c], gone) == Kept(q, gone) + [c]
  {
    if q == [] {
      assert q + [c] == [c] && [c][1..] == [];
    } else {
      assert (q + [c])[0] == q[0] && (q + [c])[1..] == q[1..] + [c];
      KeptAppend(q[1..], c, gone);
    }
  }

  lemma {:induction false} RemoveAbsent(q: seq<Caller>, c: Caller)
    requires c !in q
    ensures Remove(q, c) == q
  {
    if q != [] { RemoveAbsent(q[1..], c); }
  }

  lemma {:induction false} RemoveConcat(p: seq<Caller>, q: seq<Caller>, c: Caller)
    ensures Remove(p + q, c) == Remove(p, c) + Remove(q, c)
  {
    if p == [] {
      assert p + q == q;
    } else {
      assert (p + q)[1..] == p[1..] + q;
      RemoveConcat(p[1..], q, c);
    }
  }

  lemma {:induction false} KeptAbandon(q: seq<Caller>, c: Caller, gone: set<Caller>)
    ensures Kept(q, gone + {c}) == Remove(Kept(q, gone), c)
  {
    if q != [] {
      KeptAbandon(q[1..], c, gone);
      RemoveConcat(if q[0] in gone then [] else [q[0]], Kept(q[1..], gone), c);
    }
  }

  lemma {:induction false} KeptMembers(q: seq<Caller>, gone: set<Caller>)
    ensures forall c :: c in Kept(q, gone) <==> c in q && c !in gone
    ensures Distinct(q) ==> Distinct(Kept(q, gone))
  {
    if q != [] {
      KeptMembers(q[1..], gone);
      assert q == [q[0]] + q[1..];
    }
  }

  lemma OrderJoin(s: State, c: Caller)
    requires Inv(s) && Enabled(s, Join(c))
    ensures OrderInv(Apply(s, Join(c)))
  {
    KeptAppend(s.joined, c, s.abandoned);
    var t := Apply(s, Join(c));
    assert forall x :: x in t.joined <==> x in s.joined || x == c;
    if s.owner.None? && s.queue == [] {
      assert s.granted + [] + [c] == s.granted + [c] + [];
    } else {
      assert s.granted + s.queue + [c] == s.granted + (s.queue + [c]);
    }
  }

  lemma OrderHandOver(s: State)
    requires LockInv(s) && OrderInv(s)
    ensures Kept(s.joined, s.abandoned) == HandOver(s).granted + HandOver(s).queue
    ensures forall c :: c in HandOver(s).queue ==> c in s.queue
    ensures s.queue != [] ==> At(s, s.queue[0], Queued)
  {
    if s.queue != [] {
      assert s.queue == [s.queue[0]] + s.queue[1..];
      assert s.queue[0] in s.queue;
      assert s.granted + ([s.queue[0]] + s.queue[1..]) == s.granted + [s.queue[0]] + s.queue[1..];
    }
  }

  lemma OrderAbandon(s: State, c: Caller)
    requires Inv(s) && At(s, c, Queued)
    ensures OrderInv(Apply(s, DropFuture(c)))
  {
    hide Kept, Remove, CounterInv;
    RemoveElements(s.queue, c);
    AbandonKept(s.joined, s.abandoned, s.granted, s.queue, c);
  }

  lemma AbandonKept(joined: seq<Caller>, gone: set<Caller>, granted: seq<Caller>, queue: seq<Caller>, c: Caller)
    requires Distinct(joined) && Kept(joined, gone) == granted + queue && c in queue
    ensures Kept(joined, gone + {c}) == granted + Remove(queue, c)
  {
    KeptAbandon(joined, c, gone);
    KeptMembers(joined, gone);
    RemoveConcat(granted, queue, c);
    NotBoth(granted, queue, c);
    RemoveAbsent(granted, c);
  }

  lemma NotBoth(p: seq<Caller>, q: seq<Caller>, c: Caller)
    requires Distinct(p + q) && c in q
    ensures c !in p
  {
    var j :| 0 <= j < |q| && q[j] == c;
    assert (p + q)[|p| + j] == c;
    forall i | 0 <= i < |p| ensures p[i] != c { assert (p + q)[i] == p[i]; }
  }

  lemma OrderStep(s: State, step: Step)
    requires Inv(s) && Enabled(s, step)
    ensures OrderInv(Apply(s, step))
  {
    match step
    case FetchAdd(c) =>
    case RejectUndo(c) =>
    case KeepSlot(c) =>
    case Join(c) => OrderJoin(s, c);
    case GiveSlotBack(c) =>
    case Release(c) => OrderHandOver(s);
    case DropFuture(c) =>
      if s.phases[c].Queued? { OrderAbandon(s, c); } else { OrderHandOver(s); }
    case DropSlot(c) =>
  }

  // ----- the theorems -------------------------------------------------------

  lemma InvStep(s: State, step: Step)
    requires Inv(s) && Enabled(s, step)
    ensures Inv(Apply(s, step))
  {
    CounterStep(s, step);
    LockStep(s, step);
    OrderStep(s, step);
  }

  lemma {:induction false} InvRun(run: seq<State>, steps: seq<Step>, i: nat)
    requires IsRun(run, steps) && i < |run|
    ensures Inv(run[i])
    decreases i
  {
    if i == 0 {
      assert CountedCallers(Init()) == {} && AdmittedCallers(Init()) == {};
    } else {
      InvRun(run, steps, i - 1);
      InvStep(run[i - 1], steps[i - 1]);
    }
  }

  /** In every state of every run: the counter is the number of slot holders plus
      the callers between the add and its undo, at most 32 slots are held, and at
      most one caller owns the turn. */
  lemma QueueSafety(run: seq<State>, steps: seq<Step>, i: nat)
    requires IsRun(run, steps) && i < |run|
    ensures run[i].waiting == |Slots(run[i])| + |CountedCallers(run[i]) - Slots(run[i])|
    ensures forall c :: c in CountedCallers(run[i]) - Slots(run[i]) ==> run[i].phases[c].Added?
    ensures |Slots(run[i])| <= MAX_QUEUED_PROMPTS
    ensures forall c, d :: At(run[i], c, Running) && At(run[i], d, Running) ==> c == d
  {
    InvRun(run, steps, i);
    var s := run[i];
    SlotCounts(s);
    forall c, d | At(s, c, Running) && At(s, d, Running) ensures c == d {
      assert OwnsLock(s.phases[c]) && OwnsLock(s.phases[d]);
    }
  }

  lemma SlotCounts(s: State)
    requires CounterInv(s)
    ensures s.waiting == |Slots(s)| + |CountedCallers(s) - Slots(s)|
    ensures |Slots(s)| <= MAX_QUEUED_PROMPTS
  {
    assert Slots(s) <= CountedCallers(s);
    assert CountedCallers(s) == Slots(s) + (CountedCallers(s) - Slots(s));
    assert Slots(s) <= AdmittedCallers(s);
    SubsetSize(Slots(s), AdmittedCallers(s));
  }

  /** Every undo and every slot that is given back finds the counter above zero. */
  lemma NoUnderflow(run: seq<State>, steps: seq<Step>, i: nat)
    requires IsRun(run, steps) && i < |steps|
    ensures steps[i].RejectUndo? || steps[i].GiveSlotBack? || steps[i].DropSlot? ==>
              run[i].waiting > 0 && run[i + 1].waiting == run[i].waiting - 1
  {
    InvRun(run, steps, i);
    var s := run[i];
    if steps[i].RejectUndo? || steps[i].GiveSlotBack? || steps[i].DropSlot? {
      CounterSub(s, steps[i].c, run[i + 1]);
      CountedBound(s);
      SubWraps(s.waiting);
    }
  }

  /** No capacity leaks: when nobody is left but, at most, the running turn, the counter is zero. */
  lemma NoLeak(run: seq<State>, steps: seq<Step>, i: nat)
    requires IsRun(run, steps) && i < |run|
    requires forall c :: c in run[i].phases ==> run[i].phases[c].Running?
    ensures run[i].waiting == 0
  {
    InvRun(run, steps, i);
    assert CountedCallers(run[i]) == {};
  }

  /** Turns are granted in the order in which callers reached the lock, skipping
      exactly those that gave up while waiting. */
  lemma GrantedInOrder(run: seq<State>, steps: seq<Step>, i: nat)
    requires IsRun(run, steps) && i < |run|
    ensures Kept(run[i].joined, run[i].abandoned) == run[i].granted + run[i].queue
    ensures QueueInv(run[i])
    ensures Distinct(run[i].joined)
  {
    InvRun(run, steps, i);
  }

  /** When a prompt is turned away: it read a counter of at least 32, and that
      counter is slot holders plus other callers that have not undone their own
      add. With no such caller around, exactly a full queue rejects. */
  lemma RejectionExact(run: seq<State>, steps: seq<Step>, i: nat)
    requires IsRun(run, steps) && i < |steps| && steps[i].FetchAdd?
    ensures var s, c := run[i], steps[i].c;
            && c in run[i + 1].phases && run[i + 1].phases[c].Added?
            && (run[i + 1].phases[c].seen > MAX_QUEUED_PROMPTS
                <==> |Slots(s)| + |CountedCallers(s) - Slots(s)| >= MAX_QUEUED_PROMPTS)
            && ((forall d :: d in s.phases ==> !s.phases[d].Added?) ==>
                 (run[i + 1].phases[c].seen > MAX_QUEUED_PROMPTS <==> |Slots(s)| == MAX_QUEUED_PROMPTS))
  {
    QueueSafety(run, steps, i);
    var s := run[i];
    if forall d :: d in s.phases ==> !s.phases[d].Added? {
      assert CountedCallers(s) - Slots(s) == {};
    }
  }

  // ----- a rejection below the limit ---------------------------------------

  function Last(run: seq<State>): State
    requires run != []
  {
    run[|run| - 1]
  }

  lemma Extend(run: seq<State>, steps: seq<Step>, step: Step) returns (r: seq<State>, t: seq<Step>)
    requires IsRun(run, steps) && Enabled(Last(run), step)
    ensures IsRun(r, t) && Last(r) == Apply(Last(run), step)
    ensures |t| == |steps| + 1 && t[|steps|] == step && r[|steps|] == Last(run)
  {
    hide Apply, Enabled;
    r, t := run + [Apply(Last(run), step)], steps + [step];
    forall i | 0 <= i < |t| ensures Enabled(r[i], t[i]) && r[i + 1] == Apply(r[i], t[i]) {
      if i < |steps| { assert r[i] == run[i] && r[i + 1] == run[i + 1] && t[i] == steps[i]; }
    }
  }

  function ReservedMap(n: nat): map<Caller, Phase> {
    if n == 0 then map[] else ReservedMap(n - 1)[n - 1 := Reserved]
  }

  /** `n` callers that have reserved a slot and nothing else. */
  function AllReserved(n: nat): State { Init().(waiting := n, phases := ReservedMap(n)) }

  lemma {:induction false} ReservedFacts(n: nat)
    ensures |ReservedMap(n)| == n
    ensures forall c: Caller :: c in ReservedMap(n) <==> c < n
    ensures forall c :: c in ReservedMap(n) ==> ReservedMap(n)[c] == Reserved
  {
    if n > 0 {
      ReservedFacts(n - 1);
      assert ReservedMap(n).Keys == ReservedMap(n - 1).Keys + {n - 1};
    }
  }

  lemma ReserveOne(n: nat)
    requires 0 < n <= MAX_QUEUED_PROMPTS
    ensures Enabled(AllReserved(n - 1), FetchAdd(n - 1))
    ensures var added := Apply(AllReserved(n - 1), FetchAdd(n - 1));
            Enabled(added, KeepSlot(n - 1)) && Apply(added, KeepSlot(n - 1)) == AllReserved(n)
  {
    ReservedFacts(n - 1);
  }

  lemma {:induction false} FillQueue(n: nat) returns (run: seq<State>, steps: seq<Step>)
    requires n <= MAX_QUEUED_PROMPTS
    ensures IsRun(run, steps) && Last(run) == AllReserved(n)
  {
    if n == 0 {
      run, steps := [Init()], [];
    } else {
      hide IsRun, Apply, Enabled;
      run, steps := FillQueue(n - 1);
      ReserveOne(n);
      run, steps := Extend(run, steps, FetchAdd(n - 1));
      run, steps := Extend(run, steps, KeepSlot(n - 1));
    }
  }

  /** A queue filled by callers 0 to n-1, caller `n` rejected but with its add not
      yet undone, and caller 0 running. */
  predicate StaleAdd(s: State, n: nat) {
    && s.waiting == n && s.joined == [0]
    && s.phases == ReservedMap(n)[n := Added(n + 1)][0 := Running]
  }

  lemma StaleAddSteps(n: nat)
    requires n == MAX_QUEUED_PROMPTS
    ensures Enabled(AllReserved(n), FetchAdd(n))
    ensures var s1 := Apply(AllReserved(n), FetchAdd(n));
            Enabled(s1, Join(0)) && Enabled(Apply(s1, Join(0)), GiveSlotBack(0))
            && StaleAdd(Apply(Apply(s1, Join(0)), GiveSlotBack(0)), n)
  {
    hide ReservedMap;
    ReservedFacts(n);
    var s1 := Apply(AllReserved(n), FetchAdd(n));
    AddWraps(n);
    var s2 := Apply(s1, Join(0));
    SubWraps(n + 1);
  }

  lemma ReachStaleAdd(n: nat) returns (run: seq<State>, steps: seq<Step>)
    requires n == MAX_QUEUED_PROMPTS
    ensures IsRun(run, steps) && StaleAdd(Last(run), n)
  {
    run, steps := FillQueue(n);
    StaleAddSteps(n);
    run, steps := Extend(run, steps, FetchAdd(n));
    run, steps := Extend(run, steps, Join(0));
    run, steps := Extend(run, steps, GiveSlotBack(0));
  }

  lemma StaleAddFacts(s: State, n: nat)
    requires n > 0 && StaleAdd(s, n)
    ensures |Slots(s)| == n - 1
  {
    hide ReservedMap;
    ReservedFacts(n);
    var reserved := ReservedMap(n);
    forall c ensures c in Slots(s) <==> c in reserved.Keys - {0} {
      assert c in reserved ==> c != n && reserved[c] == Reserved;
    }
    assert Slots(s) == reserved.Keys - {0} && 0 in reserved;
  }

  lemma StaleAddRejects(s: State, n: nat)
    requires n == MAX_QUEUED_PROMPTS && StaleAdd(s, n)
    ensures Enabled(s, FetchAdd(n + 1)) && Enabled(Apply(s, FetchAdd(n + 1)), RejectUndo(n + 1))
  {
    hide ReservedMap;
    ReservedFacts(n);
    assert s.phases.Keys == ReservedMap(n).Keys + {n};
    assert |s.phases| == n + 1;
    assert n + 1 !in s.phases;
  }

  /** A prompt can be turned away although only 31 slots are held: another
      rejected caller has not undone its add yet. */
  lemma RejectedBelowTheLimit() returns (run: seq<State>, steps: seq<Step>, i: nat)
    ensures IsRun(run, steps) && i < |steps| && steps[i].FetchAdd?
    ensures |Slots(run[i])| == MAX_QUEUED_PROMPTS - 1
    ensures Enabled(run[i + 1], RejectUndo(steps[i].c))
  {
    var n := MAX_QUEUED_PROMPTS;
    run, steps := ReachStaleAdd(n);
    i := |steps|;
    InvRun(run, steps, i);
    StaleAddFacts(run[i], n);
    StaleAddRejects(run[i], n);
    run, steps := Extend(run, steps, FetchAdd(n + 1));
  }
}
