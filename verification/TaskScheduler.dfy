/** The admission scheduler of core/src/task_scheduler.rs: one actor owns the queue,
    the leases and the quotas; callers submit, wait, hold and drop. Every interleaving
    of their steps keeps the books exact and the capacity bounds. */
module TaskScheduler {
  import opened SchedulerBooks

  // ----- aging --------------------------------------------------------------

  /** The class work has aged into: one class per interval waited, never past the
      class behind urgent; urgent work does not age. */
  function Aged(priority: nat, waited: nat, interval: nat): nat
    requires interval > 0
  {
    if priority == 0 then 0
    else
      var levels := if waited / interval > 255 then 255 else waited / interval;
      if priority > levels + 1 then priority - levels else 1
  }

  lemma AgingPromotes(priority: nat, waited: nat, waited': nat, interval: nat)
    requires interval > 0 && waited <= waited'
    ensures Aged(priority, waited', interval) <= Aged(priority, waited, interval) <= priority
    ensures Aged(priority, waited, interval) == 0 <==> priority == 0
    ensures 0 < priority <= 255 && waited >= interval * (priority - 1) ==> Aged(priority, waited, interval) == 1
  {
    QuotientMonotone(waited, waited', interval);
    if 0 < priority && waited >= interval * (priority - 1) {
      QuotientBound(waited, interval, priority - 1);
    }
  }

  /** Aging takes its time: a class is gained only for a whole interval waited, and short of the class
      behind urgent every whole interval gains one. */
  lemma AgingIsGradual(priority: nat, waited: nat, interval: nat)
    requires interval > 0 && priority > 0
    ensures 1 <= Aged(priority, waited, interval) <= priority
    ensures interval * (priority - Aged(priority, waited, interval)) <= waited
    ensures priority <= 255 ==> Aged(priority, waited, interval) == 1
                                || waited < interval * (priority - Aged(priority, waited, interval) + 1)
  {
    hide Aged;
    AgedLevels(priority, waited, interval);
    Intervals(waited, interval);
    Scaled(interval, priority - Aged(priority, waited, interval), waited / interval);
  }

  lemma AgedLevels(priority: nat, waited: nat, interval: nat)
    requires interval > 0 && priority > 0
    ensures 1 <= Aged(priority, waited, interval) <= priority
    ensures priority - Aged(priority, waited, interval) <= waited / interval
    ensures priority <= 255 && Aged(priority, waited, interval) != 1 ==>
              priority - Aged(priority, waited, interval) == waited / interval
  {
  }

  lemma Intervals(waited: nat, interval: nat)
    requires interval > 0
    ensures interval * (waited / interval) <= waited < interval * (waited / interval + 1)
  {
  }

  lemma Scaled(d: nat, a: nat, b: nat)
    requires a <= b
    ensures d * a <= d * b
  {
    assert d * b == d * a + d * (b - a);
  }

  lemma QuotientMonotone(a: nat, b: nat, d: nat)
    requires d > 0 && a <= b
    ensures a / d <= b / d
  {
    var x, y := a / d, b / d;
    assert a == d * x + a % d && b == d * y + b % d;
    assert x > y ==> d * x >= d * (y + 1);
  }

  lemma QuotientBound(a: nat, d: nat, q: nat)
    requires d > 0 && a >= d * q
    ensures a / d >= q
  {
    var x := a / d;
    assert a == d * x + a % d;
    assert x < q ==> d * (x + 1) <= d * q;
  }

  function Reprioritized(it: Item, now: nat, interval: nat): Item
    requires interval > 0
  {
    it.(effective := Aged(it.priority, if now > it.enqueuedAt then now - it.enqueuedAt else 0, interval))
  }

  /** The admissions of a queue, their classes apart. */
  function Bases(pending: seq<Item>): set<Item> { set it | it in pending :: it.(effective := 0) }

  ghost predicate SameAdmissions(pending: seq<Item>, queue: seq<Item>) {
    |queue| == |pending| && Bases(queue) == Bases(pending)
  }

  /** The queued admissions, each in the class it has aged into. */
  function Aging(pending: seq<Item>, now: nat, interval: nat): set<Item>
    requires interval > 0
  {
    set x | x in pending :: Reprioritized(x, now, interval)
  }

  function Members(items: seq<Item>): set<Item> { set x | x in items }

  /** `apply_aging` */
  method Reorder(pending: seq<Item>, now: nat, interval: nat) returns (queue: seq<Item>)
    requires interval > 0 && Queued(pending) && DistinctIds(pending) && DistinctArrivals(pending)
    ensures Queued(queue) && DistinctIds(queue) && DistinctArrivals(queue) && |queue| == |pending|
    ensures Members(queue) == Aging(pending, now, interval)
  {
    hide Push, Queued, Reprioritized, Aging, Members;
    queue := [];
    EmptyQueue(now, interval);
    for k := 0 to |pending|
      invariant Queued(queue) && DistinctIds(queue) && DistinctArrivals(queue) && |queue| == k
      invariant Members(queue) == Aging(pending[..k], now, interval)
    {
      var it := Reprioritized(pending[k], now, interval);
      NewInQueue(pending, queue, k, now, interval);
      PushKeeps(queue, it);
      PushMembers(queue, it);
      PushAt(queue, it, 0);
      AgingNext(pending, queue, Push(queue, it), k, now, interval);
      queue := Push(queue, it);
    }
    assert pending[..|pending|] == pending;
  }

  lemma EmptyQueue(now: nat, interval: nat)
    requires interval > 0
    ensures Queued([]) && DistinctIds([]) && DistinctArrivals([]) && Members([]) == Aging([], now, interval)
  {
  }

  lemma NewInQueue(pending: seq<Item>, queue: seq<Item>, k: nat, now: nat, interval: nat)
    requires interval > 0 && k < |pending| && DistinctIds(pending) && DistinctArrivals(pending)
    requires Members(queue) == Aging(pending[..k], now, interval)
    ensures var it := Reprioritized(pending[k], now, interval);
            it.id !in Ids(queue) && forall x :: x in queue ==> x.arrival != it.arrival
  {
    hide Aged;
    forall x | x in queue ensures x.id != pending[k].id && x.arrival != pending[k].arrival {
      assert x in Members(queue);
      var y :| y in pending[..k] && x == Reprioritized(y, now, interval);
      var i :| 0 <= i < k && pending[i] == y;
    }
  }

  lemma AgingNext(pending: seq<Item>, queue: seq<Item>, queue': seq<Item>, k: nat, now: nat, interval: nat)
    requires interval > 0 && k < |pending| && Members(queue) == Aging(pending[..k], now, interval)
    requires forall x :: x in queue' <==> x == Reprioritized(pending[k], now, interval) || x in queue
    ensures Members(queue') == Aging(pending[..k + 1], now, interval)
  {
    hide Reprioritized;
    assert pending[..k + 1] == pending[..k] + [pending[k]];
    assert Aging(pending[..k + 1], now, interval)
           == Aging(pending[..k], now, interval) + {Reprioritized(pending[k], now, interval)};
    assert Members(queue') == Members(queue) + {Reprioritized(pending[k], now, interval)};
  }

  lemma ReorderSame(pending: seq<Item>, queue: seq<Item>, now: nat, interval: nat)
    requires interval > 0 && |queue| == |pending| && Members(queue) == Aging(pending, now, interval)
    ensures SameAdmissions(pending, queue)
  {
    hide Aged;
    forall b ensures b in Bases(queue) <==> b in Bases(pending) {
      if b in Bases(queue) {
        var x :| x in queue && x.(effective := 0) == b;
        assert x in Members(queue);
        var y :| y in pending && x == Reprioritized(y, now, interval);
        assert y.(effective := 0) == b;
      }
      if b in Bases(pending) {
        var y :| y in pending && y.(effective := 0) == b;
        assert Reprioritized(y, now, interval) in Members(queue);
        assert Reprioritized(y, now, interval).(effective := 0) == b;
      }
    }
  }

  lemma WaitingByBase(pending: seq<Item>, key: string)
    ensures Waiting(pending, key) == set b | b in Bases(pending) && key in Keys(b.quotas) :: b.id
  {
    var w := set b | b in Bases(pending) && key in Keys(b.quotas) :: b.id;
    forall id ensures id in Waiting(pending, key) <==> id in w {
      if id in Waiting(pending, key) {
        var x :| x in pending && key in Keys(x.quotas) && x.id == id;
        var b := x.(effective := 0);
        assert b in Bases(pending) && b.quotas == x.quotas && b.id == id;
      }
      if id in w {
        var b :| b in Bases(pending) && key in Keys(b.quotas) && b.id == id;
        var x :| x in pending && x.(effective := 0) == b;
        assert x.quotas == b.quotas && x.id == id;
      }
    }
  }

  lemma SameBooks(quotas: map<string, Usage>, pending: seq<Item>, active: map<nat, Lease>, queue: seq<Item>)
    requires SameAdmissions(pending, queue) && Books(quotas, pending, active) && Registered(quotas, pending)
    ensures Books(quotas, queue, active) && Registered(quotas, queue)
  {
    hide Waiting, Running, Bases;
    forall key ensures Booked(quotas, queue, active, key) {
      assert Booked(quotas, pending, active, key);
      WaitingByBase(pending, key);
      WaitingByBase(queue, key);
    }
    forall x, q | x in queue && q in x.quotas ensures q.key in quotas && quotas[q.key].limit == q.limit {
      var y := Counterpart(pending, queue, x);
    }
  }

  /** An admission's item before the queue was reordered. */
  lemma Counterpart(pending: seq<Item>, queue: seq<Item>, x: Item) returns (y: Item)
    requires Bases(queue) == Bases(pending) && x in queue
    ensures y in pending && y == x.(effective := y.effective)
  {
    assert x.(effective := 0) in Bases(pending);
    y :| y in pending && y.(effective := 0) == x.(effective := 0);
  }

  // ----- the actor's state --------------------------------------------------

  const MAX_PENDING: nat := 4_096

  datatype Counters = Counters(admitted: nat, released: nat, cancelled: nat, rejected: nat)

  /** The scheduler state. */
  datatype State = State(pending: seq<Item>, active: map<nat, Lease>, quotas: map<string, Usage>, closing: bool,
                         nextArrival: nat, counters: Counters)

  datatype Config = Config(maxActive: nat, agingInterval: nat)

  predicate ConfigOk(c: Config) { c.maxActive > 0 && c.agingInterval > 0 }

  predicate QueueOk(s: State) {
    && Queued(s.pending) && DistinctIds(s.pending) && DistinctArrivals(s.pending)
    && (forall it :: it in s.pending ==> it.id !in s.active && it.arrival < s.nextArrival && Requestable(it))
    && (s.closing ==> s.pending == [])
  }

  /** `offered` admissions passed the capacity check; every one is somewhere. */
  predicate Counted(s: State, offered: nat) {
    && s.counters.admitted == |s.active| + s.counters.released
    && offered == |s.pending| + |s.active| + s.counters.released + s.counters.cancelled + s.counters.rejected
  }

  ghost predicate Inv(c: Config, s: State, offered: nat) {
    && QueueOk(s) && Books(s.quotas, s.pending, s.active) && Registered(s.quotas, s.pending)
    && (forall id :: id in s.active ==> DistinctKeys(s.active[id].keys))
    && |Global(s.active)| <= c.maxActive && Counted(s, offered)
  }

  /** `quota_allows` and the global slot: the admission could start now. */
  predicate Fits(c: Config, s: State, it: Item) {
    && (!it.globalSlot || |Global(s.active)| < c.maxActive)
    && forall key :: key in Keys(it.quotas) ==> key in s.quotas && s.quotas[key].active < s.quotas[key].limit
  }

  /** Nothing that could run is waiting. */
  predicate Idle(c: Config, s: State) { forall it :: it in s.pending ==> !Fits(c, s, it) }

  /** The same by the leases alone: a global slot, and room under each of its own limits. */
  predicate Room(c: Config, active: map<nat, Lease>, it: Item) {
    && (!it.globalSlot || |Global(active)| < c.maxActive)
    && forall q :: q in it.quotas ==> |Running(active, q.key)| < q.limit
  }

  lemma FitsIsRoom(c: Config, s: State, it: Item, offered: nat)
    requires Inv(c, s, offered) && it in s.pending
    ensures Fits(c, s, it) <==> Room(c, s.active, it)
  {
    hide QueueOk, Counted, Global, Running, Waiting;
    if Fits(c, s, it) {
      forall q | q in it.quotas ensures |Running(s.active, q.key)| < q.limit {
        var i :| 0 <= i < |it.quotas| && it.quotas[i] == q;
        assert Keys(it.quotas)[i] == q.key;
        assert Booked(s.quotas, s.pending, s.active, q.key);
      }
    }
    if Room(c, s.active, it) {
      forall key | key in Keys(it.quotas) ensures key in s.quotas && s.quotas[key].active < s.quotas[key].limit {
        var i :| 0 <= i < |it.quotas| && Keys(it.quotas)[i] == key;
        assert it.quotas[i] in it.quotas;
        assert Booked(s.quotas, s.pending, s.active, key);
      }
    }
  }

  /** More leases leave no more room. */
  lemma RoomShrinks(c: Config, active: map<nat, Lease>, active': map<nat, Lease>, it: Item)
    requires Extends(active, active') && Room(c, active', it)
    ensures Room(c, active, it)
  {
    Subset(Global(active), Global(active'));
    forall q | q in it.quotas ensures |Running(active, q.key)| < q.limit {
      Subset(Running(active, q.key), Running(active', q.key));
    }
  }

  predicate Extends(active: map<nat, Lease>, active': map<nat, Lease>) {
    forall id :: id in active ==> id in active' && active'[id] == active[id]
  }

  lemma Subset(a: set<nat>, b: set<nat>)
    requires a <= b
    ensures |a| <= |b|
  {
    assert b == a + (b - a);
  }

  /** The first queued admission that fits. */
  method PopAdmissible(c: Config, s: State) returns (r: int)
    ensures -1 <= r < |s.pending|
    ensures r >= 0 ==> Fits(c, s, s.pending[r]) && forall j :: 0 <= j < r ==> !Fits(c, s, s.pending[j])
    ensures r < 0 ==> Idle(c, s)
  {
    hide Fits;
    for i := 0 to |s.pending|
      invariant forall j :: 0 <= j < i ==> !Fits(c, s, s.pending[j])
    {
      if Fits(c, s, s.pending[i]) {
        return i;
      }
    }
    return -1;
  }

  lemma GlobalAdd(active: map<nat, Lease>, id: nat, lease: Lease)
    requires id !in active
    ensures Global(active[id := lease]) == Global(active) + If(lease.globalSlot, id)
    ensures id !in Global(active) && |active[id := lease]| == |active| + 1
  {
  }

  lemma GlobalRemove(active: map<nat, Lease>, id: nat)
    requires id in active
    ensures Global(active - {id}) == Global(active) - {id} && |active - {id}| == |active| - 1
  {
    assert (active - {id}).Keys == active.Keys - {id};
  }

  lemma QueueWithout(s: State, i: nat)
    requires QueueOk(s) && i < |s.pending|
    ensures QueueOk(s.(pending := RemoveAt(s.pending, i)))
    ensures |RemoveAt(s.pending, i)| == |s.pending| - 1 && s.pending[i].id !in Ids(RemoveAt(s.pending, i))
    ensures forall x :: x in RemoveAt(s.pending, i) ==> x in s.pending && x.id != s.pending[i].id
  {
    hide Queued, Requestable;
    RemoveKeeps(s.pending, i);
    var r := RemoveAt(s.pending, i);
    assert forall j :: 0 <= j < |r| ==> r[j] == if j < i then s.pending[j] else s.pending[j + 1];
    forall x | x in r ensures x.id != s.pending[i].id { assert x.id in Ids(r); }
  }

  /** One admission starts: out of the queue, into the leases. */
  method Begin(c: Config, s: State, i: nat, ghost offered: nat) returns (s': State)
    requires Inv(c, s, offered) && i < |s.pending| && Fits(c, s, s.pending[i])
    ensures var it := s.pending[i];
            && s'.pending == RemoveAt(s.pending, i)
            && s'.active == s.active[it.id := Lease(Keys(it.quotas), it.globalSlot)]
            && s'.closing == s.closing && s'.nextArrival == s.nextArrival
            && s'.counters == s.counters.(admitted := s.counters.admitted + 1)
    ensures Inv(c, s', offered)
  {
    hide Books, Registered, Queued, DistinctIds, DistinctArrivals, Requestable, UpdatedBy, DistinctKeys, RemoveAt, Keys, Global;
    var it := s.pending[i];
    var lease := Lease(Keys(it.quotas), it.globalSlot);
    QueueWithout(s, i);
    RequestedKeys(it);
    var quotas := Update(s.quotas, Keys(it.quotas), Start);
    StartBooks(s.quotas, s.pending, s.active, i, quotas);
    StillRegistered(s.quotas, s.pending, s.active[it.id := lease], Keys(it.quotas), Start, quotas, RemoveAt(s.pending, i));
    GlobalAdd(s.active, it.id, lease);
    SizeMore(Global(s.active), it.id, lease.globalSlot);
    s' := State(RemoveAt(s.pending, i), s.active[it.id := lease], quotas, s.closing, s.nextArrival,
                s.counters.(admitted := s.counters.admitted + 1));
  }

  lemma RequestedKeys(it: Item)
    requires Requestable(it)
    ensures DistinctKeys(Keys(it.quotas))
  {
  }

  /** A lease ends: released, or taken back because its caller had gone. */
  method End(c: Config, s: State, id: nat, undone: bool, ghost offered: nat) returns (s': State)
    requires Inv(c, s, offered) && id in s.active
    ensures s'.pending == s.pending && s'.active == s.active - {id} && s'.closing == s.closing
    ensures s'.nextArrival == s.nextArrival
    ensures Inv(c, s', offered)
  {
    hide Books, Registered, QueueOk, Requestable, UpdatedBy, DistinctKeys, Global;
    var keys := s.active[id].keys;
    var quotas := Update(s.quotas, keys, Finish);
    FinishBooks(s.quotas, s.pending, s.active, id, quotas);
    StillRegistered(s.quotas, s.pending, s.active - {id}, keys, Finish, quotas, s.pending);
    GlobalRemove(s.active, id);
    SizeLess(Global(s.active), id);
    var counters := if undone then s.counters.(admitted := s.counters.admitted - 1, cancelled := s.counters.cancelled + 1)
                    else s.counters.(released := s.counters.released + 1);
    s' := State(s.pending, s.active - {id}, quotas, s.closing, s.nextArrival, counters);
    FewerLeases(s, s');
  }

  lemma FewerLeases(s: State, s': State)
    requires QueueOk(s) && s'.pending == s.pending && s'.closing == s.closing && s'.nextArrival == s.nextArrival
    requires forall id :: id in s'.active ==> id in s.active
    ensures QueueOk(s')
  {
    hide Queued, Requestable, DistinctArrivals, DistinctIds;
  }

  /** A queued admission leaves, cancelled or refused at shutdown. */
  method Leave(c: Config, s: State, i: nat, counters: Counters, ghost offered: nat) returns (s': State)
    requires Inv(c, s, offered) && i < |s.pending|
    requires counters == s.counters.(cancelled := s.counters.cancelled + 1)
             || counters == s.counters.(rejected := s.counters.rejected + 1)
    ensures s'.pending == RemoveAt(s.pending, i) && s'.active == s.active && s'.closing == s.closing
    ensures s'.nextArrival == s.nextArrival
    ensures Inv(c, s', offered)
  {
    hide Books, Registered, Queued, Requestable, UpdatedBy, DistinctKeys, RemoveAt;
    var keys := Keys(s.pending[i].quotas);
    QueueWithout(s, i);
    RequestedKeys(s.pending[i]);
    var quotas := Update(s.quotas, keys, Withdraw);
    WithdrawBooks(s.quotas, s.pending, s.active, i, quotas);
    StillRegistered(s.quotas, s.pending, s.active, keys, Withdraw, quotas, RemoveAt(s.pending, i));
    s' := State(RemoveAt(s.pending, i), s.active, quotas, s.closing, s.nextArrival, counters);
  }

  // ----- dispatch -----------------------------------------------------------

  /** Reordering keeps everything but the order. */
  lemma AgedInv(c: Config, s: State, queue: seq<Item>, offered: nat)
    requires Inv(c, s, offered) && SameAdmissions(s.pending, queue)
    requires Queued(queue) && DistinctIds(queue) && DistinctArrivals(queue)
    ensures Inv(c, s.(pending := queue), offered) && Ids(queue) == Ids(s.pending)
  {
    hide Books, Registered, Queued, DistinctIds, DistinctArrivals, SameAdmissions;
    SameBooks(s.quotas, s.pending, s.active, queue);
    SameSize(s.pending, queue);
    forall x | x in queue ensures x.id !in s.active && x.arrival < s.nextArrival && Requestable(x) {
      var y := Counterpart(s.pending, queue, x);
      assert x.quotas == y.quotas;
    }
    SameIds(s.pending, queue);
  }

  lemma SameSize(pending: seq<Item>, queue: seq<Item>)
    requires SameAdmissions(pending, queue)
    ensures |queue| == |pending| && Bases(queue) == Bases(pending)
  {
  }

  lemma SameIds(pending: seq<Item>, queue: seq<Item>)
    requires Bases(queue) == Bases(pending)
    ensures Ids(queue) == Ids(pending)
  {
    hide Bases;
    forall id ensures id in Ids(queue) <==> id in Ids(pending) {
      if id in Ids(queue) {
        var x :| x in queue && x.id == id;
        var y := Counterpart(pending, queue, x);
      }
      if id in Ids(pending) {
        var y :| y in pending && y.id == id;
        var x := Counterpart(queue, pending, y);
      }
    }
  }

  /** What a dispatch did: `granted` callers now hold leases, `dropped` ones had gone. */
  ghost predicate Dispatched(s: State, s': State, alive: set<nat>, granted: set<nat>, dropped: set<nat>) {
    && s'.closing == s.closing && s'.nextArrival == s.nextArrival
    && Ids(s.pending) == Ids(s'.pending) + granted + dropped
    && Ids(s'.pending) !! granted && Ids(s'.pending) !! dropped
    && granted <= alive && dropped !! alive
    && s'.active.Keys == s.active.Keys + granted && Extends(s.active, s'.active)
  }

  /** The leases once an admission has started: unchanged if its caller had gone. */
  function Held(active: map<nat, Lease>, it: Item, alive: set<nat>): map<nat, Lease> {
    if it.id in alive then active[it.id := Lease(Keys(it.quotas), it.globalSlot)] else active
  }

  /** A dispatch, start by start: `leases[k]` are held when `started[k]` is picked. */
  datatype Trace = Trace(leases: seq<map<nat, Lease>>, started: seq<Item>)

  /** Start `k` has room, while nothing ahead of it that still waits has. */
  ghost predicate Picked(c: Config, queue: set<Item>, alive: set<nat>, t: Trace, k: nat)
    requires k < |t.started| < |t.leases|
  {
    var it := t.started[k];
    && it in queue && it !in t.started[..k] && Room(c, t.leases[k], it)
    && (forall x :: x in queue && x !in t.started[..k] && Ahead(x, it) ==> !Room(c, t.leases[k], x))
    && t.leases[k + 1] == Held(t.leases[k], it, alive)
  }

  /** Every start of a dispatch was in turn. */
  ghost predicate InTurn(c: Config, queue: set<Item>, alive: set<nat>, t: Trace) {
    && |t.leases| == |t.started| + 1
    && forall k :: 0 <= k < |t.started| ==> Picked(c, queue, alive, t, k)
  }

  /** A dispatch from `s` to `s'`, by its trace. */
  ghost predicate Traced(c: Config, s: State, s': State, alive: set<nat>, now: nat, t: Trace)
    requires c.agingInterval > 0
  {
    var queue := Aging(s.pending, now, c.agingInterval);
    && InTurn(c, queue, alive, t) && t.leases[0] == s.active && t.leases[|t.started|] == s'.active
    && Members(s'.pending) == queue - Members(t.started)
  }

  /** Starts one admission; if its caller has gone, ends it again. */
  method StartOne(c: Config, s: State, i: nat, alive: set<nat>, ghost offered: nat) returns (s': State)
    requires Inv(c, s, offered) && i < |s.pending| && Fits(c, s, s.pending[i])
    ensures Inv(c, s', offered) && s'.closing == s.closing && s'.nextArrival == s.nextArrival
    ensures s'.pending == RemoveAt(s.pending, i) && s'.active == Held(s.active, s.pending[i], alive)
  {
    hide Inv, Fits, RemoveAt;
    var id := s.pending[i].id;
    InvStep(c, s, i, offered);
    s' := Begin(c, s, i, offered);
    if id !in alive {
      s' := End(c, s', id, true, offered);
      assert s'.active == s.active;
    }
  }

  lemma DispatchedMore(s0: State, s: State, s': State, alive: set<nat>, granted: set<nat>, dropped: set<nat>, it: Item)
    requires Dispatched(s0, s, alive, granted, dropped) && s'.closing == s.closing && s'.nextArrival == s.nextArrival
    requires it.id !in Ids(s'.pending) && Ids(s.pending) == Ids(s'.pending) + {it.id} && it.id !in s.active
    requires s'.active == Held(s.active, it, alive)
    ensures Dispatched(s0, s', alive, granted + If(it.id in alive, it.id), dropped + If(it.id !in alive, it.id))
  {
    hide Ids;
  }

  /** The first admission that fits is the one in turn. */
  lemma FirstInTurn(c: Config, s: State, i: nat, offered: nat)
    requires Inv(c, s, offered) && i < |s.pending| && Fits(c, s, s.pending[i])
    requires forall j :: 0 <= j < i ==> !Fits(c, s, s.pending[j])
    ensures Room(c, s.active, s.pending[i])
    ensures forall x :: x in s.pending && Ahead(x, s.pending[i]) ==> !Room(c, s.active, x)
  {
    QueueParts(c, s, offered);
    hide Inv, Fits, Room, DistinctIds, DistinctArrivals;
    FitsIsRoom(c, s, s.pending[i], offered);
    forall x | x in s.pending && Ahead(x, s.pending[i]) ensures !Room(c, s.active, x) {
      FitsIsRoom(c, s, x, offered);
      var j :| 0 <= j < |s.pending| && s.pending[j] == x;
      assert j > i ==> Ahead(s.pending[i], s.pending[j]);
    }
  }

  lemma TracedMore(c: Config, s0: State, s: State, s': State, alive: set<nat>, now: nat, t: Trace, it: Item)
    requires c.agingInterval > 0 && Traced(c, s0, s, alive, now, t) && it in s.pending
    requires Members(s'.pending) == Members(s.pending) - {it} && s'.active == Held(s.active, it, alive)
    requires Room(c, s.active, it) && forall x :: x in s.pending && Ahead(x, it) ==> !Room(c, s.active, x)
    ensures Traced(c, s0, s', alive, now, Trace(t.leases + [s'.active], t.started + [it]))
  {
    hide Room, Ahead, Aging, Held;
    var queue := Aging(s0.pending, now, c.agingInterval);
    var n := |t.started|;
    var t' := Trace(t.leases + [s'.active], t.started + [it]);
    assert it in Members(s.pending);
    assert Members(t'.started) == Members(t.started) + {it};
    forall k | 0 <= k < |t'.started| ensures Picked(c, queue, alive, t', k) {
      assert t'.started[..k] == t.started[..k];
      if k < n {
        assert Picked(c, queue, alive, t, k);
      } else {
        assert t.started[..n] == t.started;
        forall x | x in queue && x !in t.started && Ahead(x, it) ensures !Room(c, s.active, x) {
          assert x in Members(s.pending);
        }
        assert it !in Members(t.started);
      }
    }
  }

  lemma RemovedMembers(c: Config, s: State, i: nat, offered: nat)
    requires Inv(c, s, offered) && i < |s.pending|
    ensures Members(RemoveAt(s.pending, i)) == Members(s.pending) - {s.pending[i]}
  {
    QueueParts(c, s, offered);
    RemoveKeeps(s.pending, i);
    hide RemoveAt, Inv, Queued, DistinctIds, DistinctArrivals;
  }

  /** `dispatch`: starts whatever fits, in queue order, until nothing does. */
  method Dispatch(c: Config, s: State, alive: set<nat>, now: nat, ghost offered: nat)
    returns (s': State, granted: set<nat>, ghost dropped: set<nat>, ghost t: Trace)
    requires ConfigOk(c) && Inv(c, s, offered)
    ensures Inv(c, s', offered) && Dispatched(s, s', alive, granted, dropped)
    ensures s.closing ==> s' == s && t.started == []
    ensures !s.closing ==> Idle(c, s') && Traced(c, s, s', alive, now, t)
    ensures granted == Ids(t.started) * alive && dropped == Ids(t.started) - alive
  {
    hide Idle, Inv, Fits, Room, Reprioritized, RemoveAt, Dispatched, SameAdmissions, Traced, Members, Aging, Ahead;
    s', granted, dropped, t := s, {}, {}, Trace([s.active], []);
    DispatchedNone(s, s, alive);
    if s.closing {
      return;
    }
    QueueParts(c, s, offered);
    var queue := Reorder(s.pending, now, c.agingInterval);
    ReorderSame(s.pending, queue, now, c.agingInterval);
    AgedInv(c, s, queue, offered);
    s' := s.(pending := queue);
    DispatchedNone(s, s', alive);
    TracedNone(c, s, s', alive, now);
    var i := PopAdmissible(c, s');
    while i >= 0
      invariant -1 <= i < |s'.pending| && (i >= 0 ==> Fits(c, s', s'.pending[i])) && (i < 0 ==> Idle(c, s'))
      invariant forall j :: 0 <= j < i ==> !Fits(c, s', s'.pending[j])
      invariant Inv(c, s', offered) && Dispatched(s, s', alive, granted, dropped)
      invariant Traced(c, s, s', alive, now, t)
      invariant granted == Ids(t.started) * alive && dropped == Ids(t.started) - alive
      decreases |s'.pending|, i
    {
      ghost var before, it := s', s'.pending[i];
      InvStep(c, s', i, offered);
      FirstInTurn(c, s', i, offered);
      RemovedMembers(c, s', i, offered);
      var id := s'.pending[i].id;
      s' := StartOne(c, s', i, alive, offered);
      DispatchedMore(s, before, s', alive, granted, dropped, it);
      TracedMore(c, s, before, s', alive, now, t, it);
      StartedIds(t.started, it);
      granted, dropped := granted + If(id in alive, id), dropped + If(id !in alive, id);
      t := Trace(t.leases + [s'.active], t.started + [it]);
      i := PopAdmissible(c, s');
    }
  }

  lemma StartedIds(started: seq<Item>, it: Item)
    ensures Ids(started + [it]) == Ids(started) + {it.id}
  {
  }

  lemma DispatchedNone(s: State, s': State, alive: set<nat>)
    requires s'.closing == s.closing && s'.nextArrival == s.nextArrival && s'.active == s.active
    requires Ids(s'.pending) == Ids(s.pending)
    ensures Dispatched(s, s', alive, {}, {})
  {
  }

  lemma TracedNone(c: Config, s: State, s': State, alive: set<nat>, now: nat)
    requires c.agingInterval > 0 && s'.active == s.active
    requires Members(s'.pending) == Aging(s.pending, now, c.agingInterval)
    ensures Traced(c, s, s', alive, now, Trace([s.active], []))
  {
    assert Members([]) == {};
  }

  lemma QueueParts(c: Config, s: State, offered: nat)
    requires Inv(c, s, offered)
    ensures Queued(s.pending) && DistinctIds(s.pending) && DistinctArrivals(s.pending)
  {
  }

  lemma InvStep(c: Config, s: State, i: nat, offered: nat)
    requires Inv(c, s, offered) && i < |s.pending|
    ensures s.pending[i].id !in s.active && s.pending[i].id !in Ids(RemoveAt(s.pending, i))
    ensures Ids(s.pending) == Ids(RemoveAt(s.pending, i)) + {s.pending[i].id}
    ensures |RemoveAt(s.pending, i)| == |s.pending| - 1
  {
    hide Books, Registered, Queued, DistinctIds, DistinctArrivals;
    QueueParts(c, s, offered);
    RemoveKeeps(s.pending, i);
    hide RemoveAt;
    assert s.pending[i] in s.pending;
  }

  // ----- no overtaking ------------------------------------------------------

  /** Work that has waited long enough to age into the class behind urgent is not overtaken
      by non-urgent work that arrived later: when the later one starts, the earlier one has
      started, or there is no room for it. */
  lemma AgedNotOvertaken(c: Config, s: State, s': State, alive: set<nat>, now: nat, t: Trace, x: Item, y: Item, k: nat)
    requires c.agingInterval > 0 && Traced(c, s, s', alive, now, t)
    requires x in s.pending && y in s.pending && x.arrival < y.arrival && x.priority <= 255 && y.priority > 0
    requires now >= x.enqueuedAt + c.agingInterval * Less(x.priority)
    requires k < |t.started| && t.started[k] == Reprioritized(y, now, c.agingInterval)
    ensures Reprioritized(x, now, c.agingInterval) in t.started[..k] || !Room(c, t.leases[k], x)
  {
    hide Aged, Traced, Room;
    AgedAhead(x, y, now, c.agingInterval);
    AheadGoesFirst(c, s, s', alive, now, t, x, y, k);
  }

  lemma AgedAhead(x: Item, y: Item, now: nat, interval: nat)
    requires interval > 0 && x.arrival < y.arrival && x.priority <= 255 && y.priority > 0
    requires now >= x.enqueuedAt + interval * Less(x.priority)
    ensures Ahead(Reprioritized(x, now, interval), Reprioritized(y, now, interval))
  {
    hide Aged;
    var w, v := now - x.enqueuedAt, if now > y.enqueuedAt then now - y.enqueuedAt else 0;
    AgingPromotes(x.priority, w, w, interval);
    AgingPromotes(y.priority, v, v, interval);
  }

  lemma InAging(pending: seq<Item>, x: Item, now: nat, interval: nat)
    requires interval > 0 && x in pending
    ensures Reprioritized(x, now, interval) in Aging(pending, now, interval)
  {
  }

  lemma SameRoom(c: Config, active: map<nat, Lease>, x: Item, y: Item)
    requires x.quotas == y.quotas && x.globalSlot == y.globalSlot
    ensures Room(c, active, x) <==> Room(c, active, y)
  {
  }

  /** How long an admission has waited. */
  function Waited(it: Item, now: nat): nat { if now > it.enqueuedAt then now - it.enqueuedAt else 0 }

  /** What is ahead in the aged queue goes first: when the other starts, it has started, or there
      is no room for it. */
  lemma AheadGoesFirst(c: Config, s: State, s': State, alive: set<nat>, now: nat, t: Trace, x: Item, y: Item, k: nat)
    requires c.agingInterval > 0 && Traced(c, s, s', alive, now, t) && x in s.pending && y in s.pending
    requires Ahead(Reprioritized(x, now, c.agingInterval), Reprioritized(y, now, c.agingInterval))
    requires k < |t.started| && t.started[k] == Reprioritized(y, now, c.agingInterval)
    ensures Reprioritized(x, now, c.agingInterval) in t.started[..k] || !Room(c, t.leases[k], x)
  {
    hide Aged, Room, Aging, Ahead;
    InAging(s.pending, x, now, c.agingInterval);
    assert Picked(c, Aging(s.pending, now, c.agingInterval), alive, t, k);
    SameRoom(c, t.leases[k], x, Reprioritized(x, now, c.agingInterval));
  }

  /** Work of a lower class does not start while work of a higher class waits with room for it, as long
      as it has waited less than one interval for every class between them. */
  lemma HigherClassFirst(c: Config, s: State, s': State, alive: set<nat>, now: nat, t: Trace, x: Item, y: Item, k: nat)
    requires c.agingInterval > 0 && Traced(c, s, s', alive, now, t) && x in s.pending && y in s.pending
    requires x.priority < y.priority && Waited(y, now) < c.agingInterval * (y.priority - x.priority)
    requires k < |t.started| && t.started[k] == Reprioritized(y, now, c.agingInterval)
    ensures Reprioritized(x, now, c.agingInterval) in t.started[..k] || !Room(c, t.leases[k], x)
  {
    hide Aged, Traced, Room;
    var interval := c.agingInterval;
    AgingPromotes(x.priority, Waited(x, now), Waited(x, now), interval);
    AgingIsGradual(y.priority, Waited(y, now), interval);
    var aged := Aged(y.priority, Waited(y, now), interval);
    if aged <= x.priority {
      Scaled(interval, y.priority - x.priority, y.priority - aged);
    }
    AheadGoesFirst(c, s, s', alive, now, t, x, y, k);
  }

  /** Work of one class starts in the order of arrival. */
  lemma ArrivalOrderWithinClass(c: Config, s: State, s': State, alive: set<nat>, now: nat, t: Trace, x: Item, y: Item,
                                k: nat)
    requires c.agingInterval > 0 && Traced(c, s, s', alive, now, t) && x in s.pending && y in s.pending
    requires x.priority == y.priority && x.arrival < y.arrival && x.enqueuedAt <= y.enqueuedAt
    requires k < |t.started| && t.started[k] == Reprioritized(y, now, c.agingInterval)
    ensures Reprioritized(x, now, c.agingInterval) in t.started[..k] || !Room(c, t.leases[k], x)
  {
    hide Aged, Traced, Room;
    AgingPromotes(x.priority, Waited(y, now), Waited(x, now), c.agingInterval);
    AheadGoesFirst(c, s, s', alive, now, t, x, y, k);
  }
}
