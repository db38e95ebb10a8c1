/** Every run of core/src/task_scheduler.rs: the actor of TaskScheduler together with
    its two channels and its callers, stepped in any order. */
module SchedulerRun {
  import opened SchedulerBooks
  import opened TaskScheduler

  // ----- the actor's messages ----------------------------------------------

  lemma ArriveInv(c: Config, s: State, it: Item, quotas: map<string, Usage>, offered: nat)
    requires Inv(c, s, offered) && Requestable(it) && !s.closing && it.arrival == s.nextArrival
    requires it.id !in Ids(s.pending) && it.id !in s.active
    requires forall q :: q in it.quotas && q.key in s.quotas ==> s.quotas[q.key].limit == q.limit
    requires forall key :: key in quotas <==> key in s.quotas || key in Keys(it.quotas)
    requires forall key :: key in quotas ==>
               if key !in Keys(it.quotas) then quotas[key] == s.quotas[key]
               else if key in s.quotas then quotas[key] == Changed(s.quotas[key], Arrive)
               else quotas[key].active == 0 && quotas[key].pending == 1 && States(it, key, quotas[key].limit)
    ensures Inv(c, s.(pending := Push(s.pending, it), quotas := quotas, nextArrival := s.nextArrival + 1), offered + 1)
    ensures Ids(Push(s.pending, it)) == Ids(s.pending) + {it.id}
  {
    hide Books, Registered, Queued, DistinctIds, DistinctArrivals, Requestable, Global;
    QueueParts(c, s, offered);
    PushKeeps(s.pending, it);
    PushMembers(s.pending, it);
    PushAt(s.pending, it, 0);
    hide Push;
    ArriveBooks(s.quotas, s.pending, s.active, it, quotas, Push(s.pending, it));
    ArriveRegistered(s.quotas, s.pending, it, quotas, Push(s.pending, it));
  }

  /** `enqueue`: refused when closing, when the queue is full, or on a conflicting
      quota; queued and dispatched otherwise. */
  method Enqueue(c: Config, s: State, request: Item, alive: set<nat>, now: nat, ghost offered: nat)
    returns (s': State, refused: bool, granted: set<nat>, ghost dropped: set<nat>, ghost offered': nat)
    requires ConfigOk(c) && Inv(c, s, offered) && Requestable(request) && (!s.closing ==> Idle(c, s))
    requires request.id !in Ids(s.pending) && request.id !in s.active
    ensures Inv(c, s', offered') && (!s'.closing ==> Idle(c, s')) && s'.closing == s.closing
    ensures refused ==> s'.pending == s.pending && s'.active == s.active && granted == {} && dropped == {}
    ensures !refused ==> exists queued: State :: Ids(queued.pending) == Ids(s.pending) + {request.id}
                           && queued.active == s.active && queued.closing == s.closing
                           && Dispatched(queued, s', alive, granted, dropped)
    ensures refused <==> Turned(s, request)
    ensures !refused ==> Placed(c, s, s', request, alive, granted)
  {
    hide Inv, Idle, Dispatched, Requestable, Traced, Placed, Push, Ids;
    s', refused, granted, dropped, offered' := s, true, {}, {}, offered;
    if s.closing || |s.pending| >= MAX_PENDING {
      return;
    }
    var it := request.(arrival := s.nextArrival, effective := request.priority);
    SameRequest(request, it);
    var ok, quotas := Register(s.quotas, it);
    if !ok {
      s' := s.(counters := s.counters.(rejected := s.counters.rejected + 1));
      offered' := offered + 1;
      CountRejected(c, s, offered);
      return;
    }
    ArriveInv(c, s, it, quotas, offered);
    PushMembers(s.pending, it);
    var queued := s.(pending := Push(s.pending, it), quotas := quotas, nextArrival := s.nextArrival + 1);
    offered' := offered + 1;
    ghost var t;
    s', granted, dropped, t := Dispatch(c, queued, alive, now, offered');
    DispatchedCloses(queued, s', alive, granted, dropped);
    ArrivalPlaced(c, s, queued, s', request, it, alive, now, t, granted, dropped, offered);
    refused := false;
  }

  /** Where an admission that is not turned away ends up: with room for it it starts, and
      is kept as a lease unless its caller has gone; with no room it waits. Nothing else moves. */
  ghost predicate Placed(c: Config, s: State, s': State, request: Item, alive: set<nat>, granted: set<nat>) {
    if Room(c, s.active, request)
    then && s'.active == Held(s.active, request, alive) && Ids(s'.pending) == Ids(s.pending)
         && granted == If(request.id in alive, request.id)
    else s'.active == s.active && Ids(s'.pending) == Ids(s.pending) + {request.id} && granted == {}
  }

  lemma NoRoomYet(c: Config, s: State, offered: nat, x: Item)
    requires Inv(c, s, offered) && Idle(c, s) && x in s.pending
    ensures !Room(c, s.active, x)
  {
    hide Inv, Fits, Room;
    FitsIsRoom(c, s, x, offered);
  }

  /** In a dispatch behind an arrival to an idle queue, nothing but the arrival has room. */
  lemma OnlyTheArrival(c: Config, s: State, queued: State, s': State, it: Item, alive: set<nat>, now: nat, t: Trace,
                       offered: nat, k: nat)
    requires c.agingInterval > 0 && Inv(c, s, offered) && Idle(c, s) && it.id !in s.active
    requires Traced(c, queued, s', alive, now, t) && queued.active == s.active
    requires forall x :: x in queued.pending <==> x == it || x in s.pending
    requires k < |t.started| && k < 2
    ensures t.started[k] == Reprioritized(it, now, c.agingInterval)
  {
    hide Inv, Idle, Room, Aged, Ahead;
    var queue := Aging(queued.pending, now, c.agingInterval);
    assert Picked(c, queue, alive, t, k);
    var y :| y in queued.pending && t.started[k] == Reprioritized(y, now, c.agingInterval);
    SameRoom(c, t.leases[k], t.started[k], y);
    if k == 1 {
      OnlyTheArrival(c, s, queued, s', it, alive, now, t, offered, 0);
      assert Picked(c, queue, alive, t, 0);
      assert t.leases[0 + 1] == Held(t.leases[0], t.started[0], alive);
      RoomShrinks(c, s.active, t.leases[1], y);
    }
    if y in s.pending { NoRoomYet(c, s, offered, y); }
  }

  lemma ArrivalPlaced(c: Config, s: State, queued: State, s': State, request: Item, it: Item, alive: set<nat>, now: nat,
                      t: Trace, granted: set<nat>, dropped: set<nat>, offered: nat)
    requires c.agingInterval > 0 && Inv(c, s, offered) && Idle(c, s) && request.id !in s.active
    requires it == request.(arrival := it.arrival, effective := it.effective) && queued.active == s.active
    requires forall x :: x in queued.pending <==> x == it || x in s.pending
    requires Ids(queued.pending) == Ids(s.pending) + {it.id} && it.id !in Ids(s.pending)
    requires Traced(c, queued, s', alive, now, t) && Dispatched(queued, s', alive, granted, dropped)
    requires granted == Ids(t.started) * alive && dropped == Ids(t.started) - alive
    requires Inv(c, s', offered + 1) && Idle(c, s')
    ensures Placed(c, s, s', request, alive, granted)
  {
    hide Inv, Idle, Room, Aged, Ahead, Ids;
    var aged := Reprioritized(it, now, c.agingInterval);
    SameRoom(c, s.active, request, aged);
    if t.started == [] {
      StartedNone(t.started);
      assert aged in Members(s'.pending);
      NoRoomYet(c, s', offered + 1, aged);
    } else {
      OnlyTheArrival(c, s, queued, s', it, alive, now, t, offered, 0);
      if |t.started| > 1 {
        assert t.started[1] != t.started[0] by {
          assert Picked(c, Aging(queued.pending, now, c.agingInterval), alive, t, 1);
        }
        OnlyTheArrival(c, s, queued, s', it, alive, now, t, offered, 1);
      }
      assert Picked(c, Aging(queued.pending, now, c.agingInterval), alive, t, 0);
      assert t.started == [aged];
      StartedOne(aged);
    }
  }

  lemma StartedNone(started: seq<Item>)
    requires started == []
    ensures Ids(started) == {} && Members(started) == {}
  {
  }

  lemma StartedOne(it: Item)
    ensures Ids([it]) == {it.id}
  {
  }

  lemma SameRequest(request: Item, it: Item)
    requires Requestable(request) && it.quotas == request.quotas && it.globalSlot == request.globalSlot
    ensures Requestable(it)
  {
  }

  lemma DispatchedCloses(s: State, s': State, alive: set<nat>, granted: set<nat>, dropped: set<nat>)
    requires Dispatched(s, s', alive, granted, dropped)
    ensures s'.closing == s.closing
  {
  }

  lemma CountRejected(c: Config, s: State, offered: nat)
    requires Inv(c, s, offered)
    ensures var s' := s.(counters := s.counters.(rejected := s.counters.rejected + 1));
            Inv(c, s', offered + 1) && (Idle(c, s) ==> Idle(c, s'))
  {
    hide Books, Registered, Queued;
    var s' := s.(counters := s.counters.(rejected := s.counters.rejected + 1));
    assert forall it :: it in s.pending ==> (Fits(c, s, it) <==> Fits(c, s', it));
  }

  /** The queued admission with this id. */
  method FindPending(pending: seq<Item>, id: nat) returns (i: int)
    ensures -1 <= i < |pending| && (i >= 0 ==> pending[i].id == id) && (i < 0 ==> id !in Ids(pending))
  {
    for k := 0 to |pending|
      invariant forall j :: 0 <= j < k ==> pending[j].id != id
    {
      if pending[k].id == id {
        return k;
      }
    }
    return -1;
  }

  /** `Release`: ends a lease or withdraws a queued admission, then dispatches. */
  method Release(c: Config, s: State, id: nat, alive: set<nat>, now: nat, ghost offered: nat)
    returns (s': State, granted: set<nat>, ghost dropped: set<nat>)
    requires ConfigOk(c) && Inv(c, s, offered)
    ensures Inv(c, s', offered) && (!s'.closing ==> Idle(c, s')) && s'.closing == s.closing
    ensures exists freed: State :: Ids(freed.pending) == Ids(s.pending) - {id}
              && freed.active == s.active - {id} && freed.closing == s.closing
              && Dispatched(freed, s', alive, granted, dropped)
  {
    hide Inv, Idle, Dispatched, Traced;
    var freed := s;
    NotBoth(c, s, offered, id);
    if id in s.active {
      freed := End(c, s, id, false, offered);
      assert Ids(s.pending) - {id} == Ids(s.pending);
    } else {
      assert s.active - {id} == s.active;
      var i := FindPending(s.pending, id);
      if i >= 0 {
        InvStep(c, s, i, offered);
        freed := Leave(c, s, i, s.counters.(cancelled := s.counters.cancelled + 1), offered);
        assert Ids(freed.pending) == Ids(s.pending) - {id};
      } else {
        assert Ids(s.pending) - {id} == Ids(s.pending);
      }
    }
    ghost var t;
    s', granted, dropped, t := Dispatch(c, freed, alive, now, offered);
    DispatchedCloses(freed, s', alive, granted, dropped);
  }

  lemma NotBoth(c: Config, s: State, offered: nat, id: nat)
    requires Inv(c, s, offered)
    ensures !(id in s.active && id in Ids(s.pending))
  {
    hide Books, Registered, Queued;
  }

  /** `Shutdown`: every queued admission is refused. */
  method Shutdown(c: Config, s: State, ghost offered: nat) returns (s': State)
    requires Inv(c, s, offered)
    ensures Inv(c, s', offered) && s'.closing && s'.pending == [] && s'.active == s.active
  {
    hide Inv;
    s' := s;
    while s'.pending != []
      invariant Inv(c, s', offered) && s'.active == s.active
      decreases |s'.pending|
    {
      InvStep(c, s', 0, offered);
      s' := Leave(c, s', 0, s'.counters.(rejected := s'.counters.rejected + 1), offered);
    }
    CloseEmpty(c, s', offered);
    s' := s'.(closing := true);
  }

  lemma CloseEmpty(c: Config, s: State, offered: nat)
    requires Inv(c, s, offered) && s.pending == []
    ensures Inv(c, s.(closing := true), offered)
  {
    hide Books, Registered;
  }

  // ----- callers and channels ----------------------------------------------

  /** A caller: listening for its admission, holding its lease, told no, or gone. */
  datatype Phase = Listening | Holding | Refused | Gone

  function Alive(phase: map<nat, Phase>): set<nat> { set id | id in phase && phase[id] == Listening }

  predicate DistinctNats(xs: seq<nat>) { forall i, j :: 0 <= i < j < |xs| ==> xs[i] != xs[j] }

  /** Where one admission can be. `overtaken`: its release was handled while it was
      still in the ingress channel. */
  ghost predicate CallerAt(queued: set<nat>, waiting: set<nat>, running: set<nat>, releases: seq<nat>,
                           phase: map<nat, Phase>, overtaken: set<nat>, id: nat) {
    && !(id in queued && id in waiting) && !(id in queued && id in running) && !(id in waiting && id in running)
    && (id in queued || id in waiting || id in running ==> id in phase)
    && (id in releases ==> id in phase && phase[id] == Gone)
    && (id in overtaken ==> id in phase && phase[id] == Gone && id !in releases && id !in running)
    && (id in phase ==>
          match phase[id]
          case Listening => id in queued || id in waiting
          case Holding => id in running
          case Refused => id !in queued && id !in waiting && id !in running
          case Gone => && (id in running ==> id in releases)
                       && (id in queued || id in waiting ==> (id in releases <==> id !in overtaken)))
  }

  ghost predicate Callers(queued: set<nat>, waiting: set<nat>, running: set<nat>, releases: seq<nat>,
                          phase: map<nat, Phase>, overtaken: set<nat>) {
    forall id :: CallerAt(queued, waiting, running, releases, phase, overtaken, id)
  }

  /** The callers told of a dispatch. */
  function Told(phase: map<nat, Phase>, granted: set<nat>): map<nat, Phase> {
    map id | id in phase :: if id in granted then Holding else phase[id]
  }

  /** A dispatch moves admissions from waiting to running, or drops those of gone callers. */
  lemma DispatchCallers(queued: set<nat>, s: State, s': State, releases: seq<nat>, phase: map<nat, Phase>,
                        overtaken: set<nat>, granted: set<nat>, dropped: set<nat>)
    requires Callers(queued, Ids(s.pending), s.active.Keys, releases, phase, overtaken)
    requires Dispatched(s, s', Alive(phase), granted, dropped)
    ensures Callers(queued, Ids(s'.pending), s'.active.Keys, releases, Told(phase, granted), overtaken)
  {
    hide Ids;
    forall id ensures CallerAt(queued, Ids(s'.pending), s'.active.Keys, releases, Told(phase, granted), overtaken, id) {
      assert CallerAt(queued, Ids(s.pending), s.active.Keys, releases, phase, overtaken, id);
    }
  }

  /** The callers holding leases. */
  function Holders(phase: map<nat, Phase>): set<nat> { set id | id in phase && phase[id] == Holding }

  /** Only listeners were answered, with a lease or a refusal. */
  predicate OnlyAnswered(before: map<nat, Phase>, after: map<nat, Phase>) {
    && after.Keys == before.Keys
    && forall id :: id in before && after[id] != before[id] ==>
         before[id] == Listening && (after[id] == Holding || after[id] == Refused)
  }

  /** The admission is turned away. */
  predicate Turned(s: State, request: Item) {
    s.closing || |s.pending| >= MAX_PENDING
    || exists q :: q in request.quotas && q.key in s.quotas && s.quotas[q.key].limit != q.limit
  }

  /** A refusal sent to a caller; one that has gone does not hear it. */
  function Denied(phase: map<nat, Phase>, id: nat): map<nat, Phase> {
    if id in phase && phase[id] == Listening then phase[id := Refused] else phase
  }

  lemma RefusedAnswered(phase: map<nat, Phase>, id: nat)
    requires id in phase
    ensures OnlyAnswered(phase, Denied(phase, id)) && Holders(Denied(phase, id)) == Holders(phase)
  {
  }

  lemma DispatchAnswered(s: State, s': State, phase: map<nat, Phase>, granted: set<nat>, dropped: set<nat>)
    requires Dispatched(s, s', Alive(phase), granted, dropped)
    ensures OnlyAnswered(phase, Told(phase, granted))
    ensures Holders(Told(phase, granted)) - Holders(phase) == granted
    ensures s'.active.Keys == s.active.Keys + granted && Ids(s'.pending) <= Ids(s.pending) && granted <= Ids(s.pending)
    ensures Extends(s.active, s'.active)
  {
    hide Ids;
  }

  /** The admission starts at once and its caller is there to hold the lease. */
  predicate Starts(c: Config, s: State, phase: map<nat, Phase>, request: Item) {
    Room(c, s.active, request) && request.id in Alive(phase)
  }

  lemma ToldOne(c: Config, s: State, s': State, request: Item, phase: map<nat, Phase>, granted: set<nat>)
    requires Placed(c, s, s', request, Alive(phase), granted)
    ensures granted == If(Starts(c, s, phase, request), request.id)
    ensures Told(phase, granted) == if Starts(c, s, phase, request) then phase[request.id := Holding] else phase
  {
    hide Room, Held, Ids;
  }

  /** The callers told of a shutdown: those whose admission is queued are refused. */
  function TurnedOut(phase: map<nat, Phase>, waiting: set<nat>): map<nat, Phase> {
    map id | id in phase :: if phase[id] == Listening && id in waiting then Refused else phase[id]
  }

  class Run {
    const config: Config
    var state: State
    var ingress: seq<Item>
    var releases: seq<nat>
    var phase: map<nat, Phase>
    ghost var overtaken: set<nat>
    ghost var offered: nat

    ghost predicate Valid() reads this {
      && ConfigOk(config) && Inv(config, state, offered) && (!state.closing ==> Idle(config, state))
      && DistinctIds(ingress) && DistinctNats(releases) && (forall it :: it in ingress ==> Requestable(it))
      && Callers(Ids(ingress), Ids(state.pending), state.active.Keys, releases, phase, overtaken)
    }

    constructor (config: Config)
      requires ConfigOk(config)
      ensures Valid() && this.config == config && phase == map[] && ingress == [] && releases == [] && overtaken == {}
      ensures state.pending == [] && state.active == map[] && !state.closing
    {
      this.config := config;
      state := State([], map[], map[], false, 0, Counters(0, 0, 0, 0));
      ingress, releases, phase, overtaken, offered := [], [], map[], {}, 0;
      new;
      Initial(config);
    }

    /** A caller sends its admission and listens; ids are never reused. */
    method Submit(request: Item)
      requires Valid() && request.id !in phase && Requestable(request)
      modifies this
      ensures Valid() && phase == old(phase)[request.id := Listening] && state == old(state)
      ensures ingress == old(ingress) + [request] && releases == old(releases) && overtaken == old(overtaken)
    {
      hide Inv, Idle, Ids, Callers, Requestable;
      SubmittedCaller(Ids(ingress), Ids(state.pending), state.active.Keys, releases, phase, overtaken, request.id);
      SnocIds(ingress, request);
      ingress, phase := ingress + [request], phase[request.id := Listening];
    }

    /** A caller cancels, drops its lease, or returns its refusal: the release is sent. */
    method Drop(id: nat)
      requires Valid() && id in phase && phase[id] != Gone
      modifies this
      ensures Valid() && phase == old(phase)[id := Gone] && state == old(state)
      ensures releases == old(releases) + [id] && ingress == old(ingress) && overtaken == old(overtaken)
    {
      hide Inv, Idle, Ids, Callers, DistinctNats;
      DroppedCaller(Ids(ingress), Ids(state.pending), state.active.Keys, releases, phase, overtaken, id);
      releases, phase := releases + [id], phase[id := Gone];
    }

    /** The actor takes the next admission from its ingress channel. */
    method TakeEnqueue(now: nat)
      requires Valid() && ingress != []
      modifies this
      ensures Valid() && ingress == old(ingress[1..]) && releases == old(releases) && overtaken == old(overtaken)
      ensures OnlyAnswered(old(phase), phase)
      ensures state.active.Keys == old(state.active.Keys) + (Holders(phase) - Holders(old(phase)))
      ensures state.closing == old(state.closing)
      ensures Turned(old(state), old(ingress[0])) ==>
                && state.pending == old(state.pending) && state.active == old(state.active)
                && phase == Denied(old(phase), old(ingress[0].id))
      ensures !Turned(old(state), old(ingress[0])) ==>
                var request := old(ingress[0]);
                var starts := Starts(config, old(state), old(phase), request);
                && Placed(config, old(state), state, request, Alive(old(phase)), If(starts, request.id))
                && phase == if starts then old(phase)[request.id := Holding] else old(phase)
    {
      hide Inv, Idle, Dispatched, Callers, Requestable, OnlyAnswered, Holders, Turned;
      var request := ingress[0];
      IngressHead(ingress, state, releases, phase, overtaken);
      var s, refused, granted;
      ghost var dropped, more;
      s, refused, granted, dropped, more := Enqueue(config, state, request, Alive(phase), now, offered);
      if refused {
        RefusedCaller(ingress, state, s, releases, phase, overtaken);
        RefusedAnswered(phase, request.id);
        phase := Denied(phase, request.id);
      } else {
        ghost var queued: State :| Ids(queued.pending) == Ids(state.pending) + {request.id}
          && queued.active == state.active && queued.closing == state.closing
          && Dispatched(queued, s, Alive(phase), granted, dropped);
        EnqueuedCaller(ingress, state, queued, releases, phase, overtaken);
        DispatchCallers(Ids(ingress[1..]), queued, s, releases, phase, overtaken, granted, dropped);
        DispatchAnswered(queued, s, phase, granted, dropped);
        ToldOne(config, state, s, request, phase, granted);
        phase := Told(phase, granted);
      }
      state, ingress, offered := s, ingress[1..], more;
    }

    /** The actor takes the next release, which may overtake its own admission. */
    method TakeRelease(now: nat)
      requires Valid() && releases != []
      modifies this
      ensures Valid() && ingress == old(ingress) && releases == old(releases[1..])
      ensures OnlyAnswered(old(phase), phase)
      ensures state.active.Keys == (old(state.active.Keys) - {old(releases[0])}) + (Holders(phase) - Holders(old(phase)))
      ensures Extends(old(state.active) - {old(releases[0])}, state.active) && state.closing == old(state.closing)
      ensures Ids(state.pending) <= old(Ids(state.pending)) - {old(releases[0])}
      ensures overtaken == old(overtaken) + If(old(releases[0]) in Ids(ingress), old(releases[0]))
    {
      hide Inv, Idle, Dispatched, Callers, Requestable, Told, OnlyAnswered, Holders;
      var id := releases[0];
      var s, granted;
      ghost var dropped;
      s, granted, dropped := Release(config, state, id, Alive(phase), now, offered);
      ghost var freed: State :| Ids(freed.pending) == Ids(state.pending) - {id}
        && freed.active == state.active - {id} && freed.closing == state.closing
        && Dispatched(freed, s, Alive(phase), granted, dropped);
      ghost var more := overtaken + If(id in Ids(ingress), id);
      ReleasedCaller(Ids(ingress), state, freed, releases, phase, overtaken);
      DispatchCallers(Ids(ingress), freed, s, releases[1..], phase, more, granted, dropped);
      DispatchAnswered(freed, s, phase, granted, dropped);
      state, releases, phase, overtaken := s, releases[1..], Told(phase, granted), more;
    }

    /** The actor shuts down. */
    method TakeShutdown()
      requires Valid()
      modifies this
      ensures Valid() && state.closing && state.pending == [] && state.active == old(state.active)
      ensures phase == TurnedOut(old(phase), old(Ids(state.pending)))
      ensures ingress == old(ingress) && releases == old(releases) && overtaken == old(overtaken)
    {
      hide Inv, Idle, Callers, Requestable;
      var s := Shutdown(config, state, offered);
      var told := TurnedOut(phase, Ids(state.pending));
      ShutdownCallers(Ids(ingress), state, s, releases, phase, overtaken);
      state, phase := s, told;
    }
  }

  lemma Initial(c: Config)
    requires ConfigOk(c)
    ensures var s := State([], map[], map[], false, 0, Counters(0, 0, 0, 0));
            Inv(c, s, 0) && Idle(c, s) && Callers(Ids([]), Ids(s.pending), s.active.Keys, [], map[], {})
  {
    assert Global(map[]) == {};
  }

  lemma SubmittedCaller(queued: set<nat>, waiting: set<nat>, running: set<nat>, releases: seq<nat>,
                        phase: map<nat, Phase>, overtaken: set<nat>, id: nat)
    requires Callers(queued, waiting, running, releases, phase, overtaken) && id !in phase
    ensures Callers(queued + {id}, waiting, running, releases, phase[id := Listening], overtaken) && id !in queued
  {
    assert CallerAt(queued, waiting, running, releases, phase, overtaken, id);
    var more, told := queued + {id}, phase[id := Listening];
    forall x ensures CallerAt(more, waiting, running, releases, told, overtaken, x) {
      assert CallerAt(queued, waiting, running, releases, phase, overtaken, x);
    }
  }

  lemma DroppedCaller(queued: set<nat>, waiting: set<nat>, running: set<nat>, releases: seq<nat>,
                      phase: map<nat, Phase>, overtaken: set<nat>, id: nat)
    requires Callers(queued, waiting, running, releases, phase, overtaken) && id in phase && phase[id] != Gone
    requires DistinctNats(releases)
    ensures Callers(queued, waiting, running, releases + [id], phase[id := Gone], overtaken)
    ensures DistinctNats(releases + [id])
  {
    assert CallerAt(queued, waiting, running, releases, phase, overtaken, id);
    assert forall i :: 0 <= i < |releases| ==> releases[i] in releases;
    var more, told := releases + [id], phase[id := Gone];
    forall x ensures CallerAt(queued, waiting, running, more, told, overtaken, x) {
      assert CallerAt(queued, waiting, running, releases, phase, overtaken, x);
    }
  }

  lemma SnocIds(items: seq<Item>, it: Item)
    requires DistinctIds(items) && it.id !in Ids(items)
    ensures DistinctIds(items + [it]) && Ids(items + [it]) == Ids(items) + {it.id}
    ensures forall x :: x in items + [it] <==> x in items || x == it
  {
    forall i | 0 <= i < |items| ensures items[i].id != it.id { assert items[i] in items; }
  }

  lemma IngressHead(ingress: seq<Item>, s: State, releases: seq<nat>, phase: map<nat, Phase>, overtaken: set<nat>)
    requires ingress != [] && DistinctIds(ingress)
    requires Callers(Ids(ingress), Ids(s.pending), s.active.Keys, releases, phase, overtaken)
    ensures var id := ingress[0].id;
            && id !in Ids(s.pending) && id !in s.active && id in phase
            && Ids(ingress[1..]) == Ids(ingress) - {id} && DistinctIds(ingress[1..])
            && (forall x :: x in ingress[1..] ==> x in ingress)
  {
    var id, rest := ingress[0].id, ingress[1..];
    assert ingress[0] in ingress && ingress == [ingress[0]] + rest;
    assert id in Ids(ingress);
    assert CallerAt(Ids(ingress), Ids(s.pending), s.active.Keys, releases, phase, overtaken, id);
    forall x | x in rest ensures x.id != id {
      var i :| 0 <= i < |rest| && rest[i] == x;
      assert ingress[i + 1] == x;
    }
  }

  lemma RefusedCaller(ingress: seq<Item>, s: State, s': State, releases: seq<nat>, phase: map<nat, Phase>,
                      overtaken: set<nat>)
    requires ingress != [] && DistinctIds(ingress) && s'.pending == s.pending && s'.active == s.active
    requires Callers(Ids(ingress), Ids(s.pending), s.active.Keys, releases, phase, overtaken)
    ensures ingress[0].id in phase
    ensures var id := ingress[0].id;
            Callers(Ids(ingress[1..]), Ids(s'.pending), s'.active.Keys, releases, Denied(phase, id), overtaken)
  {
    IngressHead(ingress, s, releases, phase, overtaken);
    hide Ids;
    var id := ingress[0].id;
    var told := Denied(phase, id);
    forall x ensures CallerAt(Ids(ingress[1..]), Ids(s'.pending), s'.active.Keys, releases, told, overtaken, x) {
      assert CallerAt(Ids(ingress), Ids(s.pending), s.active.Keys, releases, phase, overtaken, x);
    }
  }

  lemma EnqueuedCaller(ingress: seq<Item>, s: State, queued: State, releases: seq<nat>, phase: map<nat, Phase>,
                       overtaken: set<nat>)
    requires ingress != [] && DistinctIds(ingress)
    requires Ids(queued.pending) == Ids(s.pending) + {ingress[0].id} && queued.active == s.active
    requires Callers(Ids(ingress), Ids(s.pending), s.active.Keys, releases, phase, overtaken)
    ensures Callers(Ids(ingress[1..]), Ids(queued.pending), queued.active.Keys, releases, phase, overtaken)
  {
    IngressHead(ingress, s, releases, phase, overtaken);
    assert ingress[0] in ingress && ingress[0].id in Ids(ingress);
    hide Ids;
    forall x ensures CallerAt(Ids(ingress[1..]), Ids(queued.pending), queued.active.Keys, releases, phase, overtaken, x) {
      assert CallerAt(Ids(ingress), Ids(s.pending), s.active.Keys, releases, phase, overtaken, x);
    }
  }

  lemma ReleasedCaller(queued: set<nat>, s: State, freed: State, releases: seq<nat>, phase: map<nat, Phase>,
                       overtaken: set<nat>)
    requires releases != [] && DistinctNats(releases)
    requires Ids(freed.pending) == Ids(s.pending) - {releases[0]} && freed.active.Keys == s.active.Keys - {releases[0]}
    requires Callers(queued, Ids(s.pending), s.active.Keys, releases, phase, overtaken)
    ensures Callers(queued, Ids(freed.pending), freed.active.Keys, releases[1..], phase,
                    overtaken + If(releases[0] in queued, releases[0]))
    ensures DistinctNats(releases[1..])
  {
    hide Ids;
    var id := releases[0];
    assert releases == [id] + releases[1..];
    assert id !in releases[1..];
    forall x ensures CallerAt(queued, Ids(freed.pending), freed.active.Keys, releases[1..], phase,
                              overtaken + If(id in queued, id), x) {
      assert CallerAt(queued, Ids(s.pending), s.active.Keys, releases, phase, overtaken, x);
    }
  }

  lemma ShutdownCallers(queued: set<nat>, s: State, s': State, releases: seq<nat>, phase: map<nat, Phase>,
                        overtaken: set<nat>)
    requires Callers(queued, Ids(s.pending), s.active.Keys, releases, phase, overtaken)
    requires s'.pending == [] && s'.active == s.active
    ensures Callers(queued, Ids(s'.pending), s'.active.Keys, releases, TurnedOut(phase, Ids(s.pending)), overtaken)
  {
    var told := TurnedOut(phase, Ids(s.pending));
    assert Ids(s'.pending) == {};
    hide Ids;
    forall x ensures CallerAt(queued, Ids(s'.pending), s'.active.Keys, releases, told, overtaken, x) {
      assert CallerAt(queued, Ids(s.pending), s.active.Keys, releases, phase, overtaken, x);
    }
  }

  // ----- what every run guarantees -----------------------------------------

  /** Leases held never exceed the global limit, nor the limit of any quota. */
  lemma HeldWithinCapacity(run: Run)
    requires run.Valid()
    ensures Holders(run.phase) <= run.state.active.Keys
    ensures |Holders(run.phase) * Global(run.state.active)| <= run.config.maxActive
    ensures forall key :: key in run.state.quotas ==>
              |Holders(run.phase) * Running(run.state.active, key)| <= run.state.quotas[key].limit
    ensures forall key :: key !in run.state.quotas ==> Holders(run.phase) * Running(run.state.active, key) == {}
  {
    var s := run.state;
    forall id | id in Holders(run.phase) ensures id in s.active {
      assert CallerAt(Ids(run.ingress), Ids(s.pending), s.active.Keys, run.releases, run.phase, run.overtaken, id);
    }
    SmallerPart(Holders(run.phase), Global(s.active));
    forall key
      ensures key in s.quotas ==> |Holders(run.phase) * Running(s.active, key)| <= s.quotas[key].limit
      ensures key !in s.quotas ==> Holders(run.phase) * Running(s.active, key) == {}
    {
      assert Booked(s.quotas, s.pending, s.active, key);
      SmallerPart(Holders(run.phase), Running(s.active, key));
    }
  }

  lemma SmallerPart(a: set<nat>, b: set<nat>)
    ensures |a * b| <= |b|
  {
    assert b == a * b + (b - a);
  }

  /** Nothing waits while it could run: whatever is queued wants a global slot when all are taken, or a
      quota at its limit. */
  lemma NothingWaitsWithRoom(run: Run, it: Item)
    requires run.Valid() && it in run.state.pending
    ensures (it.globalSlot && |Global(run.state.active)| == run.config.maxActive)
            || exists q :: q in it.quotas && |Running(run.state.active, q.key)| >= q.limit
  {
    hide Callers, Fits;
    var s := run.state;
    FitsIsRoom(run.config, s, it, run.offered);
  }

  /** No caller is forgotten: a listener is queued, and a lease is held until its caller drops it. */
  lemma NobodyForgotten(run: Run, id: nat)
    requires run.Valid() && id in run.phase
    ensures run.phase[id] == Listening ==> id in Ids(run.ingress) || id in Ids(run.state.pending)
    ensures run.phase[id] == Holding ==> id in run.state.active
    ensures id in run.state.active && run.phase[id] == Gone ==> id in run.releases
  {
    hide Inv, Idle, Ids;
    assert CallerAt(Ids(run.ingress), Ids(run.state.pending), run.state.active.Keys, run.releases, run.phase,
                    run.overtaken, id);
  }

  /** A queued admission of a gone caller lingers exactly when its release overtook it. */
  lemma LingersIffOvertaken(run: Run, id: nat)
    requires run.Valid() && id in run.phase && run.phase[id] == Gone && id in Ids(run.state.pending)
    ensures id !in run.releases <==> id in run.overtaken
  {
    hide Inv, Idle, Ids;
    assert CallerAt(Ids(run.ingress), Ids(run.state.pending), run.state.active.Keys, run.releases, run.phase,
                    run.overtaken, id);
  }

  /** An admission for the global slot alone. */
  function Plain(id: nat): Item { Item(id, 1, 1, 0, [], true, 0) }

  lemma PlainAdmission(c: Config, s: State, id: nat)
    ensures Requestable(Plain(id)) && Keys(Plain(id).quotas) == []
    ensures Turned(s, Plain(id)) <==> s.closing || |s.pending| >= MAX_PENDING
    ensures Room(c, s.active, Plain(id)) <==> |Global(s.active)| < c.maxActive
  {
  }

  lemma NobodyQueued(pending: seq<Item>)
    requires Ids(pending) == {}
    ensures pending == []
  {
    assert pending != [] ==> pending[0].id in Ids(pending);
  }

  /** One slot, taken by a first caller. */
  method OneHolder() returns (run: Run)
    ensures fresh(run) && run.Valid() && run.ingress == [] && run.releases == [] && run.config == Config(1, 1)
    ensures run.phase == map[0 := Holding] && run.state.active == map[0 := Lease([], true)]
    ensures Ids(run.state.pending) == {} && !run.state.closing
  {
    hide Inv, Idle, Callers, Requestable, Room, Turned, Ids, Global;
    run := new Run(Config(1, 1));
    PlainAdmission(run.config, run.state, 0);
    run.Submit(Plain(0));
    NoLeases();
    run.TakeEnqueue(0);
  }

  /** A second caller submits and gives up, and its release is handled before its admission is. */
  method GivenUp() returns (run: Run)
    ensures fresh(run) && run.Valid() && run.ingress == [Plain(1)] && run.releases == [] && run.config == Config(1, 1)
    ensures run.phase == map[0 := Holding, 1 := Gone] && run.state.active == map[0 := Lease([], true)]
    ensures Ids(run.state.pending) == {} && !run.state.closing
  {
    hide Inv, Idle, Callers, Requestable, Room, Turned, Ids, Global, OnlyAnswered, Holders;
    run := OneHolder();
    PlainAdmission(run.config, run.state, 1);
    run.Submit(Plain(1));
    run.Drop(1);
    ghost var phase := run.phase;
    run.TakeRelease(0);
    NobodyListens(phase, run.phase);
    assert run.state.active == map[0 := Lease([], true)];
  }

  lemma NobodyListens(before: map<nat, Phase>, after: map<nat, Phase>)
    requires OnlyAnswered(before, after) && Alive(before) == {}
    ensures after == before
  {
    assert forall id :: id in before ==> (before[id] == Listening <==> id in Alive(before));
  }

  /** A run that leaves such an admission behind: the first caller holds the one slot, and the
      admission of the second is queued though nobody waits for it and no release is on the way. */
  method Overtaking() returns (run: Run)
    ensures fresh(run) && run.Valid() && run.ingress == [] && run.releases == []
    ensures run.phase == map[0 := Holding, 1 := Gone] && Ids(run.state.pending) == {1} && run.state.active.Keys == {0}
  {
    hide Inv, Idle, Callers, Requestable, Room, Turned, Ids, Global, OnlyAnswered, Holders;
    run := GivenUp();
    NobodyQueued(run.state.pending);
    PlainAdmission(run.config, run.state, 1);
    NoLeases();
    run.TakeEnqueue(0);
  }

  lemma NoLeases()
    ensures Global(map[]) == {} && Global(map[0 := Lease([], true)]) == {0} && Ids([]) == {}
  {
  }

  predicate Settled(phase: map<nat, Phase>) { forall id :: id in phase ==> phase[id] == Gone || phase[id] == Refused }

  /** No capacity leaks: when every caller has settled and the channels are drained,
      nothing is active, nothing is queued and no quota is in use. */
  lemma NothingLeaks(run: Run)
    requires run.Valid() && Settled(run.phase) && run.ingress == [] && run.releases == []
    ensures run.state.active == map[] && run.state.pending == [] && run.state.quotas == map[]
    ensures run.offered == run.state.counters.released + run.state.counters.cancelled + run.state.counters.rejected
    ensures run.state.counters.admitted == run.state.counters.released
  {
    var s := run.state;
    forall id ensures id !in s.active {
      assert CallerAt(Ids(run.ingress), Ids(s.pending), s.active.Keys, run.releases, run.phase, run.overtaken, id);
    }
    assert s.active == map[];
    EmptyFits(run.config, s, run.offered);
    forall key ensures key !in s.quotas {
      assert Booked(s.quotas, s.pending, s.active, key);
    }
  }

  /** With nothing active everything queued would fit, so nothing is queued. */
  lemma EmptyFits(c: Config, s: State, offered: nat)
    requires ConfigOk(c) && Inv(c, s, offered) && (!s.closing ==> Idle(c, s)) && s.active == map[]
    ensures s.pending == []
  {
    if s.pending != [] {
      var it := s.pending[0];
      assert it in s.pending && Global(s.active) == {};
      forall key | key in Keys(it.quotas) ensures key in s.quotas && s.quotas[key].active < s.quotas[key].limit {
        var i :| 0 <= i < |it.quotas| && Keys(it.quotas)[i] == key;
        assert it.quotas[i] in it.quotas;
        assert Booked(s.quotas, s.pending, s.active, key) && Running(s.active, key) == {};
      }
      assert Fits(c, s, it);
    }
  }
}
