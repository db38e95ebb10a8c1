/** The admission bookkeeping of core/src/task_scheduler.rs: the priority queue, the
    quota counters, and how each step moves an admission between them. */
module SchedulerBooks {

  // ----- data ---------------------------------------------------------------

  /** A capacity identity, by its digest, and its limit. */
  datatype Quota = Quota(key: string, limit: nat)

  /** A queued admission. `arrival` is its position in the order of arrival. */
  datatype Item = Item(id: nat, priority: nat, effective: nat, arrival: nat, quotas: seq<Quota>, globalSlot: bool,
                       enqueuedAt: nat)

  /** An admitted one. */
  datatype Lease = Lease(keys: seq<string>, globalSlot: bool)

  datatype Usage = Usage(limit: nat, active: nat, pending: nat)

  function Keys(quotas: seq<Quota>): (keys: seq<string>)
    ensures |keys| == |quotas| && forall i :: 0 <= i < |quotas| ==> keys[i] == quotas[i].key
  {
    seq(|quotas|, i requires 0 <= i < |quotas| => quotas[i].key)
  }

  predicate DistinctKeys(keys: seq<string>) { forall i, j :: 0 <= i < j < |keys| ==> keys[i] != keys[j] }

  /** What `acquire_inner` checks before an admission is sent. */
  predicate Requestable(it: Item) {
    && DistinctKeys(Keys(it.quotas)) && (forall q :: q in it.quotas ==> q.limit > 0)
    && (it.globalSlot || it.quotas != []) && |it.quotas| <= 8
  }

  // ----- the priority queue -------------------------------------------------

  /** Lower classes first, first come first served within a class. */
  predicate Ahead(a: Item, b: Item) {
    a.effective < b.effective || (a.effective == b.effective && a.arrival < b.arrival)
  }

  predicate Queued(pending: seq<Item>) { forall i, j :: 0 <= i < j < |pending| ==> Ahead(pending[i], pending[j]) }

  function Ids(pending: seq<Item>): set<nat> { set it | it in pending :: it.id }

  predicate DistinctIds(pending: seq<Item>) { forall i, j :: 0 <= i < j < |pending| ==> pending[i].id != pending[j].id }

  predicate DistinctArrivals(pending: seq<Item>) {
    forall i, j :: 0 <= i < j < |pending| ==> pending[i].arrival != pending[j].arrival
  }

  /** Where an item goes: behind everything ahead of it. */
  function Place(pending: seq<Item>, it: Item): (k: nat)
    ensures k <= |pending| && forall i :: 0 <= i < k ==> Ahead(pending[i], it)
    ensures k < |pending| ==> !Ahead(pending[k], it)
  {
    if pending == [] || !Ahead(pending[0], it) then 0
    else
      var k := Place(pending[1..], it);
      assert forall i :: 1 <= i < k + 1 ==> pending[i] == pending[1..][i - 1];
      k + 1
  }

  function Push(pending: seq<Item>, it: Item): seq<Item> {
    pending[..Place(pending, it)] + [it] + pending[Place(pending, it)..]
  }

  lemma PushAt(pending: seq<Item>, it: Item, i: nat)
    requires i <= |pending|
    ensures |Push(pending, it)| == |pending| + 1
    ensures Push(pending, it)[i] == if i < Place(pending, it) then pending[i]
                                    else if i == Place(pending, it) then it else pending[i - 1]
  {
    hide Ahead;
  }

  lemma PushMembers(pending: seq<Item>, it: Item)
    ensures forall x :: x in Push(pending, it) <==> x == it || x in pending
  {
    hide Ahead, Place;
    var k := Place(pending, it);
    assert pending == pending[..k] + pending[k..];
  }

  lemma PushKeeps(pending: seq<Item>, it: Item)
    requires Queued(pending) && DistinctIds(pending) && DistinctArrivals(pending)
    requires it.id !in Ids(pending) && forall x :: x in pending ==> x.arrival != it.arrival
    ensures Queued(Push(pending, it)) && DistinctIds(Push(pending, it)) && DistinctArrivals(Push(pending, it))
  {
    hide Push, Place;
    var k := Place(pending, it);
    PushAt(pending, it, 0);
    assert forall i :: 0 <= i < |pending| ==> pending[i] in pending;
    forall i, j | 0 <= i < j < |Push(pending, it)|
      ensures Ahead(Push(pending, it)[i], Push(pending, it)[j]) && Push(pending, it)[i].id != Push(pending, it)[j].id
      ensures Push(pending, it)[i].arrival != Push(pending, it)[j].arrival
    {
      PushAt(pending, it, i);
      PushAt(pending, it, j);
      if i == k && j - 1 > k {
        assert Ahead(pending[k], pending[j - 1]);
      }
    }
  }

  function RemoveAt(pending: seq<Item>, i: nat): seq<Item>
    requires i < |pending|
  {
    pending[..i] + pending[i + 1..]
  }

  lemma RemoveKeeps(pending: seq<Item>, i: nat)
    requires Queued(pending) && DistinctIds(pending) && i < |pending|
    ensures Queued(RemoveAt(pending, i)) && DistinctIds(RemoveAt(pending, i))
    ensures forall x :: x in RemoveAt(pending, i) <==> x in pending && x != pending[i]
    ensures pending[i].id !in Ids(RemoveAt(pending, i)) && |RemoveAt(pending, i)| == |pending| - 1
  {
    var r := RemoveAt(pending, i);
    assert forall j :: 0 <= j < |r| ==> r[j] == if j < i then pending[j] else pending[j + 1];
    forall x | x in pending && x != pending[i] ensures x in r {
      var j :| 0 <= j < |pending| && pending[j] == x;
      assert r[if j < i then j else j - 1] == x;
    }
  }

  // ----- quota counters -----------------------------------------------------

  function Waiting(pending: seq<Item>, key: string): set<nat> {
    set it | it in pending && key in Keys(it.quotas) :: it.id
  }

  function Running(active: map<nat, Lease>, key: string): set<nat> {
    set id | id in active && key in active[id].keys
  }

  /** The counters of one key are exact, within the limit, and present exactly while in use. */
  ghost predicate Booked(quotas: map<string, Usage>, pending: seq<Item>, active: map<nat, Lease>, key: string) {
    && (key in quotas <==> Waiting(pending, key) != {} || Running(active, key) != {})
    && (key in quotas ==>
          && quotas[key].pending == |Waiting(pending, key)| && quotas[key].active == |Running(active, key)|
          && quotas[key].active <= quotas[key].limit && quotas[key].limit > 0)
  }

  ghost predicate Books(quotas: map<string, Usage>, pending: seq<Item>, active: map<nat, Lease>) {
    forall key :: Booked(quotas, pending, active, key)
  }

  /** Every queued admission is registered under its own limits. */
  ghost predicate Registered(quotas: map<string, Usage>, pending: seq<Item>) {
    forall it, q :: it in pending && q in it.quotas ==> q.key in quotas && quotas[q.key].limit == q.limit
  }

  function Global(active: map<nat, Lease>): set<nat> { set id | id in active && active[id].globalSlot }

  /** `saturating_sub(1)` */
  function Less(n: nat): nat { if n > 0 then n - 1 else 0 }

  datatype Change = Arrive | Start | Finish | Withdraw

  function Changed(u: Usage, c: Change): Usage {
    match c
    case Arrive => u.(pending := u.pending + 1)
    case Start => Usage(u.limit, u.active + 1, Less(u.pending))
    case Finish => u.(active := Less(u.active))
    case Withdraw => u.(pending := Less(u.pending))
  }

  predicate Unused(u: Usage) { u.active == 0 && u.pending == 0 }

  /** The counters after a change to an admission's keys; those out of use are gone. */
  ghost predicate UpdatedBy(quotas: map<string, Usage>, keys: seq<string>, c: Change, quotas': map<string, Usage>) {
    && (forall key :: key in quotas' <==> key in quotas && !(key in keys && Unused(Changed(quotas[key], c))))
    && (forall key :: key in quotas' ==> quotas'[key] == if key in keys then Changed(quotas[key], c) else quotas[key])
  }

  /** One pass over the keys of an admission; keys that fall out of use are pruned. */
  method Update(quotas0: map<string, Usage>, keys: seq<string>, c: Change) returns (quotas: map<string, Usage>)
    requires DistinctKeys(keys)
    ensures UpdatedBy(quotas0, keys, c, quotas)
  {
    quotas := quotas0;
    for i := 0 to |keys|
      invariant forall key :: key in quotas <==> key in quotas0 && !(key in keys[..i] && Unused(Changed(quotas0[key], c)))
      invariant forall key :: key in quotas ==>
                  quotas[key] == if key in keys[..i] then Changed(quotas0[key], c) else quotas0[key]
    {
      var key := keys[i];
      assert keys[..i + 1] == keys[..i] + [key];
      assert key !in keys[..i];
      if key in quotas {
        var u := Changed(quotas[key], c);
        quotas := if Unused(u) then quotas - {key} else quotas[key := u];
      }
    }
    assert keys[..|keys|] == keys;
  }

  // ----- how the books move -------------------------------------------------

  function If(yes: bool, id: nat): set<nat> { if yes then {id} else {} }

  lemma WaitingAdd(pending: seq<Item>, it: Item, more: seq<Item>, key: string)
    requires it.id !in Ids(pending) && forall x :: x in more <==> x == it || x in pending
    ensures Waiting(more, key) == Waiting(pending, key) + If(key in Keys(it.quotas), it.id)
    ensures it.id !in Waiting(pending, key)
  {
  }

  lemma WaitingRemove(pending: seq<Item>, i: nat, key: string)
    requires Queued(pending) && DistinctIds(pending) && i < |pending|
    ensures Waiting(RemoveAt(pending, i), key) == Waiting(pending, key) - {pending[i].id}
    ensures pending[i].id in Waiting(pending, key) <==> key in Keys(pending[i].quotas)
  {
    hide Queued;
    RemoveKeeps(pending, i);
    hide RemoveAt;
    forall x | x in pending && x.id == pending[i].id ensures x == pending[i] {
      var j :| 0 <= j < |pending| && pending[j] == x;
    }
  }

  lemma RunningAdd(active: map<nat, Lease>, id: nat, lease: Lease, key: string)
    requires id !in active
    ensures Running(active[id := lease], key) == Running(active, key) + If(key in lease.keys, id)
    ensures id !in Running(active, key)
  {
  }

  lemma RunningRemove(active: map<nat, Lease>, id: nat, key: string)
    requires id in active
    ensures Running(active - {id}, key) == Running(active, key) - {id}
    ensures id in Running(active, key) <==> key in active[id].keys
  {
  }

  lemma SizeLess(s: set<nat>, x: nat)
    ensures x in s ==> |s - {x}| == |s| - 1
    ensures x !in s ==> s - {x} == s
    ensures |s| == 0 <==> s == {}
  {
  }

  lemma SizeMore(s: set<nat>, x: nat, yes: bool)
    requires x !in s
    ensures |s + If(yes, x)| == |s| + (if yes then 1 else 0)
    ensures s + If(yes, x) == {} <==> s == {} && !yes
  {
  }

  /** The limit an admission states for a key. */
  ghost predicate States(it: Item, key: string, limit: nat) { Quota(key, limit) in it.quotas }

  /** `register_pending_quotas`: refuses a key registered under another limit, without touching anything;
      otherwise every key of the admission is registered and counts it. */
  method Register(quotas0: map<string, Usage>, it: Item) returns (ok: bool, quotas: map<string, Usage>)
    requires Requestable(it)
    ensures ok <==> forall q :: q in it.quotas && q.key in quotas0 ==> quotas0[q.key].limit == q.limit
    ensures !ok ==> quotas == quotas0
    ensures ok ==> forall key :: key in quotas <==> key in quotas0 || key in Keys(it.quotas)
    ensures ok ==> forall key :: key in quotas ==>
              if key !in Keys(it.quotas) then quotas[key] == quotas0[key]
              else if key in quotas0 then quotas[key] == Changed(quotas0[key], Arrive)
              else quotas[key].active == 0 && quotas[key].pending == 1 && States(it, key, quotas[key].limit)
  {
    for i := 0 to |it.quotas|
      invariant forall j :: 0 <= j < i && it.quotas[j].key in quotas0 ==> quotas0[it.quotas[j].key].limit == it.quotas[j].limit
    {
      var q := it.quotas[i];
      if q.key in quotas0 && quotas0[q.key].limit != q.limit {
        return false, quotas0;
      }
    }
    quotas := quotas0;
    for i := 0 to |it.quotas|
      invariant forall key :: key in quotas <==> key in quotas0 || key in Keys(it.quotas)[..i]
      invariant forall key :: key in quotas0 ==> quotas[key] == quotas0[key]
      invariant forall key :: key in quotas && key !in quotas0 ==>
                  quotas[key].active == 0 && quotas[key].pending == 0 && States(it, key, quotas[key].limit)
    {
      var q := it.quotas[i];
      assert Keys(it.quotas)[..i + 1] == Keys(it.quotas)[..i] + [q.key];
      assert Quota(q.key, q.limit) == q;
      if q.key !in quotas {
        quotas := quotas[q.key := Usage(q.limit, 0, 0)];
      }
    }
    assert Keys(it.quotas)[..|it.quotas|] == Keys(it.quotas);
    quotas := Update(quotas, Keys(it.quotas), Arrive);
    return true, quotas;
  }

  lemma ArriveBooks(quotas: map<string, Usage>, pending: seq<Item>, active: map<nat, Lease>, it: Item,
                    quotas': map<string, Usage>, pending': seq<Item>)
    requires Books(quotas, pending, active) && Registered(quotas, pending) && Requestable(it)
    requires it.id !in Ids(pending) && forall x :: x in pending' <==> x == it || x in pending
    requires forall q :: q in it.quotas && q.key in quotas ==> quotas[q.key].limit == q.limit
    requires forall key :: key in quotas' <==> key in quotas || key in Keys(it.quotas)
    requires forall key :: key in quotas' ==>
               if key !in Keys(it.quotas) then quotas'[key] == quotas[key]
               else if key in quotas then quotas'[key] == Changed(quotas[key], Arrive)
               else quotas'[key].active == 0 && quotas'[key].pending == 1 && States(it, key, quotas'[key].limit)
    ensures Books(quotas', pending', active)
  {
    hide Ids;
    forall key ensures Booked(quotas', pending', active, key) {
      assert Booked(quotas, pending, active, key);
      WaitingAdd(pending, it, pending', key);
      SizeMore(Waiting(pending, key), it.id, key in Keys(it.quotas));
    }
  }

  lemma ArriveRegistered(quotas: map<string, Usage>, pending: seq<Item>, it: Item, quotas': map<string, Usage>,
                         pending': seq<Item>)
    requires Registered(quotas, pending) && Requestable(it)
    requires forall x :: x in pending' <==> x == it || x in pending
    requires forall q :: q in it.quotas && q.key in quotas ==> quotas[q.key].limit == q.limit
    requires forall key :: key in quotas' <==> key in quotas || key in Keys(it.quotas)
    requires forall key :: key in quotas && key in quotas' ==> quotas'[key].limit == quotas[key].limit
    requires forall key :: key in quotas' && key !in quotas ==> States(it, key, quotas'[key].limit)
    ensures Registered(quotas', pending')
  {
    forall x, q | x in pending' && q in x.quotas ensures q.key in quotas' && quotas'[q.key].limit == q.limit {
      if x == it {
        var i :| 0 <= i < |it.quotas| && it.quotas[i] == q;
        assert Keys(it.quotas)[i] == q.key;
        if q.key !in quotas {
          var j :| 0 <= j < |it.quotas| && it.quotas[j] == Quota(q.key, quotas'[q.key].limit);
          assert Keys(it.quotas)[j] == q.key;
        }
      }
    }
  }

  /** One key's books, by the sets of admissions behind them. */
  predicate Exact(present: bool, u: Usage, waiting: set<nat>, running: set<nat>) {
    && (present <==> waiting != {} || running != {})
    && (present ==> u.pending == |waiting| && u.active == |running| && u.active <= u.limit && u.limit > 0)
  }

  lemma StartExact(present: bool, u: Usage, waiting: set<nat>, running: set<nat>, id: nat, mine: bool)
    requires Exact(present, u, waiting, running) && id !in running
    requires (mine <==> id in waiting) && (mine ==> u.active < u.limit)
    ensures var u' := if mine then Changed(u, Start) else u;
            Exact(present && !(mine && Unused(u')), u', waiting - {id}, running + If(mine, id))
  {
    SizeLess(waiting, id);
    SizeMore(running, id, mine);
  }

  lemma FinishExact(present: bool, u: Usage, waiting: set<nat>, running: set<nat>, id: nat, mine: bool)
    requires Exact(present, u, waiting, running) && (mine <==> id in running)
    ensures var u' := if mine then Changed(u, Finish) else u;
            Exact(present && !(mine && Unused(u')), u', waiting, running - {id})
  {
    SizeLess(running, id);
    SizeLess(running - {id}, id);
    SizeLess(waiting, id);
  }

  lemma WithdrawExact(present: bool, u: Usage, waiting: set<nat>, running: set<nat>, id: nat, mine: bool)
    requires Exact(present, u, waiting, running) && (mine <==> id in waiting)
    ensures var u' := if mine then Changed(u, Withdraw) else u;
            Exact(present && !(mine && Unused(u')), u', waiting - {id}, running)
  {
    SizeLess(waiting, id);
    SizeLess(waiting - {id}, id);
    SizeLess(running, id);
  }

  function Of(quotas: map<string, Usage>, key: string): Usage { if key in quotas then quotas[key] else Usage(0, 0, 0) }

  lemma BookedExact(quotas: map<string, Usage>, pending: seq<Item>, active: map<nat, Lease>, key: string)
    ensures Booked(quotas, pending, active, key)
            <==> Exact(key in quotas, Of(quotas, key), Waiting(pending, key), Running(active, key))
  {
    hide Waiting, Running;
  }

  lemma StartBooks(quotas: map<string, Usage>, pending: seq<Item>, active: map<nat, Lease>, i: nat,
                   quotas': map<string, Usage>)
    requires Books(quotas, pending, active) && Queued(pending) && DistinctIds(pending) && i < |pending|
    requires pending[i].id !in active
    requires forall key :: key in Keys(pending[i].quotas) && key in quotas ==> quotas[key].active < quotas[key].limit
    requires UpdatedBy(quotas, Keys(pending[i].quotas), Start, quotas')
    ensures var it := pending[i];
            Books(quotas', RemoveAt(pending, i), active[it.id := Lease(Keys(it.quotas), it.globalSlot)])
  {
    hide Queued, DistinctIds, RemoveAt, Waiting, Running, Booked, Exact;
    var it := pending[i];
    var lease := Lease(Keys(it.quotas), it.globalSlot);
    var left, now := RemoveAt(pending, i), active[it.id := lease];
    forall key ensures Booked(quotas', left, now, key) {
      BookedExact(quotas, pending, active, key);
      BookedExact(quotas', left, now, key);
      WaitingRemove(pending, i, key);
      RunningAdd(active, it.id, lease, key);
      if key in Keys(it.quotas) { WaitingBooked(quotas, pending, active, i, key); }
      StartExact(key in quotas, Of(quotas, key), Waiting(pending, key), Running(active, key), it.id,
                 key in Keys(it.quotas));
      OfUpdated(quotas, Keys(it.quotas), Start, quotas', key);
    }
  }

  lemma WaitingBooked(quotas: map<string, Usage>, pending: seq<Item>, active: map<nat, Lease>, i: nat, key: string)
    requires Booked(quotas, pending, active, key) && i < |pending| && key in Keys(pending[i].quotas)
    ensures key in quotas
  {
    assert pending[i].id in Waiting(pending, key);
  }

  /** Of a key after `Update`; an unused one reads as nothing. */
  lemma OfUpdated(quotas: map<string, Usage>, keys: seq<string>, c: Change, quotas': map<string, Usage>, key: string)
    requires UpdatedBy(quotas, keys, c, quotas')
    ensures var u' := if key in keys then Changed(Of(quotas, key), c) else Of(quotas, key);
            && (key in quotas' <==> key in quotas && !(key in keys && Unused(u')))
            && (key in quotas' ==> Of(quotas', key) == u')
  {
  }

  lemma FinishBooks(quotas: map<string, Usage>, pending: seq<Item>, active: map<nat, Lease>, id: nat,
                    quotas': map<string, Usage>)
    requires Books(quotas, pending, active) && id in active
    requires UpdatedBy(quotas, active[id].keys, Finish, quotas')
    ensures Books(quotas', pending, active - {id})
  {
    hide Waiting, Running, Booked;
    var now := active - {id};
    forall key ensures Booked(quotas', pending, now, key) {
      BookedExact(quotas, pending, active, key);
      BookedExact(quotas', pending, now, key);
      RunningRemove(active, id, key);
      FinishExact(key in quotas, Of(quotas, key), Waiting(pending, key), Running(active, key), id, key in active[id].keys);
      OfUpdated(quotas, active[id].keys, Finish, quotas', key);
    }
  }

  lemma WithdrawBooks(quotas: map<string, Usage>, pending: seq<Item>, active: map<nat, Lease>, i: nat,
                      quotas': map<string, Usage>)
    requires Books(quotas, pending, active) && Queued(pending) && DistinctIds(pending) && i < |pending|
    requires UpdatedBy(quotas, Keys(pending[i].quotas), Withdraw, quotas')
    ensures Books(quotas', RemoveAt(pending, i), active)
  {
    hide Queued, DistinctIds, RemoveAt, Waiting, Running, Booked;
    var left, keys := RemoveAt(pending, i), Keys(pending[i].quotas);
    forall key ensures Booked(quotas', left, active, key) {
      BookedExact(quotas, pending, active, key);
      BookedExact(quotas', left, active, key);
      WaitingRemove(pending, i, key);
      WithdrawExact(key in quotas, Of(quotas, key), Waiting(pending, key), Running(active, key), pending[i].id, key in keys);
      OfUpdated(quotas, keys, Withdraw, quotas', key);
    }
  }

  /** Registration outlives every step that leaves the queue a part of itself. */
  lemma StillRegistered(quotas: map<string, Usage>, pending: seq<Item>, active: map<nat, Lease>, keys: seq<string>,
                        c: Change, quotas': map<string, Usage>, pending': seq<Item>)
    requires Registered(quotas, pending) && Books(quotas', pending', active)
    requires forall x :: x in pending' ==> x in pending
    requires UpdatedBy(quotas, keys, c, quotas')
    ensures Registered(quotas', pending')
  {
    forall x, q | x in pending' && q in x.quotas ensures q.key in quotas' && quotas'[q.key].limit == q.limit {
      var i :| 0 <= i < |x.quotas| && x.quotas[i] == q;
      assert Keys(x.quotas)[i] == q.key;
      assert x.id in Waiting(pending', q.key);
      assert Booked(quotas', pending', active, q.key);
    }
  }
}
