/** The load markers of acp/src/agent.rs: a marker per session being loaded, owned by
    the guard of the load that opened it, and the waiters subscribed to it. */
module InflightLoads {
  import opened Text

  /** Exactly one live guard owns each marker, and only markers have owners. */
  ghost predicate Owned(open: map<string, nat>, guards: map<nat, Option<string>>) {
    && (forall g, g' :: g in guards && g' in guards && guards[g].Some? && guards[g] == guards[g'] ==> g == g')
    && (forall g :: g in guards && guards[g].Some? ==> guards[g].value in open)
    && (forall session :: session in open ==> exists g :: g in guards && guards[g] == Some(session))
  }

  /** Every channel is the channel of one marker until that marker is removed. */
  ghost predicate Channels(open: map<string, nat>, published: set<nat>, closed: set<nat>, next: nat) {
    && (forall s, t :: s in open && t in open && open[s] == open[t] ==> s == t)
    && (forall s :: s in open ==> open[s] < next && open[s] !in closed)
    && (forall c: nat :: c < next && c !in closed ==> exists s :: s in open && open[s] == c)
    && (forall c :: c in published || c in closed ==> c < next)
  }

  // ----- subscriptions ------------------------------------------------------

  /** What happens on the channels: a waiter subscribes, a waiter returns, or the load
      announces that it is ready. */
  datatype Step = Subscribed(waiter: nat, channel: nat) | Returned(waiter: nat) | Announced(channel: nat)

  /** The waiters with a receiver on the channel. */
  function Listeners(log: seq<Step>, channel: nat): set<nat> {
    if log == [] then {}
    else After(Listeners(log[..|log| - 1], channel), log[|log| - 1], channel)
  }

  function After(listeners: set<nat>, step: Step, channel: nat): set<nat> {
    match step
    case Subscribed(w, c) => if c == channel then listeners + {w} else listeners
    case Returned(w) => listeners - {w}
    case Announced(_) => listeners
  }

  /** An announcement is stored exactly when some receiver exists. */
  predicate StoredAt(log: seq<Step>, channel: nat, i: nat)
    requires i < |log|
  {
    log[i] == Announced(channel) && Listeners(log[..i], channel) != {}
  }

  predicate Stored(log: seq<Step>, channel: nat) { exists i :: 0 <= i < |log| && StoredAt(log, channel, i) }

  lemma ListenersNext(log: seq<Step>, step: Step, channel: nat)
    ensures Listeners(log + [step], channel) == After(Listeners(log, channel), step, channel)
  {
    assert (log + [step])[..|log|] == log;
  }

  lemma StoredNext(log: seq<Step>, step: Step, channel: nat)
    ensures Stored(log + [step], channel)
            <==> Stored(log, channel) || (step == Announced(channel) && Listeners(log, channel) != {})
  {
    hide Listeners;
    var more := log + [step];
    assert more[..|log|] == log;
    forall i | 0 <= i < |log| ensures StoredAt(more, channel, i) <==> StoredAt(log, channel, i) {
      assert more[..i] == log[..i];
    }
    if Stored(log, channel) {
      var i :| 0 <= i < |log| && StoredAt(log, channel, i);
      assert StoredAt(more, channel, i);
    }
    assert StoredAt(more, channel, |log|) <==> step == Announced(channel) && Listeners(log, channel) != {};
  }

  function On(waiters: map<nat, nat>, channel: nat): set<nat> { set w | w in waiters && waiters[w] == channel }

  /** Receivers and stored values are those of the steps so far. */
  ghost predicate Subscriptions(log: seq<Step>, waiters: map<nat, nat>, published: set<nat>) {
    forall c :: Listeners(log, c) == On(waiters, c) && (c in published <==> Stored(log, c))
  }

  lemma SubscriptionsNext(log: seq<Step>, waiters: map<nat, nat>, published: set<nat>, step: Step,
                          waiters': map<nat, nat>, published': set<nat>)
    requires Subscriptions(log, waiters, published)
    requires forall c :: On(waiters', c) == After(On(waiters, c), step, c)
    requires forall c :: c in published' <==> c in published || (step == Announced(c) && On(waiters, c) != {})
    ensures Subscriptions(log + [step], waiters', published')
  {
    hide Listeners, Stored, On, After;
    forall c ensures Listeners(log + [step], c) == On(waiters', c) && (c in published' <==> Stored(log + [step], c)) {
      ListenersNext(log, step, c);
      StoredNext(log, step, c);
    }
  }

  /** Waiters are numbered in the order they subscribe. */
  predicate Numbered(log: seq<Step>, waiters: map<nat, nat>, next: nat) {
    && (forall w :: w in waiters ==> w < next)
    && (forall i :: 0 <= i < |log| && log[i].Subscribed? ==> log[i].waiter < next)
  }

  predicate GuardsBelow(guards: map<nat, Option<string>>, next: nat) { forall g :: g in guards ==> g < next }

  predicate WaitOn(waiters: map<nat, nat>, next: nat) { forall w :: w in waiters ==> waiters[w] < next }

  class InflightSessionLoads {
    var open: map<string, nat>
    var published: set<nat>
    var closed: set<nat>
    var nextChannel: nat
    var guards: map<nat, Option<string>>
    var nextGuard: nat
    var waiters: map<nat, nat>
    var nextWaiter: nat
    ghost var log: seq<Step>

    ghost predicate Valid() reads this {
      && Owned(open, guards) && Channels(open, published, closed, nextChannel)
      && GuardsBelow(guards, nextGuard) && WaitOn(waiters, nextChannel)
      && Subscriptions(log, waiters, published) && Numbered(log, waiters, nextWaiter)
    }

    constructor ()
      ensures Valid() && open == map[] && guards == map[] && waiters == map[] && log == []
    {
      open, published, closed, nextChannel, guards, nextGuard := map[], {}, {}, 0, map[], 0;
      waiters, nextWaiter, log := map[], 0, [];
    }

    /** `begin`: the first load of a session opens its marker; a second one gets an inert guard. */
    method Begin(session: string) returns (guard: nat)
      requires Valid()
      modifies this
      ensures Valid() && guard !in old(guards) && published == old(published) && closed == old(closed)
      ensures waiters == old(waiters) && log == old(log)
      ensures session in old(open) ==> open == old(open) && guards == old(guards)[guard := None]
      ensures session !in old(open) ==>
                && session in open && open == old(open)[session := open[session]]
                && guards == old(guards)[guard := Some(session)]
                && open[session] !in published && open[session] !in closed
    {
      hide Owned, Channels, Subscriptions, Numbered, GuardsBelow, WaitOn;
      guard := nextGuard;
      NewGuard(guards, nextGuard, if session in open then None else Some(session));
      WaitersBelow(waiters, nextChannel);
      if session in open {
        OwnedInert(open, guards, guard);
        guards, nextGuard := guards[guard := None], nextGuard + 1;
      } else {
        OwnedBegin(open, guards, session, nextChannel, guard);
        ChannelsBegin(open, published, closed, nextChannel, session);
        open, guards := open[session := nextChannel], guards[guard := Some(session)];
        nextChannel, nextGuard := nextChannel + 1, nextGuard + 1;
      }
    }

    /** The start of `wait`: no marker, no wait; otherwise a receiver on its channel. */
    method Subscribe(session: string) returns (waiter: Option<nat>)
      requires Valid()
      modifies this
      ensures Valid() && open == old(open) && guards == old(guards)
      ensures published == old(published) && closed == old(closed)
      ensures waiter.None? <==> session !in open
      ensures waiter.None? ==> waiters == old(waiters) && log == old(log)
      ensures waiter.Some? ==>
                && waiter.value !in old(waiters) && waiters == old(waiters)[waiter.value := open[session]]
                && log == old(log) + [Subscribed(waiter.value, open[session])]
    {
      hide Owned, Channels, Subscriptions, GuardsBelow, Numbered, WaitOn;
      if session !in open {
        return None;
      }
      var w, c := nextWaiter, open[session];
      ChannelBelow(open, published, closed, nextChannel, session);
      NewWaiter(log, waiters, published, w, c, nextChannel);
      waiters, log, nextWaiter := waiters[w := c], log + [Subscribed(w, c)], nextWaiter + 1;
      return Some(w);
    }

    /** `wait` returns: its load was announced, its marker is gone, or its time is up. */
    method Return(waiter: nat, timedOut: bool)
      requires Valid() && waiter in waiters && (timedOut || !Blocked(this, waiter))
      modifies this
      ensures Valid() && open == old(open) && guards == old(guards)
      ensures published == old(published) && closed == old(closed)
      ensures waiters == old(waiters) - {waiter} && log == old(log) + [Returned(waiter)]
    {
      hide Owned, Channels, Subscriptions;
      SubscriptionsNext(log, waiters, published, Returned(waiter), waiters - {waiter}, published);
      waiters, log := waiters - {waiter}, log + [Returned(waiter)];
    }

    /** `ready`: the load announces its session. `send` stores the value only while
        the channel has a receiver; otherwise the announcement is lost. */
    method Ready(guard: nat)
      requires Valid() && guard in guards
      modifies this
      ensures Valid() && open == old(open) && guards == old(guards) && closed == old(closed) && waiters == old(waiters)
      ensures guards[guard].None? ==> published == old(published) && log == old(log)
      ensures guards[guard].Some? ==>
                var c := open[guards[guard].value];
                && log == old(log) + [Announced(c)]
                && published == old(published) + (if On(waiters, c) == {} then {} else {c})
    {
      if guards[guard].None? {
        return;
      }
      hide Owned, Channels, Subscriptions, Numbered, GuardsBelow, WaitOn, On;
      OwnerChannel(open, guards, published, closed, nextChannel, guard);
      var c := open[guards[guard].value];
      Announcement(log, waiters, published, nextWaiter, c);
      if On(waiters, c) != {} {
        published := published + {c};
      }
      log := log + [Announced(c)];
    }

    /** The guard goes, on every exit of the load: its marker goes with it, and an
        inert guard takes nothing along. */
    method DropGuard(guard: nat)
      requires Valid() && guard in guards
      modifies this
      ensures Valid() && guards == old(guards) - {guard} && published == old(published)
      ensures waiters == old(waiters) && log == old(log)
      ensures old(guards[guard]).None? ==> open == old(open) && closed == old(closed)
      ensures old(guards[guard]).Some? ==>
                && open == old(open) - {old(guards[guard].value)}
                && closed == old(closed) + {old(open[guards[guard].value])}
    {
      hide Subscriptions, Numbered, WaitOn;
      var owner := guards[guard];
      OwnedDrop(open, guards, guard);
      guards := guards - {guard};
      if owner.Some? {
        ChannelsDrop(open, published, closed, nextChannel, owner.value);
        closed := closed + {open[owner.value]};
        open := open - {owner.value};
      }
    }
  }

  lemma NewGuard(guards: map<nat, Option<string>>, next: nat, owner: Option<string>)
    requires GuardsBelow(guards, next)
    ensures next !in guards && GuardsBelow(guards[next := owner], next + 1)
  {
  }

  lemma ChannelBelow(open: map<string, nat>, published: set<nat>, closed: set<nat>, next: nat, session: string)
    requires Channels(open, published, closed, next) && session in open
    ensures open[session] < next
  {
  }

  lemma NewWaiter(log: seq<Step>, waiters: map<nat, nat>, published: set<nat>, w: nat, c: nat, next: nat)
    requires Subscriptions(log, waiters, published) && Numbered(log, waiters, w) && WaitOn(waiters, next) && c < next
    ensures w !in waiters && Subscriptions(log + [Subscribed(w, c)], waiters[w := c], published)
    ensures Numbered(log + [Subscribed(w, c)], waiters[w := c], w + 1) && WaitOn(waiters[w := c], next)
  {
    hide Subscriptions;
    SubscriptionsNext(log, waiters, published, Subscribed(w, c), waiters[w := c], published);
  }

  lemma Announcement(log: seq<Step>, waiters: map<nat, nat>, published: set<nat>, next: nat, c: nat)
    requires Subscriptions(log, waiters, published) && Numbered(log, waiters, next)
    ensures Subscriptions(log + [Announced(c)], waiters, if On(waiters, c) == {} then published else published + {c})
    ensures Numbered(log + [Announced(c)], waiters, next)
  {
    hide Subscriptions, On;
    SubscriptionsNext(log, waiters, published, Announced(c), waiters,
                      if On(waiters, c) == {} then published else published + {c});
  }

  lemma WaitersBelow(waiters: map<nat, nat>, next: nat)
    requires WaitOn(waiters, next)
    ensures WaitOn(waiters, next + 1)
  {
  }

  /** An owning guard has a marker, whose channel may carry an announcement. */
  lemma OwnerChannel(open: map<string, nat>, guards: map<nat, Option<string>>, published: set<nat>, closed: set<nat>,
                     next: nat, guard: nat)
    requires Owned(open, guards) && Channels(open, published, closed, next) && guard in guards && guards[guard].Some?
    ensures guards[guard].value in open && Channels(open, published + {open[guards[guard].value]}, closed, next)
  {
  }

  lemma OwnedInert(open: map<string, nat>, guards: map<nat, Option<string>>, guard: nat)
    requires Owned(open, guards) && guard !in guards
    ensures Owned(open, guards[guard := None])
  {
    var guards' := guards[guard := None];
    forall s | s in open ensures exists g :: g in guards' && guards'[g] == Some(s) {
      var g :| g in guards && guards[g] == Some(s);
      assert guards'[g] == Some(s);
    }
  }

  lemma ChannelsBegin(open: map<string, nat>, published: set<nat>, closed: set<nat>, next: nat, session: string)
    requires Channels(open, published, closed, next) && session !in open
    ensures Channels(open[session := next], published, closed, next + 1) && next !in published && next !in closed
  {
    var open' := open[session := next];
    forall c: nat | c < next + 1 && c !in closed ensures exists s :: s in open' && open'[s] == c {
      if c == next {
        assert open'[session] == c;
      } else {
        var s :| s in open && open[s] == c;
        assert open'[s] == c;
      }
    }
  }

  lemma OwnedBegin(open: map<string, nat>, guards: map<nat, Option<string>>, session: string, c: nat, guard: nat)
    requires Owned(open, guards) && session !in open && guard !in guards
    ensures Owned(open[session := c], guards[guard := Some(session)])
  {
    var open', guards' := open[session := c], guards[guard := Some(session)];
    forall s | s in open' ensures exists g :: g in guards' && guards'[g] == Some(s) {
      if s == session {
        assert guards'[guard] == Some(s);
      } else {
        var g :| g in guards && guards[g] == Some(s);
        assert guards'[g] == Some(s);
      }
    }
  }

  lemma OwnedDrop(open: map<string, nat>, guards: map<nat, Option<string>>, guard: nat)
    requires Owned(open, guards) && guard in guards
    ensures Owned(if guards[guard].Some? then open - {guards[guard].value} else open, guards - {guard})
  {
    var guards' := guards - {guard};
    var open' := if guards[guard].Some? then open - {guards[guard].value} else open;
    forall s | s in open' ensures exists g :: g in guards' && guards'[g] == Some(s) {
      var g :| g in guards && guards[g] == Some(s);
      assert g in guards';
    }
  }

  lemma ChannelsDrop(open: map<string, nat>, published: set<nat>, closed: set<nat>, next: nat, session: string)
    requires Channels(open, published, closed, next) && session in open
    ensures Channels(open - {session}, published, closed + {open[session]}, next)
  {
    forall c: nat | c < next && c !in closed + {open[session]}
      ensures exists s :: s in open - {session} && (open - {session})[s] == c
    {
      var s :| s in open && open[s] == c;
      assert s in open - {session};
    }
  }

  /** The waiter is still blocked. */
  predicate Blocked(loads: InflightSessionLoads, waiter: nat) reads loads {
    waiter in loads.waiters && loads.waiters[waiter] !in loads.published && loads.waiters[waiter] !in loads.closed
  }

  /** A waiter is blocked only while some live guard's load is in progress, so it
      never outlives the load it waits for; and no marker outlives the guards. */
  lemma WaitersFollowLoads(loads: InflightSessionLoads)
    requires loads.Valid()
    ensures forall w :: Blocked(loads, w) ==>
              exists g, session :: g in loads.guards && loads.guards[g] == Some(session) && session in loads.open
                                   && loads.open[session] == loads.waiters[w]
    ensures (forall g :: g in loads.guards ==> loads.guards[g].None?) ==> loads.open == map[]
  {
    hide Subscriptions, Numbered;
    forall w | Blocked(loads, w)
      ensures exists g, session :: g in loads.guards && loads.guards[g] == Some(session) && session in loads.open
                                   && loads.open[session] == loads.waiters[w]
    {
      var session :| session in loads.open && loads.open[session] == loads.waiters[w];
      var g :| g in loads.guards && loads.guards[g] == Some(session);
    }
  }

  /** A listener subscribed at some step and has not returned since. */
  lemma {:induction false} SubscribedAt(log: seq<Step>, channel: nat, w: nat) returns (s: nat)
    requires w in Listeners(log, channel)
    ensures s < |log| && log[s] == Subscribed(w, channel)
    ensures forall i :: s < i <= |log| ==> w in Listeners(log[..i], channel)
    decreases |log|
  {
    var n := |log| - 1;
    assert log[..|log|] == log;
    if log[n] == Subscribed(w, channel) {
      s := n;
    } else {
      s := SubscribedAt(log[..n], channel, w);
      forall i | s < i <= |log| ensures w in Listeners(log[..i], channel) {
        if i <= n { assert log[..n][..i] == log[..i]; }
      }
    }
  }

  /** When a waiter of a load in progress is still blocked: exactly when every announcement of that
      load came before the waiter subscribed and found no receiver. So a load that
      has announced once leaves a waiter blocked exactly when the waiter
      subscribed after the announcement and nobody was listening then. */
  lemma BlockedExactly(loads: InflightSessionLoads, w: nat) returns (s: nat)
    requires loads.Valid() && w in loads.waiters && loads.waiters[w] !in loads.closed
    ensures s < |loads.log| && loads.log[s] == Subscribed(w, loads.waiters[w])
    ensures var c := loads.waiters[w];
            Blocked(loads, w) <==>
              forall i :: 0 <= i < |loads.log| && loads.log[i] == Announced(c) ==>
                i < s && Listeners(loads.log[..i], c) == {}
  {
    var log, c := loads.log, loads.waiters[w];
    assert w in On(loads.waiters, c) && Listeners(log, c) == On(loads.waiters, c);
    assert c in loads.published <==> Stored(log, c);
    hide Owned, Channels, Subscriptions, Numbered, Listeners;
    s := SubscribedAt(log, c, w);
    if Stored(log, c) {
      var i :| 0 <= i < |log| && StoredAt(log, c, i);
    }
    forall i | 0 <= i < |log| && log[i] == Announced(c) && !Stored(log, c)
      ensures i < s && Listeners(log[..i], c) == {} {
      assert !StoredAt(log, c, i);
    }
  }

  /** The announcement of a load nobody waits for yet is lost: a waiter that comes
      later is blocked although the load is ready. */
  method LostAnnouncement(session: string) returns (loads: InflightSessionLoads, waiter: nat)
    ensures loads.Valid() && session in loads.open && Blocked(loads, waiter)
    ensures loads.log == [Announced(loads.open[session]), Subscribed(waiter, loads.open[session])]
  {
    loads := new InflightSessionLoads();
    var guard := loads.Begin(session);
    loads.Ready(guard);
    var w := loads.Subscribe(session);
    waiter := w.value;
  }
}
