/** Turn generations and late cancels, acp/src/agent.rs. `prompt` bumps a
    per-session counter, `cancel` reads it under one lock and records what it
    read under another, and deleting the session clears both maps. The events
    below are those critical sections; a log of them is one interleaving. */
module CancelGenerations {
  import opened Text

  const U64_MAX: nat := 0xFFFF_FFFF_FFFF_FFFF

  datatype Event =
    | Admit(session: string)            // prompt: saturating add
    | Read(session: string)             // cancel: copy the counter
    | Write(read: nat)                  // cancel: record what event `read` copied
    | Forget(session: string)           // delete: drop the counter
    | ForgetCancelled(session: string)  // delete: drop the record

  type Log = seq<Event>

  /** A write follows the read it belongs to. */
  predicate WellFormed(log: Log) {
    forall i :: 0 <= i < |log| && log[i].Write? ==> log[i].read < i && log[log[i].read].Read?
  }

  function SaturatingIncrement(g: nat): nat { if g < U64_MAX then g + 1 else U64_MAX }

  /** The counter of session `k` after the log; an absent entry reads as zero. */
  function Generation(log: Log, k: string): nat {
    if log == [] then 0
    else
      var n := |log| - 1;
      if log[n] == Admit(k) then SaturatingIncrement(Generation(log[..n], k))
      else if log[n] == Forget(k) then 0
      else Generation(log[..n], k)
  }

  /** The generation a turn admitted by event `a` is given. */
  function TurnGeneration(log: Log, a: nat): nat
    requires a < |log| && log[a].Admit?
  {
    Generation(log[..a + 1], log[a].session)
  }

  /** The generation the read at event `r` returns. */
  function ReadGeneration(log: Log, r: nat): nat
    requires r < |log| && log[r].Read?
  {
    Generation(log[..r], log[r].session)
  }

  /** `cancelled_generation` of session `k` after the log. */
  function Cancelled(log: Log, k: string): Option<nat>
    requires WellFormed(log)
    decreases |log|
  {
    if log == [] then None
    else
      var n := |log| - 1;
      if log[n].Write? && log[log[n].read].session == k then Some(ReadGeneration(log, log[n].read))
      else if log[n] == ForgetCancelled(k) then None
      else WellFormedPrefix(log, n); Cancelled(log[..n], k)
  }

  lemma WellFormedPrefix(log: Log, n: nat)
    requires WellFormed(log) && n <= |log|
    ensures WellFormed(log[..n])
  {
    var p := log[..n];
    forall i | 0 <= i < |p| && p[i].Write? ensures p[i].read < i && p[p[i].read].Read? {
      assert p[i] == log[i];
    }
  }

  // ----- the maps -----------------------------------------------------------

  class SessionGenerations {
    var turnGeneration: map<string, nat>
    var cancelledGeneration: map<string, nat>
    ghost var log: Log

    ghost predicate Valid()
      reads this
    {
      && WellFormed(log)
      && (forall k :: k in turnGeneration ==> turnGeneration[k] == Generation(log, k))
      && (forall k :: k !in turnGeneration ==> Generation(log, k) == 0)
      && (forall k :: k in cancelledGeneration ==> Cancelled(log, k) == Some(cancelledGeneration[k]))
      && (forall k :: k !in cancelledGeneration ==> Cancelled(log, k) == None)
    }

    constructor ()
      ensures Valid() && log == []
    {
      turnGeneration, cancelledGeneration, log := map[], map[], [];
    }

    ghost method Append(e: Event)
      requires WellFormed(log)
      requires e.Write? ==> e.read < |log| && log[e.read].Read?
      modifies this`log
      ensures log == old(log) + [e] && WellFormed(log)
      ensures forall k :: Generation(log, k) ==
                if e == Admit(k) then SaturatingIncrement(Generation(old(log), k))
                else if e == Forget(k) then 0 else Generation(old(log), k)
      ensures forall k :: Cancelled(log, k) ==
                if e.Write? && old(log)[e.read].session == k then Some(ReadGeneration(old(log), e.read))
                else if e == ForgetCancelled(k) then None else Cancelled(old(log), k)
    {
      var before := log;
      log := log + [e];
      assert log[..|before|] == before;
      if e.Write? { assert log[..e.read] == before[..e.read]; }
    }

    /** The bump in `prompt`: the new turn's generation. */
    method AdmitTurn(session: string) returns (generation: nat)
      requires Valid()
      modifies this
      ensures Valid() && log == old(log) + [Admit(session)]
      ensures generation == TurnGeneration(log, |old(log)|) == SaturatingIncrement(Generation(old(log), session))
      ensures cancelledGeneration == old(cancelledGeneration)
    {
      var slot := if session in turnGeneration then turnGeneration[session] else 0;
      generation := SaturatingIncrement(slot);
      turnGeneration := turnGeneration[session := generation];
      Append(Admit(session));
      assert log[..|old(log)| + 1] == log;
    }

    /** First half of `cancel`. */
    method CancelRead(session: string) returns (generation: nat, ghost at: nat)
      requires Valid()
      modifies this`log
      ensures Valid() && log == old(log) + [Read(session)]
      ensures at == |old(log)| && generation == ReadGeneration(log, at)
    {
      generation := if session in turnGeneration then turnGeneration[session] else 0;
      at := |log|;
      Append(Read(session));
      assert log[..at] == old(log);
    }

    /** Second half of `cancel`, any time later. */
    method CancelWrite(session: string, generation: nat, ghost at: nat)
      requires Valid() && at < |log| && log[at] == Read(session) && generation == ReadGeneration(log, at)
      modifies this
      ensures Valid() && log == old(log) + [Write(at)] && Cancelled(log, session) == Some(generation)
      ensures turnGeneration == old(turnGeneration)
    {
      cancelledGeneration := cancelledGeneration[session := generation];
      Append(Write(at));
    }

    method DeleteTurnGeneration(session: string)
      requires Valid()
      modifies this
      ensures Valid() && log == old(log) + [Forget(session)] && Generation(log, session) == 0
      ensures cancelledGeneration == old(cancelledGeneration)
    {
      turnGeneration := turnGeneration - {session};
      Append(Forget(session));
    }

    method DeleteCancelledGeneration(session: string)
      requires Valid()
      modifies this
      ensures Valid() && log == old(log) + [ForgetCancelled(session)] && Cancelled(log, session) == None
      ensures turnGeneration == old(turnGeneration)
    {
      cancelledGeneration := cancelledGeneration - {session};
      Append(ForgetCancelled(session));
    }

    /** `turn_was_cancelled` */
    method TurnWasCancelled(session: string, generation: nat) returns (cancelled: bool)
      requires Valid()
      ensures cancelled <==> Cancelled(log, session) == Some(generation)
    {
      cancelled := session in cancelledGeneration && cancelledGeneration[session] == generation;
    }
  }

  // ----- what generations mean ---------------------------------------------

  /** Turns of session `k` admitted since its counter was last dropped. */
  function TurnsSinceForget(log: Log, k: string): nat {
    if log == [] then 0
    else
      var n := |log| - 1;
      if log[n] == Forget(k) then 0
      else TurnsSinceForget(log[..n], k) + (if log[n] == Admit(k) then 1 else 0)
  }

  predicate ForgottenBetween(log: Log, k: string, from: nat, to: nat)
    requires to <= |log|
  {
    exists i :: from <= i < to && log[i] == Forget(k)
  }

  lemma {:induction false} GenerationCounts(log: Log, k: string)
    ensures Generation(log, k) == if TurnsSinceForget(log, k) < U64_MAX then TurnsSinceForget(log, k) else U64_MAX
  {
    if log != [] { GenerationCounts(log[..|log| - 1], k); }
  }

  /** Without a deletion the counter never goes back, and it moves past every
      value it had before an admission until it saturates. */
  lemma {:induction false} GenerationGrows(log: Log, k: string, i: nat, j: nat)
    requires i <= j <= |log| && !ForgottenBetween(log, k, i, j)
    ensures Generation(log[..i], k) <= Generation(log[..j], k) <= U64_MAX
    decreases j
  {
    GenerationCounts(log[..i], k);
    if i < j {
      assert log[..j][..j - 1] == log[..j - 1] && log[..j][j - 1] == log[j - 1];
      GenerationGrows(log, k, i, j - 1);
    }
  }

  lemma AdmissionStep(log: Log, a: nat)
    requires a < |log| && log[a].Admit?
    ensures TurnGeneration(log, a) == SaturatingIncrement(Generation(log[..a], log[a].session))
    ensures 0 < TurnGeneration(log, a) <= U64_MAX
  {
    assert log[..a + 1][..a] == log[..a] && log[..a + 1][a] == log[a];
    GenerationCounts(log[..a], log[a].session);
  }

  /** Two turns of a session that was not deleted in between have different,
      increasing generations below the 64-bit bound. */
  lemma TurnsIncrease(log: Log, a: nat, b: nat)
    requires a < b < |log| && log[a].Admit? && log[b] == log[a]
    requires !ForgottenBetween(log, log[a].session, a + 1, b)
    ensures TurnGeneration(log, a) <= TurnGeneration(log, b)
    ensures TurnGeneration(log, a) < TurnGeneration(log, b) <==> TurnGeneration(log, a) < U64_MAX
  {
    AdmissionStep(log, a);
    AdmissionStep(log, b);
    GenerationGrows(log, log[a].session, a + 1, b);
  }

  /** When a cancel that read at `r` can name a turn admitted later, at `a`: exactly when the
      session was deleted in between and has had as many turns since, this one included, as it
      had had in its earlier life when the cancel read; or when the counter has saturated. */
  lemma LateCancelExact(log: Log, r: nat, a: nat)
    requires r < a < |log| && log[r].Read? && log[a] == Admit(log[r].session)
    ensures var k := log[r].session;
            var before, after := TurnsSinceForget(log[..r], k), TurnsSinceForget(log[..a + 1], k);
            ReadGeneration(log, r) == TurnGeneration(log, a) <==>
              || (before >= U64_MAX && after >= U64_MAX)
              || (ForgottenBetween(log, k, r, a) && before == after)
  {
    var k := log[r].session;
    AdmissionStep(log, a);
    GenerationCounts(log[..r], k);
    GenerationCounts(log[..a + 1], k);
    if !ForgottenBetween(log, k, r, a) {
      GenerationGrows(log, k, r, a);
      GenerationCounts(log[..a], k);
    }
  }

  /** What is recorded was read: the latest write's read is its witness. */
  lemma {:induction false} CancelledWitness(log: Log, k: string) returns (r: nat)
    requires WellFormed(log) && Cancelled(log, k).Some?
    ensures r < |log| && log[r] == Read(k) && Cancelled(log, k) == Some(ReadGeneration(log, r))
    decreases |log|
  {
    var n := |log| - 1;
    if log[n].Write? && log[log[n].read].session == k {
      r := log[n].read;
    } else {
      WellFormedPrefix(log, n);
      r := CancelledWitness(log[..n], k);
      assert log[..n][..r] == log[..r];
    }
  }

  /** A turn found cancelled was in flight when some cancel read the counter: the
      read came after its admission and before the next turn's. This holds on
      every interleaving in which the session is never deleted, below saturation. */
  lemma CancelMarksOnlyTheTurnInFlight(log: Log, a: nat) returns (r: nat)
    requires WellFormed(log) && a < |log| && log[a].Admit?
    requires !ForgottenBetween(log, log[a].session, 0, |log|)
    requires TurnGeneration(log, a) < U64_MAX
    requires Cancelled(log, log[a].session) == Some(TurnGeneration(log, a))
    ensures a < r < |log| && log[r] == Read(log[a].session)
    ensures forall b :: a < b < r ==> log[b] != log[a]
  {
    var k := log[a].session;
    r := CancelledWitness(log, k);
    AdmissionStep(log, a);
    if r < a {
      GenerationGrows(log, k, r, a);
    }
    forall b | a < b < r ensures log[b] != log[a] {
      if log[b] == log[a] {
        TurnsIncrease(log, a, b);
        GenerationGrows(log, k, b + 1, r);
      }
    }
  }

  /** Deleting and reopening a session between the two halves of a cancel lets it
      mark a turn that was admitted after its read. */
  lemma LateCancelMarksReopenedSession(k: string) returns (log: Log)
    ensures WellFormed(log) && |log| == 6 && log[1] == Read(k) && log[4] == Admit(k)
    ensures Cancelled(log, k) == Some(TurnGeneration(log, 4))
  {
    log := [Admit(k), Read(k), Forget(k), ForgetCancelled(k), Admit(k), Write(1)];
    assert log[..1] == [Admit(k)] && log[..1][..0] == [];
    assert Generation([], k) == 0;
    assert Generation([Admit(k)], k) == 1;
    assert log[..5][..4] == log[..4] && log[..4][..3] == log[..3];
    assert log[..3][2] == Forget(k);
    assert Generation(log[..4], k) == 0;
  }
}
