/** Concurrent appenders of core/src/core_event_log.rs: the anchor of an entry is read
    in an earlier critical section than the one that offers it. */
module EventAppenders {
  import opened Text
  import opened EventLog
  import opened EventReplay

  lemma {:induction false} AcceptedGrows(c: Codec, sections: seq<Section>, operation: string, i: nat, j: nat)
    requires i <= j <= |sections|
    ensures Accepted(c, sections[..i], operation) <= Accepted(c, sections[..j], operation)
    decreases j
  {
    if i < j {
      AcceptedGrows(c, sections, operation, i, j - 1);
      assert sections[..j] == sections[..j - 1] + [sections[j - 1]];
      AcceptedNext(c, sections[..j - 1], sections[j - 1], operation);
    }
  }

  /** Section `k` admitted an entry to the operation. */
  predicate AdmittedAt(c: Codec, sections: seq<Section>, operation: string, k: nat)
    requires k < |sections|
  {
    Admits(c, Accepted(c, sections[..k], operation), operation, sections[k])
  }

  /** Some section from `r` up to `w` admitted an entry to the operation. */
  predicate AdmittedBetween(c: Codec, sections: seq<Section>, operation: string, r: nat, w: nat)
    requires r <= w <= |sections|
  {
    exists k :: r <= k < w && AdmittedAt(c, sections, operation, k)
  }

  lemma AcceptedStep(c: Codec, sections: seq<Section>, operation: string, k: nat)
    requires k < |sections|
    ensures var log, more := Accepted(c, sections[..k], operation), Accepted(c, sections[..k + 1], operation);
            if AdmittedAt(c, sections, operation, k) then |more| == |log| + 1 else more == log
  {
    assert sections[..k + 1] == sections[..k] + [sections[k]];
    AcceptedNext(c, sections[..k], sections[k], operation);
  }

  lemma {:induction false} NoneAdmittedUnchanged(c: Codec, sections: seq<Section>, operation: string, r: nat, w: nat)
    requires r <= w <= |sections| && !AdmittedBetween(c, sections, operation, r, w)
    ensures Accepted(c, sections[..r], operation) == Accepted(c, sections[..w], operation)
    decreases w
  {
    hide AdmittedAt, Accepted;
    if r < w {
      NoneAdmittedUnchanged(c, sections, operation, r, w - 1);
      AcceptedStep(c, sections, operation, w - 1);
    }
  }

  lemma UnchangedIffNoneAdmitted(c: Codec, sections: seq<Section>, operation: string, r: nat, w: nat)
    requires r <= w <= |sections|
    ensures Accepted(c, sections[..r], operation) == Accepted(c, sections[..w], operation)
            <==> !AdmittedBetween(c, sections, operation, r, w)
  {
    hide AdmittedAt, Accepted;
    if AdmittedBetween(c, sections, operation, r, w) {
      var k :| r <= k < w && AdmittedAt(c, sections, operation, k);
      AcceptedGrows(c, sections, operation, r, k);
      AcceptedStep(c, sections, operation, k);
      AcceptedGrows(c, sections, operation, k + 1, w);
    } else {
      NoneAdmittedUnchanged(c, sections, operation, r, w);
    }
  }

  /** An entry linked in section `w` to the anchor read in section `r` is refused as a
      causality conflict exactly when it is not stale, its cursor is next, and another
      entry of the operation was admitted in between. */
  lemma ConflictExactly(c: Codec, sections: seq<Section>, r: nat, w: nat, event: Event, refs: seq<string>,
                        retained: seq<Entry>, out: Outcome)
    requires CollisionFree(c) && r < w <= |sections| && sections[r] == Anchor(event.operation)
    requires var e := Linked(c, Head(Accepted(c, sections[..r], event.operation)), event, refs);
             Genuine(c, e) && Answered(Accepted(c, sections[..w], event.operation), retained, e, out)
    ensures var e := Linked(c, Head(Accepted(c, sections[..r], event.operation)), event, refs);
            var log := Accepted(c, sections[..w], event.operation);
            out == Fail(CausalityConflict) <==>
              Fresh(log, e) && event.cursor == |log| && AdmittedBetween(c, sections, event.operation, r, w)
  {
    hide CollisionFree, Genuine, Fresh, Accepted, AdmittedBetween;
    var a, b := Accepted(c, sections[..r], event.operation), Accepted(c, sections[..w], event.operation);
    UnchangedIffNoneAdmitted(c, sections, event.operation, r, w);
    NoInterleavingForks(c, sections[..r], event.operation);
    NoInterleavingForks(c, sections[..w], event.operation);
    if Head(a) == Head(b) {
      HeadDeterminesHistory(c, event.operation, a, b);
    }
  }
}
