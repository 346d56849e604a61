/** What each mutation of the mailbox dispositions answers and leaves, said of the effects alone: the lanes
    are told from the outstanding effects. */
module GmailDispositionOutcomes {
  import opened Base
  import opened GmailDispositionModel

  /** The effect still acts on its message. */
  predicate Acts(t: State, id: Id) { id in t.effects && t.effects[id].status in {Reserved, ReconciliationRequired} }

  ghost predicate ActsOn(t: State, target: Target, id: Id) { Acts(t, id) && t.effects[id].effect.target == target }

  /** The lanes are those of the outstanding effects. */
  ghost predicate LanesFollow(t: State) {
    forall target, id :: target in t.lanes && t.lanes[target].effectId == id <==> ActsOn(t, target, id)
  }

  lemma LanesFollowEffects(t: State)
    requires Inv(t)
    ensures LanesFollow(t)
  {
    forall target, id ensures target in t.lanes && t.lanes[target].effectId == id <==> ActsOn(t, target, id) {
      LaneIsOutstandingEffect(t, target, id);
    }
  }

  /** An effect is reserved exactly under a new ID while nothing acts on its message. A known effect answers
      with its record, an ID used for another is refused, and a message acted on names the effect that acts. */
  lemma ReserveExactly(t: State, e: Effect)
    requires Inv(t)
    ensures var (t', answer) := ReserveEffect(t, e);
            if e.id in t.effects then
              t' == t && answer == if t.effects[e.id].effect == e then Existing(t.effects[e.id]) else Refused
            else
              && (forall id :: ActsOn(t, e.target, id) ==> t' == t && answer == Blocked(t.effects[id]))
              && ((forall id :: !ActsOn(t, e.target, id)) ==>
                    var record := Record(e, Reserved, None, None);
                    answer == Accepted(record) && t'.effects == t.effects[e.id := record])
    ensures LanesFollow(ReserveEffect(t, e).0)
  {
    hide Inv, LanesFollow;
    LanesFollowEffects(t);
    StepKeepsInv(t, OnReserve(e));
    LanesFollowEffects(ReserveEffect(t, e).0);
    if e.target in t.lanes {
      var id := t.lanes[e.target].effectId;
      assert ActsOn(t, e.target, id) by { LaneIsOutstandingEffect(t, e.target, id); }
    }
    forall id | ActsOn(t, e.target, id) ensures e.target in t.lanes && t.lanes[e.target].effectId == id {
      LaneIsOutstandingEffect(t, e.target, id);
    }
  }

  /** An effect that acts takes any report, be it that it must be reconciled or that it is settled. */
  lemma ReportsExactly(t: State, id: Id, phase: Phase, outcome: SettledOutcome)
    requires Inv(t)
    ensures var (t', answer) := MarkReconciliationRequired(t, id, phase);
            if Acts(t, id) then
              var record := Record(t.effects[id].effect, ReconciliationRequired, Some(phase), None);
              answer == Accepted(record) && t'.effects == t.effects[id := record]
            else t' == t && answer == Refused
    ensures var (t', answer) := MarkSettled(t, id, outcome);
            if Acts(t, id) then
              var record := Record(t.effects[id].effect, Settled, None, Some(outcome));
              answer == Accepted(record) && t'.effects == t.effects[id := record]
            else if id in t.effects && t.effects[id].outcome == Some(outcome) then
              t' == t && answer == Existing(t.effects[id])
            else t' == t && answer == Refused
    ensures LanesFollow(MarkReconciliationRequired(t, id, phase).0) && LanesFollow(MarkSettled(t, id, outcome).0)
  {
    hide LanesFollow;
    StepKeepsInv(t, OnReconciliationRequired(id, phase));
    StepKeepsInv(t, OnSettled(id, outcome));
    LanesFollowEffects(MarkReconciliationRequired(t, id, phase).0);
    LanesFollowEffects(MarkSettled(t, id, outcome).0);
  }

  /** An effect is withdrawn exactly while it must be reconciled at the read of its precondition. */
  lemma ReleaseExactly(t: State, id: Id)
    requires Inv(t)
    ensures var (t', answer) := ReleasePreconditionRetry(t, id);
            if id in t.effects && t.effects[id].status == ReconciliationRequired
               && t.effects[id].phase == Some(PreconditionRead)
            then answer == Released && t'.effects == t.effects - {id}
            else t' == t && answer == Refused
    ensures LanesFollow(ReleasePreconditionRetry(t, id).0)
  {
    hide Inv, LanesFollow;
    StepKeepsInv(t, OnRelease(id));
    LanesFollowEffects(ReleasePreconditionRetry(t, id).0);
  }
}
