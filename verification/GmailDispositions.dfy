/** The disposition mutations over the effect and lane tables, branch by branch. */
module GmailDispositions {
  import opened Base
  import opened GmailDispositionModel

  class GmailDispositions {
    var effects: map<Id, Record>
    var lanes: map<Target, Lane>

    ghost function Contents(): State
      reads this
    {
      State(effects, lanes)
    }

    ghost predicate Valid()
      reads this
    {
      Inv(Contents())
    }

    constructor ()
      ensures Valid() && Contents() == EMPTY
    {
      effects, lanes := map[], map[];
    }

    /** The lane an effect holds, read through the lane table's effect index. */
    method LaneByEffect(id: Id) returns (target: Option<Target>)
      requires Valid()
      ensures target.Some? <==> id in effects && effects[id].status != Settled
      ensures target.Some? ==>
                target.value == effects[id].effect.target && target.value in lanes && lanes[target.value].effectId == id
    {
      if t :| t in lanes && lanes[t].effectId == id {
        return Some(t);
      }
      return None;
    }

    method ReserveEffect(e: Effect) returns (outcome: Outcome)
      requires Valid()
      modifies this
      ensures Valid()
      ensures (Contents(), outcome) == GmailDispositionModel.ReserveEffect(old(Contents()), e)
      ensures outcome.Refused? ==> e.id in effects
    {
      StepKeepsInv(Contents(), OnReserve(e));
      if e.id in effects {
        if effects[e.id].effect != e {
          return Refused;
        }
        return Existing(effects[e.id]);
      }
      if e.target in lanes {
        var owner := lanes[e.target].effectId;
        if owner !in effects {
          assert false;
          return Refused;
        }
        return Blocked(effects[owner]);
      }
      var record := Record(e, Reserved, None, None);
      effects := effects[e.id := record];
      lanes := lanes[e.target := Lane(e.id, Reserved)];
      return Accepted(record);
    }

    method MarkReconciliationRequired(id: Id, phase: Phase) returns (outcome: Outcome)
      requires Valid()
      modifies this
      ensures Valid()
      ensures (Contents(), outcome) == GmailDispositionModel.MarkReconciliationRequired(old(Contents()), id, phase)
    {
      StepKeepsInv(Contents(), OnReconciliationRequired(id, phase));
      if id !in effects || effects[id].status == Settled {
        return Refused;
      }
      var lane := LaneByEffect(id);
      if lane.None? {
        assert false;
        return Refused;
      }
      effects := effects[id := effects[id].(status := ReconciliationRequired, phase := Some(phase), outcome := None)];
      lanes := lanes[lane.value := lanes[lane.value].(status := ReconciliationRequired)];
      return Accepted(effects[id]);
    }

    method MarkSettled(id: Id, result: SettledOutcome) returns (outcome: Outcome)
      requires Valid()
      modifies this
      ensures Valid()
      ensures (Contents(), outcome) == GmailDispositionModel.MarkSettled(old(Contents()), id, result)
    {
      StepKeepsInv(Contents(), OnSettled(id, result));
      if id !in effects {
        return Refused;
      }
      if effects[id].status == Settled {
        if effects[id].outcome != Some(result) {
          return Refused;
        }
        return Existing(effects[id]);
      }
      var lane := LaneByEffect(id);
      if lane.None? {
        assert false;
        return Refused;
      }
      effects := effects[id := effects[id].(status := Settled, phase := None, outcome := Some(result))];
      lanes := lanes - {lane.value};
      return Accepted(effects[id]);
    }

    method ReleasePreconditionRetry(id: Id) returns (outcome: Outcome)
      requires Valid()
      modifies this
      ensures Valid()
      ensures (Contents(), outcome) == GmailDispositionModel.ReleasePreconditionRetry(old(Contents()), id)
    {
      StepKeepsInv(Contents(), OnRelease(id));
      if id !in effects || effects[id].status != ReconciliationRequired || effects[id].phase != Some(PreconditionRead) {
        return Refused;
      }
      var lane := LaneByEffect(id);
      if lane.None? {
        assert false;
        return Refused;
      }
      lanes := lanes - {lane.value};
      effects := effects - {id};
      return Released;
    }

    /** The effect that still acts on a message, found through its lane. */
    method FindOutstanding(target: Target) returns (record: Option<Record>)
      requires Valid()
      ensures record.Some? ==>
                Outstanding(Contents(), target, record.value.effect.id)
                  && effects[record.value.effect.id] == record.value
      ensures record.None? ==> forall id :: !Outstanding(Contents(), target, id)
    {
      if target !in lanes {
        return None;
      }
      var id := lanes[target].effectId;
      if id !in effects || effects[id].status == Settled {
        assert false;
        return None;
      }
      return Some(effects[id]);
    }
  }
}
