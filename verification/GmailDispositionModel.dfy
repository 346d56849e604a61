/** Mailbox disposition effects and their lanes, one lane for each message, within one workspace.

    Effects are held by their ID. Row times are not modelled: nothing reads them. */
module GmailDispositionModel {
  import opened Base

  datatype Target = Target(account: Id, mailbox: Id, thread: Id, message: Id)

  datatype Effect = Effect(id: Id, target: Target, body: Id)

  datatype Status = Reserved | ReconciliationRequired | Settled

  datatype Phase = Interrupted | PreconditionRead | MutationOutcome | PostMutationReadback

  datatype SettledOutcome = AppliedChange | Noop | IgnoredDraft | Reconciled

  datatype Record = Record(effect: Effect, status: Status, phase: Option<Phase>, outcome: Option<SettledOutcome>)

  datatype Lane = Lane(effectId: Id, status: Status)

  datatype State = State(effects: map<Id, Record>, lanes: map<Target, Lane>)

  const EMPTY := State(map[], map[])

  datatype Outcome = Accepted(record: Record) | Existing(record: Record) | Blocked(record: Record) | Released | Refused

  /** The effect that still acts on a message, if there is one. */
  ghost predicate Outstanding(t: State, target: Target, id: Id) {
    id in t.effects && t.effects[id].effect.target == target && t.effects[id].status != Settled
  }

  function ReserveEffect(t: State, e: Effect): (State, Outcome) {
    if e.id in t.effects then (t, if t.effects[e.id].effect == e then Existing(t.effects[e.id]) else Refused)
    else if e.target in t.lanes then
      (t, if t.lanes[e.target].effectId in t.effects then Blocked(t.effects[t.lanes[e.target].effectId]) else Refused)
    else
      var record := Record(e, Reserved, None, None);
      (State(t.effects[e.id := record], t.lanes[e.target := Lane(e.id, Reserved)]), Accepted(record))
  }

  function MarkReconciliationRequired(t: State, id: Id, phase: Phase): (State, Outcome) {
    if id !in t.effects || t.effects[id].status == Settled then (t, Refused)
    else
      var record := t.effects[id].(status := ReconciliationRequired, phase := Some(phase), outcome := None);
      (State(t.effects[id := record], t.lanes[record.effect.target := Lane(id, ReconciliationRequired)]),
        Accepted(record))
  }

  function MarkSettled(t: State, id: Id, outcome: SettledOutcome): (State, Outcome) {
    if id !in t.effects then (t, Refused)
    else if t.effects[id].status == Settled then
      (t, if t.effects[id].outcome == Some(outcome) then Existing(t.effects[id]) else Refused)
    else
      var record := t.effects[id].(status := Settled, phase := None, outcome := Some(outcome));
      (State(t.effects[id := record], t.lanes - {record.effect.target}), Accepted(record))
  }

  function ReleasePreconditionRetry(t: State, id: Id): (State, Outcome) {
    if id !in t.effects || t.effects[id].status != ReconciliationRequired
      || t.effects[id].phase != Some(PreconditionRead) then (t, Refused)
    else (State(t.effects - {id}, t.lanes - {t.effects[id].effect.target}), Released)
  }

  datatype Event =
    | OnReserve(effect: Effect)
    | OnReconciliationRequired(id: Id, phase: Phase)
    | OnSettled(id: Id, outcome: SettledOutcome)
    | OnRelease(id: Id)

  function Step(t: State, e: Event): State {
    match e
    case OnReserve(effect) => ReserveEffect(t, effect).0
    case OnReconciliationRequired(id, phase) => MarkReconciliationRequired(t, id, phase).0
    case OnSettled(id, outcome) => MarkSettled(t, id, outcome).0
    case OnRelease(id) => ReleasePreconditionRetry(t, id).0
  }

  function Run(t: State, es: seq<Event>): State
    decreases |es|
  {
    if es == [] then t else Run(Step(t, es[0]), es[1..])
  }

  predicate WellFormed(r: Record) {
    match r.status
    case Reserved => r.phase.None? && r.outcome.None?
    case ReconciliationRequired => r.phase.Some? && r.outcome.None?
    case Settled => r.phase.None? && r.outcome.Some?
  }

  ghost predicate Inv(t: State) {
    && (forall id :: id in t.effects ==> t.effects[id].effect.id == id && WellFormed(t.effects[id]))
    && (forall id :: id in t.effects && t.effects[id].status != Settled ==>
          var target := t.effects[id].effect.target;
          target in t.lanes && t.lanes[target] == Lane(id, t.effects[id].status))
    && (forall target :: target in t.lanes ==> Outstanding(t, target, t.lanes[target].effectId))
  }

  lemma StepKeepsInv(t: State, e: Event)
    requires Inv(t)
    ensures Inv(Step(t, e))
  {
  }

  /** In every reachable state the lane of a message is held exactly by its one outstanding effect. */
  lemma {:induction false} RunKeepsInv(t: State, es: seq<Event>)
    requires Inv(t)
    ensures Inv(Run(t, es))
    decreases |es|
  {
    hide Inv, Step;
    if es != [] {
      StepKeepsInv(t, es[0]);
      RunKeepsInv(Step(t, es[0]), es[1..]);
    }
  }

  /** A lane names exactly the outstanding effect of its message, and no other lane names it. */
  lemma LaneIsOutstandingEffect(t: State, target: Target, id: Id)
    requires Inv(t)
    ensures target in t.lanes && t.lanes[target].effectId == id <==> Outstanding(t, target, id)
    ensures Outstanding(t, target, id) ==> t.lanes[target].status == t.effects[id].status
    ensures forall other :: Outstanding(t, target, id) && Outstanding(t, target, other) ==> other == id
  {
  }
}
