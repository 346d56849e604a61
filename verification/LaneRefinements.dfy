/** Outbound mail, repository writes and mailbox dispositions each refine the exclusive lane: every
    step of each is a step of the lane, so the lane's laws hold of all three. */
module MailRefinesLane {
  import opened Base
  import L = ExclusiveLane
  import M = MailOutboundModel

  type Lanes = L.Lanes<Id, M.LaneKey, M.Receipt>

  function PhaseOf(e: M.Effect): L.Phase<M.Receipt>
    requires M.Admitted(e)
  {
    if e.state == M.Reserved then L.Reserved else if e.state == M.Ambiguous then L.Held else L.Settled(e.receipt.value)
  }

  function EntryOf(e: M.Effect): L.Entry<M.LaneKey, M.Receipt>
    requires M.Admitted(e)
  {
    L.Entry(e.identity.key, PhaseOf(e))
  }

  function Rows(s: seq<M.Effect>): (rows: seq<(Id, L.Entry<M.LaneKey, M.Receipt>)>)
    requires M.AllAdmitted(s)
    ensures |rows| == |s| && forall i :: 0 <= i < |s| ==> rows[i] == (s[i].identity.id, EntryOf(s[i]))
  {
    seq(|s|, (i: nat) requires i < |s| => (s[i].identity.id, EntryOf(s[i])))
  }

  function Holders(lanes: map<M.LaneKey, M.Lane>): map<M.LaneKey, Id> { map k | k in lanes :: lanes[k].effectId }

  function Abs(t: M.Tables): Lanes
    requires M.AllAdmitted(t.effects)
  {
    L.OfRows(Rows(t.effects), Holders(t.lanes))
  }

  lemma DistinctRows(s: seq<M.Effect>)
    requires M.DistinctIds(s) && M.AllAdmitted(s)
    ensures L.DistinctOwners(Rows(s))
  {
  }

  lemma ReservationRefines(t: M.Tables, e: M.Effect)
    requires M.DistinctIds(t.effects) && M.AllAdmitted(t.effects) && M.AllAdmitted(t.effects + [e])
    requires forall i :: 0 <= i < |t.effects| ==> t.effects[i].identity.id != e.identity.id
    requires e.state == M.Reserved && e.identity.key !in t.lanes
    ensures L.Next(Abs(t), Abs(M.WithReservation(t, e)))
  {
    hide L.OfRows, L.Next;
    DistinctRows(t.effects);
    L.AppendIsNext(Rows(t.effects), Holders(t.lanes), e.identity.id, e.identity.key);
    assert (t.effects + [e])[|t.effects|] == e;
    assert Rows(t.effects + [e]) == Rows(t.effects) + [(e.identity.id, L.Entry(e.identity.key, L.Reserved))];
    assert Holders(t.lanes[e.identity.key := M.LaneOf(e)]) == Holders(t.lanes)[e.identity.key := e.identity.id];
  }

  /** A settlement settles the owner, or holds the lane when the outcome is ambiguous. */
  lemma SettlementRefines(t: M.Tables, i: nat, settled: M.Effect, p: Option<M.Projection>)
    requires M.DistinctIds(t.effects) && M.AllAdmitted(t.effects) && M.LanesAgree(t.effects, t.lanes)
    requires M.Settles(t.effects, i, settled)
    ensures M.AllAdmitted(t.effects[i := settled])
    ensures L.Next(Abs(t), Abs(M.WithSettlement(t, i, settled, p)))
  {
    hide L.OfRows, L.Next, Rows, Holders, PhaseOf, M.Settles, M.DistinctIds, M.LanesAgree;
    var k := settled.identity.key;
    DistinctRows(t.effects);
    RowsAfterSettlement(t.effects, i, settled);
    HoldersAfterSettlement(t, i, settled);
    L.UpdateIsNext(Rows(t.effects), Holders(t.lanes), i, PhaseOf(settled));
  }

  lemma RowsAfterSettlement(s: seq<M.Effect>, i: nat, settled: M.Effect)
    requires M.AllAdmitted(s) && M.Settles(s, i, settled)
    ensures M.AllAdmitted(s[i := settled]) && i < |s| && M.Admitted(settled) && !PhaseOf(s[i]).Settled?
    ensures Rows(s)[i] == (settled.identity.id, L.Entry(settled.identity.key, PhaseOf(s[i])))
    ensures Rows(s[i := settled]) ==
              Rows(s)[i := (settled.identity.id, L.Entry(settled.identity.key, PhaseOf(settled)))]
  {
  }

  lemma HoldersAfterSettlement(t: M.Tables, i: nat, settled: M.Effect)
    requires M.LanesAgree(t.effects, t.lanes) && M.Settles(t.effects, i, settled)
    ensures var k := settled.identity.key;
            && !PhaseOf(settled).Reserved?
            && (PhaseOf(settled).Held? <==> settled.state == M.Ambiguous)
            && Holders(t.lanes[k := M.LaneOf(settled)]) == Holders(t.lanes)
            && Holders(t.lanes - {k}) == Holders(t.lanes) - {k}
  {
    hide M.NewestRow;
    HeldLane(t, i);
  }

  lemma HeldLane(t: M.Tables, i: nat)
    requires M.LanesAgree(t.effects, t.lanes) && i < |t.effects| && M.InFlight(t.effects[i])
    ensures t.effects[i].identity.key in t.lanes
            && t.lanes[t.effects[i].identity.key].effectId == t.effects[i].identity.id
  {
  }

  lemma SettledFacts(t: M.Tables, effect: M.Effect, receipt: M.Receipt, p: Option<M.Projection>)
    requires M.Inv(t) && M.Settle(t, effect, receipt, p).1.Settled?
    ensures var i := M.ById(t.effects, effect.identity.id);
            i >= 0 && M.Settles(t.effects, i, M.Settle(t, effect, receipt, p).1.effect)
  {
    hide M.ById, M.LanesAgree, M.ProjectionsAgree, M.MessagesAgree, M.AttemptsNumbered, M.ContentAlternates;
    hide M.OlderSettled, M.OneMailbox;
  }

  lemma RowFacts(t: M.Tables)
    requires M.Inv(t)
    ensures M.DistinctIds(t.effects) && M.AllAdmitted(t.effects) && M.LanesAgree(t.effects, t.lanes)
  {
    hide M.LanesAgree, M.ProjectionsAgree, M.MessagesAgree, M.AttemptsNumbered, M.ContentAlternates;
  }

  lemma AbsIsExclusive(t: M.Tables)
    requires M.DistinctIds(t.effects) && M.AllAdmitted(t.effects) && M.LanesAgree(t.effects, t.lanes)
    ensures L.Exclusive(Abs(t))
  {
    hide L.Exclusive, L.OfRows, M.NewestRow;
    DistinctRows(t.effects);
    forall i | 0 <= i < |t.effects| && !PhaseOf(t.effects[i]).Settled?
      ensures t.effects[i].identity.key in t.lanes
              && t.lanes[t.effects[i].identity.key].effectId == t.effects[i].identity.id
    {
      HeldLane(t, i);
    }
    forall k | k in t.lanes ensures L.HeldByUndecided(Rows(t.effects), t.lanes[k].effectId, k) {
      var n := M.NewestRow(t.effects, k);
      HeldLane(t, n);
      assert Rows(t.effects)[n] == (t.effects[n].identity.id, EntryOf(t.effects[n]));
    }
    L.RowsAreExclusive(Rows(t.effects), Holders(t.lanes));
  }

  lemma NextByNothing(s: Lanes)
    ensures L.Next(s, s)
  {
  }

  /** Every mail step is a step of the exclusive lane. */
  lemma StepRefines(t: M.Tables, e: M.Event, digest: M.Digest)
    requires M.Inv(t)
    ensures M.AllAdmitted(t.effects) && M.AllAdmitted(M.Step(t, e, digest).effects)
    ensures L.Exclusive(Abs(t)) && L.Next(Abs(t), Abs(M.Step(t, e, digest)))
  {
    hide M.Inv, M.ById, M.NewestRow, M.LastDelivered, M.Attempts, M.Admitted, M.AllAdmitted, M.DistinctIds;
    hide M.LanesAgree;
    hide L.OfRows, L.Exclusive, L.Next, Rows, Holders, M.Settles;
    M.StepKeepsInv(t, e, digest);
    RowFacts(t);
    RowFacts(M.Step(t, e, digest));
    AbsIsExclusive(t);
    NextByNothing(Abs(t));
    match e
    case OpenThread(_, _) =>
    case ReserveEffect(q) =>
      var out := M.Reserve(t, q, digest).1;
      if out.Reservation? {
        M.LaneMeansOneUndecided(t, q.identity.key);
        ReservationRefines(t, out.effect);
      }
    case SettleEffect(effect, receipt, p) =>
      var out := M.Settle(t, effect, receipt, p).1;
      if out.Settled? {
        SettledFacts(t, effect, receipt, p);
        SettlementRefines(t, M.ById(t.effects, effect.identity.id), out.effect, p);
      }
  }

  /** Mail withdraws no owner. */
  lemma OwnersStay(t: M.Tables, e: M.Event, digest: M.Digest)
    requires M.Inv(t)
    ensures M.AllAdmitted(t.effects) && M.AllAdmitted(M.Step(t, e, digest).effects)
    ensures Abs(t).entries.Keys <= Abs(M.Step(t, e, digest)).entries.Keys
  {
    hide M.Inv, M.Step, M.AllAdmitted, M.DistinctIds, M.LanesAgree, Holders;
    M.StepKeepsInv(t, e, digest);
    var t' := M.Step(t, e, digest);
    RowFacts(t);
    RowFacts(t');
    DistinctRows(t.effects);
    DistinctRows(t'.effects);
    L.ByOwnerReads(Rows(t.effects));
    L.ByOwnerReads(Rows(t'.effects));
    forall o | o in Abs(t).entries ensures o in Abs(t').entries {
      var i :| 0 <= i < |t.effects| && Rows(t.effects)[i].0 == o;
      M.StepKeepsIdentity(t, e, i, digest);
      assert Rows(t'.effects)[i].0 == o;
    }
  }

  /** The lane states a mail run passes through. */
  ghost function Trace(t: M.Tables, es: seq<M.Event>, digest: M.Digest): (b: seq<Lanes>)
    requires M.Inv(t)
    ensures |b| == |es| + 1
    decreases |es|
  {
    RowFacts(t);
    if es == [] then [Abs(t)]
    else
      M.StepKeepsInv(t, es[0], digest);
      [Abs(t)] + Trace(M.Step(t, es[0], digest), es[1..], digest)
  }

  /** Every mail run is a behaviour of the exclusive lane, so the laws of behaviours hold of it. */
  lemma {:induction false} RunRefines(t: M.Tables, es: seq<M.Event>, digest: M.Digest)
    requires M.Inv(t)
    ensures M.AllAdmitted(t.effects) && L.Behaviour(Trace(t, es, digest)) && Trace(t, es, digest)[0] == Abs(t)
    decreases |es|
  {
    hide M.Inv, M.Step, M.AllAdmitted, Abs, L.Next, L.Exclusive;
    RowFacts(t);
    AbsIsExclusive(t);
    if es != [] {
      M.StepKeepsInv(t, es[0], digest);
      StepRefines(t, es[0], digest);
      RunRefines(M.Step(t, es[0], digest), es[1..], digest);
      L.Prepend(Abs(t), Trace(M.Step(t, es[0], digest), es[1..], digest));
    }
  }
}

module RepositoryWriteRefinesLane {
  import opened Base
  import L = ExclusiveLane
  import W = RepositoryWriteModel

  type Lanes = L.Lanes<Id, W.Ref, W.Receipt>

  /** A write still reserved is held from the first report on its dispatch. */
  function PhaseOf(r: W.Receipt): L.Phase<W.Receipt> {
    if r.state == W.Reserved then L.Reserved else if W.Blocks(r) then L.Held else L.Settled(r)
  }

  function EntryOf(r: W.Receipt): L.Entry<W.Ref, W.Receipt> { L.Entry(r.identity.ref, PhaseOf(r)) }

  function Rows(s: seq<W.Receipt>): (rows: seq<(Id, L.Entry<W.Ref, W.Receipt>)>)
    ensures |rows| == |s| && forall i :: 0 <= i < |s| ==> rows[i] == (s[i].identity.id, EntryOf(s[i]))
  {
    seq(|s|, (i: nat) requires i < |s| => (s[i].identity.id, EntryOf(s[i])))
  }

  function Holders(lanes: map<W.Ref, W.Lane>): map<W.Ref, Id> { map ref | ref in lanes :: lanes[ref].owner }

  function Abs(t: W.State): Lanes { L.OfRows(Rows(t.receipts), Holders(t.lanes)) }

  lemma DistinctRows(s: seq<W.Receipt>)
    requires W.Distinct(s)
    ensures L.DistinctOwners(Rows(s))
  {
  }

  lemma ReservationRefines(t: W.State, q: W.Receipt)
    requires W.Distinct(t.receipts) && forall i :: 0 <= i < |t.receipts| ==> t.receipts[i].identity.id != q.identity.id
    requires q.state == W.Reserved && q.identity.ref !in t.lanes
    ensures L.Next(Abs(t), Abs(W.State(t.receipts + [q], t.lanes[q.identity.ref := W.LaneOf(q)])))
  {
    hide L.OfRows, L.Next;
    DistinctRows(t.receipts);
    L.AppendIsNext(Rows(t.receipts), Holders(t.lanes), q.identity.id, q.identity.ref);
    assert Rows(t.receipts + [q]) == Rows(t.receipts) + [(q.identity.id, L.Entry(q.identity.ref, L.Reserved))];
    assert Holders(t.lanes[q.identity.ref := W.LaneOf(q)]) == Holders(t.lanes)[q.identity.ref := q.identity.id];
  }

  lemma HeldLane(t: W.State, i: nat)
    requires W.LanesAgree(t.receipts, t.lanes) && i < |t.receipts| && W.Blocks(t.receipts[i])
    ensures t.receipts[i].identity.ref in t.lanes
            && t.lanes[t.receipts[i].identity.ref].owner == t.receipts[i].identity.id
  {
  }

  lemma TransitionRefines(t: W.State, i: nat, r: W.Receipt)
    requires W.Distinct(t.receipts) && W.LanesAgree(t.receipts, t.lanes)
    requires i < |t.receipts| && W.Blocks(t.receipts[i]) && r.identity == t.receipts[i].identity
             && r.state != W.Reserved
    ensures L.Next(Abs(t), Abs(W.WithReceipt(t, i, r)))
  {
    hide L.OfRows, L.Next, W.NewestRow;
    var ref := r.identity.ref;
    DistinctRows(t.receipts);
    L.UpdateIsNext(Rows(t.receipts), Holders(t.lanes), i, PhaseOf(r));
    assert Rows(t.receipts[i := r]) == Rows(t.receipts)[i := (r.identity.id, L.Entry(ref, PhaseOf(r)))];
    HeldLane(t, i);
    if W.Blocks(r) {
      assert Holders(t.lanes[ref := W.LaneOf(r)]) == Holders(t.lanes);
    } else {
      assert Holders(t.lanes - {ref}) == Holders(t.lanes) - {ref};
    }
  }

  lemma NeverBackToReserved(action: W.Action, current: W.Receipt, next: W.Receipt)
    requires W.ExpectedTransition(action, current, next) == Some(next)
    ensures next.state != W.Reserved
  {
  }

  lemma NextByNothing(s: Lanes)
    ensures L.Next(s, s)
  {
  }

  lemma AbsIsExclusive(t: W.State)
    requires W.Inv(t)
    ensures L.Exclusive(Abs(t))
  {
    hide L.Exclusive, L.OfRows, W.NewestRow, W.Stored;
    DistinctRows(t.receipts);
    forall i | 0 <= i < |t.receipts| && !PhaseOf(t.receipts[i]).Settled?
      ensures t.receipts[i].identity.ref in t.lanes
              && t.lanes[t.receipts[i].identity.ref].owner == t.receipts[i].identity.id
    {
      HeldLane(t, i);
    }
    forall ref | ref in t.lanes ensures L.HeldByUndecided(Rows(t.receipts), t.lanes[ref].owner, ref) {
      var n := W.NewestRow(t.receipts, ref);
      HeldLane(t, n);
      assert Rows(t.receipts)[n] == (t.receipts[n].identity.id, EntryOf(t.receipts[n]));
    }
    L.RowsAreExclusive(Rows(t.receipts), Holders(t.lanes));
  }

  /** Every repository-write step is a step of the exclusive lane. */
  lemma StepRefines(t: W.State, e: W.Event)
    requires W.Inv(t)
    ensures L.Exclusive(Abs(t)) && L.Next(Abs(t), Abs(W.Step(t, e)))
  {
    hide W.ById, W.ByKey, W.NewestRow, W.ExpectedTransition, W.ValidView, W.Stored, W.LanesAgree, Abs;
    hide L.Exclusive, L.Next;
    AbsIsExclusive(t);
    NextByNothing(Abs(t));
    match e
    case OnReserve(q) =>
      if W.Reserve(t, q).1.Accepted? {
        W.LaneMeansOneBlocker(t, q.identity.ref);
        ReservationRefines(t, q);
      }
    case OnTransition(action, current, next) =>
      if W.Transition(t, action, current, next).1.Applied? {
        var i := W.ByKey(t.receipts, current.identity.key);
        W.TransitionMoves(action, t.receipts[i], current, next);
        NeverBackToReserved(action, current, next);
        TransitionRefines(t, i, next);
      }
  }

  /** A repository write withdraws no owner. */
  lemma OwnersStay(t: W.State, e: W.Event)
    requires W.Inv(t)
    ensures Abs(t).entries.Keys <= Abs(W.Step(t, e)).entries.Keys
  {
    hide W.Inv, W.Step, W.Distinct, Holders;
    W.StepKeepsInv(t, e);
    var t' := W.Step(t, e);
    assert W.Distinct(t.receipts) && W.Distinct(t'.receipts) by { ReceiptsDistinct(t); ReceiptsDistinct(t'); }
    DistinctRows(t.receipts);
    DistinctRows(t'.receipts);
    L.ByOwnerReads(Rows(t.receipts));
    L.ByOwnerReads(Rows(t'.receipts));
    forall o | o in Abs(t).entries ensures o in Abs(t').entries {
      var i :| 0 <= i < |t.receipts| && Rows(t.receipts)[i].0 == o;
      W.StepForward(t, e, i);
      assert Rows(t'.receipts)[i].0 == o;
    }
  }

  lemma ReceiptsDistinct(t: W.State)
    requires W.Inv(t)
    ensures W.Distinct(t.receipts)
  {
  }

  /** The lane states a run of repository writes passes through. */
  ghost function Trace(t: W.State, es: seq<W.Event>): (b: seq<Lanes>)
    ensures |b| == |es| + 1
    decreases |es|
  {
    if es == [] then [Abs(t)] else [Abs(t)] + Trace(W.Step(t, es[0]), es[1..])
  }

  /** Every run of repository writes is a behaviour of the exclusive lane. */
  lemma {:induction false} RunRefines(t: W.State, es: seq<W.Event>)
    requires W.Inv(t)
    ensures L.Behaviour(Trace(t, es)) && Trace(t, es)[0] == Abs(t)
    decreases |es|
  {
    hide W.Inv, W.Step, Abs, L.Next, L.Exclusive;
    AbsIsExclusive(t);
    if es != [] {
      W.StepKeepsInv(t, es[0]);
      StepRefines(t, es[0]);
      RunRefines(W.Step(t, es[0]), es[1..]);
      L.Prepend(Abs(t), Trace(W.Step(t, es[0]), es[1..]));
    }
  }
}

module GmailDispositionRefinesLane {
  import opened Base
  import L = ExclusiveLane
  import G = GmailDispositionModel

  type Lanes = L.Lanes<Id, G.Target, Option<G.SettledOutcome>>

  function EntryOf(r: G.Record): L.Entry<G.Target, Option<G.SettledOutcome>> {
    L.Entry(r.effect.target,
            match r.status
            case Reserved => L.Reserved
            case ReconciliationRequired => L.Held
            case Settled => L.Settled(r.outcome))
  }

  function Holders(lanes: map<G.Target, G.Lane>): map<G.Target, Id> {
    map target | target in lanes :: lanes[target].effectId
  }

  ghost function Abs(t: G.State): Lanes {
    L.Lanes(map id | id in t.effects :: EntryOf(t.effects[id]), Holders(t.lanes))
  }

  lemma NextByNothing(s: Lanes)
    ensures L.Next(s, s)
  {
  }

  lemma ReserveRefines(t: G.State, e: G.Effect)
    requires G.Inv(t)
    ensures L.Next(Abs(t), Abs(G.ReserveEffect(t, e).0))
  {
    hide L.Next;
    NextByNothing(Abs(t));
    var s, s' := Abs(t), Abs(G.ReserveEffect(t, e).0);
    if G.ReserveEffect(t, e).1.Accepted? {
      assert s'.entries == s.entries[e.id := L.Entry(e.target, L.Reserved)];
      assert s'.lanes == s.lanes[e.target := e.id];
      L.ReserveIsNext(s, s', e.id, e.target);
    }
  }

  lemma HoldRefines(t: G.State, id: Id, phase: G.Phase)
    requires G.Inv(t)
    ensures L.Next(Abs(t), Abs(G.MarkReconciliationRequired(t, id, phase).0))
  {
    hide L.Next;
    NextByNothing(Abs(t));
    var (t', outcome) := G.MarkReconciliationRequired(t, id, phase);
    var s, s' := Abs(t), Abs(t');
    if outcome.Accepted? {
      assert s'.entries == s.entries[id := s.entries[id].(phase := L.Held)];
      assert s'.lanes == s.lanes;
      L.HoldIsNext(s, s', id);
    }
  }

  lemma SettleRefines(t: G.State, id: Id, result: G.SettledOutcome)
    requires G.Inv(t)
    ensures L.Next(Abs(t), Abs(G.MarkSettled(t, id, result).0))
  {
    hide L.Next;
    NextByNothing(Abs(t));
    var (t', outcome) := G.MarkSettled(t, id, result);
    var s, s' := Abs(t), Abs(t');
    if outcome.Accepted? {
      assert s'.entries == s.entries[id := s.entries[id].(phase := L.Settled(Some(result)))];
      assert s'.lanes == s.lanes - {s.entries[id].key};
      L.SettleIsNext(s, s', id, Some(result));
    }
  }

  lemma ReleaseRefines(t: G.State, id: Id)
    requires G.Inv(t)
    ensures L.Next(Abs(t), Abs(G.ReleasePreconditionRetry(t, id).0))
  {
    var (t', outcome) := G.ReleasePreconditionRetry(t, id);
    var s, s' := Abs(t), Abs(t');
    if outcome.Released? {
      assert s'.entries == s.entries - {id};
      assert s'.lanes == s.lanes - {s.entries[id].key};
      assert L.Withdraws(s, s', id);
    }
  }

  /** Every disposition step is a step of the exclusive lane; the release of a precondition retry is
      the one that withdraws. */
  lemma StepRefines(t: G.State, e: G.Event)
    requires G.Inv(t)
    ensures L.Exclusive(Abs(t)) && L.Next(Abs(t), Abs(G.Step(t, e)))
  {
    hide L.Exclusive, L.Next, Abs, G.Inv;
    AbsIsExclusive(t);
    match e
    case OnReserve(effect) => ReserveRefines(t, effect);
    case OnReconciliationRequired(id, phase) => HoldRefines(t, id, phase);
    case OnSettled(id, outcome) => SettleRefines(t, id, outcome);
    case OnRelease(id) => ReleaseRefines(t, id);
  }

  lemma AbsIsExclusive(t: G.State)
    requires G.Inv(t)
    ensures L.Exclusive(Abs(t))
  {
  }

  /** The lane states a run of dispositions passes through. */
  ghost function Trace(t: G.State, es: seq<G.Event>): (b: seq<Lanes>)
    ensures |b| == |es| + 1
    decreases |es|
  {
    if es == [] then [Abs(t)] else [Abs(t)] + Trace(G.Step(t, es[0]), es[1..])
  }

  /** Every run of dispositions is a behaviour of the exclusive lane. */
  lemma {:induction false} RunRefines(t: G.State, es: seq<G.Event>)
    requires G.Inv(t)
    ensures L.Behaviour(Trace(t, es)) && Trace(t, es)[0] == Abs(t)
    decreases |es|
  {
    hide G.Inv, G.Step, Abs, L.Next, L.Exclusive;
    AbsIsExclusive(t);
    if es != [] {
      G.StepKeepsInv(t, es[0]);
      StepRefines(t, es[0]);
      RunRefines(G.Step(t, es[0]), es[1..]);
      L.Prepend(Abs(t), Trace(G.Step(t, es[0]), es[1..]));
    }
  }
}
