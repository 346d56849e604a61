/** What the mail mutations answer, and what they leave, said of the columns of the tables alone: when
    a reservation is granted, replayed, blocked or refused, and when a receipt settles its effect. */
module MailOutcomes {
  import opened Base
  import opened MailOutboundModel

  // ---------------------------------------------------------------- reserving

  predicate Carries(e: Effect, k: LaneKey, f: Id) { e.identity.key == k && e.identity.fingerprint == f }

  /** The rows that carry a content on a lane key. */
  function ContentRows(s: seq<Effect>, k: LaneKey, f: Id): set<int> { set i | 0 <= i < |s| && Carries(s[i], k, f) }

  lemma {:induction false} AttemptsCountRows(s: seq<Effect>, k: LaneKey, f: Id)
    ensures Attempts(s, k, f) == |ContentRows(s, k, f)|
  {
    if s != [] {
      var n := |s| - 1;
      AttemptsCountRows(s[..n], k, f);
      assert ContentRows(s, k, f) == ContentRows(s[..n], k, f) + if Carries(s[n], k, f) then {n} else {};
    }
  }

  /** Row i is the last of its lane key that was delivered. */
  ghost predicate IsLastDelivery(s: seq<Effect>, k: LaneKey, i: int) {
    && 0 <= i < |s| && s[i].identity.key == k && (s[i].state == Sent || s[i].state == Reconciled)
    && forall j :: i < j < |s| && s[j].identity.key == k ==> s[j].state != Sent && s[j].state != Reconciled
  }

  lemma LastDeliveryFound(s: seq<Effect>, k: LaneKey, i: int)
    ensures IsLastDelivery(s, k, i) <==> i >= 0 && i == LastDelivered(s, k)
  {
    hide LastDelivered;
    var last := LastDelivered(s, k);
  }

  /** A request that the tables have no objection to before they look at the lane key. */
  predicate WellAddressed(t: Tables, q: Effect) {
    && q.state == Reserved && q.receipt == None && q.identity.attempt == 1
    && q.identity.key.thread in t.threads && t.threads[q.identity.key.thread] == q.identity.handle
  }

  ghost predicate SameMailbox(t: Tables, q: Effect) {
    forall i :: 0 <= i < |t.effects| && t.effects[i].identity.key == q.identity.key ==>
      t.effects[i].identity.mailbox == q.identity.mailbox
  }

  ghost predicate Undecided(t: Tables, k: LaneKey, i: int) {
    && 0 <= i < |t.effects| && t.effects[i].identity.key == k
    && (t.effects[i].state == Reserved || t.effects[i].state == Ambiguous)
  }

  /** The content asked for is the one delivered last. */
  ghost predicate DeliveredLast(t: Tables, q: Effect, i: int) {
    IsLastDelivery(t.effects, q.identity.key, i) && t.effects[i].identity.fingerprint == q.identity.fingerprint
  }

  function NextAttempt(t: Tables, q: Effect): int {
    1 + |ContentRows(t.effects, q.identity.key, q.identity.fingerprint)|
  }

  /** The ID of the next attempt: the requested one at first, later one of the digest. */
  function NextId(t: Tables, q: Effect, digest: Digest): Id {
    if NextAttempt(t, q) == 1 then q.identity.id
    else
      digest(RetrySeed(q.identity.id, q.identity.key, q.identity.mailbox, q.identity.fingerprint, NextAttempt(t, q))).0
  }

  ghost predicate IdTaken(t: Tables, id: Id) { exists i :: 0 <= i < |t.effects| && t.effects[i].identity.id == id }

  lemma IdTakenFound(s: seq<Effect>, id: Id)
    ensures ById(s, id) >= 0 <==> exists i :: 0 <= i < |s| && s[i].identity.id == id
  {
    hide ById;
    if ById(s, id) >= 0 { assert s[ById(s, id)].identity.id == id; }
  }

  /** What the newest row of a lane key tells about all of them. */
  lemma NewestRowTells(t: Tables, q: Effect)
    requires Inv(t)
    ensures var n := NewestRow(t.effects, q.identity.key);
            && (SameMailbox(t, q) <==> n < 0 || t.effects[n].identity.mailbox == q.identity.mailbox)
            && (forall i :: Undecided(t, q.identity.key, i) <==> i >= 0 && i == n && InFlight(t.effects[n]))
  {
    hide NewestRow, AllAdmitted, DistinctIds, AttemptsNumbered, ContentAlternates, LanesAgree, ProjectionsAgree;
    hide MessagesAgree;
    var n := NewestRow(t.effects, q.identity.key);
    if SameMailbox(t, q) && n >= 0 { assert t.effects[n].identity.mailbox == q.identity.mailbox; }
  }

  /** Reserving is answered with the delivery made last exactly when that has the content asked for. */
  lemma ReplayExactly(t: Tables, q: Effect, digest: Digest)
    requires Inv(t) && WellAddressed(t, q) && SameMailbox(t, q) && q.identity.key !in t.lanes
    ensures Reserve(t, q, digest).1.Replay? <==> exists i :: DeliveredLast(t, q, i)
    ensures forall i :: DeliveredLast(t, q, i) ==> Reserve(t, q, digest) == (t, Replay(t.effects[i]))
  {
    hide Inv, LastDelivered, NewestRow, ById, Attempts;
    NewestRowTells(t, q);
    LaneMeansOneUndecided(t, q.identity.key);
    var last := LastDelivered(t.effects, q.identity.key);
    forall i ensures IsLastDelivery(t.effects, q.identity.key, i) <==> i >= 0 && i == last {
      LastDeliveryFound(t.effects, q.identity.key, i);
    }
    if last >= 0 && t.effects[last].identity.fingerprint == q.identity.fingerprint {
      assert DeliveredLast(t, q, last);
    }
  }

  /** A reservation is granted exactly when the request is well addressed, every row of the lane key has
      its mailbox and is decided, the content was not the one delivered last, and its next attempt is
      within 64 and has a free ID. */
  lemma ReservationExactly(t: Tables, q: Effect, digest: Digest)
    requires Inv(t)
    ensures Reserve(t, q, digest).1.Reservation? <==>
              && WellAddressed(t, q) && SameMailbox(t, q)
              && (forall i :: !Undecided(t, q.identity.key, i))
              && (forall i :: !DeliveredLast(t, q, i))
              && NextAttempt(t, q) <= 64 && !IdTaken(t, NextId(t, q, digest))
    ensures !Reserve(t, q, digest).1.Reservation? ==> Reserve(t, q, digest).0 == t
  {
    hide Inv, LastDelivered, NewestRow, ById, Attempts, IsLastDelivery, SameMailbox, Undecided;
    NewestRowTells(t, q);
    AttemptsCountRows(t.effects, q.identity.key, q.identity.fingerprint);
    IdTakenFound(t.effects, NextId(t, q, digest));
    var last := LastDelivered(t.effects, q.identity.key);
    forall i ensures IsLastDelivery(t.effects, q.identity.key, i) <==> i >= 0 && i == last {
      LastDeliveryFound(t.effects, q.identity.key, i);
    }
    if last >= 0 && t.effects[last].identity.fingerprint == q.identity.fingerprint {
      assert DeliveredLast(t, q, last);
    }
    var n := NewestRow(t.effects, q.identity.key);
    if n >= 0 && InFlight(t.effects[n]) { assert Undecided(t, q.identity.key, n); }
  }

  /** What a granted reservation leaves: one more effect, the next attempt of the content asked for, and
      its lane. */
  lemma ReservationEffect(t: Tables, q: Effect, digest: Digest)
    requires Inv(t) && Reserve(t, q, digest).1.Reservation?
    ensures var (t', outcome) := Reserve(t, q, digest);
            var e := outcome.effect;
            && e.state == Reserved && e.receipt == None && e.reservedAt == q.reservedAt
            && e.identity.attempt == NextAttempt(t, q) && e.identity.id == NextId(t, q, digest)
            && e.identity.key == q.identity.key && e.identity.fingerprint == q.identity.fingerprint
            && e.identity.mailbox == q.identity.mailbox && e.identity.handle == q.identity.handle
            && (NextAttempt(t, q) == 1 ==> e == q)
            && t'.effects == t.effects + [e]
            && t'.lanes == t.lanes[q.identity.key := Lane(q.identity.mailbox, e.identity.id, Reserved)]
            && t'.threads == t.threads && t'.projections == t.projections && t'.messages == t.messages
  {
    hide Inv, LastDelivered, NewestRow, ById, Attempts;
    AttemptsCountRows(t.effects, q.identity.key, q.identity.fingerprint);
  }

  /** On a well-addressed request, a mailbox that differs is a conflict, and an undecided effect of the
      lane key blocks, each naming the newest effect of the key. */
  lemma ConflictOrBlocked(t: Tables, q: Effect, digest: Digest, i: int)
    requires Inv(t) && WellAddressed(t, q) && 0 <= i < |t.effects| && t.effects[i].identity.key == q.identity.key
    requires forall j :: i < j < |t.effects| ==> t.effects[j].identity.key != q.identity.key
    ensures t.effects[i].identity.mailbox != q.identity.mailbox ==> Reserve(t, q, digest).1 == Conflict(t.effects[i])
    ensures t.effects[i].identity.mailbox == q.identity.mailbox ==>
              (Undecided(t, q.identity.key, i) <==> Reserve(t, q, digest).1 == Blocked(t.effects[i]))
  {
    hide Inv, LastDelivered, NewestRow, ById, Attempts;
    NewestRowTells(t, q);
    assert NewestRow(t.effects, q.identity.key) == i;
  }

  // ---------------------------------------------------------------- settling

  predicate Success(r: DeliveryState) { r == Sent || r == Reconciled }

  /** A receipt is well formed: it reports an outcome, and a success comes with the provider's IDs. */
  predicate WellFormed(r: Receipt) {
    && r.result != Reserved && r.identity.attempt >= 1
    && (Success(r.result) ==> r.providerThread.Some? && r.message.Some?)
  }

  /** What a success must bring besides: a projection that keeps the ancestry, and a free message ID. */
  predicate SuccessFits(t: Tables, e: Effect, r: Receipt, p: Option<Projection>)
    requires r.message.Some? && p.Some?
  {
    && (e.identity.key in t.projections ==>
          var prior := t.projections[e.identity.key];
          && prior.mailbox == p.value.mailbox && prior.providerThread == p.value.providerThread
          && prior.rootMessage == p.value.rootMessage && prior.rootRfc == p.value.rootRfc)
    && MessageKey(e.identity.key.provider, e.identity.key.account, r.message.value) !in t.messages
  }

  /** A caller's copy of an effect is well formed: it is reserved without a receipt, or has one of its own. */
  predicate Presentable(e: Effect) {
    && 1 <= e.identity.attempt <= 64
    && (e.state == Reserved <==> e.receipt == None)
    && (e.receipt.Some? ==>
          WellFormed(e.receipt.value) && e.receipt.value.result == e.state && e.receipt.value.identity == e.identity)
  }

  /** Row i is the attempt that the caller means. */
  predicate IsRowOf(t: Tables, e: Effect, i: int) { 0 <= i < |t.effects| && t.effects[i].identity == e.identity }

  /** What ties a receipt and a projection to an effect, before the tables are read. */
  predicate Consistent(e: Effect, r: Receipt, p: Option<Projection>) {
    && Presentable(e) && WellFormed(r) && r.identity == e.identity && (Success(r.result) <==> p.Some?)
    && (p.Some? ==>
          && p.value.key == e.identity.key && p.value.mailbox == e.identity.mailbox
          && p.value.fingerprint == e.identity.fingerprint)
  }

  lemma RowFound(t: Tables, e: Effect, i: int)
    requires Inv(t) && IsRowOf(t, e, i)
    ensures ById(t.effects, e.identity.id) == i
  {
    hide ById, AllAdmitted, OlderSettled, OneMailbox, AttemptsNumbered, ContentAlternates, LanesAgree;
    hide ProjectionsAgree, MessagesAgree;
  }

  lemma RowMissing(t: Tables, e: Effect)
    requires forall i :: !IsRowOf(t, e, i)
    ensures ById(t.effects, e.identity.id) >= 0 ==> t.effects[ById(t.effects, e.identity.id)].identity != e.identity
  {
    hide ById;
    var i := ById(t.effects, e.identity.id);
    assert !IsRowOf(t, e, i);
  }

  /** A receipt settles exactly an undecided row of the effect that does not have that receipt yet, if
      all that is sent is consistent and, on success, keeps the ancestry and has a free message ID. */
  lemma SettlesExactly(t: Tables, e: Effect, r: Receipt, p: Option<Projection>)
    requires Inv(t)
    ensures Settle(t, e, r, p).1.Settled? <==>
              && Consistent(e, r, p)
              && (Success(r.result) ==> SuccessFits(t, e, r, p))
              && exists i :: IsRowOf(t, e, i) && t.effects[i].receipt != Some(r)
                             && (t.effects[i].state == Reserved || t.effects[i].state == Ambiguous)
    ensures !Settle(t, e, r, p).1.Settled? ==> Settle(t, e, r, p).0 == t
  {
    hide Inv, ById;
    if i :| IsRowOf(t, e, i) {
      RowFound(t, e, i);
      forall j | IsRowOf(t, e, j) ensures j == i { RowFound(t, e, j); }
      UndecidedHasNoMessage(t, e.identity.id);
    } else {
      RowMissing(t, e);
    }
  }

  /** What a settlement leaves: the row with that result and receipt, a lane exactly while the outcome is
      ambiguous, and on success the projection and the message ID. */
  lemma SettlementEffect(t: Tables, e: Effect, r: Receipt, p: Option<Projection>, i: nat)
    requires Inv(t) && IsRowOf(t, e, i) && Settle(t, e, r, p).1.Settled?
    ensures var (t', outcome) := Settle(t, e, r, p);
            var k := e.identity.key;
            && t'.effects == t.effects[i := Effect(e.identity, e.reservedAt, r.result, Some(r))]
            && outcome.effect == t'.effects[i]
            && (k in t'.lanes <==> r.result == Ambiguous)
            && (k in t'.lanes ==> t'.lanes[k] == Lane(e.identity.mailbox, e.identity.id, Ambiguous))
            && (forall other :: other != k ==>
                  && (other in t'.lanes <==> other in t.lanes)
                  && (other in t.lanes ==> t'.lanes[other] == t.lanes[other]))
            && t'.threads == t.threads
            && t'.projections == (if Success(r.result) && p.Some? then t.projections[k := p.value] else t.projections)
            && t'.messages ==
                 if Success(r.result) && r.message.Some? then
                   t.messages[MessageKey(k.provider, k.account, r.message.value) :=
                              Message(e.identity.mailbox, e.identity.id)]
                 else t.messages
  {
    hide Inv, ById;
    RowFound(t, e, i);
    UndecidedHasNoMessage(t, e.identity.id);
  }

  /** A receipt is answered as a duplicate exactly when it is the one its row already has. */
  lemma DuplicateExactly(t: Tables, e: Effect, r: Receipt, p: Option<Projection>)
    requires Inv(t)
    ensures Settle(t, e, r, p).1.Duplicate? <==>
              Consistent(e, r, p) && exists i :: IsRowOf(t, e, i) && t.effects[i].receipt == Some(r)
    ensures forall i :: Settle(t, e, r, p).1.Duplicate? && IsRowOf(t, e, i) ==>
              Settle(t, e, r, p) == (t, Duplicate(t.effects[i]))
  {
    hide Inv, ById;
    if i :| IsRowOf(t, e, i) {
      RowFound(t, e, i);
      forall j | IsRowOf(t, e, j) ensures j == i { RowFound(t, e, j); }
      UndecidedHasNoMessage(t, e.identity.id);
    } else {
      RowMissing(t, e);
    }
  }

  /** Every held lane can be freed: its effect exists, and a report of failure settles it. */
  lemma HeldLaneCanBeFreed(t: Tables, k: LaneKey, detail: Id) returns (i: nat, receipt: Receipt)
    requires Inv(t) && k in t.lanes
    ensures i < |t.effects| && t.effects[i].identity.id == t.lanes[k].effectId && receipt.result == Failed
    ensures Settle(t, t.effects[i], receipt, None).1.Settled?
    ensures k !in Settle(t, t.effects[i], receipt, None).0.lanes
  {
    hide Inv, ById, NewestRow, Settle, SuccessFits;
    LaneMeansOneUndecided(t, k);
    var j :| 0 <= j < |t.effects| && t.effects[j].identity.key == k && InFlight(t.effects[j]);
    i := j;
    var e := t.effects[i];
    assert IsRowOf(t, e, i);
    RowFound(t, e, i);
    UndecidedHasNoMessage(t, e.identity.id);
    receipt := Receipt(e.identity, None, None, Failed, detail);
    SettlesExactly(t, e, receipt, None);
    SettlementEffect(t, e, receipt, None, i);
  }
}
