/** What reserving and moving repository writes answer and leave, said of the columns of receipts and
    lanes alone. */
module RepositoryWriteOutcomes {
  import opened Base
  import opened RepositoryWriteModel

  predicate Undecided(r: Receipt) { r.state in {Reserved, PendingReconciliation, VerifiedPendingRelease} }

  /** Two receipts ask for the same write: the same change of the same file, by the same actor and client. */
  predicate SameWrite(a: Identity, b: Identity) {
    && a.requestSha == b.requestSha && a.payloadSha == b.payloadSha && a.ref.repository == b.ref.repository
    && a.ref.targetRef == b.ref.targetRef && a.path == b.path && a.operation == b.operation
    && a.parentSha == b.parentSha && a.actor == b.actor && a.client == b.client
  }

  /** A receipt to begin with. */
  predicate Fresh(r: Receipt) {
    && r.state == Reserved && r.dispatchCount == 0 && r.identity.createdAt <= r.updatedAt
    && r.verified == None && r.error == None
  }

  ghost predicate KeyAt(t: State, key: Id, i: int) { 0 <= i < |t.receipts| && t.receipts[i].identity.key == key }

  ghost predicate BlockedBy(t: State, ref: Ref, i: int) {
    0 <= i < |t.receipts| && t.receipts[i].identity.ref == ref && Undecided(t.receipts[i])
  }

  lemma KeyFound(t: State, key: Id, i: int)
    requires Inv(t)
    ensures KeyAt(t, key, i) <==> i >= 0 && ByKey(t.receipts, key) == i
  {
    hide ByKey, AllStored, OlderReleased, LanesAgree;
  }

  lemma BlockerFound(t: State, ref: Ref, i: int)
    requires Inv(t)
    ensures BlockedBy(t, ref, i) <==>
              i >= 0 && NewestRow(t.receipts, ref) == i && i < |t.receipts| && Blocks(t.receipts[i])
  {
    hide NewestRow, AllStored, Distinct, LanesAgree;
    if BlockedBy(t, ref, i) { assert i <= NewestRow(t.receipts, ref); }
  }

  /** A reservation is granted exactly for a receipt to begin with, under a new key and ID, on a ref that no
      undecided write holds. A key that was used answers with its receipt, and a held ref with its holder. */
  lemma ReserveExactly(t: State, q: Receipt)
    requires Inv(t)
    ensures var answer := Reserve(t, q).1;
            && (answer == Accepted(q) <==>
                  && Fresh(q) && (forall i :: !KeyAt(t, q.identity.key, i))
                  && (forall i :: 0 <= i < |t.receipts| ==> t.receipts[i].identity.id != q.identity.id)
                  && (forall i :: !BlockedBy(t, q.identity.ref, i)))
            && (answer.Accepted? ==> answer.receipt == q)
            && (!Fresh(q) ==> answer == ReserveRefused)
            && ((forall i :: !KeyAt(t, q.identity.key, i))
                && (exists i :: 0 <= i < |t.receipts| && t.receipts[i].identity.id == q.identity.id) ==>
                  answer == ReserveRefused)
            && (forall i :: Fresh(q) && KeyAt(t, q.identity.key, i) ==>
                  answer == if SameWrite(t.receipts[i].identity, q.identity) then Replay(t.receipts[i])
                            else Conflict(t.receipts[i]))
            && (forall i :: Fresh(q) && (forall j :: !KeyAt(t, q.identity.key, j)) && BlockedBy(t, q.identity.ref, i)
                            && (forall j :: 0 <= j < |t.receipts| ==> t.receipts[j].identity.id != q.identity.id) ==>
                  answer == Blocked(t.receipts[i]))
  {
    hide Inv, ByKey, ById, NewestRow, KeyAt, BlockedBy, Blocks;
    var k, n := ByKey(t.receipts, q.identity.key), NewestRow(t.receipts, q.identity.ref);
    forall i ensures KeyAt(t, q.identity.key, i) <==> i >= 0 && k == i { KeyFound(t, q.identity.key, i); }
    forall i ensures BlockedBy(t, q.identity.ref, i) <==> i >= 0 && n == i && Blocks(t.receipts[i]) {
      BlockerFound(t, q.identity.ref, i);
    }
    assert KeyAt(t, q.identity.key, k) <==> k >= 0;
    assert BlockedBy(t, q.identity.ref, n) <==> n >= 0 && Blocks(t.receipts[n]);
  }

  /** A granted reservation appends the receipt and its lane; any other answer changes nothing. */
  lemma ReserveEffect(t: State, q: Receipt)
    ensures Reserve(t, q).0 ==
              if Reserve(t, q).1.Accepted? then
                State(t.receipts + [q],
                      t.lanes[q.identity.ref := Lane(q.identity.id, q.identity.parentSha, q.identity.createdAt,
                                                     q.updatedAt)])
              else t
  {
    hide ByKey, ById, NewestRow;
  }

  // ---------------------------------------------------------------- transitions

  /** The verified result is of this very write, and was seen within the receipt's time. */
  predicate ResultFits(v: Verified, r: Receipt) {
    && v.ref == r.identity.ref && v.path == r.identity.path && v.operation == r.identity.operation
    && v.parentSha == r.identity.parentSha && v.requestSha == r.identity.requestSha
    && r.identity.createdAt <= v.verifiedAt && v.verifiedAt <= r.updatedAt
  }

  /** The receipt was dispatched and has no result yet; and what it becomes still has to be reconciled. */
  predicate Unverified(a: Receipt) { a.state in {Reserved, PendingReconciliation} && a.dispatchCount == 1 }

  predicate HoldsOn(b: Receipt) { b.dispatchCount == 1 && b.error.Some? && b.error.value.retry == ReconcileBeforeRetry }

  predicate Verifies(b: Receipt) {
    b.state == VerifiedPendingRelease && b.verified.Some? && ResultFits(b.verified.value, b)
  }

  /** Which receipt each action may make of which. */
  predicate Leads(action: Action, a: Receipt, b: Receipt) {
    && a.updatedAt <= b.updatedAt && b.identity == a.identity
    && match action
       case RejectAndRelease =>
         && a.state == Reserved && a.dispatchCount == 0 && b.state == Rejected && b.dispatchCount == 0
         && b.verified == None && b.error.Some? && b.error.value.retry == DoNotRetry
       case HoldForReconciliation =>
         Unverified(a) && HoldsOn(b) && b.state == PendingReconciliation && b.verified == None
       case RecordVerified =>
         && Unverified(a) && HoldsOn(b) && Verifies(b) && b.error.value.code == 0
         && b.updatedAt == b.verified.value.verifiedAt
       case HoldVerifiedForReconciliation =>
         Unverified(a) && HoldsOn(b) && Verifies(b)
       case ReleaseVerified =>
         && a.state == VerifiedPendingRelease && b.state == Succeeded && b.dispatchCount == 1
         && b.verified == a.verified && b.error == None
  }

  /** The caller shows receipt i as it is stored, or, before it is dispatched, as dispatched. */
  predicate ShownAt(t: State, shown: Receipt, i: int) {
    && 0 <= i < |t.receipts|
    && var r := t.receipts[i];
    && shown.identity == r.identity && shown.state == r.state && shown.updatedAt == r.updatedAt
    && shown.verified == r.verified && shown.error == r.error
    && (shown.dispatchCount == r.dispatchCount
        || (r.state == Reserved && r.dispatchCount == 0 && shown.dispatchCount == 1))
  }

  /** From a receipt as it may be shown, an action leads exactly where the table says. */
  lemma LeadsExactly(action: Action, stored: Receipt, a: Receipt, b: Receipt)
    requires Stored(stored) && ValidView(stored, a)
    ensures Admitted(a)
    ensures Admitted(b) && a.updatedAt <= b.updatedAt && ExpectedTransition(action, a, b) == Some(b) <==>
              Leads(action, a, b)
  {
  }

  /** A transition is applied exactly from a stored receipt, as it may be shown, to where the action leads. */
  lemma TransitionExactly(t: State, action: Action, a: Receipt, b: Receipt)
    requires Inv(t)
    ensures Transition(t, action, a, b).1.Applied? <==> Leads(action, a, b) && exists i :: ShownAt(t, a, i)
    ensures !Transition(t, action, a, b).1.Applied? ==> Transition(t, action, a, b) == (t, TransitionRefused)
  {
    hide Inv, ByKey, Admitted, ExpectedTransition, Leads, Stored;
    var i := ByKey(t.receipts, a.identity.key);
    if j :| ShownAt(t, a, j) {
      KeyFound(t, a.identity.key, j);
      StoredRow(t, j);
      LeadsExactly(action, t.receipts[j], a, b);
    } else {
      assert !ShownAt(t, a, i);
    }
  }

  /** What an applied transition leaves: the receipt, and its lane, freed by a rejection and a release and
      else moved to the time of the receipt. */
  lemma TransitionEffect(t: State, action: Action, a: Receipt, b: Receipt, i: nat)
    requires Inv(t) && ShownAt(t, a, i) && Transition(t, action, a, b).1.Applied?
    ensures Transition(t, action, a, b).1 == Applied(b)
    ensures Transition(t, action, a, b).0 ==
              State(t.receipts[i := b],
                    if action == RejectAndRelease || action == ReleaseVerified then t.lanes - {a.identity.ref}
                    else t.lanes[a.identity.ref := Lane(a.identity.id, a.identity.parentSha, a.identity.createdAt,
                                                        b.updatedAt)])
  {
    hide Inv, ByKey, Admitted, ExpectedTransition, Leads, Stored;
    KeyFound(t, a.identity.key, i);
    StoredRow(t, i);
    LeadsExactly(action, t.receipts[i], a, b);
    LeadsTo(action, a, b);
  }

  lemma LeadsTo(action: Action, a: Receipt, b: Receipt)
    requires Leads(action, a, b)
    ensures b.identity == a.identity && (Blocks(b) <==> action != RejectAndRelease && action != ReleaseVerified)
  {
  }

  /** The last step that frees the lane of an undecided receipt: rejecting it before it is dispatched, or
      releasing its verified result. */
  lemma ReleaseFrees(t: State, action: Action, i: nat, b: Receipt)
    requires Inv(t) && i < |t.receipts| && Leads(action, t.receipts[i], b)
    requires action == RejectAndRelease || action == ReleaseVerified
    ensures t.receipts[i].identity.ref !in Transition(t, action, t.receipts[i], b).0.lanes
  {
    hide Inv, Leads, Transition;
    assert ShownAt(t, t.receipts[i], i);
    TransitionExactly(t, action, t.receipts[i], b);
    TransitionEffect(t, action, t.receipts[i], b, i);
  }

  /** Every held lane can be freed, in two actions at most. */
  lemma HeldLaneCanBeFreed(t: State, ref: Ref) returns (es: seq<Event>)
    requires Inv(t) && ref in t.lanes
    ensures |es| <= 2 && ref !in Run(t, es).lanes
  {
    hide Inv, Transition, Leads, NewestRow, Blocks;
    LaneMeansOneBlocker(t, ref);
    var i :| 0 <= i < |t.receipts| && t.receipts[i].identity.ref == ref && Blocks(t.receipts[i]);
    var a := t.receipts[i];
    StoredRow(t, i);
    var actions, rows := Freeing(a);
    var t1 := Transition(t, actions[0], a, rows[0]).0;
    es := [OnTransition(actions[0], a, rows[0])];
    if |actions| == 1 {
      ReleaseFrees(t, actions[0], i, rows[0]);
      assert es[1..] == [] && Run(t1, []) == t1;
    } else {
      assert ShownAt(t, a, i);
      TransitionExactly(t, actions[0], a, rows[0]);
      TransitionEffect(t, actions[0], a, rows[0], i);
      TransitionKeepsInv(t, actions[0], a, rows[0]);
      ReleaseFrees(t1, actions[1], i, rows[1]);
      es := es + [OnTransition(actions[1], rows[0], rows[1])];
      var t2 := Transition(t1, actions[1], rows[0], rows[1]).0;
      assert es[1..] == [OnTransition(actions[1], rows[0], rows[1])] && es[1..][1..] == [];
      assert Run(t1, es[1..]) == Run(t2, []) == t2;
    }
  }

  /** The actions that free an undecided receipt, and the receipts they make. */
  lemma Freeing(a: Receipt) returns (actions: seq<Action>, rows: seq<Receipt>)
    requires Stored(a) && Blocks(a)
    ensures 1 <= |actions| == |rows| <= 2 && Leads(actions[0], a, rows[0])
    ensures actions[|actions| - 1] in {RejectAndRelease, ReleaseVerified}
    ensures |actions| == 2 ==> Leads(actions[1], rows[0], rows[1])
  {
    if a.state == Reserved {
      actions, rows := [RejectAndRelease], [a.(state := Rejected, error := Some(WriteError(0, DoNotRetry)))];
    } else if a.state == VerifiedPendingRelease {
      actions, rows := [ReleaseVerified], [a.(state := Succeeded, error := None)];
    } else {
      var identity := a.identity;
      var result := Verified(identity.ref, identity.path, identity.operation, identity.parentSha,
                             identity.requestSha, 0,
                             a.updatedAt);
      var b := a.(state := VerifiedPendingRelease, verified := Some(result),
                  error := Some(WriteError(0, ReconcileBeforeRetry)));
      actions, rows := [RecordVerified, ReleaseVerified], [b, b.(state := Succeeded, error := None)];
    }
  }
}
