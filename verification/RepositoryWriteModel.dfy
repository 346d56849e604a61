/** Repository write receipts and the lanes that serialise them, for one project.

    Receipts are listed in insertion order. Parsing, canonical form and digests are representation: a
    receipt is its decoded record, and `Admitted` is what decoding demands of it. */
module RepositoryWriteModel {
  import opened Base

  datatype Ref = Ref(repository: Id, targetRef: Id)

  datatype Identity = Identity(
    id: Id, ref: Ref, path: Id, operation: Id, parentSha: Id, requestSha: Id, payloadSha: Id,
    actor: Id, client: Id, key: Id, createdAt: Time)

  datatype WriteState = Reserved | Rejected | PendingReconciliation | VerifiedPendingRelease | Succeeded

  datatype Verified = Verified(
    ref: Ref, path: Id, operation: Id, parentSha: Id, requestSha: Id, commitSha: Id, verifiedAt: Time)

  datatype Retry = DoNotRetry | ReconcileBeforeRetry

  datatype WriteError = WriteError(code: Id, retry: Retry)

  datatype Receipt = Receipt(
    identity: Identity, state: WriteState, dispatchCount: int, updatedAt: Time,
    verified: Option<Verified>, error: Option<WriteError>)

  datatype Lane = Lane(owner: Id, parentSha: Id, createdAt: Time, updatedAt: Time)

  datatype State = State(receipts: seq<Receipt>, lanes: map<Ref, Lane>)

  const EMPTY := State([], map[])

  /** The code the verified settlement is stored under until it is released. */
  const SETTLEMENT_INCOMPLETE: Id := 0

  datatype Action =
    | RejectAndRelease | HoldForReconciliation | RecordVerified | HoldVerifiedForReconciliation | ReleaseVerified

  datatype ReserveOutcome =
    | Accepted(receipt: Receipt)
    | Replay(receipt: Receipt)
    | Conflict(receipt: Receipt)
    | Blocked(receipt: Receipt)
    | ReserveRefused

  datatype TransitionOutcome = Applied(receipt: Receipt) | TransitionRefused

  // ---------------------------------------------------------------- one receipt

  predicate VerifiedMatches(v: Verified, r: Receipt) {
    && v.ref == r.identity.ref && v.path == r.identity.path && v.operation == r.identity.operation
    && v.parentSha == r.identity.parentSha && v.requestSha == r.identity.requestSha
    && r.identity.createdAt <= v.verifiedAt <= r.updatedAt
  }

  predicate Lifecycle(r: Receipt) {
    match r.state
    case Reserved => r.verified.None? && r.error.None?
    case Rejected => r.verified.None? && r.error.Some? && r.error.value.retry == DoNotRetry
    case PendingReconciliation => r.verified.None? && r.error.Some? && r.error.value.retry == ReconcileBeforeRetry
    case VerifiedPendingRelease =>
      r.dispatchCount == 1 && r.verified.Some? && r.error.Some? && r.error.value.retry == ReconcileBeforeRetry
    case Succeeded => r.dispatchCount == 1 && r.verified.Some? && r.error.None?
  }

  /** What decoding demands of a receipt. */
  predicate Admitted(r: Receipt) {
    && r.identity.createdAt <= r.updatedAt && 0 <= r.dispatchCount <= 1
    && (r.verified.Some? ==> VerifiedMatches(r.verified.value, r))
    && Lifecycle(r)
  }

  predicate Blocks(r: Receipt) {
    r.state == Reserved || r.state == PendingReconciliation || r.state == VerifiedPendingRelease
  }

  predicate SameRequest(a: Receipt, b: Receipt) {
    && a.identity.requestSha == b.identity.requestSha && a.identity.payloadSha == b.identity.payloadSha
    && a.identity.ref == b.identity.ref && a.identity.path == b.identity.path
      && a.identity.operation == b.identity.operation
    && a.identity.parentSha == b.identity.parentSha && a.identity.actor == b.identity.actor
      && a.identity.client == b.identity.client
  }

  function LaneOf(r: Receipt): Lane { Lane(r.identity.id, r.identity.parentSha, r.identity.createdAt, r.updatedAt) }

  /** The caller shows the stored receipt, or the same reservation once it is dispatched. */
  predicate ValidView(stored: Receipt, shown: Receipt) {
    || shown == stored
    || (stored.state == Reserved && stored.dispatchCount == 0 && shown == stored.(dispatchCount := 1))
  }

  predicate ValidSource(action: Action, current: Receipt) {
    match action
    case ReleaseVerified => true
    case RejectAndRelease =>
      current.state == Reserved && current.dispatchCount == 0 && current.verified.None? && current.error.None?
    case _ =>
      (current.state == Reserved || current.state == PendingReconciliation) && current.dispatchCount == 1
        && current.verified.None?
  }

  function AdmittedOrNone(r: Receipt): Option<Receipt> { if Admitted(r) then Some(r) else None }

  /** The receipt an action makes of the current one, taking from the proposal only its time, its
      error code and its verified result. */
  function ExpectedTransition(action: Action, current: Receipt, proposed: Receipt): Option<Receipt> {
    if current.identity != proposed.identity || !ValidSource(action, current) then None
    else
      match action
      case RejectAndRelease =>
        if proposed.error.None? then None
        else AdmittedOrNone(current.(state := Rejected, updatedAt := proposed.updatedAt,
                                     error := Some(WriteError(proposed.error.value.code, DoNotRetry))))
      case HoldForReconciliation =>
        if proposed.error.None? then None
        else AdmittedOrNone(current.(state := PendingReconciliation, updatedAt := proposed.updatedAt,
                                     error := Some(WriteError(proposed.error.value.code, ReconcileBeforeRetry))))
      case RecordVerified =>
        if proposed.verified.None? then None
        else AdmittedOrNone(current.(state := VerifiedPendingRelease, dispatchCount := 1,
                                     updatedAt := proposed.verified.value.verifiedAt,
                                     verified := proposed.verified,
                                     error := Some(WriteError(SETTLEMENT_INCOMPLETE, ReconcileBeforeRetry))))
      case HoldVerifiedForReconciliation =>
        if proposed.error.None? then None
        else AdmittedOrNone(current.(state := VerifiedPendingRelease, dispatchCount := 1,
                                     updatedAt := proposed.updatedAt,
                                     verified := proposed.verified,
                                     error := Some(WriteError(proposed.error.value.code, ReconcileBeforeRetry))))
      case ReleaseVerified =>
        if current.state != VerifiedPendingRelease || current.dispatchCount != 1 || current.verified.None? then None
        else AdmittedOrNone(current.(state := Succeeded, updatedAt := proposed.updatedAt, error := None))
  }

  /** How far a receipt has come. */
  function Rank(s: WriteState): nat {
    match s
    case Reserved => 0
    case PendingReconciliation => 1
    case VerifiedPendingRelease => 2
    case Rejected => 3
    case Succeeded => 3
  }

  // ---------------------------------------------------------------- index reads

  /** The row under an idempotency key, or -1. */
  function ByKey(s: seq<Receipt>, key: Id): (r: int)
    ensures -1 <= r < |s|
    ensures r >= 0 ==> s[r].identity.key == key
    ensures forall j :: r < j < |s| ==> s[j].identity.key != key
  {
    if s == [] then -1 else if s[|s| - 1].identity.key == key then |s| - 1 else ByKey(s[..|s| - 1], key)
  }

  /** The row with an external ID, or -1. */
  function ById(s: seq<Receipt>, id: Id): (r: int)
    ensures -1 <= r < |s|
    ensures r >= 0 ==> s[r].identity.id == id
    ensures forall j :: r < j < |s| ==> s[j].identity.id != id
  {
    if s == [] then -1 else if s[|s| - 1].identity.id == id then |s| - 1 else ById(s[..|s| - 1], id)
  }

  /** The newest row of a ref, or -1. */
  function NewestRow(s: seq<Receipt>, ref: Ref): (r: int)
    ensures -1 <= r < |s|
    ensures r >= 0 ==> s[r].identity.ref == ref
    ensures forall j :: r < j < |s| ==> s[j].identity.ref != ref
  {
    if s == [] then -1 else if s[|s| - 1].identity.ref == ref then |s| - 1 else NewestRow(s[..|s| - 1], ref)
  }

  // ---------------------------------------------------------------- the mutations, over the receipts alone

  /** Reserving a write, decided from the receipts: the key first, then the newest write to the ref. */
  function Reserve(t: State, q: Receipt): (State, ReserveOutcome) {
    if !Admitted(q) || q.state != Reserved || q.dispatchCount != 0 then (t, ReserveRefused)
    else
      var prior := ByKey(t.receipts, q.identity.key);
      if prior >= 0 then (t, if SameRequest(t.receipts[prior], q) then Replay(t.receipts[prior])
        else Conflict(t.receipts[prior]))
      else if ById(t.receipts, q.identity.id) >= 0 then (t, ReserveRefused)
      else
        var newest := NewestRow(t.receipts, q.identity.ref);
        if newest >= 0 && Blocks(t.receipts[newest]) then (t, Blocked(t.receipts[newest]))
        else (State(t.receipts + [q], t.lanes[q.identity.ref := LaneOf(q)]), Accepted(q))
  }

  function WithReceipt(t: State, i: nat, r: Receipt): State
    requires i < |t.receipts|
  {
    State(t.receipts[i := r], if Blocks(r) then t.lanes[r.identity.ref := LaneOf(r)] else t.lanes - {r.identity.ref})
  }

  function Transition(t: State, action: Action, current: Receipt, next: Receipt): (State, TransitionOutcome) {
    if !Admitted(current) || !Admitted(next) then (t, TransitionRefused)
    else
      var i := ByKey(t.receipts, current.identity.key);
      if i < 0 || !ValidView(t.receipts[i], current) || next.updatedAt < current.updatedAt
         || ExpectedTransition(action, current, next) != Some(next)
      then (t, TransitionRefused)
      else (WithReceipt(t, i, next), Applied(next))
  }

  datatype Event = OnReserve(request: Receipt) | OnTransition(action: Action, current: Receipt, next: Receipt)

  function Step(t: State, e: Event): State {
    match e
    case OnReserve(q) => Reserve(t, q).0
    case OnTransition(action, current, next) => Transition(t, action, current, next).0
  }

  function Run(t: State, es: seq<Event>): State
    decreases |es|
  {
    if es == [] then t else Run(Step(t, es[0]), es[1..])
  }

  // ---------------------------------------------------------------- what holds between mutations

  ghost predicate Distinct(s: seq<Receipt>) {
    forall i, j :: 0 <= i < j < |s| ==> s[i].identity.id != s[j].identity.id && s[i].identity.key != s[j].identity.key
  }

  /** A receipt is admitted, and counts a dispatch exactly when it went beyond reservation by one. */
  predicate Stored(r: Receipt) {
    Admitted(r) && (r.dispatchCount == 0 <==> r.state == Reserved || r.state == Rejected)
  }

  ghost predicate AllStored(s: seq<Receipt>) { forall i :: 0 <= i < |s| ==> Stored(s[i]) }

  /** Only the newest write to a ref can still hold its lane. */
  ghost predicate OlderReleased(s: seq<Receipt>) {
    forall i, j :: 0 <= i < j < |s| && s[i].identity.ref == s[j].identity.ref ==> !Blocks(s[i])
  }

  /** A lane exists exactly for a write that still blocks its ref, and mirrors it. */
  ghost predicate LanesAgree(s: seq<Receipt>, lanes: map<Ref, Lane>) {
    && (forall i :: 0 <= i < |s| && Blocks(s[i]) ==>
      s[i].identity.ref in lanes && lanes[s[i].identity.ref] == LaneOf(s[i]))
    && (forall ref :: ref in lanes ==> NewestRow(s, ref) >= 0 && Blocks(s[NewestRow(s, ref)]))
  }

  ghost predicate Inv(t: State) {
    Distinct(t.receipts) && AllStored(t.receipts) && OlderReleased(t.receipts) && LanesAgree(t.receipts, t.lanes)
  }

  // ---------------------------------------------------------------- each mutation keeps the invariant

  lemma AppendLanes(s: seq<Receipt>, lanes: map<Ref, Lane>, q: Receipt)
    requires LanesAgree(s, lanes) && Blocks(q)
    requires forall i :: 0 <= i < |s| && s[i].identity.ref == q.identity.ref ==> !Blocks(s[i])
    ensures LanesAgree(s + [q], lanes[q.identity.ref := LaneOf(q)])
  {
    assert (s + [q])[..|s|] == s;
  }

  lemma ReserveKeepsInv(t: State, q: Receipt)
    requires Inv(t)
    ensures Inv(Reserve(t, q).0)
  {
    hide NewestRow, ByKey, ById, LanesAgree, Lifecycle;
    var out := Reserve(t, q).1;
    if out.Accepted? {
      forall i | 0 <= i < |t.receipts| && t.receipts[i].identity.ref == q.identity.ref ensures !Blocks(t.receipts[i]) {
        assert i <= NewestRow(t.receipts, q.identity.ref);
      }
      AppendLanes(t.receipts, t.lanes, q);
    }
  }

  lemma UpdateLanes(s: seq<Receipt>, lanes: map<Ref, Lane>, i: nat, r: Receipt)
    requires LanesAgree(s, lanes) && OlderReleased(s) && i < |s| && Blocks(s[i]) && r.identity == s[i].identity
    ensures LanesAgree(s[i := r], if Blocks(r) then lanes[r.identity.ref := LaneOf(r)] else lanes - {r.identity.ref})
  {
    hide NewestRow;
    forall ref: Ref ensures NewestRow(s[i := r], ref) == NewestRow(s, ref) {
      assert forall j :: 0 <= j < |s| ==> s[i := r][j].identity == s[j].identity;
    }
    assert NewestRow(s, r.identity.ref) == i;
  }

  /** What an accepted action says about the stored receipt and its successor. */
  lemma TransitionMoves(action: Action, stored: Receipt, current: Receipt, next: Receipt)
    requires Stored(stored) && ValidView(stored, current) && ExpectedTransition(action, current, next) == Some(next)
    ensures Blocks(stored) && Stored(next) && next.identity == stored.identity
    ensures Rank(stored.state) <= Rank(next.state) && stored.dispatchCount <= next.dispatchCount
    ensures stored.verified.Some? ==> next.verified == stored.verified
  {
  }

  /** The two releasing actions are exactly those whose receipt no longer blocks the ref. */
  lemma ReleasesExactlyWhen(action: Action, current: Receipt, next: Receipt)
    requires ExpectedTransition(action, current, next) == Some(next)
    ensures Blocks(next) <==> action != RejectAndRelease && action != ReleaseVerified
  {
  }

  lemma StoredRow(t: State, i: nat)
    requires Inv(t) && i < |t.receipts|
    ensures Stored(t.receipts[i])
  {
    hide Distinct, OlderReleased, LanesAgree;
  }

  lemma TransitionKeepsInv(t: State, action: Action, current: Receipt, next: Receipt)
    requires Inv(t)
    ensures Inv(Transition(t, action, current, next).0)
  {
    hide ByKey, ExpectedTransition, ValidView, Stored, LanesAgree;
    var out := Transition(t, action, current, next).1;
    if out.Applied? {
      var i := ByKey(t.receipts, current.identity.key);
      TransitionMoves(action, t.receipts[i], current, next);
      UpdateLanes(t.receipts, t.lanes, i, next);
    }
  }

  lemma StepKeepsInv(t: State, e: Event)
    requires Inv(t)
    ensures Inv(Step(t, e))
  {
    hide Inv;
    match e
    case OnReserve(q) => ReserveKeepsInv(t, q);
    case OnTransition(action, current, next) => TransitionKeepsInv(t, action, current, next);
  }

  /** In every reachable state a lane exists exactly for the one write that blocks its ref. */
  lemma {:induction false} RunKeepsInv(t: State, es: seq<Event>)
    requires Inv(t)
    ensures Inv(Run(t, es))
    decreases |es|
  {
    hide Inv, Step;
    if es != [] {
      StepKeepsInv(t, es[0]);
      RunKeepsInv(Step(t, es[0]), es[1..]);
    }
  }

  // ---------------------------------------------------------------- what the invariant says to a reader

  lemma LaneMeansOneBlocker(t: State, ref: Ref)
    requires Inv(t)
    ensures ref in t.lanes <==>
              exists i :: 0 <= i < |t.receipts| && t.receipts[i].identity.ref == ref && Blocks(t.receipts[i])
    ensures forall i :: 0 <= i < |t.receipts| && t.receipts[i].identity.ref == ref && Blocks(t.receipts[i]) ==>
              t.lanes[ref] == LaneOf(t.receipts[i]) && i == NewestRow(t.receipts, ref)
    ensures ref in t.lanes ==> ById(t.receipts, t.lanes[ref].owner) == NewestRow(t.receipts, ref)
  {
    hide NewestRow, ById, Stored;
    if ref in t.lanes {
      var n := NewestRow(t.receipts, ref);
      assert t.lanes[ref] == LaneOf(t.receipts[n]);
    }
  }

  /** The refs whose lane a receipt owns. */
  function OwnedLanes(lanes: map<Ref, Lane>, id: Id): set<Ref> { set ref | ref in lanes && lanes[ref].owner == id }

  /** A receipt owns exactly its own lane while it blocks, and none afterwards. */
  lemma OwnerOwnsOneLane(t: State, i: nat)
    requires Inv(t) && i < |t.receipts|
    ensures OwnedLanes(t.lanes, t.receipts[i].identity.id) ==
              if Blocks(t.receipts[i]) then {t.receipts[i].identity.ref} else {}
  {
    hide NewestRow, Stored;
    var id := t.receipts[i].identity.id;
    forall ref | ref in t.lanes && t.lanes[ref].owner == id
      ensures Blocks(t.receipts[i]) && ref == t.receipts[i].identity.ref
    {
      assert t.lanes[ref] == LaneOf(t.receipts[NewestRow(t.receipts, ref)]);
    }
  }

  /** How one step may change a receipt: not at all once it stopped blocking; otherwise forward. */
  predicate Forward(r: Receipt, r': Receipt) {
    && r'.identity == r.identity && Rank(r.state) <= Rank(r'.state) && r.dispatchCount <= r'.dispatchCount
    && (!Blocks(r) ==> r' == r) && (r.verified.Some? ==> r'.verified == r.verified)
  }

  lemma StepForward(t: State, e: Event, i: nat)
    requires Inv(t) && i < |t.receipts|
    ensures i < |Step(t, e).receipts| && Forward(t.receipts[i], Step(t, e).receipts[i])
  {
    hide ByKey, ById, NewestRow, ExpectedTransition, ValidView, Stored, LanesAgree;
    if e.OnTransition? && Transition(t, e.action, e.current, e.next).1.Applied? {
      var j := ByKey(t.receipts, e.current.identity.key);
      TransitionMoves(e.action, t.receipts[j], e.current, e.next);
    }
  }

  /** Over any run a receipt only moves forward, keeps a verified result once it has one, and never
      changes again once it is rejected or has succeeded. */
  lemma {:induction false} ReceiptsMoveForward(t: State, es: seq<Event>, i: nat)
    requires Inv(t) && i < |t.receipts|
    ensures i < |Run(t, es).receipts| && Forward(t.receipts[i], Run(t, es).receipts[i])
    decreases |es|
  {
    hide Inv, Step;
    if es != [] {
      StepKeepsInv(t, es[0]);
      StepForward(t, es[0], i);
      ReceiptsMoveForward(Step(t, es[0]), es[1..], i);
    }
  }

  /** The intervals in which receipts hold a ref do not overlap: once another receipt of its ref blocks, a
      receipt never blocks again. */
  lemma IntervalsDoNotOverlap(t: State, es: seq<Event>, more: seq<Event>, i: nat, j: nat)
    requires Inv(t) && i < |t.receipts| && Blocks(t.receipts[i])
    requires var t1 := Run(t, es);
             j < |t1.receipts| && j != i && t1.receipts[j].identity.ref == t.receipts[i].identity.ref
               && Blocks(t1.receipts[j])
    ensures var t2 := Run(Run(t, es), more);
            i < |t2.receipts| && !Blocks(t2.receipts[i])
  {
    hide Inv, Run, Blocks;
    var t1 := Run(t, es);
    RunKeepsInv(t, es);
    ReceiptsMoveForward(t, es, i);
    LaneMeansOneBlocker(t1, t.receipts[i].identity.ref);
    ReceiptsMoveForward(t1, more, i);
  }

  /** No receipt is ever both rejected and dispatched, and success means verified and dispatched. */
  lemma RejectedWasNeverDispatched(t: State, i: nat)
    requires Inv(t) && i < |t.receipts|
    ensures t.receipts[i].state == Rejected ==> t.receipts[i].dispatchCount == 0 && t.receipts[i].verified.None?
    ensures t.receipts[i].state == Succeeded ==> t.receipts[i].dispatchCount == 1 && t.receipts[i].verified.Some?
                                                 && VerifiedMatches(t.receipts[i].verified.value, t.receipts[i])
    ensures t.receipts[i].state == PendingReconciliation ==> t.receipts[i].dispatchCount == 1
  {
    assert Stored(t.receipts[i]);
  }
}
