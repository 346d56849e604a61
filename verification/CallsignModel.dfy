/** Callsign leases and worker enrolments: two modules that write one lease table, fenced by a
    generation for each collision key.

    Row numbers are the IDs the database issues. A scheduled expiry is allowed to fire at any time:
    its guards decide whether it does anything. Rejections are stored results, not errors, so what
    was settled on the way to a rejection stays settled. */
module CallsignModel {
  import opened Base

  const MAX_LEASE_MS := 7 * 24 * 60 * 60 * 1000

  datatype LeaseStatus = Active | Released | Expired

  /** run: the run that holds the lease, for one reserved through the lease API; enrolment: the
      enrolment it is attached to otherwise. */
  datatype Lease = Lease(
    collision: Id, session: Id, run: Option<Id>, enrolment: Option<nat>, generation: int, status: LeaseStatus,
    acceptedAt: Time, expiresAt: Time, heartbeatAt: Time, endedAt: Option<Time>)

  datatype Owner = Owner(actor: Id, client: Id)

  datatype Enrolment = Enrolment(
    owner: Owner, session: Id, body: Id, status: LeaseStatus, lease: Option<nat>, leaseGeneration: Option<int>,
    acceptedAt: Time, expiresAt: Time, heartbeatAt: Time, endedAt: Option<Time>)

  datatype Reason =
    | ActiveCollision | ExpiredRequest | ExpiryTooFar | InheritanceNotSupported | LeaseNotFound | LeaseNotActive
    | HolderMismatch | StaleGeneration | ExpiryNotExtended
    | ProjectNotFound | ActiveSessionExists | CallsignInvalid | CallsignActiveCollision | CallsignLifetimeTooLong
    | WorkerNotFound | WorkerNotActive

  datatype Wish = NoCallsign | InvalidCallsign | Callsign(collision: Id)

  /** The request of a command, as it is compared when the command is repeated. */
  datatype Request =
    | ReserveLease(collision: Id, session: Id, run: Id, expiresAt: Time, knownGeneration: Option<int>,
      inheritance: bool)
    | RenewLease(lease: Id, session: Id, run: Id, expectedGeneration: int, expiresAt: Time)
    | ReleaseLease(lease: Id, session: Id, run: Id, expectedGeneration: int)
    | Enrol(session: Id, wish: Wish, expiresAt: Time, body: Id)
    | HeartbeatWorker(worker: Id)
    | ReleaseWorker(worker: Id)

  /** What a command reports: the row it accepted or looked at, and for a lease the generation. */
  datatype Result =
    | LeaseAccepted(id: nat, lease: Lease)
    | LeaseRejected(reason: Reason, current: Option<Lease>, generation: Option<int>)
    | WorkerAccepted(id: nat, worker: Enrolment)
    | WorkerRejected(reason: Reason, found: Option<Enrolment>)

  datatype CommandKey = LeaseCommand(key: Id) | WorkerCommand(owner: Owner, key: Id)

  datatype Stored = Stored(request: Request, result: Result)

  datatype State = State(leases: seq<Lease>, enrolments: seq<Enrolment>, commands: map<CommandKey, Stored>, clock: Time)

  const EMPTY := State([], [], map[], 0)

  // ---------------------------------------------------------------- index reads

  /** The newest lease of a collision key, or -1. */
  function Newest(s: seq<Lease>, collision: Id): (r: int)
    ensures -1 <= r < |s|
    ensures r >= 0 ==> s[r].collision == collision
    ensures forall j :: r < j < |s| ==> s[j].collision != collision
  {
    if s == [] then -1 else if s[|s| - 1].collision == collision then |s| - 1 else Newest(s[..|s| - 1], collision)
  }

  /** How many leases a collision key has had. */
  function Count(s: seq<Lease>, collision: Id): nat {
    if s == [] then 0 else Count(s[..|s| - 1], collision) + (if s[|s| - 1].collision == collision then 1 else 0)
  }

  /** The active leases of a collision key, oldest first. */
  function ActiveLeases(s: seq<Lease>, collision: Id): (rows: seq<nat>)
    ensures forall a :: 0 <= a < |rows| ==>
              rows[a] < |s| && s[rows[a]].collision == collision && s[rows[a]].status == Active
    ensures forall i :: 0 <= i < |s| && s[i].collision == collision && s[i].status == Active ==> i in rows
    ensures forall a, b :: 0 <= a < b < |rows| ==> rows[a] < rows[b]
  {
    if s == [] then []
    else
      var n := |s| - 1;
      ActiveLeases(s[..n], collision) + (if s[n].collision == collision && s[n].status == Active then [n] else [])
  }

  /** The highest generation of a collision key, or 0. */
  function HighestGeneration(s: seq<Lease>, collision: Id): int {
    if s == [] then 0
    else
      var r := HighestGeneration(s[..|s| - 1], collision);
      var last := s[|s| - 1];
      if last.collision == collision && r < last.generation then last.generation else r
  }

  predicate OfSession(e: Enrolment, owner: Owner, session: Id) { e.owner == owner && e.session == session }

  /** The newest enrolment of an owner's session, or -1. */
  function NewestEnrolment(s: seq<Enrolment>, owner: Owner, session: Id): (r: int)
    ensures -1 <= r < |s|
    ensures r >= 0 ==> OfSession(s[r], owner, session)
    ensures forall j :: r < j < |s| ==> !OfSession(s[j], owner, session)
  {
    if s == [] then -1
    else if OfSession(s[|s| - 1], owner, session) then |s| - 1 else NewestEnrolment(s[..|s| - 1], owner, session)
  }

  /** The active enrolments of an owner's session, oldest first. */
  function ActiveEnrolments(s: seq<Enrolment>, owner: Owner, session: Id): (rows: seq<nat>)
    ensures forall a :: 0 <= a < |rows| ==>
              rows[a] < |s| && OfSession(s[rows[a]], owner, session) && s[rows[a]].status == Active
    ensures forall i :: 0 <= i < |s| && OfSession(s[i], owner, session) && s[i].status == Active ==> i in rows
    ensures forall a, b :: 0 <= a < b < |rows| ==> rows[a] < rows[b]
  {
    if s == [] then []
    else
      var n := |s| - 1;
      ActiveEnrolments(s[..n], owner, session)
        + (if OfSession(s[n], owner, session) && s[n].status == Active then [n] else [])
  }

  // ---------------------------------------------------------------- settling

  function EndedLease(l: Lease, status: LeaseStatus, at: Time): Lease { l.(status := status, endedAt := Some(at)) }

  predicate LeaseDue(l: Lease, now: Time) { l.status == Active && l.expiresAt <= now }

  /** Expire lease i if its time has come. */
  function LeaseSettled(t: State, i: int, now: Time): State {
    if 0 <= i < |t.leases| && LeaseDue(t.leases[i], now)
    then t.(leases := t.leases[i := EndedLease(t.leases[i], Expired, t.leases[i].expiresAt)])
    else t
  }

  /** End enrolment i, and with it the lease attached to it if that is still active. */
  function EnrolmentEnded(t: State, i: nat, released: bool, now: Time): State
    requires i < |t.enrolments|
  {
    var e := t.enrolments[i];
    var t1 :=
      if e.lease.Some? && e.lease.value < |t.leases| && t.leases[e.lease.value].status == Active then
        var l := t.leases[e.lease.value];
        t.(leases := t.leases[e.lease.value :=
          if released && l.expiresAt > now then EndedLease(l, Released, now) else EndedLease(l, Expired, l.expiresAt)])
      else t;
    t1.(enrolments := t.enrolments[i := e.(status := if released then Released else Expired,
                                           endedAt := Some(if released then now else e.expiresAt))])
  }

  predicate EnrolmentDue(e: Enrolment, now: Time) { e.status == Active && e.expiresAt <= now }

  /** Expire enrolment i if its time has come. */
  function EnrolmentSettled(t: State, i: int, now: Time): State {
    if 0 <= i < |t.enrolments| && EnrolmentDue(t.enrolments[i], now) then EnrolmentEnded(t, i, false, now) else t
  }

  // ---------------------------------------------------------------- the mutations

  function ExpiryReason(expiresAt: Time, now: Time): Option<Reason> {
    if expiresAt <= now then Some(ExpiredRequest)
    else if expiresAt - now > MAX_LEASE_MS then Some(ExpiryTooFar) else None
  }

  /** Reserving a callsign: its newest lease decides. */
  function Reserve(t: State, q: Request, now: Time): (State, Result)
    requires q.ReserveLease?
  {
    var n := Newest(t.leases, q.collision);
    var t1 := LeaseSettled(t, n, now);
    var active := if n >= 0 && t1.leases[n].status == Active then Some(t1.leases[n]) else None;
    var generation := Count(t.leases, q.collision);
    var reason :=
      if q.inheritance then Some(InheritanceNotSupported)
      else if ExpiryReason(q.expiresAt, now).Some? then ExpiryReason(q.expiresAt, now)
      else if active.Some? then Some(ActiveCollision)
      else if q.knownGeneration.Some? && q.knownGeneration.value != generation then Some(StaleGeneration)
      else None;
    if reason.Some? then (t1, LeaseRejected(reason.value, active, Some(generation)))
    else
      var lease := Lease(q.collision, q.session, Some(q.run), None, generation + 1, Active, now, q.expiresAt, now,
        None);
      (t1.(leases := t1.leases + [lease]), LeaseAccepted(|t.leases|, lease))
  }

  /** Why the holder a request names does not hold the lease, if so. */
  function HeldReason(leases: seq<Lease>, id: Id, session: Id, run: Id, expectedGeneration: int): Option<Reason> {
    if id >= |leases| then Some(LeaseNotFound)
    else
      var l := leases[id];
      if l.status != Active then Some(LeaseNotActive)
      else if l.session != session || l.run != Some(run) then Some(HolderMismatch)
      else if l.generation != expectedGeneration then Some(StaleGeneration)
      else None
  }

  function RejectHeld(t: State, id: Id, reason: Reason): (State, Result) {
    (t, if id < |t.leases| then LeaseRejected(reason, Some(t.leases[id]), Some(t.leases[id].generation))
      else LeaseRejected(reason, None, None))
  }

  function Renew(t: State, q: Request, now: Time): (State, Result)
    requires q.RenewLease?
  {
    var t1 := LeaseSettled(t, q.lease, now);
    var held := HeldReason(t1.leases, q.lease, q.session, q.run, q.expectedGeneration);
    if held.Some? then RejectHeld(t1, q.lease, held.value)
    else
      var l := t1.leases[q.lease];
      var reason :=
        if ExpiryReason(q.expiresAt, now).Some? then ExpiryReason(q.expiresAt, now)
        else if q.expiresAt <= l.expiresAt then Some(ExpiryNotExtended)
        else None;
      if reason.Some? then RejectHeld(t1, q.lease, reason.value)
      else
        var l' := l.(expiresAt := q.expiresAt, heartbeatAt := now);
        (t1.(leases := t1.leases[q.lease := l']), LeaseAccepted(q.lease, l'))
  }

  function Release(t: State, q: Request, now: Time): (State, Result)
    requires q.ReleaseLease?
  {
    var t1 := LeaseSettled(t, q.lease, now);
    var held := HeldReason(t1.leases, q.lease, q.session, q.run, q.expectedGeneration);
    if held.Some? then RejectHeld(t1, q.lease, held.value)
    else
      var l' := EndedLease(t1.leases[q.lease], Released, now);
      (t1.(leases := t1.leases[q.lease := l']), LeaseAccepted(q.lease, l'))
  }

  function NewEnrolment(owner: Owner, q: Request, lease: Option<nat>, generation: Option<int>, now: Time): Enrolment
    requires q.Enrol?
  {
    Enrolment(owner, q.session, q.body, Active, lease, generation, now, q.expiresAt, now, None)
  }

  /** Enrolling: the owner's session must be free, and a wished callsign too; it is then leased for
      exactly as long as the enrolment. */
  function EnrolWorker(t: State, owner: Owner, q: Request, projectsKnown: bool, now: Time): (State, Result)
    requires q.Enrol?
  {
    if !projectsKnown then (t, WorkerRejected(ProjectNotFound, None))
    else if q.expiresAt <= now then (t, WorkerRejected(ExpiredRequest, None))
    else
      var s := NewestEnrolment(t.enrolments, owner, q.session);
      var t1 := EnrolmentSettled(t, s, now);
      if s >= 0 && t1.enrolments[s].status == Active then
        (t1, WorkerRejected(ActiveSessionExists, Some(t1.enrolments[s])))
      else
        match q.wish
        case NoCallsign =>
          var e := NewEnrolment(owner, q, None, None, now);
          (t1.(enrolments := t1.enrolments + [e]), WorkerAccepted(|t.enrolments|, e))
        case InvalidCallsign => (t1, WorkerRejected(CallsignInvalid, None))
        case Callsign(collision) =>
          if q.expiresAt - now > MAX_LEASE_MS then (t1, WorkerRejected(CallsignLifetimeTooLong, None))
          else
            var n := Newest(t1.leases, collision);
            var t2 := LeaseSettled(t1, n, now);
            if n >= 0 && t2.leases[n].status == Active then (t2, WorkerRejected(CallsignActiveCollision, None))
            else
              var generation := Count(t.leases, collision) + 1;
              var e := NewEnrolment(owner, q, Some(|t.leases|), Some(generation), now);
              var l := Lease(collision, q.session, None, Some(|t.enrolments|), generation, Active, now, q.expiresAt,
                now, None);
              (t2.(leases := t2.leases + [l], enrolments := t2.enrolments + [e]), WorkerAccepted(|t.enrolments|, e))
  }

  predicate Owns(t: State, owner: Owner, worker: Id) { worker < |t.enrolments| && t.enrolments[worker].owner == owner }

  function Heartbeat(t: State, owner: Owner, worker: Id, now: Time): (State, Result) {
    if !Owns(t, owner, worker) then (t, WorkerRejected(WorkerNotFound, None))
    else
      var t1 := EnrolmentSettled(t, worker, now);
      var e := t1.enrolments[worker];
      if e.status != Active then (t1, WorkerRejected(WorkerNotActive, Some(e)))
      else
        var e' := e.(heartbeatAt := now);
        (t1.(enrolments := t1.enrolments[worker := e']), WorkerAccepted(worker, e'))
  }

  function Leave(t: State, owner: Owner, worker: Id, now: Time): (State, Result) {
    if !Owns(t, owner, worker) then (t, WorkerRejected(WorkerNotFound, None))
    else
      var t1 := EnrolmentSettled(t, worker, now);
      var e := t1.enrolments[worker];
      if e.status != Active then (t1, WorkerRejected(WorkerNotActive, Some(e)))
      else
        var t2 := EnrolmentEnded(t1, worker, true, now);
        (t2, WorkerAccepted(worker, t2.enrolments[worker]))
  }

  predicate FitsKey(key: CommandKey, q: Request) {
    key.LeaseCommand? <==> q.ReserveLease? || q.RenewLease? || q.ReleaseLease?
  }

  function Execute(t: State, key: CommandKey, q: Request, projectsKnown: bool, now: Time): (State, Result)
    requires FitsKey(key, q)
  {
    match q
    case ReserveLease(_, _, _, _, _, _) => Reserve(t, q, now)
    case RenewLease(_, _, _, _, _) => Renew(t, q, now)
    case ReleaseLease(_, _, _, _) => Release(t, q, now)
    case Enrol(_, _, _, _) => EnrolWorker(t, key.owner, q, projectsKnown, now)
    case HeartbeatWorker(worker) => Heartbeat(t, key.owner, worker, now)
    case ReleaseWorker(worker) => Leave(t, key.owner, worker, now)
  }

  /** A command is executed once: repeating it returns the stored result, and reusing its key for
      another request is an error. */
  function Command(t: State, key: CommandKey, q: Request, projectsKnown: bool, now: Time): (State, Option<Result>) {
    var t0 := t.(clock := now);
    if !FitsKey(key, q) then (t0, None)
    else if key in t.commands then (t0, if t.commands[key].request == q then Some(t.commands[key].result) else None)
    else
      var (t1, result) := Execute(t0, key, q, projectsKnown, now);
      (t1.(commands := t1.commands[key := Stored(q, result)]), Some(result))
  }

  datatype Event =
    | OnCommand(key: CommandKey, request: Request, projectsKnown: bool, at: Time)
    | OnLeaseTimer(lease: Id, generation: int, at: Time)
    | OnEnrolmentTimer(worker: Id, at: Time)
    | OnGetLease(lease: Id, at: Time)
    | OnGetCurrent(collision: Id, at: Time)
    | OnGetWorker(owner: Owner, worker: Id, at: Time)

  function LeaseTimer(t: State, lease: Id, generation: int, now: Time): State {
    if lease < |t.leases| && t.leases[lease].generation == generation then LeaseSettled(t, lease, now) else t
  }

  function Step(t: State, e: Event): State {
    match e
    case OnCommand(key, q, projectsKnown, at) => Command(t, key, q, projectsKnown, at).0
    case OnLeaseTimer(lease, generation, at) => LeaseTimer(t.(clock := at), lease, generation, at)
    case OnEnrolmentTimer(worker, at) => EnrolmentSettled(t.(clock := at), worker, at)
    case OnGetLease(lease, at) => LeaseSettled(t.(clock := at), lease, at)
    case OnGetCurrent(collision, at) => LeaseSettled(t.(clock := at), Newest(t.leases, collision), at)
    case OnGetWorker(owner, worker, at) =>
      if Owns(t, owner, worker) then EnrolmentSettled(t.(clock := at), worker, at) else t.(clock := at)
  }

  predicate Admissible(t: State, e: Event) { t.clock <= e.at }

  // ---------------------------------------------------------------- what holds between mutations

  /** The generations of a collision key are 1, 2, 3, ... in creation order. */
  ghost predicate Numbered(s: seq<Lease>) {
    forall i :: 0 <= i < |s| ==> s[i].generation == 1 + Count(s[..i], s[i].collision)
  }

  /** Only the newest lease of a collision key may be active. */
  ghost predicate OlderEnded(s: seq<Lease>) {
    forall i, j :: 0 <= i < j < |s| && s[i].collision == s[j].collision ==> s[i].status != Active
  }

  /** Only the newest enrolment of an owner's session may be active. */
  ghost predicate OneSession(s: seq<Enrolment>) {
    forall i, j :: 0 <= i < j < |s| && s[i].owner == s[j].owner && s[i].session == s[j].session ==>
      s[i].status != Active
  }

  /** Enrolment e and lease l belong together. */
  predicate Bound(t: State, e: nat, l: nat) {
    && e < |t.enrolments| && l < |t.leases|
    && t.enrolments[e].lease == Some(l) && t.leases[l].enrolment == Some(e) && t.leases[l].run.None?
    && t.enrolments[e].session == t.leases[l].session
    && t.enrolments[e].leaseGeneration == Some(t.leases[l].generation)
    && t.enrolments[e].expiresAt == t.leases[l].expiresAt
  }

  ghost predicate Bindings(t: State) {
    && (forall e :: 0 <= e < |t.enrolments| && t.enrolments[e].lease.Some? ==> Bound(t, e, t.enrolments[e].lease.value))
    && (forall l :: 0 <= l < |t.leases| && t.leases[l].enrolment.Some? ==> Bound(t, t.leases[l].enrolment.value, l))
    && (forall l :: 0 <= l < |t.leases| ==> (t.leases[l].run.Some? <==> t.leases[l].enrolment.None?))
  }

  /** An attached lease is active only if its enrolment is, and while an active enrolment has time
      left its lease is active. */
  ghost predicate Together(t: State) {
    forall l :: 0 <= l < |t.leases| && t.leases[l].enrolment.Some? && t.leases[l].enrolment.value < |t.enrolments| ==>
      var e := t.enrolments[t.leases[l].enrolment.value];
      && (t.leases[l].status == Active ==> e.status == Active)
      && (e.status == Active && e.expiresAt > t.clock ==> t.leases[l].status == Active)
  }

  ghost predicate Inv(t: State) {
    Numbered(t.leases) && OlderEnded(t.leases) && OneSession(t.enrolments) && Bindings(t) && Together(t)
  }

  // ---------------------------------------------------------------- each mutation keeps the invariant

  predicate LeaseMoves(l: Lease, l': Lease) {
    && l'.collision == l.collision && l'.session == l.session && l'.run == l.run && l'.enrolment == l.enrolment
    && l'.generation == l.generation && (l.enrolment.Some? ==> l'.expiresAt == l.expiresAt)
    && (l'.status == Active ==> l.status == Active) && (l.status != Active ==> l' == l)
  }

  predicate EnrolmentMoves(e: Enrolment, e': Enrolment) {
    && e'.owner == e.owner && e'.session == e.session && e'.lease == e.lease && e'.leaseGeneration == e.leaseGeneration
    && e'.expiresAt == e.expiresAt && e'.body == e.body
    && (e'.status == Active ==> e.status == Active) && (e.status != Active ==> e' == e)
  }

  /** Rows keep their identity, and no ended row comes back. */
  ghost predicate RowsMove(t: State, t': State) {
    && |t'.leases| == |t.leases| && |t'.enrolments| == |t.enrolments|
    && (forall i :: 0 <= i < |t.leases| ==> LeaseMoves(t.leases[i], t'.leases[i]))
    && (forall i :: 0 <= i < |t.enrolments| ==> EnrolmentMoves(t.enrolments[i], t'.enrolments[i]))
  }

  lemma {:induction false} CountReads(s: seq<Lease>, s': seq<Lease>, collision: Id)
    requires |s| == |s'| && forall i :: 0 <= i < |s| ==> s[i].collision == s'[i].collision
    ensures Count(s, collision) == Count(s', collision)
    ensures Newest(s, collision) == Newest(s', collision)
  {
    if s != [] { CountReads(s[..|s| - 1], s'[..|s| - 1], collision); }
  }

  lemma MoveKeepsNumbered(t: State, t': State)
    requires Numbered(t.leases) && RowsMove(t, t')
    ensures Numbered(t'.leases)
  {
    forall i | 0 <= i < |t'.leases|
      ensures t'.leases[i].generation == 1 + Count(t'.leases[..i], t'.leases[i].collision)
    {
      assert forall j :: 0 <= j < i ==> LeaseMoves(t.leases[j], t'.leases[j]);
      CountReads(t.leases[..i], t'.leases[..i], t.leases[i].collision);
      assert LeaseMoves(t.leases[i], t'.leases[i]);
    }
  }

  lemma MoveKeepsBindings(t: State, t': State)
    requires Bindings(t) && RowsMove(t, t')
    ensures Bindings(t')
  {
    hide Bound;
    forall e: nat, l: nat | Bound(t, e, l) ensures Bound(t', e, l) { MoveKeepsBound(t, t', e, l); }
    assert forall e :: 0 <= e < |t.enrolments| ==> EnrolmentMoves(t.enrolments[e], t'.enrolments[e]);
    assert forall l :: 0 <= l < |t.leases| ==> LeaseMoves(t.leases[l], t'.leases[l]);
  }

  lemma MoveKeepsBound(t: State, t': State, e: nat, l: nat)
    requires RowsMove(t, t') && Bound(t, e, l)
    ensures Bound(t', e, l)
  {
    assert EnrolmentMoves(t.enrolments[e], t'.enrolments[e]) && LeaseMoves(t.leases[l], t'.leases[l]);
  }

  lemma MoveKeepsOrder(t: State, t': State)
    requires OlderEnded(t.leases) && OneSession(t.enrolments) && RowsMove(t, t')
    ensures OlderEnded(t'.leases) && OneSession(t'.enrolments)
  {
    assert forall l :: 0 <= l < |t.leases| ==> LeaseMoves(t.leases[l], t'.leases[l]);
    assert forall e :: 0 <= e < |t.enrolments| ==> EnrolmentMoves(t.enrolments[e], t'.enrolments[e]);
  }

  lemma MoveKeepsInv(t: State, t': State)
    requires Inv(t) && RowsMove(t, t') && Together(t')
    ensures Inv(t')
  {
    hide Numbered, OlderEnded, OneSession, Bindings, Together, RowsMove;
    MoveKeepsNumbered(t, t');
    MoveKeepsBindings(t, t');
    MoveKeepsOrder(t, t');
  }

  lemma LaterKeepsInv(t: State, now: Time)
    requires Inv(t) && t.clock <= now
    ensures Inv(t.(clock := now))
  {
    MoveKeepsInv(t, t.(clock := now));
  }

  lemma StoringKeepsInv(t: State, key: CommandKey, stored: Stored)
    requires Inv(t)
    ensures Inv(t.(commands := t.commands[key := stored]))
  {
    MoveKeepsInv(t, t.(commands := t.commands[key := stored]));
  }

  /** One lease changes: an attached one only ends, and only once its time has come. */
  lemma LeaseUpdateKeepsInv(t: State, i: nat, l: Lease)
    requires Inv(t) && i < |t.leases| && LeaseMoves(t.leases[i], l)
    requires l.enrolment.Some? && l.status != t.leases[i].status ==> l.expiresAt <= t.clock
    ensures Inv(t.(leases := t.leases[i := l]))
  {
    var t' := t.(leases := t.leases[i := l]);
    if l.enrolment.Some? { assert Bound(t, l.enrolment.value, i); }
    MoveKeepsInv(t, t');
  }

  lemma EnrolmentUpdateKeepsInv(t: State, i: nat, e: Enrolment)
    requires Inv(t) && i < |t.enrolments| && EnrolmentMoves(t.enrolments[i], e) && e.status == t.enrolments[i].status
    ensures Inv(t.(enrolments := t.enrolments[i := e]))
  {
    MoveKeepsInv(t, t.(enrolments := t.enrolments[i := e]));
  }

  lemma LeaseSettledKeepsInv(t: State, i: int, now: Time)
    requires Inv(t) && now <= t.clock
    ensures Inv(LeaseSettled(t, i, now))
  {
    if 0 <= i < |t.leases| && LeaseDue(t.leases[i], now) {
      LeaseUpdateKeepsInv(t, i, EndedLease(t.leases[i], Expired, t.leases[i].expiresAt));
    }
  }

  lemma EndedMoves(t: State, i: nat, released: bool, now: Time)
    requires i < |t.enrolments| && t.enrolments[i].status == Active
    ensures RowsMove(t, EnrolmentEnded(t, i, released, now))
  {
  }

  /** Ending an enrolment ends its lease with it. */
  lemma EnrolmentEndedKeepsInv(t: State, i: nat, released: bool, now: Time)
    requires Inv(t) && i < |t.enrolments| && t.enrolments[i].status == Active
    ensures Inv(EnrolmentEnded(t, i, released, now))
  {
    var t' := EnrolmentEnded(t, i, released, now);
    EndedMoves(t, i, released, now);
    assert Together(t') by {
      hide Numbered, OlderEnded, OneSession, RowsMove;
      if t.enrolments[i].lease.Some? { assert Bound(t, i, t.enrolments[i].lease.value); }
      forall l | 0 <= l < |t'.leases| && t'.leases[l].enrolment == Some(i) ensures t'.leases[l].status != Active {
        assert Bound(t, i, l);
      }
    }
    MoveKeepsInv(t, t');
  }

  lemma EnrolmentSettledKeepsInv(t: State, i: int, now: Time)
    requires Inv(t)
    ensures Inv(EnrolmentSettled(t, i, now))
  {
    if 0 <= i < |t.enrolments| && EnrolmentDue(t.enrolments[i], now) { EnrolmentEndedKeepsInv(t, i, false, now); }
  }

  lemma AppendNumbered(s: seq<Lease>, l: Lease)
    requires Numbered(s) && l.generation == 1 + Count(s, l.collision)
    ensures Numbered(s + [l])
  {
    var s' := s + [l];
    forall i | 0 <= i < |s'| ensures s'[i].generation == 1 + Count(s'[..i], s'[i].collision) {
      if i < |s| { assert s'[..i] == s[..i]; } else { assert s'[..i] == s; }
    }
  }

  lemma AppendEnded(s: seq<Lease>, l: Lease)
    requires OlderEnded(s) && (Newest(s, l.collision) >= 0 ==> s[Newest(s, l.collision)].status != Active)
    ensures OlderEnded(s + [l])
  {
    forall i | 0 <= i < |s| && s[i].collision == l.collision ensures s[i].status != Active {
      assert i <= Newest(s, l.collision);
    }
  }

  lemma AppendSession(s: seq<Enrolment>, e: Enrolment)
    requires OneSession(s)
    requires var n := NewestEnrolment(s, e.owner, e.session); n >= 0 ==> s[n].status != Active
    ensures OneSession(s + [e])
  {
    hide NewestEnrolment;
    var n := NewestEnrolment(s, e.owner, e.session);
    forall i | 0 <= i < |s| && s[i].owner == e.owner && s[i].session == e.session ensures s[i].status != Active {
      assert OfSession(s[i], e.owner, e.session);
    }
  }

  lemma AppendLeaseKeepsInv(t: State, l: Lease)
    requires Inv(t) && l.run.Some? && l.enrolment.None? && l.generation == 1 + Count(t.leases, l.collision)
    requires Newest(t.leases, l.collision) >= 0 ==> t.leases[Newest(t.leases, l.collision)].status != Active
    ensures Inv(t.(leases := t.leases + [l]))
  {
    hide Newest, Count, Numbered, OlderEnded;
    AppendNumbered(t.leases, l);
    AppendEnded(t.leases, l);
    var t' := t.(leases := t.leases + [l]);
    assert forall e: nat, i: nat :: Bound(t, e, i) ==> Bound(t', e, i);
  }

  lemma AppendEnrolmentKeepsInv(t: State, e: Enrolment)
    requires Inv(t) && e.lease.None?
    requires var n := NewestEnrolment(t.enrolments, e.owner, e.session); n >= 0 ==> t.enrolments[n].status != Active
    ensures Inv(t.(enrolments := t.enrolments + [e]))
  {
    hide Numbered, OlderEnded, OneSession, NewestEnrolment;
    AppendSession(t.enrolments, e);
    var t' := t.(enrolments := t.enrolments + [e]);
    assert forall e: nat, i: nat :: Bound(t, e, i) ==> Bound(t', e, i);
  }

  lemma AppendBothKeepsInv(t: State, e: Enrolment, l: Lease)
    requires Inv(t)
    requires var n := NewestEnrolment(t.enrolments, e.owner, e.session); n >= 0 ==> t.enrolments[n].status != Active
    requires l.generation == 1 + Count(t.leases, l.collision)
    requires Newest(t.leases, l.collision) >= 0 ==> t.leases[Newest(t.leases, l.collision)].status != Active
    requires l.run.None? && l.enrolment == Some(|t.enrolments|) && e.lease == Some(|t.leases|)
    requires e.leaseGeneration == Some(l.generation) && e.session == l.session && e.expiresAt == l.expiresAt
    requires e.status == Active && l.status == Active
    ensures Inv(t.(leases := t.leases + [l], enrolments := t.enrolments + [e]))
  {
    hide Newest, Count, Numbered, OlderEnded, OneSession, NewestEnrolment;
    AppendNumbered(t.leases, l);
    AppendEnded(t.leases, l);
    AppendSession(t.enrolments, e);
    var t' := t.(leases := t.leases + [l], enrolments := t.enrolments + [e]);
    assert forall e: nat, i: nat :: Bound(t, e, i) ==> Bound(t', e, i);
    assert Bound(t', |t.enrolments|, |t.leases|);
  }

  lemma SettlingMoves(t: State, i: int, now: Time)
    ensures RowsMove(t, LeaseSettled(t, i, now))
    ensures forall c :: Newest(LeaseSettled(t, i, now).leases, c) == Newest(t.leases, c)
    ensures forall c :: Count(LeaseSettled(t, i, now).leases, c) == Count(t.leases, c)
  {
    hide Newest, Count;
    var t' := LeaseSettled(t, i, now);
    forall c ensures Newest(t'.leases, c) == Newest(t.leases, c) && Count(t'.leases, c) == Count(t.leases, c) {
      CountReads(t.leases, t'.leases, c);
    }
  }

  lemma EndingMoves(t: State, i: int, now: Time)
    requires 0 <= i < |t.enrolments| ==> t.enrolments[i].lease.Some? ==> t.enrolments[i].lease.value < |t.leases|
    ensures RowsMove(t, EnrolmentSettled(t, i, now))
    ensures forall c :: Newest(EnrolmentSettled(t, i, now).leases, c) == Newest(t.leases, c)
    ensures forall c :: Count(EnrolmentSettled(t, i, now).leases, c) == Count(t.leases, c)
    ensures forall o, s :: NewestEnrolment(EnrolmentSettled(t, i, now).enrolments, o, s) ==
              NewestEnrolment(t.enrolments, o, s)
  {
    hide Newest, Count, NewestEnrolment;
    var t' := EnrolmentSettled(t, i, now);
    assert RowsMove(t, t');
    forall c ensures Newest(t'.leases, c) == Newest(t.leases, c) && Count(t'.leases, c) == Count(t.leases, c) {
      assert forall l :: 0 <= l < |t.leases| ==> LeaseMoves(t.leases[l], t'.leases[l]);
      CountReads(t.leases, t'.leases, c);
    }
    assert forall e :: 0 <= e < |t.enrolments| ==> EnrolmentMoves(t.enrolments[e], t'.enrolments[e]);
    forall o, s ensures NewestEnrolment(t'.enrolments, o, s) == NewestEnrolment(t.enrolments, o, s) {
      NewestEnrolmentReads(t.enrolments, t'.enrolments, o, s);
    }
  }

  lemma NewestEnrolmentReads(s: seq<Enrolment>, s': seq<Enrolment>, owner: Owner, session: Id)
    requires |s| == |s'| && forall i :: 0 <= i < |s| ==> s[i].owner == s'[i].owner && s[i].session == s'[i].session
    ensures NewestEnrolment(s, owner, session) == NewestEnrolment(s', owner, session)
  {
  }

  lemma LeaseRefersToRow(t: State, e: int)
    requires Inv(t)
    ensures 0 <= e < |t.enrolments| && t.enrolments[e].lease.Some? ==> t.enrolments[e].lease.value < |t.leases|
  {
    hide Numbered, OlderEnded, OneSession, Together;
  }

  lemma ReserveKeepsInv(t: State, q: Request, now: Time)
    requires q.ReserveLease? && Inv(t) && now == t.clock
    ensures Inv(Reserve(t, q, now).0)
  {
    hide Inv, Newest, Count, LeaseSettled, RowsMove;
    var n := Newest(t.leases, q.collision);
    SettlingMoves(t, n, now);
    LeaseSettledKeepsInv(t, n, now);
    LeaseSettledLength(t, n, now);
    var (t', result) := Reserve(t, q, now);
    if result.LeaseAccepted? { AppendLeaseKeepsInv(LeaseSettled(t, n, now), result.lease); }
  }

  lemma LeaseSettledLength(t: State, i: int, now: Time)
    ensures var t' := LeaseSettled(t, i, now);
            |t'.leases| == |t.leases| && t'.enrolments == t.enrolments && t'.commands == t.commands
              && t'.clock == t.clock
    ensures 0 <= i < |t.leases| ==>
              (LeaseSettled(t, i, now).leases[i].status == Active <==>
                t.leases[i].status == Active && t.leases[i].expiresAt > now)
  {
  }

  lemma RenewKeepsInv(t: State, q: Request, now: Time)
    requires q.RenewLease? && Inv(t) && now == t.clock
    ensures Inv(Renew(t, q, now).0)
  {
    hide Inv, LeaseSettled;
    LeaseSettledKeepsInv(t, q.lease, now);
    var t1 := LeaseSettled(t, q.lease, now);
    var (t', result) := Renew(t, q, now);
    if result.LeaseAccepted? {
      RunLeaseIsUnattached(t1, q.lease);
      LeaseUpdateKeepsInv(t1, q.lease, result.lease);
    }
  }

  lemma RunLeaseIsUnattached(t: State, l: nat)
    requires Inv(t) && l < |t.leases|
    ensures t.leases[l].run.Some? <==> t.leases[l].enrolment.None?
  {
    hide Numbered, OlderEnded, OneSession, Together;
  }

  lemma ReleaseKeepsInv(t: State, q: Request, now: Time)
    requires q.ReleaseLease? && Inv(t) && now == t.clock
    ensures Inv(Release(t, q, now).0)
  {
    hide Inv, LeaseSettled;
    LeaseSettledKeepsInv(t, q.lease, now);
    var t1 := LeaseSettled(t, q.lease, now);
    var (t', result) := Release(t, q, now);
    if result.LeaseAccepted? {
      RunLeaseIsUnattached(t1, q.lease);
      LeaseUpdateKeepsInv(t1, q.lease, result.lease);
    }
  }

  lemma EnrolmentSettledLength(t: State, i: int, now: Time)
    ensures var t' := EnrolmentSettled(t, i, now);
            |t'.leases| == |t.leases| && |t'.enrolments| == |t.enrolments| && t'.commands == t.commands
              && t'.clock == t.clock
  {
  }

  lemma EnrolKeepsInv(t: State, owner: Owner, q: Request, projectsKnown: bool, now: Time)
    requires q.Enrol? && Inv(t) && now == t.clock
    ensures Inv(EnrolWorker(t, owner, q, projectsKnown, now).0)
  {
    hide Inv, Newest, Count, NewestEnrolment, LeaseSettled, EnrolmentSettled, RowsMove;
    var s := NewestEnrolment(t.enrolments, owner, q.session);
    LeaseRefersToRow(t, s);
    EndingMoves(t, s, now);
    EnrolmentSettledKeepsInv(t, s, now);
    EnrolmentSettledLength(t, s, now);
    var t1 := EnrolmentSettled(t, s, now);
    var (t', result) := EnrolWorker(t, owner, q, projectsKnown, now);
    if q.wish.Callsign? {
      var n := Newest(t1.leases, q.wish.collision);
      SettlingMoves(t1, n, now);
      LeaseSettledKeepsInv(t1, n, now);
      LeaseSettledLength(t1, n, now);
      var t2 := LeaseSettled(t1, n, now);
      if result.WorkerAccepted? {
        AppendBothKeepsInv(t2, result.worker, t'.leases[|t2.leases|]);
      }
    } else if result.WorkerAccepted? {
      AppendEnrolmentKeepsInv(t1, result.worker);
    }
  }

  lemma HeartbeatKeepsInv(t: State, owner: Owner, worker: Id, now: Time)
    requires Inv(t) && now == t.clock
    ensures Inv(Heartbeat(t, owner, worker, now).0)
  {
    hide Inv, EnrolmentSettled;
    EnrolmentSettledKeepsInv(t, worker, now);
    EnrolmentSettledLength(t, worker, now);
    var result := Heartbeat(t, owner, worker, now).1;
    if result.WorkerAccepted? { EnrolmentUpdateKeepsInv(EnrolmentSettled(t, worker, now), worker, result.worker); }
  }

  lemma LeaveKeepsInv(t: State, owner: Owner, worker: Id, now: Time)
    requires Inv(t) && now == t.clock
    ensures Inv(Leave(t, owner, worker, now).0)
  {
    hide Inv, EnrolmentSettled, EnrolmentEnded;
    EnrolmentSettledKeepsInv(t, worker, now);
    EnrolmentSettledLength(t, worker, now);
    var t1 := EnrolmentSettled(t, worker, now);
    if Owns(t, owner, worker) && t1.enrolments[worker].status == Active {
      EnrolmentEndedKeepsInv(t1, worker, true, now);
    }
  }

  lemma CommandKeepsInv(t: State, key: CommandKey, q: Request, projectsKnown: bool, now: Time)
    requires Inv(t) && t.clock <= now
    ensures Inv(Command(t, key, q, projectsKnown, now).0)
  {
    hide Inv, Reserve, Renew, Release, EnrolWorker, Heartbeat, Leave;
    LaterKeepsInv(t, now);
    var t0 := t.(clock := now);
    if FitsKey(key, q) && key !in t.commands {
      match q {
        case ReserveLease(_, _, _, _, _, _) => ReserveKeepsInv(t0, q, now);
        case RenewLease(_, _, _, _, _) => RenewKeepsInv(t0, q, now);
        case ReleaseLease(_, _, _, _) => ReleaseKeepsInv(t0, q, now);
        case Enrol(_, _, _, _) => EnrolKeepsInv(t0, key.owner, q, projectsKnown, now);
        case HeartbeatWorker(worker) => HeartbeatKeepsInv(t0, key.owner, worker, now);
        case ReleaseWorker(worker) => LeaveKeepsInv(t0, key.owner, worker, now);
      }
      var (t1, result) := Execute(t0, key, q, projectsKnown, now);
      StoringKeepsInv(t1, key, Stored(q, result));
    }
  }

  lemma StepKeepsInv(t: State, e: Event)
    requires Inv(t) && Admissible(t, e)
    ensures Inv(Step(t, e))
  {
    hide Inv, Command, LeaseSettled, EnrolmentSettled, Newest;
    LaterKeepsInv(t, e.at);
    var t0 := t.(clock := e.at);
    match e
    case OnCommand(key, q, projectsKnown, at) => CommandKeepsInv(t, key, q, projectsKnown, at);
    case OnLeaseTimer(lease, _, at) => LeaseSettledKeepsInv(t0, lease, at);
    case OnEnrolmentTimer(worker, at) => EnrolmentSettledKeepsInv(t0, worker, at);
    case OnGetLease(lease, at) => LeaseSettledKeepsInv(t0, lease, at);
    case OnGetCurrent(collision, at) => LeaseSettledKeepsInv(t0, Newest(t.leases, collision), at);
    case OnGetWorker(owner, worker, at) => EnrolmentSettledKeepsInv(t0, worker, at);
  }

  predicate AdmissibleRun(t: State, es: seq<Event>)
    decreases |es|
  {
    es == [] || (Admissible(t, es[0]) && AdmissibleRun(Step(t, es[0]), es[1..]))
  }

  function Run(t: State, es: seq<Event>): State
    decreases |es|
  {
    if es == [] then t else Run(Step(t, es[0]), es[1..])
  }

  /** In every reachable state the two modules agree on the lease table. */
  lemma {:induction false} RunKeepsInv(t: State, es: seq<Event>)
    requires Inv(t) && AdmissibleRun(t, es)
    ensures Inv(Run(t, es))
    decreases |es|
  {
    hide Inv, Step, Admissible;
    if es != [] {
      StepKeepsInv(t, es[0]);
      RunKeepsInv(Step(t, es[0]), es[1..]);
    }
  }

  // ---------------------------------------------------------------- what the invariant says to a reader

  ghost predicate HasGeneration(s: seq<Lease>, collision: Id, g: int) {
    exists i :: 0 <= i < |s| && s[i].collision == collision && s[i].generation == g
  }

  lemma HasGenerationInPrefix(s: seq<Lease>, collision: Id, g: int)
    requires s != []
    ensures HasGeneration(s, collision, g) <==>
              HasGeneration(s[..|s| - 1], collision, g)
                || (s[|s| - 1].collision == collision && s[|s| - 1].generation == g)
  {
    var n := |s| - 1;
    assert forall i :: 0 <= i < n ==> s[..n][i] == s[i];
    if HasGeneration(s, collision, g) {
      var i :| 0 <= i < |s| && s[i].collision == collision && s[i].generation == g;
      if i < n { assert s[..n][i].collision == collision; }
    }
  }

  lemma NumberedPrefix(s: seq<Lease>)
    requires Numbered(s) && s != []
    ensures Numbered(s[..|s| - 1]) && s[|s| - 1].generation == 1 + Count(s[..|s| - 1], s[|s| - 1].collision)
  {
    var n := |s| - 1;
    forall i | 0 <= i < n ensures s[..n][i].generation == 1 + Count(s[..n][..i], s[..n][i].collision) {
      assert s[..n][..i] == s[..i];
    }
  }

  /** The generations of a collision key are exactly 1 to n, the newest lease has the last of them,
      and the highest-generation read finds n. */
  lemma {:induction false} GenerationsAreGapFree(s: seq<Lease>, collision: Id)
    requires Numbered(s)
    ensures forall g :: HasGeneration(s, collision, g) <==> 1 <= g <= Count(s, collision)
    ensures Newest(s, collision) >= 0 <==> Count(s, collision) > 0
    ensures Newest(s, collision) >= 0 ==> s[Newest(s, collision)].generation == Count(s, collision)
    ensures HighestGeneration(s, collision) == Count(s, collision)
  {
    if s != [] {
      hide Numbered, HasGeneration;
      NumberedPrefix(s);
      GenerationsAreGapFree(s[..|s| - 1], collision);
      forall g ensures HasGeneration(s, collision, g) <==> 1 <= g <= Count(s, collision) {
        HasGenerationInPrefix(s, collision, g);
      }
    } else {
      assert forall g :: !HasGeneration(s, collision, g);
    }
  }

  /** The probe for an active lease finds the newest one or nothing, and never two. */
  lemma ActiveLeaseIsNewest(t: State, collision: Id)
    requires Inv(t)
    ensures var n := Newest(t.leases, collision);
            ActiveLeases(t.leases, collision) == if n >= 0 && t.leases[n].status == Active then [n] else []
  {
    hide Numbered, OneSession, Bindings, Together, ActiveLeases, Newest;
    var rows, n := ActiveLeases(t.leases, collision), Newest(t.leases, collision);
    forall a | 0 <= a < |rows| ensures rows[a] == n {
      assert rows[a] <= n;
    }
    assert rows != [] ==> rows[0] == rows[|rows| - 1];
    if rows == [] {
      assert n >= 0 ==> n !in rows;
    } else {
      assert t.leases[rows[0]].status == Active && rows == [rows[0]];
    }
  }

  lemma ActiveEnrolmentIsNewest(t: State, owner: Owner, session: Id)
    requires Inv(t)
    ensures var n := NewestEnrolment(t.enrolments, owner, session);
            ActiveEnrolments(t.enrolments, owner, session) ==
              if n >= 0 && t.enrolments[n].status == Active then [n] else []
  {
    hide Numbered, OlderEnded, Bindings, Together, ActiveEnrolments, NewestEnrolment;
    var rows, n := ActiveEnrolments(t.enrolments, owner, session), NewestEnrolment(t.enrolments, owner, session);
    forall a | 0 <= a < |rows| ensures rows[a] == n {
      assert rows[a] <= n;
    }
    assert rows != [] ==> rows[0] == rows[|rows| - 1];
    if rows == [] {
      assert n >= 0 ==> n !in rows;
    } else {
      assert t.enrolments[rows[0]].status == Active && rows == [rows[0]];
    }
  }

  /** A lease attached to an enrolment can be neither renewed nor released through the lease API. */
  lemma AttachedLeaseIsOutOfReach(t: State, l: nat, session: Id, run: Id, generation: int)
    requires Inv(t) && l < |t.leases| && t.leases[l].enrolment.Some?
    ensures HeldReason(t.leases, l, session, run, generation) in {Some(LeaseNotActive), Some(HolderMismatch)}
  {
    RunLeaseIsUnattached(t, l);
  }

  /** While an active enrolment has time left it holds its callsign: the lease is active, carries the
      enrolment's session and expiry, and is the only active one of its key. */
  lemma EnrolmentHoldsCallsign(t: State, e: nat)
    requires Inv(t) && e < |t.enrolments| && t.enrolments[e].lease.Some?
    requires t.enrolments[e].status == Active && t.enrolments[e].expiresAt > t.clock
    ensures var l := t.enrolments[e].lease.value;
            && l < |t.leases| && t.leases[l].status == Active && t.leases[l].expiresAt == t.enrolments[e].expiresAt
            && t.enrolments[e].leaseGeneration == Some(t.leases[l].generation)
            && ActiveLeases(t.leases, t.leases[l].collision) == [l]
  {
    hide ActiveLeases;
    var l := t.enrolments[e].lease.value;
    assert Bound(t, e, l);
    ActiveLeaseIsNewest(t, t.leases[l].collision);
    assert Newest(t.leases, t.leases[l].collision) == l;
  }

  // ---------------------------------------------------------------- whole runs

  ghost predicate Forward(t: State, t': State) {
    && |t.leases| <= |t'.leases| && |t.enrolments| <= |t'.enrolments|
    && (forall i :: 0 <= i < |t.leases| ==> LeaseMoves(t.leases[i], t'.leases[i]))
    && (forall i :: 0 <= i < |t.enrolments| ==> EnrolmentMoves(t.enrolments[i], t'.enrolments[i]))
    && (forall key :: key in t.commands ==> key in t'.commands && t'.commands[key] == t.commands[key])
  }

  lemma ForwardIsTransitive(a: State, b: State, c: State)
    requires Forward(a, b) && Forward(b, c)
    ensures Forward(a, c)
  {
    assert forall i :: 0 <= i < |a.leases| ==>
             LeaseMoves(a.leases[i], b.leases[i]) && LeaseMoves(b.leases[i], c.leases[i]);
    assert forall i :: 0 <= i < |a.enrolments| ==>
             EnrolmentMoves(a.enrolments[i], b.enrolments[i]) && EnrolmentMoves(b.enrolments[i], c.enrolments[i]);
  }

  lemma MoveThenMove(a: State, b: State, c: State)
    requires RowsMove(a, b) && RowsMove(b, c)
    ensures RowsMove(a, c)
  {
    assert forall i :: 0 <= i < |a.leases| ==>
             LeaseMoves(a.leases[i], b.leases[i]) && LeaseMoves(b.leases[i], c.leases[i]);
    assert forall i :: 0 <= i < |a.enrolments| ==>
             EnrolmentMoves(a.enrolments[i], b.enrolments[i]) && EnrolmentMoves(b.enrolments[i], c.enrolments[i]);
  }

  lemma MoveThenAppend(t: State, t1: State, t': State)
    requires RowsMove(t, t1) && t1.leases <= t'.leases && t1.enrolments <= t'.enrolments
    requires forall key :: key in t.commands ==> key in t'.commands && t'.commands[key] == t.commands[key]
    ensures Forward(t, t')
  {
    assert forall i :: 0 <= i < |t.leases| ==> LeaseMoves(t.leases[i], t1.leases[i]) && t'.leases[i] == t1.leases[i];
    assert forall i :: 0 <= i < |t.enrolments| ==>
             EnrolmentMoves(t.enrolments[i], t1.enrolments[i]) && t'.enrolments[i] == t1.enrolments[i];
  }

  lemma EnrolForward(t: State, owner: Owner, q: Request, projectsKnown: bool, now: Time)
    requires q.Enrol? && Inv(t)
    ensures Forward(t, EnrolWorker(t, owner, q, projectsKnown, now).0)
  {
    hide Inv, Newest, Count, NewestEnrolment, RowsMove, Forward, LeaseSettled, EnrolmentSettled;
    var s := NewestEnrolment(t.enrolments, owner, q.session);
    var t1 := EnrolmentSettled(t, s, now);
    var t' := EnrolWorker(t, owner, q, projectsKnown, now).0;
    LeaseRefersToRow(t, s);
    EndingMoves(t, s, now);
    EnrolmentSettledLength(t, s, now);
    ForwardItself(t);
    if q.wish.Callsign? {
      var n := Newest(t1.leases, q.wish.collision);
      SettlingMoves(t1, n, now);
      LeaseSettledLength(t1, n, now);
      MoveThenMove(t, t1, LeaseSettled(t1, n, now));
      if t'.leases == t1.leases && t'.enrolments == t1.enrolments { MoveThenAppend(t, t1, t'); }
      else if t' != t { MoveThenAppend(t, LeaseSettled(t1, n, now), t'); }
    } else if t' != t {
      MoveThenAppend(t, t1, t');
    }
  }

  lemma LeaseCommandForward(t: State, q: Request, now: Time)
    requires Inv(t) && (q.ReserveLease? || q.RenewLease? || q.ReleaseLease?)
    ensures Forward(t, if q.ReserveLease? then Reserve(t, q, now).0
              else if q.RenewLease? then Renew(t, q, now).0 else Release(t, q, now).0)
  {
    hide Inv, Newest, Count;
    if q.RenewLease? && q.lease < |t.leases| { RunLeaseIsUnattached(t, q.lease); }
  }

  lemma WorkerCommandForward(t: State, owner: Owner, worker: Id, now: Time)
    requires Inv(t)
    ensures Forward(t, Heartbeat(t, owner, worker, now).0) && Forward(t, Leave(t, owner, worker, now).0)
  {
    hide Inv;
    LeaseRefersToRow(t, worker);
  }

  lemma CommandForward(t: State, key: CommandKey, q: Request, projectsKnown: bool, now: Time)
    requires Inv(t) && t.clock <= now
    ensures Forward(t, Command(t, key, q, projectsKnown, now).0)
  {
    hide Inv, Reserve, Renew, Release, EnrolWorker, Heartbeat, Leave;
    var t0 := t.(clock := now);
    LaterKeepsInv(t, now);
    if FitsKey(key, q) && key !in t.commands {
      match q {
        case ReserveLease(_, _, _, _, _, _) => LeaseCommandForward(t0, q, now);
        case RenewLease(_, _, _, _, _) => LeaseCommandForward(t0, q, now);
        case ReleaseLease(_, _, _, _) => LeaseCommandForward(t0, q, now);
        case Enrol(_, _, _, _) => EnrolForward(t0, key.owner, q, projectsKnown, now);
        case HeartbeatWorker(worker) => WorkerCommandForward(t0, key.owner, worker, now);
        case ReleaseWorker(worker) => WorkerCommandForward(t0, key.owner, worker, now);
      }
    }
  }

  lemma StepForward(t: State, e: Event)
    requires Inv(t) && Admissible(t, e)
    ensures Forward(t, Step(t, e))
  {
    hide Inv, Command, Newest;
    if e.OnCommand? { CommandForward(t, e.key, e.request, e.projectsKnown, e.at); }
  }

  /** Over any run, leases and enrolments keep their identity and generation, ended ones never
      change again, and stored results stay. */
  lemma {:induction false} RowsMoveForward(t: State, es: seq<Event>)
    requires Inv(t) && AdmissibleRun(t, es)
    ensures Forward(t, Run(t, es))
    decreases |es|
  {
    hide Inv, Step, Admissible, Forward;
    if es == [] {
      ForwardItself(t);
    } else {
      StepKeepsInv(t, es[0]);
      StepForward(t, es[0]);
      RowsMoveForward(Step(t, es[0]), es[1..]);
      ForwardIsTransitive(t, Step(t, es[0]), Run(t, es));
    }
  }

  lemma ForwardItself(t: State)
    ensures Forward(t, t)
  {
  }

  /** A command takes effect once: whatever happens in between, repeating it changes no row and
      returns the first result, and its key serves no other request. */
  lemma CommandTakesEffectOnce(t: State, key: CommandKey, q: Request, known: bool, now: Time, es: seq<Event>,
          q': Request, known': bool, later: Time)
    requires Inv(t) && t.clock <= now && FitsKey(key, q) && FitsKey(key, q') && Command(t, key, q, known, now).1.Some?
    requires AdmissibleRun(Command(t, key, q, known, now).0, es)
    ensures var t' := Run(Command(t, key, q, known, now).0, es);
            Command(t', key, q', known', later) ==
              (t'.(clock := later), if q' == q then Command(t, key, q, known, now).1 else None)
  {
    hide Inv, Execute;
    CommandKeepsInv(t, key, q, known, now);
    RowsMoveForward(Command(t, key, q, known, now).0, es);
  }
}
