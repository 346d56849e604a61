/** What the commands on callsign leases and worker enrolments answer and leave, said of the columns of
    leases and enrolments alone. */
module CallsignOutcomes {
  import opened Base
  import opened CallsignModel

  // ---------------------------------------------------------------- rows

  predicate LeaseLives(l: Lease, now: Time) { l.status == Active && now < l.expiresAt }

  predicate WorkerLives(e: Enrolment, now: Time) { e.status == Active && now < e.expiresAt }

  /** A lease, and an enrolment, once it was noticed that its time is over. */
  function NoticedLease(l: Lease, now: Time): Lease {
    if l.status == Active && l.expiresAt <= now then l.(status := Expired, endedAt := Some(l.expiresAt)) else l
  }

  function NoticedWorker(e: Enrolment, now: Time): Enrolment {
    if e.status == Active && e.expiresAt <= now then e.(status := Expired, endedAt := Some(e.expiresAt)) else e
  }

  ghost predicate Held(s: seq<Lease>, collision: Id, now: Time) {
    exists i :: 0 <= i < |s| && s[i].collision == collision && LeaseLives(s[i], now)
  }

  function LeasesOf(s: seq<Lease>, collision: Id): set<int> { set i | 0 <= i < |s| && s[i].collision == collision }

  lemma LeasesGrow(s: seq<Lease>, collision: Id)
    requires s != []
    ensures var n := |s| - 1;
            && n !in LeasesOf(s[..n], collision)
            && LeasesOf(s, collision) == LeasesOf(s[..n], collision) + if s[n].collision == collision then {n} else {}
  {
  }

  lemma {:induction false} CountIsLeases(s: seq<Lease>, collision: Id)
    ensures Count(s, collision) == |LeasesOf(s, collision)|
  {
    hide LeasesOf;
    if s == [] {
      NoLeases(collision);
    } else {
      CountIsLeases(s[..|s| - 1], collision);
      LeasesGrow(s, collision);
    }
  }

  lemma NoLeases(collision: Id)
    ensures LeasesOf([], collision) == {}
  {
  }

  lemma NewestHolds(t: State, collision: Id, now: Time)
    requires Inv(t)
    ensures var n := Newest(t.leases, collision);
            && (Held(t.leases, collision, now) <==> n >= 0 && LeaseLives(t.leases[n], now))
            && (forall i :: 0 <= i < |t.leases| && t.leases[i].collision == collision
                            && t.leases[i].status == Active ==>
                  i == n)
  {
    hide Newest, Numbered, OneSession, Bindings, Together;
    var n := Newest(t.leases, collision);
    forall i | 0 <= i < |t.leases| && t.leases[i].collision == collision && t.leases[i].status == Active
      ensures i == n
    {
      assert i <= n;
    }
  }

  // ---------------------------------------------------------------- leases

  /** A callsign is reserved exactly without inheritance, for at most a week, while nobody holds it, and at
      the generation the caller knows, if any; the reason of a refusal is the first of these that fails. */
  lemma ReserveExactly(t: State, q: Request, now: Time)
    requires q.ReserveLease? && Inv(t)
    ensures var answer, generation := Reserve(t, q, now).1, |LeasesOf(t.leases, q.collision)|;
            if q.inheritance then Rejects(answer, InheritanceNotSupported)
            else if q.expiresAt <= now then Rejects(answer, ExpiredRequest)
            else if q.expiresAt > now + 604800000 then Rejects(answer, ExpiryTooFar)
            else if Held(t.leases, q.collision, now) then Rejects(answer, ActiveCollision)
            else if q.knownGeneration.Some? && q.knownGeneration.value != generation then
              Rejects(answer, StaleGeneration)
            else
              answer == LeaseAccepted(|t.leases|,
                                      Lease(q.collision, q.session, Some(q.run), None, generation + 1, Active,
                                            now, q.expiresAt, now, None))
  {
    hide Inv, Newest, Count, LeasesOf, Held;
    NewestHolds(t, q.collision, now);
    CountIsLeases(t.leases, q.collision);
  }

  predicate Rejects(r: Result, reason: Reason) {
    (r.LeaseRejected? || r.WorkerRejected?) && r.reason == reason
  }

  /** Reserving first notices the lease of that callsign whose time is over, then appends the one granted. */
  lemma ReserveEffect(t: State, q: Request, now: Time)
    requires q.ReserveLease? && Inv(t)
    ensures var (t', answer) := Reserve(t, q, now);
            && |t'.leases| == |t.leases| + (if answer.LeaseAccepted? then 1 else 0)
            && (forall i :: 0 <= i < |t.leases| ==>
                  t'.leases[i] == if t.leases[i].collision == q.collision then NoticedLease(t.leases[i], now)
                                  else t.leases[i])
            && (answer.LeaseAccepted? ==> t'.leases[|t.leases|] == answer.lease)
            && t' == t.(leases := t'.leases)
  {
    hide Inv, Newest, Count;
    NewestHolds(t, q.collision, now);
  }

  /** A refused reservation reports the lease in its way, if there is one, and the last generation. */
  lemma RefusedReservationReports(t: State, q: Request, now: Time)
    requires q.ReserveLease? && Inv(t) && Reserve(t, q, now).1.LeaseRejected?
    ensures var answer := Reserve(t, q, now).1;
            && answer.generation == Some(|LeasesOf(t.leases, q.collision)|)
            && (answer.current.Some? <==> Held(t.leases, q.collision, now))
            && (answer.current.Some? ==>
                  exists i :: 0 <= i < |t.leases| && t.leases[i].collision == q.collision
                              && LeaseLives(t.leases[i], now) && answer.current.value == t.leases[i])
  {
    hide Inv, Newest, Count, LeasesOf, Held;
    NewestHolds(t, q.collision, now);
    CountIsLeases(t.leases, q.collision);
  }

  /** The refusal of a command on lease l, reporting the lease as it is left. */
  function Refusal(reason: Reason, l: Lease, now: Time): Result {
    LeaseRejected(reason, Some(NoticedLease(l, now)), Some(l.generation))
  }

  /** A lease is renewed exactly by the run and session that hold it, at its generation, while it lives, to a
      later time at most a week away. */
  lemma RenewExactly(t: State, q: Request, now: Time)
    requires q.RenewLease? && q.lease < |t.leases|
    ensures var l, (t', answer) := t.leases[q.lease], Renew(t, q, now);
            && (if !LeaseLives(l, now) then answer == Refusal(LeaseNotActive, l, now)
                else if l.session != q.session || l.run != Some(q.run) then answer == Refusal(HolderMismatch, l, now)
                else if l.generation != q.expectedGeneration then answer == Refusal(StaleGeneration, l, now)
                else if q.expiresAt <= now then answer == Refusal(ExpiredRequest, l, now)
                else if q.expiresAt > now + 604800000 then answer == Refusal(ExpiryTooFar, l, now)
                else if q.expiresAt <= l.expiresAt then answer == Refusal(ExpiryNotExtended, l, now)
                else answer == LeaseAccepted(q.lease, l.(expiresAt := q.expiresAt, heartbeatAt := now)))
            && t' == t.(leases := t.leases[q.lease := if answer.LeaseAccepted? then answer.lease
                                                      else NoticedLease(l, now)])
  {
  }

  /** A lease is released exactly by the run and session that hold it, at its generation, while it lives. */
  lemma ReleaseExactly(t: State, q: Request, now: Time)
    requires q.ReleaseLease? && q.lease < |t.leases|
    ensures var l, (t', answer) := t.leases[q.lease], Release(t, q, now);
            && (if !LeaseLives(l, now) then answer == Refusal(LeaseNotActive, l, now)
                else if l.session != q.session || l.run != Some(q.run) then answer == Refusal(HolderMismatch, l, now)
                else if l.generation != q.expectedGeneration then answer == Refusal(StaleGeneration, l, now)
                else answer == LeaseAccepted(q.lease, l.(status := Released, endedAt := Some(now))))
            && t' == t.(leases := t.leases[q.lease := if answer.LeaseAccepted? then answer.lease
                                                      else NoticedLease(l, now)])
  {
  }

  lemma UnknownLeaseIsNotFound(t: State, q: Request, now: Time)
    requires (q.RenewLease? || q.ReleaseLease?) && q.lease >= |t.leases|
    ensures (if q.RenewLease? then Renew(t, q, now) else Release(t, q, now)) ==
              (t, LeaseRejected(LeaseNotFound, None, None))
  {
  }

  // ---------------------------------------------------------------- enrolments

  predicate OfOwner(e: Enrolment, owner: Owner, session: Id) { e.owner == owner && e.session == session }

  ghost predicate Working(s: seq<Enrolment>, owner: Owner, session: Id, now: Time) {
    exists i :: 0 <= i < |s| && OfOwner(s[i], owner, session) && WorkerLives(s[i], now)
  }

  lemma NewestWorks(t: State, owner: Owner, session: Id, now: Time)
    requires Inv(t)
    ensures var n := NewestEnrolment(t.enrolments, owner, session);
            && (Working(t.enrolments, owner, session, now) <==> n >= 0 && WorkerLives(t.enrolments[n], now))
            && (forall i :: 0 <= i < |t.enrolments| && OfOwner(t.enrolments[i], owner, session)
                            && t.enrolments[i].status == Active ==>
                  i == n)
  {
    hide NewestEnrolment, Numbered, OlderEnded, Bindings, Together;
    var s, n := t.enrolments, NewestEnrolment(t.enrolments, owner, session);
    forall i | 0 <= i < |s| && OfOwner(s[i], owner, session) && s[i].status == Active ensures i == n {
      assert OfSession(s[i], owner, session);
      assert i <= n;
    }
  }

  /** Enrolment w is noticed to be over, and its callsign with it. */
  ghost predicate WorkerNoticed(t: State, t': State, w: int, now: Time) {
    && |t'.leases| >= |t.leases| && |t'.enrolments| >= |t.enrolments|
    && (forall i :: 0 <= i < |t.enrolments| ==>
          t'.enrolments[i] == if i == w then NoticedWorker(t.enrolments[i], now) else t.enrolments[i])
    && (forall l :: 0 <= l < |t.leases| ==>
          t'.leases[l] == if t.leases[l].enrolment == Some(w) then NoticedLease(t.leases[l], now) else t.leases[l])
  }

  lemma SettledIsNoticed(t: State, w: int, now: Time)
    requires Inv(t) && 0 <= w < |t.enrolments|
    ensures EnrolmentSettled(t, w, now) ==
              t.(leases := EnrolmentSettled(t, w, now).leases, enrolments := EnrolmentSettled(t, w, now).enrolments)
    ensures WorkerNoticed(t, EnrolmentSettled(t, w, now), w, now)
    ensures |EnrolmentSettled(t, w, now).leases| == |t.leases|
    ensures |EnrolmentSettled(t, w, now).enrolments| == |t.enrolments|
  {
    hide Numbered, OlderEnded, OneSession;
    if t.enrolments[w].lease.Some? { assert Bound(t, w, t.enrolments[w].lease.value); }
    forall l | 0 <= l < |t.leases| && t.leases[l].enrolment == Some(w) ensures t.enrolments[w].lease == Some(l) {
      assert Bound(t, w, l);
    }
  }

  /** Lease l is the callsign of an enrolment of this owner's session. */
  predicate Attached(t: State, l: int, owner: Owner, session: Id) {
    && 0 <= l < |t.leases| && t.leases[l].enrolment.Some? && t.leases[l].enrolment.value < |t.enrolments|
    && OfOwner(t.enrolments[t.leases[l].enrolment.value], owner, session)
  }

  /** Every enrolment of the owner's session is noticed, and the callsigns with them. */
  ghost predicate SessionNoticed(t: State, t': State, owner: Owner, session: Id, now: Time) {
    && |t'.leases| >= |t.leases| && |t'.enrolments| >= |t.enrolments|
    && (forall i :: 0 <= i < |t.enrolments| ==>
          t'.enrolments[i] == if OfOwner(t.enrolments[i], owner, session) then NoticedWorker(t.enrolments[i], now)
                              else t.enrolments[i])
    && (forall l :: 0 <= l < |t.leases| ==>
          t'.leases[l] == if Attached(t, l, owner, session) then NoticedLease(t.leases[l], now) else t.leases[l])
  }

  lemma SettledSession(t: State, owner: Owner, session: Id, now: Time)
    requires Inv(t)
    ensures var t1 := EnrolmentSettled(t, NewestEnrolment(t.enrolments, owner, session), now);
            && SessionNoticed(t, t1, owner, session, now) && Inv(t1)
            && t1 == t.(leases := t1.leases, enrolments := t1.enrolments)
            && |t1.leases| == |t.leases| && |t1.enrolments| == |t.enrolments|
            && (forall collision :: Count(t1.leases, collision) == Count(t.leases, collision))
  {
    hide Inv, EnrolmentSettled, NewestEnrolment, Count;
    var n := NewestEnrolment(t.enrolments, owner, session);
    NewestWorks(t, owner, session, now);
    LeaseRefersToRow(t, n);
    EndingMoves(t, n, now);
    EnrolmentSettledKeepsInv(t, n, now);
    if n >= 0 { SettledIsNoticed(t, n, now); } else { NoneSettled(t, n, now); }
    AttachedIsBound(t);
  }

  lemma NoneSettled(t: State, n: int, now: Time)
    requires n < 0
    ensures EnrolmentSettled(t, n, now) == t
  {
  }

  lemma AttachedIsBound(t: State)
    requires Inv(t)
    ensures forall l :: 0 <= l < |t.leases| && t.leases[l].enrolment.Some? ==>
              && t.leases[l].enrolment.value < |t.enrolments|
              && (t.leases[l].status == Active ==> t.enrolments[t.leases[l].enrolment.value].status == Active)
  {
    hide Numbered, OlderEnded, OneSession;
    forall l | 0 <= l < |t.leases| && t.leases[l].enrolment.Some?
      ensures t.leases[l].enrolment.value < |t.enrolments|
    {
      assert Bound(t, t.leases[l].enrolment.value, l);
    }
  }

  lemma NoticingKeepsHeld(t: State, t': State, owner: Owner, session: Id, collision: Id, now: Time)
    requires SessionNoticed(t, t', owner, session, now) && |t'.leases| == |t.leases|
    ensures Held(t'.leases, collision, now) <==> Held(t.leases, collision, now)
  {
    hide Attached;
    if i :| 0 <= i < |t.leases| && t.leases[i].collision == collision && LeaseLives(t.leases[i], now) {
      assert LeaseLives(t'.leases[i], now) && t'.leases[i].collision == collision;
    }
  }

  /** A worker is enrolled exactly into known projects, for a time to come, while the session has no other
      worker, and with a callsign only if it is well formed, free, and wanted for at most a week; the
      reason of a refusal is the first of these that fails. */
  lemma EnrolExactly(t: State, owner: Owner, q: Request, known: bool, now: Time)
    requires q.Enrol? && Inv(t)
    ensures var answer := EnrolWorker(t, owner, q, known, now).1;
            if !known then Rejects(answer, ProjectNotFound)
            else if q.expiresAt <= now then Rejects(answer, ExpiredRequest)
            else if Working(t.enrolments, owner, q.session, now) then Rejects(answer, ActiveSessionExists)
            else if q.wish == InvalidCallsign then Rejects(answer, CallsignInvalid)
            else if q.wish.Callsign? && q.expiresAt > now + 604800000 then Rejects(answer, CallsignLifetimeTooLong)
            else if q.wish.Callsign? && Held(t.leases, q.wish.collision, now) then
              Rejects(answer, CallsignActiveCollision)
            else
              var generation := if q.wish.Callsign? then Some(|LeasesOf(t.leases, q.wish.collision)| + 1) else None;
              answer == WorkerAccepted(|t.enrolments|,
                                       Enrolment(owner, q.session, q.body, Active,
                                                 if q.wish.Callsign? then Some(|t.leases|) else None, generation,
                                                 now, q.expiresAt, now, None))
  {
    hide Inv, EnrolmentSettled, NewestEnrolment, Newest, Count, LeasesOf, Held, Working, SessionNoticed;
    var n := NewestEnrolment(t.enrolments, owner, q.session);
    var t1 := EnrolmentSettled(t, n, now);
    SettledSession(t, owner, q.session, now);
    NewestWorks(t, owner, q.session, now);
    SettledNewest(t, owner, q.session, now);
    if q.wish.Callsign? {
      NewestHolds(t1, q.wish.collision, now);
      NoticingKeepsHeld(t, t1, owner, q.session, q.wish.collision, now);
      CountIsLeases(t.leases, q.wish.collision);
    }
  }

  lemma SettledNewest(t: State, owner: Owner, session: Id, now: Time)
    requires Inv(t)
    ensures var n := NewestEnrolment(t.enrolments, owner, session);
            var t1 := EnrolmentSettled(t, n, now);
            n >= 0 ==> n < |t1.enrolments| && t1.enrolments[n] == NoticedWorker(t.enrolments[n], now)
  {
    hide Inv, EnrolmentSettled;
    SettledSession(t, owner, session, now);
  }

  /** Enrolling first notices the worker of the session whose time is over, then that of the callsign, and
      appends the worker accepted, and its lease. */
  lemma EnrolEffect(t: State, owner: Owner, q: Request, known: bool, now: Time)
    requires q.Enrol? && Inv(t)
    ensures var (t', answer) := EnrolWorker(t, owner, q, known, now);
            var reached := known && now < q.expiresAt;
            var probed := reached && q.wish.Callsign? && q.expiresAt <= now + 604800000
                          && !Working(t.enrolments, owner, q.session, now);
            && |t'.enrolments| == |t.enrolments| + (if answer.WorkerAccepted? then 1 else 0)
            && |t'.leases| == |t.leases| + (if answer.WorkerAccepted? && q.wish.Callsign? then 1 else 0)
            && t' == t.(leases := t'.leases, enrolments := t'.enrolments)
            && (forall i :: 0 <= i < |t.enrolments| ==>
                  t'.enrolments[i] == if reached && OfOwner(t.enrolments[i], owner, q.session)
                                      then NoticedWorker(t.enrolments[i], now) else t.enrolments[i])
            && (forall l :: 0 <= l < |t.leases| ==>
                  t'.leases[l] == if || (reached && Attached(t, l, owner, q.session))
                                     || (probed && t.leases[l].collision == q.wish.collision)
                                  then NoticedLease(t.leases[l], now) else t.leases[l])
            && (answer.WorkerAccepted? ==> t'.enrolments[|t.enrolments|] == answer.worker)
            && (answer.WorkerAccepted? && q.wish.Callsign? ==>
                  t'.leases[|t.leases|] == Lease(q.wish.collision, q.session, None, Some(|t.enrolments|),
                                                 |LeasesOf(t.leases, q.wish.collision)| + 1, Active, now, q.expiresAt,
                                                 now, None))
  {
    hide Inv, EnrolmentSettled, NewestEnrolment, Newest, Count, LeasesOf, Held, Working, Attached;
    var n := NewestEnrolment(t.enrolments, owner, q.session);
    var t1 := EnrolmentSettled(t, n, now);
    SettledSession(t, owner, q.session, now);
    NewestWorks(t, owner, q.session, now);
    SettledNewest(t, owner, q.session, now);
    if q.wish.Callsign? {
      NewestHolds(t1, q.wish.collision, now);
      CountIsLeases(t.leases, q.wish.collision);
    }
  }

  /** Only noticing happened: worker w, its callsign, and nothing else. */
  ghost predicate OnlyNoticed(t: State, t': State, w: int, now: Time) {
    && |t'.leases| == |t.leases| && |t'.enrolments| == |t.enrolments| && WorkerNoticed(t, t', w, now)
    && t' == t.(leases := t'.leases, enrolments := t'.enrolments)
  }

  /** A heartbeat is taken exactly from the owner of a worker that lives, and moves its time alone. */
  lemma HeartbeatExactly(t: State, owner: Owner, worker: Id, now: Time)
    requires Inv(t)
    ensures var (t', answer) := Heartbeat(t, owner, worker, now);
            if worker >= |t.enrolments| || t.enrolments[worker].owner != owner then
              t' == t && Rejects(answer, WorkerNotFound)
            else if !WorkerLives(t.enrolments[worker], now) then
              OnlyNoticed(t, t', worker, now) && Rejects(answer, WorkerNotActive)
            else
              var e' := t.enrolments[worker].(heartbeatAt := now);
              t' == t.(enrolments := t.enrolments[worker := e']) && answer == WorkerAccepted(worker, e')
  {
    hide Inv, EnrolmentEnded;
    if worker < |t.enrolments| { SettledIsNoticed(t, worker, now); }
  }

  /** A worker leaves exactly at its owner's word while it lives, and gives its callsign back with it. */
  lemma LeaveExactly(t: State, owner: Owner, worker: Id, now: Time)
    requires Inv(t)
    ensures var (t', answer) := Leave(t, owner, worker, now);
            if worker >= |t.enrolments| || t.enrolments[worker].owner != owner then
              t' == t && Rejects(answer, WorkerNotFound)
            else if !WorkerLives(t.enrolments[worker], now) then
              OnlyNoticed(t, t', worker, now) && Rejects(answer, WorkerNotActive)
            else
              var e' := t.enrolments[worker].(status := Released, endedAt := Some(now));
              && answer == WorkerAccepted(worker, e')
              && |t'.leases| == |t.leases|
              && t' == t.(enrolments := t.enrolments[worker := e'], leases := t'.leases)
              && forall l :: 0 <= l < |t.leases| ==>
                   t'.leases[l] == if t.leases[l].enrolment == Some(worker) && t.leases[l].status == Active
                                   then t.leases[l].(status := Released, endedAt := Some(now)) else t.leases[l]
  {
    hide Inv, EnrolmentEnded;
    if worker < |t.enrolments| {
      SettledIsNoticed(t, worker, now);
      if WorkerLives(t.enrolments[worker], now) { EndingReleases(t, worker, now); }
    }
  }

  lemma EndingReleases(t: State, w: nat, now: Time)
    requires Inv(t) && w < |t.enrolments| && WorkerLives(t.enrolments[w], now)
    ensures var t' := EnrolmentEnded(t, w, true, now);
            && |t'.leases| == |t.leases|
            && t' == t.(enrolments := t.enrolments[w := t.enrolments[w].(status := Released, endedAt := Some(now))],
                        leases := t'.leases)
            && forall l :: 0 <= l < |t.leases| ==>
                 t'.leases[l] == if t.leases[l].enrolment == Some(w) && t.leases[l].status == Active
                                 then t.leases[l].(status := Released, endedAt := Some(now)) else t.leases[l]
  {
    hide Numbered, OlderEnded, OneSession, Together;
    if t.enrolments[w].lease.Some? { assert Bound(t, w, t.enrolments[w].lease.value); }
    forall l | 0 <= l < |t.leases| && t.leases[l].enrolment == Some(w)
      ensures t.enrolments[w].lease == Some(l) && t.leases[l].expiresAt == t.enrolments[w].expiresAt
    {
      assert Bound(t, w, l);
    }
  }

  // ---------------------------------------------------------------- timers, reads and commands

  /** A timer of a lease acts exactly at its own generation and when due; reads notice what is due. */
  lemma TimersAndReads(t: State, lease: Id, generation: int, at: Time)
    ensures var t' := Step(t, OnLeaseTimer(lease, generation, at));
            t' == t.(clock := at, leases :=
                     if lease < |t.leases| && t.leases[lease].generation == generation
                     then t.leases[lease := NoticedLease(t.leases[lease], at)] else t.leases)
    ensures var t' := Step(t, OnGetLease(lease, at));
            t' == t.(clock := at, leases :=
                     if lease < |t.leases| then t.leases[lease := NoticedLease(t.leases[lease], at)] else t.leases)
  {
  }

  lemma WorkerTimersAndReads(t: State, owner: Owner, worker: Id, at: Time)
    requires Inv(t) && worker < |t.enrolments| && t.clock <= at
    ensures OnlyNoticed(t.(clock := at), Step(t, OnEnrolmentTimer(worker, at)), worker, at)
    ensures Step(t, OnGetWorker(owner, worker, at)) ==
              if t.enrolments[worker].owner == owner then Step(t, OnEnrolmentTimer(worker, at)) else t.(clock := at)
  {
    hide Inv, EnrolmentSettled, WorkerNoticed;
    LaterKeepsInv(t, at);
    SettledIsNoticed(t.(clock := at), worker, at);
  }

  /** Under a new key a command is what its kind says, and its answer is stored with it. */
  lemma CommandRuns(t: State, key: CommandKey, q: Request, known: bool, now: Time)
    requires key !in t.commands && FitsKey(key, q)
    ensures var t0, (t', answer) := t.(clock := now), Command(t, key, q, known, now);
            var (t1, result) :=
              match q
              case ReserveLease(_, _, _, _, _, _) => Reserve(t0, q, now)
              case RenewLease(_, _, _, _, _) => Renew(t0, q, now)
              case ReleaseLease(_, _, _, _) => Release(t0, q, now)
              case Enrol(_, _, _, _) => EnrolWorker(t0, key.owner, q, known, now)
              case HeartbeatWorker(worker) => Heartbeat(t0, key.owner, worker, now)
              case ReleaseWorker(worker) => Leave(t0, key.owner, worker, now);
            answer == Some(result) && t' == t1.(commands := t1.commands[key := Stored(q, result)])
  {
    hide Reserve, Renew, Release, EnrolWorker, Heartbeat, Leave;
  }
}
