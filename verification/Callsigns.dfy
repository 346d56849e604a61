/** The callsign-lease and worker-enrolment mutations over the tables they share, branch by branch. */
module Callsigns {
  import opened Base
  import opened CallsignModel

  class Callsigns {
    var leases: seq<Lease>
    var enrolments: seq<Enrolment>
    var commands: map<CommandKey, Stored>
    ghost var clock: Time

    ghost function Contents(): State
      reads this
    {
      State(leases, enrolments, commands, clock)
    }

    ghost predicate Valid()
      reads this
    {
      Inv(Contents())
    }

    constructor ()
      ensures Valid() && Contents() == EMPTY
    {
      leases, enrolments, commands, clock := [], [], map[], 0;
    }

    // -------------------------------------------------------------- callsign leases

    method ReconcileLeaseIfExpired(i: nat, now: Time)
      requires i < |leases|
      modifies this`leases
      ensures Contents() == LeaseSettled(old(Contents()), i, now)
    {
      var lease := leases[i];
      if lease.status != Active || lease.expiresAt > now {
        return;
      }
      leases := leases[i := lease.(status := Expired, endedAt := Some(lease.expiresAt))];
    }

    /** The active lease of a collision key, once an expired one is settled. */
    method CurrentLeaseForCollision(collision: Id, now: Time) returns (active: Option<nat>)
      requires Valid()
      modifies this`leases
      ensures Contents() == LeaseSettled(old(Contents()), Newest(old(leases), collision), now)
      ensures active == var n := Newest(old(leases), collision);
              if n >= 0 && leases[n].status == Active then Some(n) else None
    {
      hide Inv, ActiveLeases, Newest;
      ActiveLeaseIsNewest(Contents(), collision);
      var rows := ActiveLeases(leases, collision);
      if |rows| > 1 {
        assert false;
        return None;
      }
      if |rows| == 0 {
        return None;
      }
      ReconcileLeaseIfExpired(rows[0], now);
      if leases[rows[0]].status != Active {
        return None;
      }
      return Some(rows[0]);
    }

    method Reserve(q: Request, now: Time) returns (result: Result)
      requires q.ReserveLease? && Valid() && now == clock
      modifies this`leases
      ensures (Contents(), result) == CallsignModel.Reserve(old(Contents()), q, now)
    {
      hide Inv, Newest, Count, HighestGeneration;
      var n := Newest(leases, q.collision);
      SettlingMoves(Contents(), n, now);
      LeaseSettledKeepsInv(Contents(), n, now);
      GenerationsOf(Contents(), q.collision);
      var active := CurrentLeaseForCollision(q.collision, now);
      GenerationsOf(Contents(), q.collision);
      var generation := HighestGeneration(leases, q.collision);
      var held := if active.Some? then Some(leases[active.value]) else None;
      if q.inheritance {
        return LeaseRejected(InheritanceNotSupported, held, Some(generation));
      }
      if q.expiresAt <= now {
        return LeaseRejected(ExpiredRequest, held, Some(generation));
      }
      if q.expiresAt - now > MAX_LEASE_MS {
        return LeaseRejected(ExpiryTooFar, held, Some(generation));
      }
      if active.Some? {
        return LeaseRejected(ActiveCollision, held, Some(generation));
      }
      if q.knownGeneration.Some? && q.knownGeneration.value != generation {
        return LeaseRejected(StaleGeneration, held, Some(generation));
      }
      var lease := Lease(q.collision, q.session, Some(q.run), None, generation + 1, Active, now, q.expiresAt, now,
        None);
      leases := leases + [lease];
      return LeaseAccepted(|leases| - 1, lease);
    }

    method Renew(q: Request, now: Time) returns (result: Result)
      requires q.RenewLease? && Valid() && now == clock
      modifies this`leases
      ensures (Contents(), result) == CallsignModel.Renew(old(Contents()), q, now)
    {
      if q.lease < |leases| {
        ReconcileLeaseIfExpired(q.lease, now);
      }
      var reason := HeldReason(leases, q.lease, q.session, q.run, q.expectedGeneration);
      if reason.Some? {
        return if q.lease < |leases| then
                 LeaseRejected(reason.value, Some(leases[q.lease]), Some(leases[q.lease].generation))
               else LeaseRejected(reason.value, None, None);
      }
      var lease := leases[q.lease];
      if q.expiresAt <= now {
        return LeaseRejected(ExpiredRequest, Some(lease), Some(lease.generation));
      }
      if q.expiresAt - now > MAX_LEASE_MS {
        return LeaseRejected(ExpiryTooFar, Some(lease), Some(lease.generation));
      }
      if q.expiresAt <= lease.expiresAt {
        return LeaseRejected(ExpiryNotExtended, Some(lease), Some(lease.generation));
      }
      leases := leases[q.lease := lease.(expiresAt := q.expiresAt, heartbeatAt := now)];
      return LeaseAccepted(q.lease, leases[q.lease]);
    }

    method Release(q: Request, now: Time) returns (result: Result)
      requires q.ReleaseLease? && Valid() && now == clock
      modifies this`leases
      ensures (Contents(), result) == CallsignModel.Release(old(Contents()), q, now)
    {
      if q.lease < |leases| {
        ReconcileLeaseIfExpired(q.lease, now);
      }
      var reason := HeldReason(leases, q.lease, q.session, q.run, q.expectedGeneration);
      if reason.Some? {
        return if q.lease < |leases| then
                 LeaseRejected(reason.value, Some(leases[q.lease]), Some(leases[q.lease].generation))
               else LeaseRejected(reason.value, None, None);
      }
      leases := leases[q.lease := leases[q.lease].(status := Released, endedAt := Some(now))];
      return LeaseAccepted(q.lease, leases[q.lease]);
    }

    // -------------------------------------------------------------- worker enrolments

    /** End the lease attached to an enrolment; false where the binding would be found broken. */
    method SettleAttachedCallsign(i: nat, released: bool, now: Time) returns (bound: bool)
      requires Valid() && i < |enrolments|
      modifies this`leases
      ensures bound
      ensures var e := old(enrolments)[i];
              leases == if e.lease.Some? && e.lease.value < |old(leases)|
                && old(leases)[e.lease.value].status == Active then
                          var l := old(leases)[e.lease.value];
                          old(leases)[e.lease.value :=
                            if released && l.expiresAt > now then EndedLease(l, Released, now)
                            else EndedLease(l, Expired, l.expiresAt)]
                        else old(leases)
    {
      var enrolment := enrolments[i];
      EnrolmentIsBound(Contents(), i);
      if enrolment.lease.None? || enrolment.leaseGeneration.None? {
        return true;
      }
      var l := enrolment.lease.value;
      if l >= |leases| || leases[l].status != Active {
        return true;
      }
      var lease := leases[l];
      if lease.enrolment != Some(i) || lease.session != enrolment.session
        || Some(lease.generation) != enrolment.leaseGeneration {
        assert false;
        return false;
      }
      if lease.expiresAt <= now || !released {
        leases := leases[l := lease.(status := Expired, endedAt := Some(lease.expiresAt))];
        return true;
      }
      leases := leases[l := lease.(status := Released, endedAt := Some(now))];
      return true;
    }

    method ReconcileIfExpired(i: nat, now: Time)
      requires Valid() && i < |enrolments|
      modifies this`leases, this`enrolments
      ensures Contents() == EnrolmentSettled(old(Contents()), i, now)
    {
      hide Inv;
      var enrolment := enrolments[i];
      if enrolment.status != Active || enrolment.expiresAt > now {
        return;
      }
      var bound := SettleAttachedCallsign(i, false, now);
      if !bound {
        assert false;
        return;
      }
      enrolments := enrolments[i := enrolment.(status := Expired, endedAt := Some(enrolment.expiresAt))];
    }

    method ActiveEnrolmentForSession(owner: Owner, session: Id, now: Time) returns (active: Option<nat>)
      requires Valid()
      modifies this`leases, this`enrolments
      ensures Contents() == EnrolmentSettled(old(Contents()), NewestEnrolment(old(enrolments), owner, session), now)
      ensures active == var n := NewestEnrolment(old(enrolments), owner, session);
                        if 0 <= n < |enrolments| && enrolments[n].status == Active then Some(n) else None
    {
      hide Inv, ActiveEnrolments, NewestEnrolment;
      ActiveEnrolmentIsNewest(Contents(), owner, session);
      var rows := ActiveEnrolments(enrolments, owner, session);
      if |rows| > 1 {
        assert false;
        return None;
      }
      if |rows| == 0 {
        return None;
      }
      ReconcileIfExpired(rows[0], now);
      if enrolments[rows[0]].status != Active {
        return None;
      }
      return Some(rows[0]);
    }

    method Enrol(owner: Owner, q: Request, projectsKnown: bool, now: Time) returns (result: Result)
      requires q.Enrol? && Valid() && now == clock
      modifies this`leases, this`enrolments
      ensures (Contents(), result) == EnrolWorker(old(Contents()), owner, q, projectsKnown, now)
    {
      hide Inv, Newest, Count, NewestEnrolment, EnrolmentSettled, LeaseSettled;
      if !projectsKnown {
        return WorkerRejected(ProjectNotFound, None);
      }
      if q.expiresAt <= now {
        return WorkerRejected(ExpiredRequest, None);
      }
      var s := NewestEnrolment(enrolments, owner, q.session);
      LeaseRefersToRow(Contents(), s);
      EndingMoves(Contents(), s, now);
      EnrolmentSettledKeepsInv(Contents(), s, now);
      EnrolmentSettledLength(Contents(), s, now);
      var active := ActiveEnrolmentForSession(owner, q.session, now);
      if active.Some? {
        return WorkerRejected(ActiveSessionExists, Some(enrolments[active.value]));
      }
      if q.wish.NoCallsign? {
        var enrolment := NewEnrolment(owner, q, None, None, now);
        enrolments := enrolments + [enrolment];
        return WorkerAccepted(|enrolments| - 1, enrolment);
      }
      if q.wish.InvalidCallsign? {
        return WorkerRejected(CallsignInvalid, None);
      }
      if q.expiresAt - now > MAX_LEASE_MS {
        return WorkerRejected(CallsignLifetimeTooLong, None);
      }
      result := EnrolWithCallsign(owner, q, now);
    }

    /** The rest of an enrolment that wishes for a callsign: its lease is inserted with it. */
    method EnrolWithCallsign(owner: Owner, q: Request, now: Time) returns (result: Result)
      requires q.Enrol? && q.wish.Callsign? && Valid()
      modifies this`leases, this`enrolments
      ensures var t, n := old(Contents()), Newest(old(leases), q.wish.collision);
              var t1, generation := LeaseSettled(t, n, now), Count(t.leases, q.wish.collision) + 1;
              (Contents(), result) ==
                if n >= 0 && t1.leases[n].status == Active then (t1, WorkerRejected(CallsignActiveCollision, None))
                else
                  var e := NewEnrolment(owner, q, Some(|t.leases|), Some(generation), now);
                  var l := Lease(q.wish.collision, q.session, None, Some(|t.enrolments|), generation, Active, now,
                    q.expiresAt, now, None);
                  (t1.(leases := t1.leases + [l], enrolments := t1.enrolments + [e]), WorkerAccepted(|t.enrolments|, e))
    {
      hide Inv, Newest, Count, HighestGeneration;
      var n := Newest(leases, q.wish.collision);
      SettlingMoves(Contents(), n, now);
      GenerationsOf(Contents(), q.wish.collision);
      SettledNumbered(Contents(), n, now);
      var active := CurrentLeaseForCollision(q.wish.collision, now);
      if active.Some? {
        return WorkerRejected(CallsignActiveCollision, None);
      }
      GenerationsOfNumbered(leases, q.wish.collision);
      var generation := HighestGeneration(leases, q.wish.collision) + 1;
      var enrolmentId, leaseId := |enrolments|, |leases|;
      enrolments := enrolments + [NewEnrolment(owner, q, None, None, now)];
      leases := leases + [Lease(q.wish.collision, q.session, None, Some(enrolmentId), generation, Active, now,
        q.expiresAt, now, None)];
      enrolments := enrolments[enrolmentId := enrolments[enrolmentId].(lease := Some(leaseId),
        leaseGeneration := Some(generation))];
      assert enrolments == old(enrolments) + [NewEnrolment(owner, q, Some(leaseId), Some(generation), now)];
      return WorkerAccepted(enrolmentId, enrolments[enrolmentId]);
    }

    method Heartbeat(owner: Owner, worker: Id, now: Time) returns (result: Result)
      requires Valid() && now == clock
      modifies this`leases, this`enrolments
      ensures (Contents(), result) == CallsignModel.Heartbeat(old(Contents()), owner, worker, now)
    {
      hide Inv, EnrolmentSettled;
      if worker >= |enrolments| || enrolments[worker].owner != owner {
        return WorkerRejected(WorkerNotFound, None);
      }
      EnrolmentSettledLength(Contents(), worker, now);
      ReconcileIfExpired(worker, now);
      if enrolments[worker].status != Active {
        return WorkerRejected(WorkerNotActive, Some(enrolments[worker]));
      }
      enrolments := enrolments[worker := enrolments[worker].(heartbeatAt := now)];
      return WorkerAccepted(worker, enrolments[worker]);
    }

    method ReleaseWorker(owner: Owner, worker: Id, now: Time) returns (result: Result)
      requires Valid() && now == clock
      modifies this`leases, this`enrolments
      ensures (Contents(), result) == Leave(old(Contents()), owner, worker, now)
    {
      hide Inv, EnrolmentSettled;
      if worker >= |enrolments| || enrolments[worker].owner != owner {
        return WorkerRejected(WorkerNotFound, None);
      }
      EnrolmentSettledLength(Contents(), worker, now);
      EnrolmentSettledKeepsInv(Contents(), worker, now);
      ReconcileIfExpired(worker, now);
      if enrolments[worker].status != Active {
        return WorkerRejected(WorkerNotActive, Some(enrolments[worker]));
      }
      var bound := SettleAttachedCallsign(worker, true, now);
      if !bound {
        assert false;
        return WorkerRejected(WorkerNotActive, None);
      }
      enrolments := enrolments[worker := enrolments[worker].(status := Released, endedAt := Some(now))];
      return WorkerAccepted(worker, enrolments[worker]);
    }

    // -------------------------------------------------------------- commands

    /** Execute a command once, or return what it returned before; None for a reused key. */
    method WithCommand(key: CommandKey, q: Request, projectsKnown: bool, now: Time) returns (result: Option<Result>)
      requires Valid() && clock <= now && FitsKey(key, q)
      modifies this
      ensures Valid()
      ensures (Contents(), result) == Command(old(Contents()), key, q, projectsKnown, now)
    {
      hide Inv, CallsignModel.Reserve, CallsignModel.Renew, CallsignModel.Release, EnrolWorker;
      hide CallsignModel.Heartbeat, Leave;
      CommandKeepsInv(Contents(), key, q, projectsKnown, now);
      LaterKeepsInv(Contents(), now);
      clock := now;
      if key in commands {
        return if commands[key].request == q then Some(commands[key].result) else None;
      }
      var executed: Result;
      match q {
        case ReserveLease(_, _, _, _, _, _) => executed := Reserve(q, now);
        case RenewLease(_, _, _, _, _) => executed := Renew(q, now);
        case ReleaseLease(_, _, _, _) => executed := Release(q, now);
        case Enrol(_, _, _, _) => executed := Enrol(key.owner, q, projectsKnown, now);
        case HeartbeatWorker(worker) => executed := Heartbeat(key.owner, worker, now);
        case ReleaseWorker(worker) => executed := ReleaseWorker(key.owner, worker, now);
      }
      commands := commands[key := Stored(q, executed)];
      return Some(executed);
    }

    method ExpireLeaseScheduled(lease: Id, generation: int, now: Time)
      requires Valid() && clock <= now
      modifies this
      ensures Valid()
      ensures Contents() == LeaseTimer(old(Contents()).(clock := now), lease, generation, now)
    {
      hide Inv;
      StepKeepsInv(Contents(), OnLeaseTimer(lease, generation, now));
      clock := now;
      if || lease >= |leases| || leases[lease].status != Active || leases[lease].generation != generation
         || leases[lease].expiresAt > now
      {
        return;
      }
      leases := leases[lease := leases[lease].(status := Expired, endedAt := Some(leases[lease].expiresAt))];
    }

    method ExpireEnrolmentScheduled(worker: Id, now: Time)
      requires Valid() && clock <= now
      modifies this
      ensures Valid()
      ensures Contents() == EnrolmentSettled(old(Contents()).(clock := now), worker, now)
    {
      hide Inv, EnrolmentSettled;
      StepKeepsInv(Contents(), OnEnrolmentTimer(worker, now));
      LaterKeepsInv(Contents(), now);
      clock := now;
      SettlesNothing(Contents(), worker, now);
      if worker >= |enrolments| || enrolments[worker].status != Active || enrolments[worker].expiresAt > now {
        return;
      }
      ReconcileIfExpired(worker, now);
    }
  }

  lemma SettlesNothing(t: State, worker: Id, now: Time)
    ensures worker >= |t.enrolments| || t.enrolments[worker].status != Active
            || t.enrolments[worker].expiresAt > now ==>
              EnrolmentSettled(t, worker, now) == t
  {
  }

  lemma GenerationsOf(t: State, collision: Id)
    requires Inv(t)
    ensures HighestGeneration(t.leases, collision) == Count(t.leases, collision)
  {
    GenerationsAreGapFree(t.leases, collision);
  }

  lemma GenerationsOfNumbered(s: seq<Lease>, collision: Id)
    requires Numbered(s)
    ensures HighestGeneration(s, collision) == Count(s, collision)
  {
    GenerationsAreGapFree(s, collision);
  }

  lemma SettledNumbered(t: State, i: int, now: Time)
    requires Inv(t)
    ensures Numbered(LeaseSettled(t, i, now).leases)
  {
    SettlingMoves(t, i, now);
    MoveKeepsNumbered(t, LeaseSettled(t, i, now));
  }

  lemma EnrolmentIsBound(t: State, i: nat)
    requires Inv(t) && i < |t.enrolments|
    ensures t.enrolments[i].lease.Some? ==> Bound(t, i, t.enrolments[i].lease.value)
  {
    hide Numbered, OlderEnded, OneSession, Together;
  }
}
