/** What acquiring, releasing and expiring reservations answer and leave, said of the columns of the
    reservations alone. */
module ReservationOutcomes {
  import opened Base
  import opened ReservationModel

  predicate Occupies(r: Reservation, resource: Id, now: Time) {
    r.resource == resource && r.status == Active && now < r.expiresAt
  }

  /** The units in use on a resource. */
  function UnitsInUse(s: seq<Reservation>, resource: Id, now: Time): int {
    if s == [] then 0
    else
      var n := |s| - 1;
      UnitsInUse(s[..n], resource, now) + if Occupies(s[n], resource, now) then s[n].units else 0
  }

  /** Nothing occupies the resource; or only shared reservations do, agree on the capacity, and leave room. */
  predicate HasRoomFor(s: seq<Reservation>, q: Request, now: Time) {
    && (forall i :: 0 <= i < |s| && Occupies(s[i], q.resource, now) ==>
          s[i].mode == Shared && q.mode == Shared && s[i].capacity == q.capacity)
    && (q.mode == Shared ==> UnitsInUse(s, q.resource, now) + q.units <= q.capacity)
  }

  /** The request makes sense: some units within the capacity, for thirty seconds to a day; one of one if
      it is exclusive. */
  predicate Sensible(q: Request) {
    && 0 < q.units && q.units <= q.capacity && 30 <= q.leaseSeconds && q.leaseSeconds <= 86400
    && (q.mode == Exclusive ==> q.units == 1 && q.capacity == 1)
  }

  lemma {:induction false} UnitsInUseAreActive(s: seq<Reservation>, due: seq<Reservation>, resource: Id, now: Time)
    requires |due| == |s| && forall i :: 0 <= i < |s| ==>
               due[i] == if ActiveFor(s[i], resource) && s[i].expiresAt <= now then Ended(s[i], Expired) else s[i]
    ensures ActiveUnits(due, resource) == UnitsInUse(s, resource, now)
  {
    if s != [] { UnitsInUseAreActive(s[..|s| - 1], due[..|s| - 1], resource, now); }
  }

  /** A reservation is acquired exactly for a sensible request on a resource with room for it. */
  lemma AcquireExactly(s: seq<Reservation>, q: Request, now: Time)
    requires Inv(s)
    ensures Acquire(s, q, now).1.Acquired? <==> Sensible(q) && HasRoomFor(s, q, now)
    ensures !Acquire(s, q, now).1.Acquired? ==> Acquire(s, q, now) == (s, Denied)
  {
    hide Fits, ActiveUnits, UnitsInUse;
    if Sensible(q) {
      var due := ExpireDue(s, q.resource, now);
      EndingKeepsFits(s, due, q.resource);
      OneMoreFits(due, NewRow(q, now));
      UnitsInUseAreActive(s, due, q.resource, now);
      assert forall i :: 0 <= i < |s| ==> (ActiveFor(due[i], q.resource) <==> Occupies(s[i], q.resource, now));
      assert forall i :: 0 <= i < |s| && Occupies(s[i], q.resource, now) ==> due[i] == s[i];
      if forall i :: 0 <= i < |s| ==> !Occupies(s[i], q.resource, now) { NothingActiveNoUnits(due, q.resource); }
    }
  }

  /** What an acquisition leaves: the reservations of the resource whose time is over have expired, and the new
      one is the last row, active until its lease ends. */
  lemma AcquireEffect(s: seq<Reservation>, q: Request, now: Time)
    requires Acquire(s, q, now).1.Acquired?
    ensures var (s', answer) := Acquire(s, q, now);
            && |s'| == |s| + 1 && answer.id == |s|
            && (forall i :: 0 <= i < |s| ==>
                  s'[i] == if s[i].resource == q.resource && s[i].status == Active && s[i].expiresAt <= now
                           then s[i].(status := Expired, generation := s[i].generation + 1) else s[i])
            && s'[|s|] == Reservation(q.resource, q.mode, q.capacity, q.units, q.holder, Active, 1,
                                      now + 1000 * q.leaseSeconds)
  {
    hide Fits;
  }

  /** A release ends an active reservation at its holder's word, answers an ended one, and refuses others. */
  lemma ReleaseExactly(s: seq<Reservation>, id: Id, holder: Id)
    ensures Release(s, id, holder) ==
              if id >= |s| || s[id].holder != holder then (s, ReleaseRefused)
              else if s[id].status == Active then
                var ended := s[id].(status := Released, generation := s[id].generation + 1);
                (s[id := ended], ReleaseDone(ended))
              else (s, ReleaseDone(s[id]))
  {
  }

  /** A timer ends exactly an active reservation whose time is over, at the generation it was armed with. */
  lemma TimerExactly(s: seq<Reservation>, id: Id, generation: int, now: Time)
    ensures ExpireScheduled(s, id, generation, now) ==
              if id < |s| && s[id].status == Active && s[id].generation == generation && s[id].expiresAt <= now
              then s[id := s[id].(status := Expired, generation := generation + 1)] else s
  {
  }
}
