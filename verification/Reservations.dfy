/** The reservation mutations over the table, branch by branch. */
module Reservations {
  import opened Base
  import opened ReservationModel

  class Reservations {
    var rows: seq<Reservation>

    ghost predicate Valid()
      reads this
    {
      Inv(rows)
    }

    constructor ()
      ensures Valid() && rows == []
    {
      rows := [];
    }

    /** Expire the active rows of a resource whose time is over, and list the others. */
    method ExpireAndListLive(resource: Id, now: Time) returns (live: seq<nat>)
      requires Valid()
      modifies this
      ensures rows == ExpireDue(old(rows), resource, now)
      ensures LiveOnly(old(rows), resource, now, live)
      ensures UnitsOf(old(rows), live) == ActiveUnits(rows, resource)
    {
      hide Inv, ActiveUnits, UnitsOf, LiveUnits, ActiveRows, ExpireDue, ActiveFor, Ended;
      var active := ActiveRows(rows, resource);
      ghost var s := rows;
      ghost var done: set<nat> := {};
      live := [];
      NoRowsNoUnits(s, now);
      for a := 0 to |active|
        invariant |rows| == |s|
        invariant forall b :: 0 <= b < |active| ==> (active[b] in done <==> b < a)
        invariant forall i :: i in done ==> i < |s| && ActiveFor(s[i], resource)
        invariant forall i: nat :: i < |s| ==>
                    rows[i] == if i in done && s[i].expiresAt <= now then Ended(s[i], Expired) else s[i]
        invariant forall b :: 0 <= b < |live| ==> live[b] in done && s[live[b]].expiresAt > now
        invariant forall i :: i in done && s[i].expiresAt > now ==> i in live
        invariant UnitsOf(s, live) == LiveUnits(s, active[..a], now)
      {
        var i := active[a];
        LiveUnitsNext(s, active[..a], i, now);
        assert active[..a + 1] == active[..a] + [i];
        UnitsOfNext(s, live, i);
        if rows[i].expiresAt <= now {
          rows := rows[i := Ended(rows[i], Expired)];
        } else {
          live := live + [i];
        }
        done := done + {i};
      }
      assert active[..|active|] == active;
      assert forall i: nat :: i < |s| && ActiveFor(s[i], resource) ==> i in active;
      assert rows == ExpireDue(s, resource, now);
      LiveUnitsAreActiveUnits(s, resource, now);
    }

    method Acquire(q: Request, now: Time) returns (outcome: AcquireOutcome)
      requires Valid()
      modifies this
      ensures Valid()
      ensures (rows, outcome) == ReservationModel.Acquire(old(rows), q, now)
    {
      hide Inv, Fits, ActiveUnits, UnitsOf;
      StepKeepsInv(rows, OnAcquire(q, now));
      if q.capacity < 1 || q.units < 1 || q.units > q.capacity {
        return Denied;
      }
      if q.mode == Exclusive && (q.capacity != 1 || q.units != 1) {
        return Denied;
      }
      if q.leaseSeconds < 30 || q.leaseSeconds > 86400 {
        return Denied;
      }
      var before := rows;
      var live := ExpireAndListLive(q.resource, now);
      LiveRowsDecide(before, q, now, live);
      SameUnits(before, rows, live);
      if q.mode == Exclusive && |live| > 0 {
        rows := before;
        return Denied;
      }
      if q.mode == Shared {
        if exists a :: 0 <= a < |live| && rows[live[a]].mode == Exclusive {
          rows := before;
          return Denied;
        }
        if exists a :: 0 <= a < |live| && rows[live[a]].capacity != q.capacity {
          rows := before;
          return Denied;
        }
        if UnitsOf(rows, live) + q.units > q.capacity {
          rows := before;
          return Denied;
        }
      }
      rows := rows + [Reservation(q.resource, q.mode, q.capacity, q.units, q.holder, Active, 1,
        now + q.leaseSeconds * 1000)];
      return Acquired(|rows| - 1);
    }

    method Release(id: Id, holder: Id) returns (outcome: ReleaseOutcome)
      requires Valid()
      modifies this
      ensures Valid()
      ensures (rows, outcome) == ReservationModel.Release(old(rows), id, holder)
    {
      hide Inv;
      StepKeepsInv(rows, OnRelease(id, holder));
      if id >= |rows| {
        return ReleaseRefused;
      }
      var reservation := rows[id];
      if reservation.holder != holder {
        return ReleaseRefused;
      }
      if reservation.status != Active {
        return ReleaseDone(reservation);
      }
      rows := rows[id := reservation.(status := Released, generation := reservation.generation + 1)];
      return ReleaseDone(rows[id]);
    }

    method ExpireScheduled(id: Id, generation: int, now: Time)
      requires Valid()
      modifies this
      ensures Valid()
      ensures rows == ReservationModel.ExpireScheduled(old(rows), id, generation, now)
    {
      hide Inv;
      StepKeepsInv(rows, OnTimer(id, generation, now));
      if id >= |rows| || rows[id].status != Active || rows[id].generation != generation || rows[id].expiresAt > now {
        return;
      }
      rows := rows[id := rows[id].(status := Expired, generation := rows[id].generation + 1)];
    }
  }

  /** The units of the given rows that are still live. */
  ghost function LiveUnits(s: seq<Reservation>, rows: seq<nat>, now: Time): int
    requires forall a :: 0 <= a < |rows| ==> rows[a] < |s|
  {
    if rows == [] then 0
    else
      var last := rows[|rows| - 1];
      LiveUnits(s, rows[..|rows| - 1], now) + (if s[last].expiresAt > now then s[last].units else 0)
  }

  lemma NoRowsNoUnits(s: seq<Reservation>, now: Time)
    ensures UnitsOf(s, []) == LiveUnits(s, [], now) == 0
  {
  }

  lemma LiveUnitsNext(s: seq<Reservation>, rows: seq<nat>, i: nat, now: Time)
    requires i < |s| && forall a :: 0 <= a < |rows| ==> rows[a] < |s|
    ensures LiveUnits(s, rows + [i], now) == LiveUnits(s, rows, now) + (if s[i].expiresAt > now then s[i].units else 0)
  {
    assert (rows + [i])[..|rows|] == rows;
  }

  lemma UnitsOfNext(s: seq<Reservation>, rows: seq<nat>, i: nat)
    requires i < |s| && forall a :: 0 <= a < |rows| ==> rows[a] < |s|
    ensures UnitsOf(s, rows + [i]) == UnitsOf(s, rows) + s[i].units
  {
    assert (rows + [i])[..|rows|] == rows;
  }

  lemma {:induction false} LiveUnitsRead(s: seq<Reservation>, more: seq<Reservation>, rows: seq<nat>, now: Time)
    requires s <= more && forall a :: 0 <= a < |rows| ==> rows[a] < |s|
    ensures LiveUnits(more, rows, now) == LiveUnits(s, rows, now)
  {
    if rows != [] { LiveUnitsRead(s, more, rows[..|rows| - 1], now); }
  }

  /** The units still live on a resource. */
  ghost function LiveSum(s: seq<Reservation>, resource: Id, now: Time): int {
    if s == [] then 0
    else LiveSum(s[..|s| - 1], resource, now) + (if LiveFor(s[|s| - 1], resource, now) then s[|s| - 1].units else 0)
  }

  lemma {:induction false} UnexpiredUnits(s: seq<Reservation>, resource: Id, now: Time)
    ensures ActiveUnits(ExpireDue(s, resource, now), resource) == LiveSum(s, resource, now)
  {
    if s != [] {
      UnexpiredUnits(s[..|s| - 1], resource, now);
      assert ExpireDue(s, resource, now)[..|s| - 1] == ExpireDue(s[..|s| - 1], resource, now);
    }
  }

  lemma {:induction false} ListedUnits(s: seq<Reservation>, resource: Id, now: Time)
    ensures LiveUnits(s, ActiveRows(s, resource), now) == LiveSum(s, resource, now)
  {
    hide LiveUnits;
    NoRowsNoUnits(s, now);
    if s != [] {
      var n := |s| - 1;
      var before := ActiveRows(s[..n], resource);
      ListedUnits(s[..n], resource, now);
      LiveUnitsRead(s[..n], s, before, now);
      ActiveRowsNext(s, resource);
      LiveUnitsNext(s, before, n, now);
      assert before + [] == before;
    }
  }

  lemma ActiveRowsNext(s: seq<Reservation>, resource: Id)
    requires s != []
    ensures var n := |s| - 1;
            ActiveRows(s, resource) == ActiveRows(s[..n], resource) + if ActiveFor(s[n], resource) then [n] else []
  {
  }

  /** Summing the live rows that the index lists sums the units active once the others expired. */
  lemma LiveUnitsAreActiveUnits(s: seq<Reservation>, resource: Id, now: Time)
    ensures LiveUnits(s, ActiveRows(s, resource), now) == ActiveUnits(ExpireDue(s, resource, now), resource)
  {
    UnexpiredUnits(s, resource, now);
    ListedUnits(s, resource, now);
  }

  lemma {:induction false} SameUnits(s: seq<Reservation>, s': seq<Reservation>, rows: seq<nat>)
    requires |s| == |s'| && forall a :: 0 <= a < |rows| ==> rows[a] < |s| && s'[rows[a]] == s[rows[a]]
    ensures UnitsOf(s', rows) == UnitsOf(s, rows)
  {
    if rows != [] { SameUnits(s, s', rows[..|rows| - 1]); }
  }
}
