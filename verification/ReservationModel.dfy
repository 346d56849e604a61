/** Resource reservations: an allocator of units with exclusive and shared modes, one row for each
    reservation, released by its holder or expired by a timer fenced with a generation.

    A reservation's ID is the number of its row. Project and item lookups are not modelled. */
module ReservationModel {
  import opened Base

  datatype Mode = Exclusive | Shared

  datatype Status = Active | Released | Expired

  datatype Reservation = Reservation(
    resource: Id, mode: Mode, capacity: int, units: int, holder: Id, status: Status, generation: int, expiresAt: Time)

  datatype Request = Request(resource: Id, mode: Mode, capacity: int, units: int, leaseSeconds: int, holder: Id)

  datatype AcquireOutcome = Acquired(id: nat) | Denied

  datatype ReleaseOutcome = ReleaseDone(reservation: Reservation) | ReleaseRefused

  predicate ActiveFor(r: Reservation, resource: Id) { r.status == Active && r.resource == resource }

  predicate LiveFor(r: Reservation, resource: Id, now: Time) { ActiveFor(r, resource) && r.expiresAt > now }

  /** The rows active for a resource, oldest first. */
  function ActiveRows(s: seq<Reservation>, resource: Id): (rows: seq<nat>)
    ensures forall a :: 0 <= a < |rows| ==> rows[a] < |s| && ActiveFor(s[rows[a]], resource)
    ensures forall i :: 0 <= i < |s| && ActiveFor(s[i], resource) ==> i in rows
    ensures forall a, b :: 0 <= a < b < |rows| ==> rows[a] < rows[b]
  {
    if s == [] then []
    else
      var n := |s| - 1;
      ActiveRows(s[..n], resource) + (if ActiveFor(s[n], resource) then [n] else [])
  }

  /** The units active on a resource. */
  function ActiveUnits(s: seq<Reservation>, resource: Id): int {
    if s == [] then 0
    else ActiveUnits(s[..|s| - 1], resource) + (if ActiveFor(s[|s| - 1], resource) then s[|s| - 1].units else 0)
  }

  function Ended(r: Reservation, status: Status): Reservation { r.(status := status, generation := r.generation + 1) }

  /** The rows once those of a resource whose time is over have expired. */
  function ExpireDue(s: seq<Reservation>, resource: Id, now: Time): (s': seq<Reservation>)
    ensures |s'| == |s|
    ensures forall i :: 0 <= i < |s| ==>
              s'[i] == if ActiveFor(s[i], resource) && s[i].expiresAt <= now then Ended(s[i], Expired) else s[i]
  {
    seq(|s|, (i: nat) requires i < |s| =>
      if ActiveFor(s[i], resource) && s[i].expiresAt <= now then Ended(s[i], Expired) else s[i])
  }

  predicate Admitted(q: Request) {
    && 1 <= q.capacity && 1 <= q.units <= q.capacity && 30 <= q.leaseSeconds <= 86400
    && (q.mode == Exclusive ==> q.capacity == 1 && q.units == 1)
  }

  function NewRow(q: Request, now: Time): Reservation {
    Reservation(q.resource, q.mode, q.capacity, q.units, q.holder, Active, 1, now + q.leaseSeconds * 1000)
  }

  /** The active rows of a resource are one exclusive row, or shared rows that agree on the capacity
      and together fit into it. */
  ghost predicate Fits(s: seq<Reservation>, resource: Id) {
    && (forall i, j :: 0 <= i < j < |s| && ActiveFor(s[i], resource) && ActiveFor(s[j], resource) ==>
          s[i].mode == Shared && s[j].mode == Shared && s[i].capacity == s[j].capacity)
    && (forall i :: 0 <= i < |s| && ActiveFor(s[i], resource) ==> ActiveUnits(s, resource) <= s[i].capacity)
  }

  /** Acquiring is granted exactly when the resource would still fit. */
  ghost function Acquire(s: seq<Reservation>, q: Request, now: Time): (seq<Reservation>, AcquireOutcome) {
    var after := ExpireDue(s, q.resource, now) + [NewRow(q, now)];
    if Admitted(q) && Fits(after, q.resource) then (after, Acquired(|s|)) else (s, Denied)
  }

  function Release(s: seq<Reservation>, id: Id, holder: Id): (seq<Reservation>, ReleaseOutcome) {
    if id >= |s| || s[id].holder != holder then (s, ReleaseRefused)
    else if s[id].status != Active then (s, ReleaseDone(s[id]))
    else (s[id := Ended(s[id], Released)], ReleaseDone(Ended(s[id], Released)))
  }

  function ExpireScheduled(s: seq<Reservation>, id: Id, generation: int, now: Time): seq<Reservation> {
    if id >= |s| || s[id].status != Active || s[id].generation != generation || s[id].expiresAt > now then s
    else s[id := Ended(s[id], Expired)]
  }

  datatype Event =
    | OnAcquire(request: Request, at: Time)
    | OnRelease(id: Id, holder: Id)
    | OnTimer(id: Id, generation: int, at: Time)

  ghost function Step(s: seq<Reservation>, e: Event): seq<Reservation> {
    match e
    case OnAcquire(q, at) => Acquire(s, q, at).0
    case OnRelease(id, holder) => Release(s, id, holder).0
    case OnTimer(id, generation, at) => ExpireScheduled(s, id, generation, at)
  }

  ghost function Run(s: seq<Reservation>, es: seq<Event>): seq<Reservation>
    decreases |es|
  {
    if es == [] then s else Run(Step(s, es[0]), es[1..])
  }

  predicate RowOk(r: Reservation) {
    && 1 <= r.units <= r.capacity && (r.mode == Exclusive ==> r.capacity == 1 && r.units == 1)
    && r.generation == if r.status == Active then 1 else 2
  }

  ghost predicate Inv(s: seq<Reservation>) {
    && (forall i :: 0 <= i < |s| ==> RowOk(s[i]))
    && (forall resource :: Fits(s, resource))
  }

  // ---------------------------------------------------------------- each mutation keeps the invariant

  /** Ending rows frees units and nothing else. */
  ghost predicate OnlyEnds(s: seq<Reservation>, s': seq<Reservation>) {
    |s'| == |s| && forall i :: 0 <= i < |s| ==>
      s'[i] == s[i] || (s[i].status == Active && s'[i].status != Active && s'[i].resource == s[i].resource)
  }

  lemma {:induction false} EndingFreesUnits(s: seq<Reservation>, s': seq<Reservation>, resource: Id)
    requires OnlyEnds(s, s') && forall i :: 0 <= i < |s| ==> RowOk(s[i])
    ensures ActiveUnits(s', resource) <= ActiveUnits(s, resource)
  {
    if s != [] { EndingFreesUnits(s[..|s| - 1], s'[..|s| - 1], resource); }
  }

  lemma EndingKeepsFits(s: seq<Reservation>, s': seq<Reservation>, resource: Id)
    requires OnlyEnds(s, s') && Fits(s, resource) && forall i :: 0 <= i < |s| ==> RowOk(s[i])
    ensures Fits(s', resource)
  {
    EndingFreesUnits(s, s', resource);
  }

  lemma {:induction false} UnitsOfOthers(s: seq<Reservation>, r: Reservation, resource: Id)
    ensures ActiveUnits(s + [r], resource) == ActiveUnits(s, resource) + (if ActiveFor(r, resource) then r.units else 0)
  {
    assert (s + [r])[..|s|] == s;
  }

  lemma AppendKeepsOthers(s: seq<Reservation>, r: Reservation, resource: Id)
    requires Fits(s, resource) && !ActiveFor(r, resource)
    ensures Fits(s + [r], resource)
  {
    UnitsOfOthers(s, r, resource);
  }

  lemma StepKeepsInv(s: seq<Reservation>, e: Event)
    requires Inv(s)
    ensures Inv(Step(s, e))
  {
    hide Fits, ActiveUnits;
    var s' := Step(s, e);
    if s' != s {
      if e.OnAcquire? {
        var due := ExpireDue(s, e.request.resource, e.at);
        forall resource ensures Fits(s', resource) {
          EndingKeepsFits(s, due, resource);
          if resource != e.request.resource { AppendKeepsOthers(due, NewRow(e.request, e.at), resource); }
        }
      } else {
        forall resource ensures Fits(s', resource) { EndingKeepsFits(s, s', resource); }
      }
    }
  }

  /** In every reachable state the active rows of every resource are one exclusive row, or shared
      rows that agree on its capacity and fit into it. */
  lemma {:induction false} RunKeepsInv(s: seq<Reservation>, es: seq<Event>)
    requires Inv(s)
    ensures Inv(Run(s, es))
    decreases |es|
  {
    hide Inv, Step;
    if es != [] {
      StepKeepsInv(s, es[0]);
      RunKeepsInv(Step(s, es[0]), es[1..]);
    }
  }

  /** A reservation that has ended never changes again, whatever timers still fire for it. */
  lemma {:induction false} EndedRowsAreFrozen(s: seq<Reservation>, es: seq<Event>, i: nat)
    requires i < |s| && s[i].status != Active
    ensures i < |Run(s, es)| && Run(s, es)[i] == s[i]
    decreases |es|
  {
    hide Fits;
    if es != [] { EndedRowsAreFrozen(Step(s, es[0]), es[1..], i); }
  }

  /** The row's timer is spent by any end: the generation it was armed with is gone. */
  lemma StaleTimerDoesNothing(s: seq<Reservation>, i: nat, now: Time)
    requires Inv(s) && i < |s| && s[i].status != Active
    ensures forall generation :: ExpireScheduled(s, i, generation, now) == s
    ensures s[i].generation != 1
  {
    assert RowOk(s[i]);
  }

  // ---------------------------------------------------------------- the checks of the code

  /** The rows still live on a resource. */
  predicate LiveOnly(s: seq<Reservation>, resource: Id, now: Time, rows: seq<nat>) {
    && (forall a :: 0 <= a < |rows| ==> rows[a] < |s| && LiveFor(s[rows[a]], resource, now))
    && (forall i :: 0 <= i < |s| && LiveFor(s[i], resource, now) ==> i in rows)
  }

  function UnitsOf(s: seq<Reservation>, rows: seq<nat>): int
    requires forall a :: 0 <= a < |rows| ==> rows[a] < |s|
  {
    if rows == [] then 0 else UnitsOf(s, rows[..|rows| - 1]) + s[rows[|rows| - 1]].units
  }

  /** Whether one more active row fits, asked of the rows before it. */
  lemma OneMoreFits(s: seq<Reservation>, r: Reservation)
    requires Fits(s, r.resource) && r.status == Active
    ensures Fits(s + [r], r.resource) <==>
              && (forall i :: 0 <= i < |s| && ActiveFor(s[i], r.resource) ==>
                s[i].mode == Shared && r.mode == Shared && s[i].capacity == r.capacity)
              && ActiveUnits(s, r.resource) + r.units <= r.capacity
  {
    hide ActiveUnits;
    var s' := s + [r];
    UnitsOfOthers(s, r, r.resource);
    assert s'[|s|] == r && ActiveFor(s'[|s|], r.resource);
    assert forall i :: 0 <= i < |s| ==> s'[i] == s[i];
  }

  lemma {:induction false} NothingActiveNoUnits(s: seq<Reservation>, resource: Id)
    requires forall i :: 0 <= i < |s| ==> !ActiveFor(s[i], resource)
    ensures ActiveUnits(s, resource) == 0
  {
    if s != [] { NothingActiveNoUnits(s[..|s| - 1], resource); }
  }

  /** What the code asks of the live rows is what the resource rule asks of all active rows. */
  lemma LiveRowsDecide(s: seq<Reservation>, q: Request, now: Time, live: seq<nat>)
    requires Inv(s) && Admitted(q) && LiveOnly(s, q.resource, now, live)
    requires UnitsOf(s, live) == ActiveUnits(ExpireDue(s, q.resource, now), q.resource)
    ensures Fits(ExpireDue(s, q.resource, now) + [NewRow(q, now)], q.resource) <==>
              if q.mode == Exclusive then live == []
              else
                && (forall a :: 0 <= a < |live| ==> s[live[a]].mode == Shared && s[live[a]].capacity == q.capacity)
                && UnitsOf(s, live) + q.units <= q.capacity
  {
    hide ActiveUnits, UnitsOf, Fits;
    var due := ExpireDue(s, q.resource, now);
    EndingKeepsFits(s, due, q.resource);
    OneMoreFits(due, NewRow(q, now));
    assert forall i :: 0 <= i < |s| ==> (ActiveFor(due[i], q.resource) <==> LiveFor(s[i], q.resource, now));
    assert forall a :: 0 <= a < |live| ==> due[live[a]] == s[live[a]] && ActiveFor(due[live[a]], q.resource);
    if live == [] { NothingActiveNoUnits(due, q.resource); } else { assert ActiveFor(due[live[0]], q.resource); }
  }
}
