/** Queued runs: the rows, the index scans the scheduler makes, and what a truncated scan tells
    about the whole table.

    A run's ID is the number of its row, since the database issues it on insertion. A reference is a
    text; the number of a continuation stands for the text that names it. */
module RunnerTables {
  import opened Base

  datatype Status = Queued | Starting | Running | Waiting | Blocked | Succeeded | Failed | Cancelled | Abandoned

  datatype Profile = Profile(id: Id, version: Option<Id>)

  /** The generations an execution record carries. */
  datatype Record = Record(generation: int, leaseGeneration: int)

  /** continuation: the reference column, which transitions may replace; origin: the reference of the
      dispatch, a history variable that no mutation reads; recorded: the run's latest execution record,
      which is its envelope until a terminal command adds another. */
  datatype QueuedRun = QueuedRun(
    project: Id, item: Id, actor: Id, runnerType: Id, profile: Profile, continuation: Option<Id>,
    origin: Option<Id>, recorded: Record,
    status: Status, generation: int, leaseGeneration: int, owner: Option<Id>, expires: Option<Time>,
    retryAttempt: int, maxAttempts: int, backoff: int, nextRetryAt: Option<Time>, createdAt: Time)

  const CANDIDATE_SCAN_LIMIT := 100
  const RECONCILE_LIMIT := 100

  predicate HoldsCapacity(s: Status) { s == Starting || s == Running || s == Waiting }

  predicate Leased(s: Status) { s == Queued || HoldsCapacity(s) }

  predicate Ended(s: Status) { s == Succeeded || s == Cancelled || s == Abandoned }

  /** The index ranges that are read: an active status with a lease beyond a time, without a lease,
      or with a lease that ran out; failed runs whose retry is due; queued runs. */
  datatype Query =
    | LeasedAfter(status: Status, time: Time)
    | Unleased(status: Status)
    | Expired(status: Status, time: Time)
    | Due(project: Option<Id>, time: Time)
    | Backlog(project: Option<Id>)

  predicate InProject(r: QueuedRun, project: Option<Id>) { project.Some? ==> r.project == project.value }

  predicate Matches(r: QueuedRun, q: Query) {
    match q
    case LeasedAfter(s, time) => r.status == s && r.expires.Some? && r.expires.value > time
    case Unleased(s) => r.status == s && r.expires.None?
    case Expired(s, time) => r.status == s && r.expires.Some? && 0 < r.expires.value <= time
    case Due(p, time) => r.status == Failed && InProject(r, p) && r.nextRetryAt.Some? && 0 < r.nextRetryAt.value <= time
    case Backlog(p) => r.status == Queued && InProject(r, p)
  }

  /** The last field of the index a range is read from. */
  function SortKey(r: QueuedRun, q: Query): Time {
    match q
    case LeasedAfter(_, _) => if r.expires.Some? then r.expires.value else 0
    case Unleased(_) => 0
    case Expired(_, _) => if r.expires.Some? then r.expires.value else 0
    case Due(_, _) => if r.nextRetryAt.Some? then r.nextRetryAt.value else 0
    case Backlog(_) => r.createdAt
  }

  /** Index order: the last index field, then insertion. */
  predicate Precedes(runs: seq<QueuedRun>, q: Query, i: nat, j: nat)
    requires i < |runs| && j < |runs|
  {
    SortKey(runs[i], q) < SortKey(runs[j], q) || (SortKey(runs[i], q) == SortKey(runs[j], q) && i < j)
  }

  ghost predicate RowsOf(runs: seq<QueuedRun>, rows: seq<nat>) { forall a :: 0 <= a < |rows| ==> rows[a] < |runs| }

  ghost predicate InIndexOrder(runs: seq<QueuedRun>, q: Query, rows: seq<nat>)
    requires RowsOf(runs, rows)
  {
    forall a, b :: 0 <= a < b < |rows| ==> Precedes(runs, q, rows[a], rows[b])
  }

  function Insert(runs: seq<QueuedRun>, q: Query, rows: seq<nat>, n: nat): (r: seq<nat>)
    requires n < |runs| && RowsOf(runs, rows) && InIndexOrder(runs, q, rows)
    requires forall a :: 0 <= a < |rows| ==> rows[a] < n
    ensures RowsOf(runs, r) && InIndexOrder(runs, q, r)
    ensures forall i :: i in r <==> i in rows || i == n
    ensures forall a :: 0 <= a < |r| ==> r[a] in rows || r[a] == n
  {
    if rows == [] || SortKey(runs[rows[|rows| - 1]], q) <= SortKey(runs[n], q) then rows + [n]
    else
      var last := rows[|rows| - 1];
      var front := Insert(runs, q, rows[..|rows| - 1], n);
      assert forall i :: i in rows ==> i in rows[..|rows| - 1] || i == last;
      front + [last]
  }

  /** The rows of an index range, in index order. */
  function Scan(runs: seq<QueuedRun>, q: Query): (rows: seq<nat>)
    ensures RowsOf(runs, rows) && InIndexOrder(runs, q, rows)
    ensures forall a :: 0 <= a < |rows| ==> Matches(runs[rows[a]], q)
    ensures forall i :: 0 <= i < |runs| && Matches(runs[i], q) ==> i in rows
  {
    if runs == [] then []
    else
      var n := |runs| - 1;
      var rows := Scan(runs[..n], q);
      if Matches(runs[n], q) then Insert(runs, q, rows, n) else rows
  }

  function Take(rows: seq<nat>, n: nat): seq<nat> { if |rows| <= n then rows else rows[..n] }

  // ---------------------------------------------------------------- counting

  /** How many of the given rows belong to a project (to any project, for None). */
  function Tally(runs: seq<QueuedRun>, rows: seq<nat>, project: Option<Id>): nat
    requires RowsOf(runs, rows)
  {
    if rows == [] then 0
    else Tally(runs, rows[..|rows| - 1], project) + (if InProject(runs[rows[|rows| - 1]], project) then 1 else 0)
  }

  /** How many rows of the whole table match a range and belong to a project. */
  function CountMatching(runs: seq<QueuedRun>, q: Query, project: Option<Id>): nat {
    if runs == [] then 0
    else
      var n := |runs| - 1;
      CountMatching(runs[..n], q, project) + (if Matches(runs[n], q) && InProject(runs[n], project) then 1 else 0)
  }

  /** A run that occupies a slot: active, and its lease has not run out. */
  predicate HoldsSlot(r: QueuedRun, now: Time) { HoldsCapacity(r.status) && (r.expires.None? || r.expires.value > now) }

  /** How many slots a project holds (all projects together, for None). */
  function Slots(runs: seq<QueuedRun>, now: Time, project: Option<Id>): nat {
    if runs == [] then 0
    else
      var n := |runs| - 1;
      Slots(runs[..n], now, project) + (if HoldsSlot(runs[n], now) && InProject(runs[n], project) then 1 else 0)
  }

  const CAPACITY_STATUSES := [Starting, Running, Waiting]

  /** The slots held in the first s of the capacity statuses. */
  function SlotsIn(runs: seq<QueuedRun>, now: Time, s: nat, project: Option<Id>): nat
    requires s <= |CAPACITY_STATUSES|
  {
    if s == 0 then 0
    else
      SlotsIn(runs, now, s - 1, project)
      + CountMatching(runs, LeasedAfter(CAPACITY_STATUSES[s - 1], now), project)
      + CountMatching(runs, Unleased(CAPACITY_STATUSES[s - 1]), project)
  }

  lemma SlotsInThree(runs: seq<QueuedRun>, now: Time, project: Option<Id>)
    ensures SlotsIn(runs, now, 3, project)
         == CountMatching(runs, LeasedAfter(Starting, now), project) + CountMatching(runs, Unleased(Starting), project)
          + CountMatching(runs, LeasedAfter(Running, now), project) + CountMatching(runs, Unleased(Running), project)
          + CountMatching(runs, LeasedAfter(Waiting, now), project) + CountMatching(runs, Unleased(Waiting), project)
  {
    hide CountMatching;
    assert SlotsIn(runs, now, 0, project) == 0;
    assert SlotsIn(runs, now, 2, project) == SlotsIn(runs, now, 1, project)
      + CountMatching(runs, LeasedAfter(Running, now), project) + CountMatching(runs, Unleased(Running), project);
  }

  /** The six scans of the capacity check read every held slot exactly once. */
  lemma {:induction false} SlotsAreTheStatusesTogether(runs: seq<QueuedRun>, now: Time, project: Option<Id>)
    ensures Slots(runs, now, project) == SlotsIn(runs, now, 3, project)
  {
    hide SlotsIn;
    SlotsInThree(runs, now, project);
    if runs != [] {
      SlotsInThree(runs[..|runs| - 1], now, project);
      SlotsAreTheStatusesTogether(runs[..|runs| - 1], now, project);
    }
  }

  lemma {:induction false} SlotsInGrow(runs: seq<QueuedRun>, now: Time, s: nat, project: Option<Id>)
    requires s <= |CAPACITY_STATUSES|
    ensures SlotsIn(runs, now, s, project) <= SlotsIn(runs, now, 3, project)
    decreases 3 - s
  {
    if s < 3 { SlotsInGrow(runs, now, s + 1, project); }
  }

  lemma {:induction false} TallyReads(runs: seq<QueuedRun>, more: seq<QueuedRun>, rows: seq<nat>, project: Option<Id>)
    requires RowsOf(runs, rows) && runs <= more
    ensures Tally(more, rows, project) == Tally(runs, rows, project)
  {
    if rows != [] { TallyReads(runs, more, rows[..|rows| - 1], project); }
  }

  lemma OrderReads(runs: seq<QueuedRun>, more: seq<QueuedRun>, q: Query, rows: seq<nat>)
    requires RowsOf(runs, rows) && InIndexOrder(runs, q, rows) && runs <= more
    ensures InIndexOrder(more, q, rows)
  {
    hide SortKey;
    assert forall i :: 0 <= i < |runs| ==> runs[i] == more[i];
    assert forall a, b :: 0 <= a < b < |rows| ==> Precedes(runs, q, rows[a], rows[b]);
  }

  lemma {:induction false} TallyInsert(runs: seq<QueuedRun>, q: Query, rows: seq<nat>, n: nat, project: Option<Id>)
    requires n < |runs| && RowsOf(runs, rows) && InIndexOrder(runs, q, rows)
    requires forall a :: 0 <= a < |rows| ==> rows[a] < n
    ensures |Insert(runs, q, rows, n)| == |rows| + 1
    ensures Tally(runs, Insert(runs, q, rows, n), project) ==
              Tally(runs, rows, project) + (if InProject(runs[n], project) then 1 else 0)
  {
    if rows == [] || SortKey(runs[rows[|rows| - 1]], q) <= SortKey(runs[n], q) {
      assert (rows + [n])[..|rows|] == rows;
    } else {
      var front := Insert(runs, q, rows[..|rows| - 1], n);
      TallyInsert(runs, q, rows[..|rows| - 1], n, project);
      assert (front + [rows[|rows| - 1]])[..|front|] == front;
    }
  }

  /** Reading an index range counts the matching rows of the whole table, project by project. */
  lemma {:induction false} ScanCounts(runs: seq<QueuedRun>, q: Query, project: Option<Id>)
    ensures Tally(runs, Scan(runs, q), project) == CountMatching(runs, q, project)
    ensures |Scan(runs, q)| == CountMatching(runs, q, None)
  {
    hide Insert, InIndexOrder, SortKey, Matches;
    if runs != [] {
      var n := |runs| - 1;
      var rows := Scan(runs[..n], q);
      ScanCounts(runs[..n], q, project);
      TallyReads(runs[..n], runs, rows, project);
      OrderReads(runs[..n], runs, q, rows);
      if Matches(runs[n], q) {
        TallyInsert(runs, q, rows, n, project);
      }
    }
  }
}
